/** The names of migration files and the list that `loadMigrationFiles` makes of them. */
module MigrationFiles {
  import opened GoStrings

  /** The groups of `^V(\d+)(?:_(\d+))?__(.+)\.sql$`. */
  datatype Parts = Parts(major: string, minor: Option<string>, description: string)

  predicate IsDigit(c: char) {
    '0' <= c <= '9'
  }

  predicate AllDigits(s: string) {
    forall i :: 0 <= i < |s| ==> IsDigit(s[i])
  }

  predicate Digits(s: string) {
    s != "" && AllDigits(s)
  }

  /** What the groups can match: `.` is any character but a line feed. */
  predicate WellFormed(p: Parts) {
    && Digits(p.major)
    && (p.minor.Some? ==> Digits(p.minor.value))
    && p.description != "" && '\n' !in p.description
  }

  function MinorText(minor: Option<string>): string {
    if minor.Some? then "_" + minor.value else ""
  }

  function Tail(description: string): string {
    "__" + description + ".sql"
  }

  function Print(p: Parts): string {
    "V" + (p.major + (MinorText(p.minor) + Tail(p.description)))
  }

  /** The digits at the front, and what follows them. */
  function SplitDigits(s: string): (r: (string, string))
    ensures s == r.0 + r.1 && AllDigits(r.0) && (r.1 == "" || !IsDigit(r.1[0]))
  {
    if s == "" || !IsDigit(s[0]) then ("", s)
    else
      var (d, rest) := SplitDigits(s[1..]);
      assert s == [s[0]] + s[1..];
      ([s[0]] + d, rest)
  }

  /** What follows the version: two underscores, a description and the suffix. */
  function ParseDescription(s: string): Option<string> {
    if |s| > 6 && s[..2] == "__" && s[|s| - 4..] == ".sql" && '\n' !in s[2..|s| - 4]
      then Some(s[2..|s| - 4])
    else None
  }

  function ParseMinor(s: string): (Option<string>, string) {
    if |s| >= 2 && s[0] == '_' && IsDigit(s[1]) then
      var (minor, rest) := SplitDigits(s[1..]);
      (Some(minor), rest)
    else (None, s)
  }

  /** The part of the name after the major version. */
  function ParseRest(s: string): Option<(Option<string>, string)> {
    var (minor, rest) := ParseMinor(s);
    match ParseDescription(rest)
    case None => None
    case Some(d) => Some((minor, d))
  }

  function WithMajor(major: string, rest: string): Option<Parts> {
    match ParseRest(rest)
    case None => None
    case Some(r) => Some(Parts(major, r.0, r.1))
  }

  /** `FindStringSubmatch`. After the digits of a version only an underscore can follow, so no
      group ever has a choice. */
  function Parse(name: string): Option<Parts> {
    if name == "" || name[0] != 'V' then None
    else
      var (major, rest) := SplitDigits(name[1..]);
      if major == "" then None else WithMajor(major, rest)
  }

  /** Any digits that something else follows are the digits that are split off. */
  lemma {:induction false} SplitDigitsIs(d: string, rest: string)
    requires AllDigits(d) && (rest == "" || !IsDigit(rest[0]))
    ensures SplitDigits(d + rest) == (d, rest)
  {
    if d == "" {
      assert d + rest == rest;
    } else {
      assert (d + rest)[1..] == d[1..] + rest;
      SplitDigitsIs(d[1..], rest);
      assert d == [d[0]] + d[1..];
    }
  }

  lemma ParseDescriptionIff(s: string, d: string)
    ensures ParseDescription(s) == Some(d) <==> d != "" && '\n' !in d && s == "__" + d + ".sql"
  {
    if s == "__" + d + ".sql" {
      assert s[2..|s| - 4] == d;
      assert s[..2] == "__" && s[|s| - 4..] == ".sql";
    }
    if ParseDescription(s) == Some(d) {
      assert s == s[..2] + s[2..|s| - 4] + s[|s| - 4..];
    }
  }

  lemma PrintedMinorParses(minor: Option<string>, rest: string)
    requires |rest| >= 2 && rest[0] == '_' && !IsDigit(rest[1])
    requires minor.Some? ==> Digits(minor.value)
    ensures ParseMinor(MinorText(minor) + rest) == (minor, rest)
  {
    var s := MinorText(minor) + rest;
    if minor.Some? {
      assert s[1..] == minor.value + rest;
      assert s[1] == minor.value[0];
      SplitDigitsIs(minor.value, rest);
    } else {
      assert s == rest;
    }
  }

  lemma ParsedMinorPrints(s: string)
    ensures var (minor, rest) := ParseMinor(s);
      (minor.Some? ==> Digits(minor.value)) && s == MinorText(minor) + rest
  {
    if ParseMinor(s).0.Some? {
      var (minor, rest) := SplitDigits(s[1..]);
      assert s == "_" + s[1..];
      assert s[1..][0] == s[1];
      assert minor != "";
    }
  }

  lemma ParseMinorIff(s: string, minor: Option<string>, rest: string)
    requires |rest| >= 2 && rest[0] == '_' && !IsDigit(rest[1])
    ensures ParseMinor(s) == (minor, rest) <==>
      (minor.Some? ==> Digits(minor.value)) && s == MinorText(minor) + rest
  {
    if minor.Some? ==> Digits(minor.value) { PrintedMinorParses(minor, rest); }
    ParsedMinorPrints(s);
  }

  predicate WellFormedRest(minor: Option<string>, d: string) {
    (minor.Some? ==> Digits(minor.value)) && d != "" && '\n' !in d
  }

  lemma ParseRestIff(s: string, minor: Option<string>, d: string)
    ensures ParseRest(s) == Some((minor, d)) <==> WellFormedRest(minor, d) && s == MinorText(minor) + Tail(d)
  {
    var (m, rest) := ParseMinor(s);
    ParseDescriptionIff(rest, d);
    ParseMinorIff(s, minor, Tail(d));
  }

  lemma WithMajorIff(major: string, rest: string, p: Parts)
    ensures WithMajor(major, rest) == Some(p) <==>
      p.major == major && WellFormedRest(p.minor, p.description) && rest == MinorText(p.minor) + Tail(p.description)
  {
    ParseRestIff(rest, p.minor, p.description);
  }

  lemma PrintParses(p: Parts)
    requires WellFormed(p)
    ensures Parse(Print(p)) == Some(p)
  {
    var rest := MinorText(p.minor) + Tail(p.description);
    assert Print(p)[1..] == p.major + rest;
    SplitDigitsIs(p.major, rest);
    WithMajorIff(p.major, rest, p);
  }

  lemma HeadAndTail(name: string)
    requires name != "" && name[0] == 'V'
    ensures name == "V" + name[1..]
  {
  }

  lemma ParsePrints(name: string, p: Parts)
    ensures Parse(name) == Some(p) ==> WellFormed(p) && name == Print(p)
  {
    if Parse(name) == Some(p) {
      HeadAndTail(name);
      var (major, rest) := SplitDigits(name[1..]);
      WithMajorIff(major, rest, p);
    }
  }

  /** A name parses to some parts exactly if they are well formed and print to that name: the
      grammar is unambiguous, and printing and parsing undo each other. */
  lemma {:induction false} ParseIff(name: string, p: Parts)
    ensures Parse(name) == Some(p) <==> WellFormed(p) && name == Print(p)
  {
    if WellFormed(p) && name == Print(p) { PrintParses(p); }
    ParsePrints(name, p);
  }

  // ---------- versions ----------

  const MAX_INT: int := 0x7FFF_FFFF_FFFF_FFFF

  function DecimalValue(s: string): nat
    requires AllDigits(s)
  {
    if s == "" then 0
    else
      assert IsDigit(s[|s| - 1]);
      DecimalValue(s[..|s| - 1]) * 10 + (s[|s| - 1] as int - 48)
  }

  /** `strconv.Atoi` with its error ignored: a value out of range becomes the largest `int`. */
  function Atoi(s: string): int
    requires Digits(s)
  {
    if DecimalValue(s) > MAX_INT then MAX_INT else DecimalValue(s)
  }

  function Major(p: Parts): int
    requires WellFormed(p)
  {
    Atoi(p.major)
  }

  function Minor(p: Parts): int
    requires WellFormed(p)
  {
    if p.minor.Some? then Atoi(p.minor.value) else 0
  }

  function RawVersion(p: Parts): string {
    if p.minor.Some? then p.major + "." + p.minor.value else p.major
  }

  /** Equal raw versions have equal numbers, as the dot is not a digit. */
  lemma {:induction false} RawVersionDetermines(p: Parts, q: Parts)
    requires WellFormed(p) && WellFormed(q) && RawVersion(p) == RawVersion(q)
    ensures p.major == q.major && p.minor == q.minor
    ensures Major(p) == Major(q) && Minor(p) == Minor(q)
  {
    var restP := if p.minor.Some? then "." + p.minor.value else "";
    var restQ := if q.minor.Some? then "." + q.minor.value else "";
    assert RawVersion(p) == p.major + restP && RawVersion(q) == q.major + restQ;
    SplitDigitsIs(p.major, restP);
    SplitDigitsIs(q.major, restQ);
    if p.minor.Some? { assert restP[1..] == p.minor.value; }
    if q.minor.Some? { assert restQ[1..] == q.minor.value; }
  }

  function Decimal(n: nat): (s: string)
    ensures Digits(s)
  {
    if n < 10 then [(48 + n) as char] else Decimal(n / 10) + [(48 + n % 10) as char]
  }

  /** The digits of a version denote the number that prints as them; leading zeros do not matter. */
  lemma {:induction false} DecimalRoundTrip(n: nat)
    ensures DecimalValue(Decimal(n)) == n
  {
    if n >= 10 {
      DecimalRoundTrip(n / 10);
      assert Decimal(n)[..|Decimal(n)| - 1] == Decimal(n / 10);
    }
  }

  lemma {:induction false} LeadingZero(s: string)
    requires Digits(s)
    ensures DecimalValue("0" + s) == DecimalValue(s)
  {
    var t := "0" + s;
    assert forall i :: 0 <= i < |t| ==> IsDigit(t[i]);
    assert t[..|t| - 1] == "0" + s[..|s| - 1] && t[|t| - 1] == s[|s| - 1];
    if |s| > 1 { LeadingZero(s[..|s| - 1]); } else { assert DecimalValue("0") == 0; }
  }

  // ---------- loading ----------

  datatype DirEntry = DirEntry(name: string, isDir: bool, content: string)

  datatype MigrationFile = MigrationFile(
    major: int, minor: int, raw: string, description: string, filename: string, sql: string)

  function UnderscoresToSpaces(s: string): (r: string)
    ensures |r| == |s|
  {
    seq(|s|, i requires 0 <= i < |s| => if s[i] == '_' then ' ' else s[i])
  }

  function FileFrom(e: DirEntry, p: Parts): MigrationFile
    requires WellFormed(p)
  {
    MigrationFile(Major(p), Minor(p), RawVersion(p), UnderscoresToSpaces(p.description), e.name, e.content)
  }

  function FileOf(e: DirEntry): Option<MigrationFile> {
    if e.isDir then None
    else
      match Parse(e.name)
      case None => None
      case Some(p) =>
        ParseIff(e.name, p);
        Some(FileFrom(e, p))
  }

  /** The file that entry `e` is, if its name has the parts `p`: its version numbers (at most the
      largest `int`, and 0 for no minor one), its version text, its description with spaces for
      underscores, its name, and its whole content as the script. */
  predicate IsFileOf(e: DirEntry, p: Parts, f: MigrationFile) {
    && WellFormed(p) && e.name == Print(p)
    && f.major == Saturated(DecimalValue(p.major))
    && f.minor == (if p.minor.Some? then Saturated(DecimalValue(p.minor.value)) else 0)
    && f.raw == (if p.minor.Some? then p.major + "." + p.minor.value else p.major)
    && |f.description| == |p.description|
    && (forall i :: 0 <= i < |f.description| ==>
         f.description[i] == if p.description[i] == '_' then ' ' else p.description[i])
    && f.filename == e.name && f.sql == e.content
  }

  function Saturated(n: nat): int {
    if n <= 0x7FFF_FFFF_FFFF_FFFF then n else 0x7FFF_FFFF_FFFF_FFFF
  }

  lemma FileFromIs(e: DirEntry, p: Parts, f: MigrationFile)
    requires WellFormed(p) && e.name == Print(p)
    ensures IsFileOf(e, p, f) <==> f == FileFrom(e, p)
  {
    var d := UnderscoresToSpaces(p.description);
    if IsFileOf(e, p, f) { assert f.description == d; }
  }

  /** Which entries are migrations: the files whose names are well formed. */
  lemma {:induction false} FileOfIff(e: DirEntry, f: MigrationFile)
    ensures FileOf(e) == Some(f) <==> !e.isDir && exists p: Parts :: IsFileOf(e, p, f)
  {
    forall p: Parts | IsFileOf(e, p, f) ensures Parse(e.name) == Some(p) { ParseIff(e.name, p); }
    if Parse(e.name).Some? {
      var p := Parse(e.name).value;
      ParseIff(e.name, p);
      FileFromIs(e, p, f);
    }
  }

  function Candidates(entries: seq<DirEntry>): (c: seq<Option<MigrationFile>>)
    ensures |c| == |entries|
    ensures forall i :: 0 <= i < |entries| ==> c[i] == FileOf(entries[i])
  {
    seq(|entries|, i requires 0 <= i < |entries| => FileOf(entries[i]))
  }

  /** The files among the first `n` candidates, in directory order. */
  function Selected(candidates: seq<Option<MigrationFile>>, n: nat): seq<MigrationFile>
    requires n <= |candidates|
  {
    if n == 0 then []
    else
      Selected(candidates, n - 1) + match candidates[n - 1] { case None => [] case Some(f) => [f] }
  }

  /** The comparison given to `sort.Slice`. */
  predicate Before(a: MigrationFile, b: MigrationFile) {
    if a.major == b.major then a.minor < b.minor else a.major < b.major
  }

  predicate Ordered(files: seq<MigrationFile>) {
    forall i, j :: 0 <= i < j < |files| ==> !Before(files[j], files[i])
  }

  /** No two files have the same (major, minor). */
  predicate DistinctNumbers(files: seq<MigrationFile>) {
    forall i, j :: 0 <= i < j < |files| ==> (files[i].major, files[i].minor) != (files[j].major, files[j].minor)
  }

  function Insert(f: MigrationFile, files: seq<MigrationFile>): seq<MigrationFile> {
    if files == [] || !Before(files[0], f) then [f] + files else [files[0]] + Insert(f, files[1..])
  }

  /** Stands for `sort.Slice`, of which only the order and the contents matter. */
  function SortFiles(files: seq<MigrationFile>): seq<MigrationFile> {
    if files == [] then [] else Insert(files[0], SortFiles(files[1..]))
  }

  lemma {:induction false} InsertContents(f: MigrationFile, files: seq<MigrationFile>)
    ensures multiset(Insert(f, files)) == multiset{f} + multiset(files)
  {
    if files != [] && Before(files[0], f) {
      InsertContents(f, files[1..]);
      assert files == [files[0]] + files[1..];
    }
  }

  lemma {:induction false} InsertedIsKnown(f: MigrationFile, files: seq<MigrationFile>, j: nat)
    requires j < |Insert(f, files)|
    ensures Insert(f, files)[j] == f || Insert(f, files)[j] in files
  {
    InsertContents(f, files);
    assert Insert(f, files)[j] in multiset(Insert(f, files));
  }

  lemma StaysOrdered(first: MigrationFile, files: seq<MigrationFile>)
    requires Ordered(files) && forall j :: 0 <= j < |files| ==> !Before(files[j], first)
    ensures Ordered([first] + files)
  {
  }

  lemma {:induction false} InsertOrders(f: MigrationFile, files: seq<MigrationFile>)
    requires Ordered(files)
    ensures Ordered(Insert(f, files))
  {
    if files != [] && Before(files[0], f) {
      InsertOrders(f, files[1..]);
      forall j | 0 <= j < |Insert(f, files[1..])| ensures !Before(Insert(f, files[1..])[j], files[0]) {
        InsertedIsKnown(f, files[1..], j);
      }
      StaysOrdered(files[0], Insert(f, files[1..]));
    }
  }

  lemma {:induction false} SortFilesSorts(files: seq<MigrationFile>)
    ensures Ordered(SortFiles(files))
    ensures multiset(SortFiles(files)) == multiset(files)
  {
    if files != [] {
      SortFilesSorts(files[1..]);
      InsertOrders(files[0], SortFiles(files[1..]));
      InsertContents(files[0], SortFiles(files[1..]));
      assert files == [files[0]] + files[1..];
    }
  }

  method SelectFiles(candidates: seq<Option<MigrationFile>>) returns (files: seq<MigrationFile>)
    ensures files == Selected(candidates, |candidates|)
  {
    files := [];
    for i := 0 to |candidates|
      invariant files == Selected(candidates, i)
    {
      if candidates[i].None? { continue; }
      files := files + [candidates[i].value];
    }
  }

  /** The list that loading a directory yields. */
  function Loaded(entries: seq<DirEntry>): seq<MigrationFile> {
    SortFiles(Selected(Candidates(entries), |entries|))
  }

  method LoadMigrationFiles(entries: seq<DirEntry>) returns (files: seq<MigrationFile>)
    ensures files == Loaded(entries)
  {
    files := SelectFiles(Candidates(entries));
    files := SortFiles(files);
  }

  lemma {:induction false} FirstIsUnique(a: seq<MigrationFile>, b: seq<MigrationFile>)
    requires a != [] && b != [] && a[0] in b && b[0] in a
    requires Ordered(a) && Ordered(b) && DistinctNumbers(a)
    ensures a[0] == b[0]
  {
    var k :| 0 <= k < |b| && b[k] == a[0];
    var m :| 0 <= m < |a| && a[m] == b[0];
    if m > 0 { assert !Before(a[m], a[0]); }
    if k > 0 { assert !Before(b[k], b[0]); }
  }

  lemma {:induction false} TailContents(a: seq<MigrationFile>)
    requires a != []
    ensures multiset(a[1..]) == multiset(a) - multiset{a[0]}
  {
    assert a == [a[0]] + a[1..];
  }

  lemma {:induction false} TailIsOrdered(a: seq<MigrationFile>)
    requires a != [] && Ordered(a)
    ensures Ordered(a[1..])
    ensures DistinctNumbers(a) ==> DistinctNumbers(a[1..])
  {
  }

  lemma {:induction false} SameContentsSameFirst(a: seq<MigrationFile>, b: seq<MigrationFile>)
    requires Ordered(a) && Ordered(b) && multiset(a) == multiset(b) && DistinctNumbers(a)
    requires a != [] && b != []
    ensures a[0] == b[0] && multiset(a[1..]) == multiset(b[1..])
  {
    assert a[0] in multiset(b) && b[0] in multiset(a);
    FirstIsUnique(a, b);
    TailContents(a);
    TailContents(b);
  }

  /** With distinct numbers there is one ordered list of the files, so the result does not depend
      on how the sort works or on the order of the directory. */
  lemma {:induction false} OrderIsUnique(a: seq<MigrationFile>, b: seq<MigrationFile>)
    requires Ordered(a) && Ordered(b) && multiset(a) == multiset(b) && DistinctNumbers(a)
    ensures a == b
  {
    assert |multiset(a)| == |multiset(b)|;
    if a != [] {
      SameContentsSameFirst(a, b);
      TailIsOrdered(a);
      TailIsOrdered(b);
      OrderIsUnique(a[1..], b[1..]);
      assert a == [a[0]] + a[1..] && b == [b[0]] + b[1..];
    }
  }

  lemma {:induction false} SelectedIff(candidates: seq<Option<MigrationFile>>, n: nat, f: MigrationFile)
    requires n <= |candidates|
    ensures f in Selected(candidates, n) <==> exists i :: 0 <= i < n && candidates[i] == Some(f)
  {
    if n > 0 { SelectedIff(candidates, n - 1, f); }
  }

  /** No two files have the same raw version. */
  predicate DistinctVersions(files: seq<MigrationFile>) {
    forall i, j :: 0 <= i < j < |files| ==> files[i].raw != files[j].raw
  }

  lemma RawVersionsOfFiles(d: DirEntry, e: DirEntry)
    requires FileOf(d).Some? && FileOf(e).Some? && FileOf(d).value.raw == FileOf(e).value.raw
    ensures FileOf(d).value.major == FileOf(e).value.major && FileOf(d).value.minor == FileOf(e).value.minor
  {
    var p, q := Parse(d.name).value, Parse(e.name).value;
    ParseIff(d.name, p);
    ParseIff(e.name, q);
    RawVersionDetermines(p, q);
  }

  /** The loaded list is in order, holds each well-formed file once for each of its entries, and
      nothing else. */
  lemma {:induction false} LoadedIsSorted(entries: seq<DirEntry>, f: MigrationFile)
    ensures forall i, j :: 0 <= i < j < |Loaded(entries)| ==>
      var a, b := Loaded(entries)[i], Loaded(entries)[j];
      a.major < b.major || (a.major == b.major && a.minor <= b.minor)
    ensures multiset(Loaded(entries)) == multiset(Selected(Candidates(entries), |entries|))
    ensures f in Loaded(entries) <==> exists i :: 0 <= i < |entries| && FileOf(entries[i]) == Some(f)
  {
    var candidates := Candidates(entries);
    var selected := Selected(candidates, |entries|);
    SortFilesSorts(selected);
    assert forall i, j :: 0 <= i < j < |Loaded(entries)| ==> !Before(Loaded(entries)[j], Loaded(entries)[i]);
    assert f in Loaded(entries) <==> f in multiset(Loaded(entries));
    assert f in selected <==> f in multiset(selected);
    SelectedIff(candidates, |entries|, f);
    assert forall i :: 0 <= i < |entries| ==> candidates[i] == FileOf(entries[i]);
  }

  /** No two entries of a directory have the same name. */
  predicate DistinctNames(entries: seq<DirEntry>) {
    forall i, j :: 0 <= i < j < |entries| ==> entries[i].name != entries[j].name
  }

  predicate DistinctCandidates(c: seq<Option<MigrationFile>>) {
    forall i, j :: 0 <= i < j < |c| && c[i].Some? ==> c[i] != c[j]
  }

  predicate NoRepetition<T(==)>(xs: seq<T>) {
    forall i, j :: 0 <= i < j < |xs| ==> xs[i] != xs[j]
  }

  lemma {:induction false} CountedOnce<T>(xs: seq<T>, x: T)
    requires NoRepetition(xs)
    ensures multiset(xs)[x] <= 1
  {
    if xs != [] {
      CountedOnce(xs[1..], x);
      assert xs == [xs[0]] + xs[1..];
      assert xs[0] !in xs[1..];
    }
  }

  lemma {:induction false} SelectedOnce(c: seq<Option<MigrationFile>>, n: nat)
    requires n <= |c| && DistinctCandidates(c)
    ensures NoRepetition(Selected(c, n))
  {
    if n > 0 {
      SelectedOnce(c, n - 1);
      if c[n - 1].Some? {
        SelectedIff(c, n - 1, c[n - 1].value);
        assert c[n - 1].value !in Selected(c, n - 1);
      }
    }
  }

  lemma FileKeepsName(e: DirEntry, f: MigrationFile)
    requires FileOf(e) == Some(f)
    ensures f.filename == e.name
  {
  }

  lemma NamesMakeDistinct(entries: seq<DirEntry>)
    requires DistinctNames(entries)
    ensures DistinctCandidates(Candidates(entries))
  {
    var c := Candidates(entries);
    forall i, j | 0 <= i < j < |c| && c[i].Some? ensures c[i] != c[j] {
      if c[i] == c[j] {
        FileKeepsName(entries[i], c[i].value);
        FileKeepsName(entries[j], c[i].value);
      }
    }
  }

  /** From a directory, where names are distinct, no migration is loaded twice. */
  lemma {:induction false} LoadedOnce(entries: seq<DirEntry>, f: MigrationFile)
    requires DistinctNames(entries)
    ensures multiset(Loaded(entries))[f] <= 1
  {
    var selected := Selected(Candidates(entries), |entries|);
    SortFilesSorts(selected);
    NamesMakeDistinct(entries);
    SelectedOnce(Candidates(entries), |entries|);
    CountedOnce(selected, f);
  }

  /** Files with distinct numbers have distinct raw versions, under which the history knows them. */
  lemma {:induction false} LoadedVersionsAreDistinct(entries: seq<DirEntry>)
    requires DistinctNumbers(Loaded(entries))
    ensures DistinctVersions(Loaded(entries))
  {
    var files := Loaded(entries);
    forall i, j | 0 <= i < j < |files| ensures files[i].raw != files[j].raw {
      LoadedIsSorted(entries, files[i]);
      LoadedIsSorted(entries, files[j]);
      var m :| 0 <= m < |entries| && FileOf(entries[m]) == Some(files[i]);
      var n :| 0 <= n < |entries| && FileOf(entries[n]) == Some(files[j]);
      if files[i].raw == files[j].raw { RawVersionsOfFiles(entries[m], entries[n]); }
    }
  }
}
