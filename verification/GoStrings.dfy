/** The parts of Go's `strings` package that both OAuth services rely on, and a small
    `Option` type. Strings are sequences of characters. */
module GoStrings {

  datatype Option<+T> = None | Some(value: T)

  /** `unicode.IsSpace`: the characters with the White_Space property. */
  predicate IsSpace(c: char) {
    || '\t' <= c <= '\r'
    || c == ' '
    || c == '\U{0085}'
    || c == '\U{00A0}'
    || c == '\U{1680}'
    || '\U{2000}' <= c <= '\U{200A}'
    || c == '\U{2028}'
    || c == '\U{2029}'
    || c == '\U{202F}'
    || c == '\U{205F}'
    || c == '\U{3000}'
  }

  /** Below 128 these are the six characters that C calls white space. */
  lemma {:induction false} AsciiSpaces(c: char)
    requires c as int < 128
    ensures IsSpace(c) <==> c as int in {9, 10, 11, 12, 13, 32}
  {
  }

  predicate SpaceFree(s: string) {
    forall i :: 0 <= i < |s| ==> !IsSpace(s[i])
  }

  predicate AllSpace(s: string) {
    forall i :: 0 <= i < |s| ==> IsSpace(s[i])
  }

  /** Neither end of `s` is white space. */
  predicate Trimmed(s: string) {
    s == "" || (!IsSpace(s[0]) && !IsSpace(s[|s| - 1]))
  }

  function TrimLeft(s: string): string {
    if s != "" && IsSpace(s[0]) then TrimLeft(s[1..]) else s
  }

  function TrimRight(s: string): string {
    if s != "" && IsSpace(s[|s| - 1]) then TrimRight(s[..|s| - 1]) else s
  }

  /** `strings.TrimSpace`. */
  function TrimSpace(s: string): string {
    TrimRight(TrimLeft(s))
  }

  /** `TrimLeft` drops white space only, and all there is at the front. */
  lemma {:induction false} TrimLeftSplit(s: string)
    ensures var t := TrimLeft(s);
      && (t == "" || !IsSpace(t[0]))
      && |t| <= |s| && s[|s| - |t|..] == t && AllSpace(s[..|s| - |t|])
  {
    if s != "" && IsSpace(s[0]) {
      TrimLeftSplit(s[1..]);
      var k := |s| - |TrimLeft(s)|;
      var rest := s[1..][..k - 1];
      assert AllSpace(rest);
      assert s[..k] == [s[0]] + rest;
    }
  }

  lemma {:induction false} TrimRightSplit(s: string)
    ensures var t := TrimRight(s);
      && (t == "" || !IsSpace(t[|t| - 1]))
      && |t| <= |s| && s[..|t|] == t && AllSpace(s[|t|..])
  {
    if s != "" && IsSpace(s[|s| - 1]) {
      TrimRightSplit(s[..|s| - 1]);
      var k := |TrimRight(s)|;
      var rest := s[..|s| - 1][k..];
      assert AllSpace(rest);
      assert s[k..] == rest + [s[|s| - 1]];
    }
  }

  lemma {:induction false} TrimLeftDropsSpace(pre: string, t: string)
    requires AllSpace(pre) && (t == "" || !IsSpace(t[0]))
    ensures TrimLeft(pre + t) == t
  {
    if pre == "" {
      assert pre + t == t;
    } else {
      assert (pre + t)[0] == pre[0] && (pre + t)[1..] == pre[1..] + t;
      TrimLeftDropsSpace(pre[1..], t);
    }
  }

  lemma {:induction false} TrimRightDropsSpace(t: string, post: string)
    requires AllSpace(post) && (t == "" || !IsSpace(t[|t| - 1]))
    ensures TrimRight(t + post) == t
  {
    if post == "" {
      assert t + post == t;
    } else {
      var s := t + post;
      assert s[|s| - 1] == post[|post| - 1];
      assert s[..|s| - 1] == t + post[..|post| - 1];
      TrimRightDropsSpace(t, post[..|post| - 1]);
    }
  }

  /** What `TrimSpace` means: whatever white space is put around a trimmed text is removed again. */
  lemma {:induction false} TrimSpaceDropsSpace(pre: string, t: string, post: string)
    requires AllSpace(pre) && Trimmed(t) && AllSpace(post)
    ensures TrimSpace(pre + t + post) == t
  {
    if t == "" {
      assert pre + t + post == (pre + post) + "";
      TrimLeftDropsSpace(pre + post, "");
    } else {
      assert pre + t + post == pre + (t + post);
      TrimLeftDropsSpace(pre, t + post);
      TrimRightDropsSpace(t, post);
    }
  }

  lemma TrimSpaceTrims(s: string)
    ensures Trimmed(TrimSpace(s))
  {
    TrimLeftSplit(s);
    TrimRightSplit(TrimLeft(s));
  }

  lemma TrimSpaceKeepsTrimmed(t: string)
    requires Trimmed(t)
    ensures TrimSpace(t) == t
  {
    assert "" + t + "" == t;
    TrimSpaceDropsSpace("", t, "");
  }

  /** The length of the longest prefix without white space. */
  function WordLength(s: string): (n: nat)
    ensures n <= |s| && SpaceFree(s[..n])
    ensures n < |s| ==> IsSpace(s[n])
  {
    if s == "" || IsSpace(s[0]) then 0
    else
      var m := WordLength(s[1..]);
      assert s[..1 + m] == [s[0]] + s[1..][..m];
      1 + m
  }

  /** `strings.Fields`: the text split around runs of white space. */
  function Fields(s: string): seq<string>
    decreases |s|
  {
    var t := TrimLeft(s);
    TrimLeftSplit(s);
    if t == "" then []
    else
      var n := WordLength(t);
      assert n > 0;
      [t[..n]] + Fields(t[n..])
  }

  /** `s[i..j]` is a maximal run of characters without white space. */
  predicate IsWordAt(s: string, i: int, j: int) {
    && 0 <= i < j <= |s|
    && SpaceFree(s[i..j])
    && (i == 0 || IsSpace(s[i - 1]))
    && (j == |s| || IsSpace(s[j]))
  }

  /** `w` stands in `s` as a whole word. */
  ghost predicate HasWord(s: string, w: string) {
    exists i, j :: IsWordAt(s, i, j) && s[i..j] == w
  }

  /** A word that does not start where the suffix is cut off is a word of both. */
  lemma {:induction false} WordShifts(s: string, k: nat, i: nat, j: nat)
    requires i < j && k + j <= |s| && (i > 0 || k == 0 || IsSpace(s[k - 1]))
    ensures s[k..][i..j] == s[k + i..k + j]
    ensures IsWordAt(s[k..], i, j) <==> IsWordAt(s, k + i, k + j)
  {
  }

  lemma {:induction false} WordHasNoSpace(s: string, i: int, j: int, m: int)
    requires IsWordAt(s, i, j) && i <= m < j
    ensures !IsSpace(s[m])
  {
    assert s[i..j][m - i] == s[m];
  }

  lemma {:induction false} WordsOfSuffix(s: string, k: nat, w: string)
    requires k <= |s| && AllSpace(s[..k])
    ensures HasWord(s, w) <==> HasWord(s[k..], w)
  {
    assert forall m :: 0 <= m < k ==> s[..k][m] == s[m];
    if HasWord(s, w) {
      var i, j :| IsWordAt(s, i, j) && s[i..j] == w;
      WordHasNoSpace(s, i, j, i);
      WordShifts(s, k, i - k, j - k);
    }
    if HasWord(s[k..], w) {
      var i, j :| IsWordAt(s[k..], i, j) && s[k..][i..j] == w;
      WordShifts(s, k, i, j);
    }
  }

  /** A word that starts inside the first word is the first word. */
  lemma {:induction false} FirstWordIsOnly(t: string, n: int, i: int, j: int)
    requires IsWordAt(t, 0, n) && IsWordAt(t, i, j) && i < n
    ensures i == 0 && j == n
  {
    if i > 0 { WordHasNoSpace(t, 0, n, i - 1); }
    if j < n { WordHasNoSpace(t, 0, n, j); }
    if n < j { WordHasNoSpace(t, i, j, n); }
  }

  lemma {:induction false} WordsAfterFirst(t: string, n: nat, w: string)
    requires 0 < n <= |t| && SpaceFree(t[..n]) && (n < |t| ==> IsSpace(t[n]))
    ensures HasWord(t, w) <==> w == t[..n] || HasWord(t[n..], w)
  {
    assert t[0..n] == t[..n];
    assert IsWordAt(t, 0, n);
    if HasWord(t, w) {
      var i, j :| IsWordAt(t, i, j) && t[i..j] == w;
      if i < n {
        FirstWordIsOnly(t, n, i, j);
      } else {
        WordHasNoSpace(t, i, j, i);
        WordShifts(t, n, i - n, j - n);
      }
    }
    if HasWord(t[n..], w) {
      var i, j :| IsWordAt(t[n..], i, j) && t[n..][i..j] == w;
      WordHasNoSpace(t[n..], i, j, i);
      WordShifts(t, n, i, j);
    }
  }

  /** `Fields` lists exactly the maximal runs without white space. */
  lemma {:induction false} FieldsAreWords(s: string, w: string)
    ensures w in Fields(s) <==> HasWord(s, w)
    decreases |s|
  {
    var t := TrimLeft(s);
    TrimLeftSplit(s);
    WordsOfSuffix(s, |s| - |t|, w);
    if t != "" {
      var n := WordLength(t);
      assert n > 0;
      WordsAfterFirst(t, n, w);
      FieldsAreWords(t[n..], w);
      assert Fields(s) == [t[..n]] + Fields(t[n..]);
    }
  }

  /** `strings.ToUpper`, as far as a comparison with an ASCII text can tell: besides the ASCII
      letters only U+0131 (dotless i) and U+017F (long s) have an ASCII upper case. */
  function UpperChar(c: char): char {
    if 'a' <= c <= 'z' then (c as int - 32) as char
    else if c == '\U{0131}' then 'I'
    else if c == '\U{017F}' then 'S'
    else c
  }

  function ToUpper(s: string): (r: string)
    ensures |r| == |s|
    ensures forall i :: 0 <= i < |s| ==> r[i] == UpperChar(s[i])
  {
    seq(|s|, i requires 0 <= i < |s| => UpperChar(s[i]))
  }

  /** `strings.Contains`. */
  predicate Contains(s: string, sub: string) {
    sub <= s || (s != "" && Contains(s[1..], sub))
  }

  lemma {:induction false} ContainsIff(s: string, sub: string)
    ensures Contains(s, sub) <==> exists pre, post :: s == pre + sub + post
  {
    if sub <= s {
      assert s == "" + sub + s[|sub|..];
    } else if s != "" {
      ContainsIff(s[1..], sub);
      if pre, post :| s[1..] == pre + sub + post {
        assert s == ([s[0]] + pre) + sub + post;
      }
      if pre, post :| s == pre + sub + post {
        assert "" + sub + post == sub + post;
        assert s[1..] == pre[1..] + sub + post;
      }
    } else {
      assert forall pre: string, post: string :: |pre + sub + post| >= |sub|;
    }
  }
}
