/** Stores seen as the effects that a sequence of calls has on them: entries are put in under
    a key and cut out again. */
module Ledger {

  datatype Effect<V> = Put(key: string, value: V) | Cut(key: string) | Idle

  function Apply<V>(m: map<string, V>, e: Effect<V>): map<string, V> {
    match e
    case Put(key, value) => m[key := value]
    case Cut(key) => m - {key}
    case Idle => m
  }

  /** The store after the first `k` effects. */
  function Held<V>(effects: seq<Effect<V>>, k: nat): map<string, V>
    requires k <= |effects|
  {
    if k == 0 then map[] else Apply(Held(effects, k - 1), effects[k - 1])
  }

  /** A store that changes by the effects, one at a time, holds what `Held` says. */
  lemma {:induction false} StatesAreHeld<V>(states: seq<map<string, V>>, effects: seq<Effect<V>>, k: nat)
    requires k <= |effects| && |states| == |effects| + 1 && states[0] == map[]
    requires forall i :: 0 <= i < |effects| ==> states[i + 1] == Apply(states[i], effects[i])
    ensures states[k] == Held(effects, k)
  {
    if k > 0 { StatesAreHeld(states, effects, k - 1); }
  }

  predicate Touches<V>(e: Effect<V>, key: string) {
    !e.Idle? && e.key == key
  }

  /** Effect `i` puts `key`, and no later effect before `k` touches it. */
  predicate LivePut<V>(effects: seq<Effect<V>>, i: int, k: nat, key: string)
    requires k <= |effects|
  {
    && 0 <= i < k && effects[i].Put? && effects[i].key == key
    && forall j :: i < j < k ==> !Touches(effects[j], key)
  }

  lemma {:induction false} HeldIff<V>(effects: seq<Effect<V>>, k: nat, key: string, v: V)
    requires k <= |effects|
    ensures key in Held(effects, k) && Held(effects, k)[key] == v
       <==> exists i :: LivePut(effects, i, k, key) && effects[i].value == v
  {
    if k > 0 {
      HeldIff(effects, k - 1, key, v);
      if Touches(effects[k - 1], key) {
        if effects[k - 1].Put? { assert LivePut(effects, k - 1, k, key); }
      } else {
        assert forall i :: LivePut(effects, i, k - 1, key) <==> LivePut(effects, i, k, key);
      }
    }
  }

  /** The last put of a key that is held. */
  lemma HeldWasPut<V>(effects: seq<Effect<V>>, k: nat, key: string) returns (i: nat)
    requires k <= |effects| && key in Held(effects, k)
    ensures LivePut(effects, i, k, key) && effects[i].value == Held(effects, k)[key]
  {
    HeldIff(effects, k, key, Held(effects, k)[key]);
    i :| LivePut(effects, i, k, key) && effects[i].value == Held(effects, k)[key];
  }

  /** No key is put twice. */
  predicate FreshPuts<V>(effects: seq<Effect<V>>) {
    forall i, j :: 0 <= i < j < |effects| && effects[i].Put? && effects[j].Put?
      ==> effects[i].key != effects[j].key
  }

  /** Only keys that are held are cut. */
  predicate GenuineCuts<V>(effects: seq<Effect<V>>) {
    forall j :: 0 <= j < |effects| && effects[j].Cut? ==> effects[j].key in Held(effects, j)
  }

  ghost predicate EverPut<V>(effects: seq<Effect<V>>, k: nat, key: string)
    requires k <= |effects|
  {
    exists i :: 0 <= i < k && effects[i].Put? && effects[i].key == key
  }

  ghost predicate EverCut<V>(effects: seq<Effect<V>>, k: nat, key: string)
    requires k <= |effects|
  {
    exists j :: 0 <= j < k && effects[j].Cut? && effects[j].key == key
  }

  /** With fresh keys, what was cut never comes back. */
  lemma CutIsGone<V>(effects: seq<Effect<V>>, k: nat, key: string)
    requires k <= |effects| && FreshPuts(effects) && GenuineCuts(effects) && EverCut(effects, k, key)
    ensures key !in Held(effects, k)
  {
    var j :| 0 <= j < k && effects[j].Cut? && effects[j].key == key;
    var i := HeldWasPut(effects, j, key);
    assert Touches(effects[j], key);
    if key in Held(effects, k) {
      var l := HeldWasPut(effects, k, key);
    }
  }

  lemma CutOnce<V>(effects: seq<Effect<V>>, j: nat, m: nat)
    requires FreshPuts(effects) && GenuineCuts(effects)
    requires j < m < |effects| && effects[j].Cut? && effects[m].Cut?
    ensures effects[j].key != effects[m].key
  {
    if effects[j].key == effects[m].key { CutIsGone(effects, m, effects[j].key); }
  }

  /** Every key ever put is either still held or was cut, and never both. */
  lemma {:induction false} Conserved<V>(effects: seq<Effect<V>>, k: nat, key: string)
    requires k <= |effects| && FreshPuts(effects) && GenuineCuts(effects)
    ensures EverPut(effects, k, key) <==> key in Held(effects, k) || EverCut(effects, k, key)
    ensures !(key in Held(effects, k) && EverCut(effects, k, key))
  {
    if k > 0 {
      Conserved(effects, k - 1, key);
      if EverCut(effects, k, key) { CutIsGone(effects, k, key); }
      var e := effects[k - 1];
      if e.Put? && e.key == key { assert EverPut(effects, k, key); }
      if e.Cut? && e.key == key { assert EverCut(effects, k, key); }
    }
  }

  ghost function Puts<V>(effects: seq<Effect<V>>, k: nat): nat
    requires k <= |effects|
  {
    if k == 0 then 0 else Puts(effects, k - 1) + if effects[k - 1].Put? then 1 else 0
  }

  /** Without cuts, and with fresh keys, the store holds exactly what was put. */
  lemma {:induction false} HoldsAllPuts<V>(effects: seq<Effect<V>>, k: nat)
    requires k <= |effects| && FreshPuts(effects) && forall j :: 0 <= j < k ==> !effects[j].Cut?
    ensures |Held(effects, k)| == Puts(effects, k)
  {
    if k > 0 {
      HoldsAllPuts(effects, k - 1);
      var e := effects[k - 1];
      if e.Put? && e.key in Held(effects, k - 1) {
        var i := HeldWasPut(effects, k - 1, e.key);
        assert false;
      }
    }
  }
}
