// Finding elements of sequences, and removing them by position.
module Sequences {

  import opened Options

  /** The first position of `x`, scanning from `from`. */
  function FirstIndex<E(==)>(s: seq<E>, x: E, from: nat := 0): (r: Option<nat>)
    requires from <= |s|
    ensures r.None? ==> forall i :: from <= i < |s| ==> s[i] != x
    ensures r.Some? ==> from <= r.value < |s| && s[r.value] == x && forall i :: from <= i < r.value ==> s[i] != x
    decreases |s| - from
  {
    if from == |s| then None
    else if s[from] == x then Some(from)
    else FirstIndex(s, x, from + 1)
  }

  /** `pop(i)`: what is left. */
  function RemoveAt<T>(s: seq<T>, i: nat): seq<T>
    requires i < |s|
  {
    s[..i] + s[i + 1..]
  }

  lemma RemovePlaces<T>(s: seq<T>, i: nat)
    requires i < |s|
    ensures |RemoveAt(s, i)| == |s| - 1
    ensures forall j :: 0 <= j < |s| - 1 ==> RemoveAt(s, i)[j] == s[if j < i then j else j + 1]
  {
  }

  lemma RemoveTwo<T>(s: seq<T>, i: nat, j: nat)
    requires i < j < |s|
    ensures RemoveAt(RemoveAt(s, j), i) == RemoveAt(RemoveAt(s, i), j - 1)
  {
  }

  lemma RemoveUpdated<T>(s: seq<T>, i: nat, j: nat, x: T)
    requires i < |s| && j < |s| && i != j
    ensures RemoveAt(s[j := x], i) == RemoveAt(s, i)[(if j < i then j else j - 1) := x]
  {
  }

  lemma RemoveAppended<T>(s: seq<T>, i: nat, x: T)
    requires i < |s|
    ensures RemoveAt(s + [x], i) == RemoveAt(s, i) + [x]
  {
  }

  lemma RemoveAfter<T>(s: seq<T>, t: seq<T>, i: nat)
    requires i < |t|
    ensures RemoveAt(s + t, |s| + i) == s + RemoveAt(t, i)
  {
  }
}
