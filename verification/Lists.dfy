/** Sequences with an element put in or taken out. */
module Lists {

  function Insert<T>(s: seq<T>, k: nat, x: T): seq<T>
    requires k <= |s|
  {
    s[..k] + [x] + s[k..]
  }

  function Without<T>(s: seq<T>, i: nat): seq<T>
    requires i < |s|
  {
    s[..i] + s[i + 1..]
  }

  /** Insert, seen element by element. */
  lemma InsertAt<T>(s: seq<T>, k: nat, x: T) returns (r: seq<T>)
    requires k <= |s|
    ensures r == Insert(s, k, x) && |r| == |s| + 1 && r[k] == x
    ensures forall j :: 0 <= j < k ==> r[j] == s[j]
    ensures forall j :: k < j < |r| ==> r[j] == s[j - 1]
  {
    r := Insert(s, k, x);
  }

  /** Without, seen element by element. */
  lemma RemoveAt<T>(s: seq<T>, i: nat) returns (r: seq<T>)
    requires i < |s|
    ensures r == Without(s, i) && |r| == |s| - 1
    ensures forall j :: 0 <= j < i ==> r[j] == s[j]
    ensures forall j :: i <= j < |r| ==> r[j] == s[j + 1]
  {
    r := Without(s, i);
  }
}
