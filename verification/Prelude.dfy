/** Vocabulary shared by the models: optional values, machine integers, ascending
    indices and two facts about finite sets. */
module Prelude {

  datatype Option<+T> = None | Some(value: T)

  type byte = x: int | 0 <= x < 256
  type u64 = x: int | 0 <= x <= U64_MAX

  const U32_MAX := 0xFFFF_FFFF
  const U64_MAX := 0xFFFF_FFFF_FFFF_FFFF

  /** `u64::saturating_add`. */
  function SaturatingAdd(x: u64, y: u64): u64 {
    if x + y > U64_MAX then U64_MAX else x + y
  }

  /** `saturating_sub` on any unsigned width. */
  function SaturatingSub(x: nat, y: nat): nat {
    if x < y then 0 else x - y
  }

  function Min(x: int, y: int): int {
    if x <= y then x else y
  }

  function Max(x: int, y: int): int {
    if x >= y then x else y
  }

  /** Ascending indices below `n`. */
  ghost predicate Rising(s: seq<nat>, n: nat) {
    (forall i :: 0 <= i < |s| ==> s[i] < n) && (forall i, j :: 0 <= i < j < |s| ==> s[i] < s[j])
  }

  lemma RisingGrows(s: seq<nat>, n: nat)
    requires Rising(s, n)
    ensures Rising(s, n + 1) && Rising(s + [n], n + 1)
    ensures forall k :: k in s + [n] <==> k in s || k == n
  {
  }

  lemma {:induction false} SubsetCardinality<T>(a: set<T>, b: set<T>)
    requires a <= b
    ensures |a| <= |b|
    ensures |a| == |b| ==> a == b
  {
    assert b == a + (b - a);
    assert |b| == |a| + |b - a|;
  }

  /** An injective image of a set has as many elements as the set. */
  lemma {:induction false} InjectiveImage<A, B>(s: set<A>, f: map<A, B>, image: set<B>)
    requires s <= f.Keys
    requires forall x, y :: x in s && y in s && f[x] == f[y] ==> x == y
    requires forall x :: x in s ==> f[x] in image
    ensures |s| <= |image|
    decreases |s|
  {
    if s != {} {
      var x :| x in s;
      InjectiveImage(s - {x}, f, image - {f[x]});
    }
  }
}
