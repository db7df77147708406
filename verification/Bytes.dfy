/**
 Bytes, 32-byte digests and the abstract hash function.

 Blake2b is never unfolded: every definition takes the hash as a parameter `h`, so a theorem
 without a hypothesis about `h` holds for every hash function.  Binding theorems assume that `h`
 is injective on one finite set of byte strings, the strings the evaluations compared really hash.
 */
module Bytes {
  type byte = b: int | 0 <= b < 256
  type Bytes = seq<byte>
  type Hash32 = s: Bytes | |s| == 32 witness seq(32, _ => 0)
  type HashFn = Bytes -> Hash32
  type U64 = n: int | 0 <= n < 0x1_0000_0000_0000_0000

  datatype Option<+T> = None | Some(value: T)

  datatype Result<+T, +E> = Success(value: T) | Failure(error: E) {
    predicate IsFailure() { Failure? }
    function PropagateFailure<U>(): Result<U, E>
      requires Failure?
    {
      Failure(error)
    }
    function Extract(): T
      requires Success?
    {
      value
    }
  }

  // No two strings of the finite set `s` share a digest.
  ghost predicate InjectiveOn(h: HashFn, s: set<Bytes>) {
    forall a, b :: a in s && b in s && h(a) == h(b) ==> a == b
  }

  lemma InjectiveSubset(h: HashFn, s: set<Bytes>, t: set<Bytes>)
    requires InjectiveOn(h, s) && t <= s
    ensures InjectiveOn(h, t)
  {
  }

  lemma InjectiveAt(h: HashFn, s: set<Bytes>, a: Bytes, b: Bytes)
    requires InjectiveOn(h, s) && a in s && b in s && h(a) == h(b)
    ensures a == b
  {
  }

  // ----- byte-lexicographic order, the order of every ordered key set and key-value store -----

  predicate LexLeq(a: Bytes, b: Bytes) {
    a == [] || (b != [] && (a[0] < b[0] || (a[0] == b[0] && LexLeq(a[1..], b[1..]))))
  }

  lemma {:induction false} LexTotal(a: Bytes, b: Bytes)
    ensures LexLeq(a, b) || LexLeq(b, a)
  {
    if a != [] && b != [] && a[0] == b[0] { LexTotal(a[1..], b[1..]); }
  }

  lemma {:induction false} LexAntisymmetric(a: Bytes, b: Bytes)
    requires LexLeq(a, b) && LexLeq(b, a)
    ensures a == b
  {
    if a != [] {
      LexAntisymmetric(a[1..], b[1..]);
      assert a == [a[0]] + a[1..] && b == [b[0]] + b[1..];
    }
  }

  lemma {:induction false} LexTransitive(a: Bytes, b: Bytes, c: Bytes)
    requires LexLeq(a, b) && LexLeq(b, c)
    ensures LexLeq(a, c)
  {
    if a != [] && a[0] == b[0] && b[0] == c[0] { LexTransitive(a[1..], b[1..], c[1..]); }
  }

  lemma {:induction false} SmallestExists(s: set<Bytes>) returns (k: Bytes)
    requires s != {}
    ensures k in s && forall x :: x in s ==> LexLeq(k, x)
  {
    var x :| x in s;
    if s == {x} {
      LexTotal(x, x);
      k := x;
    } else {
      var rest := s - {x};
      assert s == rest + {x};
      var y := SmallestExists(rest);
      LexTotal(x, y);
      LexTotal(x, x);
      k := if LexLeq(x, y) then x else y;
      forall z | z in s
        ensures LexLeq(k, z)
      {
        if z != x { if k == x { LexTransitive(x, y, z); } }
      }
    }
  }

  function Smallest(s: set<Bytes>): (k: Bytes)
    requires s != {}
    ensures k in s && forall x :: x in s ==> LexLeq(k, x)
  {
    assert exists k :: k in s && forall x :: x in s ==> LexLeq(k, x) by {
      var k := SmallestExists(s);
    }
    assert forall a, b :: LexLeq(a, b) && LexLeq(b, a) ==> a == b by {
      forall a, b | LexLeq(a, b) && LexLeq(b, a)
        ensures a == b
      {
        LexAntisymmetric(a, b);
      }
    }
    var k :| k in s && forall x :: x in s ==> LexLeq(k, x);
    k
  }

  ghost predicate Ascending(keys: seq<Bytes>) {
    forall i, j :: 0 <= i < j < |keys| ==> LexLeq(keys[i], keys[j]) && keys[i] != keys[j]
  }

  // The keys of an ordered map, in iteration order.
  function SortedKeys(s: set<Bytes>): (keys: seq<Bytes>)
    ensures forall k :: k in keys <==> k in s
    ensures Ascending(keys)
  {
    if s == {} then []
    else
      var k := Smallest(s);
      [k] + SortedKeys(s - {k})
  }
}
