/** Finite sums over sets of keys, and finite sets and maps listed in ascending or arbitrary order. */
module Sums {
  import opened Common

  ghost function Pick<K>(keys: set<K>): (k: K)
    requires keys != {}
    ensures k in keys
  {
    var k :| k in keys; k
  }

  ghost function Sum<K>(keys: set<K>, f: K -> int): int
  {
    if keys == {} then 0 else var k := Pick(keys); f(k) + Sum(keys - {k}, f)
  }

  // The order in which keys are picked does not matter.
  lemma {:induction false} SumRemove<K>(keys: set<K>, f: K -> int, k: K)
    requires k in keys
    ensures Sum(keys, f) == f(k) + Sum(keys - {k}, f)
    decreases keys
  {
    var m := Pick(keys);
    if m != k {
      SumRemove(keys - {m}, f, k);
      SumRemove(keys - {k}, f, m);
      assert keys - {m} - {k} == keys - {k} - {m};
    }
  }

  lemma {:induction false} SumAgree<K>(keys: set<K>, f: K -> int, g: K -> int)
    requires forall k :: k in keys ==> f(k) == g(k)
    ensures Sum(keys, f) == Sum(keys, g)
    decreases keys
  {
    if keys != {} {
      SumAgree(keys - {Pick(keys)}, f, g);
    }
  }

  // Changing the summand at one key changes the sum by the difference at that key.
  lemma SumChange<K>(keys: set<K>, f: K -> int, g: K -> int, k: K)
    requires k in keys
    requires forall j :: j in keys && j != k ==> f(j) == g(j)
    ensures Sum(keys, g) == Sum(keys, f) - f(k) + g(k)
  {
    SumRemove(keys, f, k);
    SumRemove(keys, g, k);
    SumAgree(keys - {k}, f, g);
  }

  lemma SumAdd<K>(keys: set<K>, f: K -> int, k: K)
    requires k !in keys
    ensures Sum(keys + {k}, f) == f(k) + Sum(keys, f)
  {
    SumRemove(keys + {k}, f, k);
    assert keys + {k} - {k} == keys;
  }

  lemma {:induction false} SumSplit<K>(keys: set<K>, part: set<K>, f: K -> int)
    requires part <= keys
    ensures Sum(keys, f) == Sum(part, f) + Sum(keys - part, f)
    decreases part
  {
    if part == {} {
      assert keys - part == keys;
    } else {
      var k := Pick(part);
      SumRemove(keys, f, k);
      SumSplit(keys - {k}, part - {k}, f);
      assert keys - {k} - (part - {k}) == keys - part;
    }
  }

  lemma {:induction false} SumPlus<K>(keys: set<K>, f: K -> int, g: K -> int, h: K -> int)
    requires forall k :: k in keys ==> h(k) == f(k) + g(k)
    ensures Sum(keys, h) == Sum(keys, f) + Sum(keys, g)
    decreases keys
  {
    if keys != {} {
      SumPlus(keys - {Pick(keys)}, f, g, h);
    }
  }

  lemma {:induction false} SumNonNegative<K>(keys: set<K>, f: K -> int)
    requires forall k :: k in keys ==> f(k) >= 0
    ensures Sum(keys, f) >= 0
    ensures forall k :: k in keys ==> Sum(keys, f) >= f(k)
    decreases keys
  {
    if keys != {} {
      SumNonNegative(keys - {Pick(keys)}, f);
    }
  }

  lemma SumZero<K>(keys: set<K>, f: K -> int)
    requires forall k :: k in keys ==> f(k) == 0
    ensures Sum(keys, f) == 0
  {
    SumAgree(keys, f, k => 0);
    SumConst(keys);
  }

  lemma {:induction false} SumConst<K>(keys: set<K>)
    ensures Sum(keys, (k: K) => 0) == 0
    decreases keys
  {
    if keys != {} {
      SumConst(keys - {Pick(keys)});
    }
  }

  // ---- ascending order ----

  lemma {:induction false} MinExists(s: set<int>)
    requires s != {}
    ensures exists m :: m in s && forall x :: x in s ==> m <= x
    decreases s
  {
    var k := Pick(s);
    if s - {k} == {} {
      assert s == {k};
      assert k in s && forall x :: x in s ==> k <= x;
    } else {
      MinExists(s - {k});
      var m :| m in s - {k} && forall x :: x in s - {k} ==> m <= x;
      var low := if k <= m then k else m;
      forall x | x in s
        ensures low <= x
      {
        assert x == k || x in s - {k};
      }
      assert low in s;
    }
  }

  function Min(s: set<int>): (m: int)
    requires s != {}
    ensures m in s && forall x :: x in s ==> m <= x
  {
    MinExists(s);
    var m :| m in s && forall x :: x in s ==> m <= x;
    m
  }

  function Ascending(s: set<int>): (a: seq<int>)
    ensures |a| == |s|
    ensures forall x :: x in a <==> x in s
    ensures forall i, j :: 0 <= i < j < |a| ==> a[i] < a[j]
    decreases s
  {
    if s == {} then [] else var m := Min(s); [m] + Ascending(s - {m})
  }

  /** The keys of a map in the arbitrary order in which Go ranges over it. */
  method ListKeys<K, V>(m: map<K, V>) returns (out: seq<K>)
    ensures forall i, j :: 0 <= i < j < |out| ==> out[i] != out[j]
    ensures forall k :: k in out <==> k in m
    ensures |out| == |m.Keys|
  {
    out := [];
    var left := m.Keys;
    while left != {}
      invariant left <= m.Keys && forall k :: k in out <==> k in m && k !in left
      invariant |out| + |left| == |m.Keys|
      invariant forall i, j :: 0 <= i < j < |out| ==> out[i] != out[j]
      decreases |left|
    {
      var k :| k in left;
      left := left - {k};
      out := out + [k];
    }
  }

  // ---- strictly ascending lists of one set are equal ----

  lemma SameEmptiness(a: seq<int>, b: seq<int>)
    requires forall x :: x in a <==> x in b
    ensures a == [] <==> b == []
  {
    if a != [] {
      var x := a[0];
      assert x in a;
    }
    if b != [] {
      var x := b[0];
      assert x in b;
    }
  }

  lemma LastIsGreatest(a: seq<int>, x: int)
    requires StrictlyAscending(a) && x in a
    ensures x <= a[|a| - 1]
  {
  }

  lemma FrontElement(a: seq<int>, z: int)
    requires StrictlyAscending(a) && a != []
    ensures z in a[..|a| - 1] <==> z in a && z != a[|a| - 1]
  {
    assert a == a[..|a| - 1] + [a[|a| - 1]];
  }

  lemma SameFronts(a: seq<int>, b: seq<int>, front: seq<int>, back: seq<int>)
    requires StrictlyAscending(a) && StrictlyAscending(b) && a != [] && b != [] && forall x :: x in a <==> x in b
    requires front == a[..|a| - 1] && back == b[..|b| - 1]
    ensures a[|a| - 1] == b[|b| - 1]
    ensures forall z :: z in front <==> z in back
  {
    var x, y := a[|a| - 1], b[|b| - 1];
    assert x in a && y in b;
    LastIsGreatest(a, y);
    LastIsGreatest(b, x);
    forall z: int
      ensures z in front <==> z in back
    {
      FrontElement(a, z);
      FrontElement(b, z);
      assert z in a <==> z in b;
    }
  }

  lemma {:induction false} AscendingUnique(a: seq<int>, b: seq<int>)
    requires StrictlyAscending(a) && StrictlyAscending(b) && forall x :: x in a <==> x in b
    ensures a == b
  {
    SameEmptiness(a, b);
    if a != [] {
      var front, back := a[..|a| - 1], b[..|b| - 1];
      SameFronts(a, b, front, back);
      AscendingUnique(front, back);
      assert a == front + [a[|a| - 1]] && b == back + [b[|b| - 1]];
    }
  }

  // Where a new element goes in the listing of a set.
  lemma InsertAscending(s: set<int>, x: int) returns (p: nat)
    requires x !in s
    ensures p <= |Ascending(s)|
    ensures Ascending(s + {x}) == Ascending(s)[..p] + [x] + Ascending(s)[p..]
  {
    var a := Ascending(s);
    p := 0;
    while p < |a| && a[p] < x
      invariant p <= |a| && forall j :: 0 <= j < p ==> a[j] < x
    {
      p := p + 1;
    }
    var b := a[..p] + [x] + a[p..];
    InsertedAscends(a, x, p);
    forall y: int
      ensures y in b <==> y in Ascending(s + {x})
    {
      assert a == a[..p] + a[p..];
      assert y in a <==> y in s;
      assert y in b <==> y in a[..p] || y == x || y in a[p..];
    }
    AscendingUnique(b, Ascending(s + {x}));
  }

  lemma InsertedAscends(a: seq<int>, x: int, p: nat)
    requires StrictlyAscending(a) && p <= |a| && x !in a
    requires (forall j :: 0 <= j < p ==> a[j] < x) && (p < |a| ==> a[p] >= x)
    ensures StrictlyAscending(a[..p] + [x] + a[p..])
  {
    assert p < |a| ==> a[p] in a;
  }
}
