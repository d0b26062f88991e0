/** Sequences of integer keys: last occurrences and ascending listings. */
module KeyLists {

  /** The last position of k in keys, or -1. The contract determines the result. */
  ghost function LastIndex(keys: seq<int>, k: int): (r: int)
    ensures -1 <= r < |keys|
    ensures 0 <= r ==> keys[r] == k
    ensures forall j :: r < j < |keys| ==> keys[j] != k
  {
    LastIndexExists(keys, k);
    var r :| IsLastIndex(keys, k, r);
    r
  }

  ghost predicate IsLastIndex(keys: seq<int>, k: int, r: int) {
    -1 <= r < |keys| && (0 <= r ==> keys[r] == k) && forall j :: r < j < |keys| ==> keys[j] != k
  }

  lemma {:induction false} LastIndexExists(keys: seq<int>, k: int)
    ensures exists r :: IsLastIndex(keys, k, r)
  {
    var n := |keys| - 1;
    if keys == [] {
      assert IsLastIndex(keys, k, -1);
    } else if keys[n] == k {
      assert IsLastIndex(keys, k, n);
    } else {
      LastIndexExists(keys[..n], k);
      var r :| IsLastIndex(keys[..n], k, r);
      assert IsLastIndex(keys, k, r) by {
        assert forall j :: 0 <= j < n ==> keys[..n][j] == keys[j];
      }
    }
  }

  /** A key's last position in keys[a..n'], seen from two overlapping slices. */
  lemma LastAcross(keys: seq<int>, a: nat, b: nat, n: nat, n': nat, k: int)
    requires a <= b <= n <= n' <= |keys|
    ensures var late, early := LastIndex(keys[b..n'], k), LastIndex(keys[a..n], k);
            LastIndex(keys[a..n'], k) == if late >= 0 then b - a + late else early
  {
    var whole := keys[a..n'];
    assert forall j :: b - a <= j < n' - a ==> whole[j] == keys[b..n'][j - (b - a)];
    assert forall j :: 0 <= j < n - a ==> whole[j] == keys[a..n][j];
    var late, early := LastIndex(keys[b..n'], k), LastIndex(keys[a..n], k);
    LastIndexIsUnique(keys[a..n'], k, if late >= 0 then b - a + late else early);
  }

  lemma LastIndexIsUnique(keys: seq<int>, k: int, r: int)
    requires -1 <= r < |keys|
    requires 0 <= r ==> keys[r] == k
    requires forall j :: r < j < |keys| ==> keys[j] != k
    ensures LastIndex(keys, k) == r
  {
  }

  lemma LastIndexSnoc(keys: seq<int>, k: int, x: int)
    ensures LastIndex(keys + [k], x) == if x == k then |keys| else LastIndex(keys, x)
  {
    LastIndexIsUnique(keys + [k], x, if x == k then |keys| else LastIndex(keys, x));
  }

  lemma SameMap<V>(m: map<int, V>, m': map<int, V>)
    requires forall k :: (k in m <==> k in m') && (k in m ==> m[k] == m'[k])
    ensures m == m'
  {
    assert m.Keys == m'.Keys by {
      forall k
        ensures k in m.Keys <==> k in m'.Keys
      {
        assert k in m <==> k in m';
      }
    }
    forall k | k in m
      ensures m[k] == m'[k]
    {
    }
  }

  ghost predicate Ascends(s: seq<int>) {
    forall i, j :: 0 <= i < j < |s| ==> s[i] < s[j]
  }

  lemma {:induction false} SomeElement<T>(s: set<T>) returns (x: T)
    requires s != {}
    ensures x in s
  {
    x :| x in s;
  }

  lemma {:induction false} HasLeast(s: set<int>) returns (m: int)
    requires s != {}
    ensures m in s && forall y :: y in s ==> m <= y
    decreases s
  {
    var x := SomeElement(s);
    m := x;
    if y :| y in s && y < x {
      assert y in s - {x};
      m := HasLeast(s - {x});
      assert forall z :: z in s ==> z == x || z in s - {x};
    }
  }

  function Least(s: set<int>): (m: int)
    requires s != {}
    ensures m in s && forall y :: y in s ==> m <= y
  {
    assert exists m :: m in s && forall y :: y in s ==> m <= y by { var m := HasLeast(s); }
    var m :| m in s && forall y :: y in s ==> m <= y;
    m
  }

  /** The elements of a set in ascending order: how an ordered map lists its keys, and what
      sorting and deduplicating a vector leaves. */
  function Ascending(s: set<int>): (r: seq<int>)
    ensures forall x :: x in r <==> x in s
    ensures Ascends(r)
  {
    if s == {} then []
    else
      var m := Least(s);
      [m] + Ascending(s - {m})
  }
}
