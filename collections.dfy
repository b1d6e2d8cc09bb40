/**
 * The Python list and dict behaviour the generator leans on: "append if not already
 * present" lists, dicts that remember insertion order and let a later assignment
 * overwrite a value in place, and the stable `list.sort(key=...)`.
 */
module Collections {

  ghost predicate NoDup<T>(xs: seq<T>)
  {
    forall i, j :: 0 <= i < j < |xs| ==> xs[i] != xs[j]
  }

  /** Index of the first occurrence of `x` in `xs`. */
  function FirstIndex<T(==)>(xs: seq<T>, x: T): (i: nat)
    requires x in xs
    ensures i < |xs| && xs[i] == x && x !in xs[..i]
  {
    if xs[0] == x then 0
    else
      var i := 1 + FirstIndex(xs[1..], x);
      assert xs[..i] == [xs[0]] + xs[1..][..i - 1];
      i
  }

  lemma FirstIndexUnique<T>(xs: seq<T>, x: T, i: nat)
    requires i < |xs| && xs[i] == x && x !in xs[..i]
    ensures FirstIndex(xs, x) == i
  {
    var f := FirstIndex(xs, x);
    assert xs[f] == x && x !in xs[..f];
  }

  /** The first occurrence of an element of a prefix lies in that prefix. */
  lemma FirstIndexPrefix<T>(xs: seq<T>, n: nat, x: T)
    requires n <= |xs| && x in xs[..n]
    ensures FirstIndex(xs, x) == FirstIndex(xs[..n], x)
  {
    var f := FirstIndex(xs[..n], x);
    assert xs[..f] == xs[..n][..f];
    FirstIndexUnique(xs, x, f);
  }

  // ------------------------------------------------------------------
  // "if x not in lst: lst.append(x)"
  // ------------------------------------------------------------------

  function AppendNew<T(==)>(xs: seq<T>, x: T): (r: seq<T>)
    ensures NoDup(xs) ==> NoDup(r)
    ensures x in r && (forall y :: y in xs ==> y in r) && (forall y :: y in r ==> y in xs || y == x)
  {
    if x in xs then xs else xs + [x]
  }

  /** The list built by appending each element of `xs` unless it is already there. */
  function Dedup<T(==)>(xs: seq<T>): seq<T>
    decreases |xs|
  {
    if |xs| == 0 then [] else AppendNew(Dedup(xs[..|xs| - 1]), xs[|xs| - 1])
  }

  lemma DedupSnoc<T>(xs: seq<T>, x: T)
    ensures Dedup(xs + [x]) == AppendNew(Dedup(xs), x)
  {
    assert (xs + [x])[..|xs|] == xs;
  }

  lemma {:induction false} DedupMembers<T>(xs: seq<T>)
    ensures NoDup(Dedup(xs))
    ensures forall x :: x in Dedup(xs) <==> x in xs
    decreases |xs|
  {
    if |xs| > 0 {
      var n := |xs| - 1;
      DedupMembers(xs[..n]);
      assert xs == xs[..n] + [xs[n]];
    }
  }

  /**
   * `Dedup` keeps exactly the elements of its input, each once, in the order
   * of their first occurrence.
   */
  lemma {:induction false} DedupFirstSeen<T>(xs: seq<T>)
    ensures NoDup(Dedup(xs))
    ensures forall x :: x in Dedup(xs) <==> x in xs
    ensures forall j, k :: 0 <= j < k < |Dedup(xs)| ==>
      FirstIndex(xs, Dedup(xs)[j]) < FirstIndex(xs, Dedup(xs)[k])
    decreases |xs|
  {
    DedupMembers(xs);
    if |xs| > 0 {
      var n := |xs| - 1;
      var init, last := xs[..n], xs[n];
      DedupFirstSeen(init);
      var d0 := Dedup(init);
      var d := Dedup(xs);
      if last in init {
        assert d == d0;
        forall j, k | 0 <= j < k < |d| ensures FirstIndex(xs, d[j]) < FirstIndex(xs, d[k]) {
          FirstIndexPrefix(xs, n, d[j]);
          FirstIndexPrefix(xs, n, d[k]);
        }
      } else {
        FirstIndexUnique(xs, last, n);
        assert d == d0 + [last];
        forall j, k | 0 <= j < k < |d| ensures FirstIndex(xs, d[j]) < FirstIndex(xs, d[k]) {
          assert d[j] == d0[j] && d[j] in init;
          FirstIndexPrefix(xs, n, d[j]);
          if k < |d0| {
            assert d[k] == d0[k];
            FirstIndexPrefix(xs, n, d[k]);
          }
        }
      }
    }
  }

  // ------------------------------------------------------------------
  // A dict of lists: "if k not in m: m[k] = []; if x not in m[k]: m[k].append(x)"
  // ------------------------------------------------------------------

  function Get<K, V>(m: map<K, seq<V>>, k: K): seq<V>
  {
    if k in m then m[k] else []
  }

  function AddUnder<K, V(==)>(m: map<K, seq<V>>, k: K, v: V): map<K, seq<V>>
  {
    m[k := AppendNew(Get(m, k), v)]
  }

  /** `if k not in m: m[k] = []` followed by `if v not in m[k]: m[k].append(v)` is `AddUnder`. */
  lemma AddUnderInPlace<K, V>(m: map<K, seq<V>>, k: K, v: V)
    ensures var m1 := if k in m then m else m[k := []];
      k in m1 && (if v in m1[k] then m1 else m1[k := m1[k] + [v]]) == AddUnder(m, k, v)
  {
    if k in m && v in m[k] {
      assert m[k := m[k]] == m;
    }
  }

  /** The dict of lists built from a stream of (key, value) pairs. */
  function Group<K, V(==)>(ps: seq<(K, V)>): map<K, seq<V>>
    decreases |ps|
  {
    if |ps| == 0 then map[]
    else
      var p := ps[|ps| - 1];
      AddUnder(Group(ps[..|ps| - 1]), p.0, p.1)
  }

  /** The values of the stream filed under `k`, in stream order. */
  function Stream<K(==), V>(ps: seq<(K, V)>, k: K): seq<V>
    decreases |ps|
  {
    if |ps| == 0 then []
    else
      var p := ps[|ps| - 1];
      Stream(ps[..|ps| - 1], k) + (if p.0 == k then [p.1] else [])
  }

  /** Each list of a grouped dict is the first-seen deduplication of its key's stream. */
  lemma {:induction false} GroupIsDedup<K, V>(ps: seq<(K, V)>, k: K)
    ensures (k in Group(ps)) <==> |Stream(ps, k)| > 0
    ensures Get(Group(ps), k) == Dedup(Stream(ps, k))
    decreases |ps|
  {
    if |ps| > 0 {
      var init, p := ps[..|ps| - 1], ps[|ps| - 1];
      GroupIsDedup(init, k);
      var g := Group(init);
      assert Group(ps) == AddUnder(g, p.0, p.1);
      if p.0 == k {
        assert Stream(ps, k) == Stream(init, k) + [p.1];
        assert Get(Group(ps), k) == AppendNew(Get(g, k), p.1);
        DedupSnoc(Stream(init, k), p.1);
      } else {
        assert Stream(ps, k) == Stream(init, k);
        assert Get(Group(ps), k) == Get(g, k);
      }
    }
  }

  /**
   * A grouped list holds each value filed under its key exactly once, in the order
   * the values first appear in the stream.
   */
  lemma GroupFirstSeen<K, V>(ps: seq<(K, V)>, k: K)
    ensures (k in Group(ps)) <==> |Stream(ps, k)| > 0
    ensures NoDup(Get(Group(ps), k))
    ensures forall v :: v in Get(Group(ps), k) <==> v in Stream(ps, k)
    ensures forall i, j :: 0 <= i < j < |Get(Group(ps), k)| ==>
      FirstIndex(Stream(ps, k), Get(Group(ps), k)[i]) < FirstIndex(Stream(ps, k), Get(Group(ps), k)[j])
  {
    GroupIsDedup(ps, k);
    DedupFirstSeen(Stream(ps, k));
  }

  lemma GroupSnoc<K, V>(ps: seq<(K, V)>, p: (K, V))
    ensures Group(ps + [p]) == AddUnder(Group(ps), p.0, p.1)
  {
    assert (ps + [p])[..|ps|] == ps;
  }

  // ------------------------------------------------------------------
  // A Python dict: keys in insertion order, a re-assigned key keeps its place
  // ------------------------------------------------------------------

  datatype Dict<K(==), V> = Dict(keys: seq<K>, vals: map<K, V>) {

    ghost predicate Valid()
    {
      NoDup(keys) && (forall k :: k in vals ==> k in keys) && (forall k :: k in keys ==> k in vals)
    }

    /** `d[k] = v` */
    function Put(k: K, v: V): (d: Dict<K, V>)
      ensures Valid() ==> d.Valid()
      ensures d.vals == vals[k := v]
      ensures d.keys == AppendNew(keys, k) || !Valid()
    {
      if k in vals then Dict(keys, vals[k := v]) else Dict(keys + [k], vals[k := v])
    }
  }

  function EmptyDict<K(==), V>(): (d: Dict<K, V>)
    ensures d.Valid() && d.keys == []
  {
    Dict([], map[])
  }

  /** The dict built by assigning each (key, value) pair of a stream in turn. */
  function PutAll<K(==), V>(ps: seq<(K, V)>): Dict<K, V>
    decreases |ps|
  {
    if |ps| == 0 then EmptyDict()
    else
      var p := ps[|ps| - 1];
      PutAll(ps[..|ps| - 1]).Put(p.0, p.1)
  }

  lemma PutAllSnoc<K, V>(ps: seq<(K, V)>, p: (K, V))
    ensures PutAll(ps + [p]) == PutAll(ps).Put(p.0, p.1)
  {
    assert (ps + [p])[..|ps|] == ps;
  }

  function KeysOf<K, V>(ps: seq<(K, V)>): (ks: seq<K>)
    ensures |ks| == |ps| && forall i :: 0 <= i < |ps| ==> ks[i] == ps[i].0
  {
    seq(|ps|, i requires 0 <= i < |ps| => ps[i].0)
  }

  /** No later pair of the stream has the same key as the one at `i`. */
  ghost predicate IsLastWrite<K, V>(ps: seq<(K, V)>, i: int)
    requires 0 <= i < |ps|
  {
    forall j :: i < j < |ps| ==> ps[j].0 != ps[i].0
  }

  lemma {:induction false} PutAllValid<K, V>(ps: seq<(K, V)>)
    ensures PutAll(ps).Valid()
    decreases |ps|
  {
    if |ps| > 0 {
      PutAllValid(ps[..|ps| - 1]);
    }
  }

  lemma {:induction false} PutAllKeys<K, V>(ps: seq<(K, V)>)
    ensures PutAll(ps).keys == Dedup(KeysOf(ps))
    decreases |ps|
  {
    if |ps| > 0 {
      var n := |ps| - 1;
      var init, p := ps[..n], ps[n];
      PutAllKeys(init);
      PutAllValid(init);
      assert KeysOf(ps) == KeysOf(init) + [p.0];
      DedupSnoc(KeysOf(init), p.0);
    }
  }

  lemma {:induction false} PutAllLastWrite<K, V>(ps: seq<(K, V)>)
    ensures forall i :: 0 <= i < |ps| && IsLastWrite(ps, i) ==>
      ps[i].0 in PutAll(ps).vals && PutAll(ps).vals[ps[i].0] == ps[i].1
    decreases |ps|
  {
    if |ps| > 0 {
      var n := |ps| - 1;
      var init, p := ps[..n], ps[n];
      PutAllLastWrite(init);
      var d := PutAll(ps);
      assert d.vals == PutAll(init).vals[p.0 := p.1];
      forall i | 0 <= i < |ps| && IsLastWrite(ps, i) ensures ps[i].0 in d.vals && d.vals[ps[i].0] == ps[i].1 {
        if i < n {
          assert IsLastWrite(init, i);
          assert init[i] == ps[i];
        }
      }
    }
  }

  /**
   * A dict built by assignment keeps its keys in first-seen order, and each key
   * holds the value of its last assignment.
   */
  lemma PutAllOrderAndLastWrite<K, V>(ps: seq<(K, V)>)
    ensures PutAll(ps).Valid()
    ensures PutAll(ps).keys == Dedup(KeysOf(ps))
    ensures forall i :: 0 <= i < |ps| && IsLastWrite(ps, i) ==>
      ps[i].0 in PutAll(ps).vals && PutAll(ps).vals[ps[i].0] == ps[i].1
  {
    PutAllValid(ps);
    PutAllKeys(ps);
    PutAllLastWrite(ps);
  }

  // ------------------------------------------------------------------
  // Python's stable `list.sort(key=...)`
  // ------------------------------------------------------------------

  ghost predicate SortedBy<T>(s: seq<T>, key: T -> int)
  {
    forall i, j :: 0 <= i < j < |s| ==> key(s[i]) <= key(s[j])
  }

  /** In a sorted sequence an element whose key is below every other element's comes first. */
  lemma SortedLeastFirst<T>(s: seq<T>, key: T -> int, x: T)
    requires SortedBy(s, key) && x in s
    requires forall i :: 0 <= i < |s| && s[i] != x ==> key(s[i]) > key(x)
    ensures s[0] == x
  {
    var i :| 0 <= i < |s| && s[i] == x;
    assert i == 0 || key(s[0]) <= key(s[i]);
  }

  /** The elements of `s` whose key is `k`, in the order of `s`. */
  function WithKey<T>(s: seq<T>, key: T -> int, k: int): seq<T>
    decreases |s|
  {
    if |s| == 0 then [] else (if key(s[0]) == k then [s[0]] else []) + WithKey(s[1..], key, k)
  }

  /** Puts `x` in front of the first element of `s` whose key is not smaller. */
  function Insert<T>(x: T, s: seq<T>, key: T -> int): seq<T>
    decreases |s|
  {
    if |s| == 0 || key(x) <= key(s[0]) then [x] + s else [s[0]] + Insert(x, s[1..], key)
  }

  function SortBy<T>(xs: seq<T>, key: T -> int): seq<T>
    decreases |xs|
  {
    if |xs| == 0 then [] else Insert(xs[0], SortBy(xs[1..], key), key)
  }

  lemma WithKeyCons<T>(a: T, b: seq<T>, key: T -> int, k: int)
    ensures WithKey([a] + b, key, k) == (if key(a) == k then [a] else []) + WithKey(b, key, k)
  {
    assert ([a] + b)[1..] == b;
  }

  lemma {:induction false} InsertMultiset<T>(x: T, s: seq<T>, key: T -> int)
    ensures multiset(Insert(x, s, key)) == multiset(s) + multiset{x}
    decreases |s|
  {
    if |s| > 0 && key(x) > key(s[0]) {
      InsertMultiset(x, s[1..], key);
      assert s == [s[0]] + s[1..];
    }
  }

  lemma {:induction false} InsertSorted<T>(x: T, s: seq<T>, key: T -> int)
    requires SortedBy(s, key)
    ensures SortedBy(Insert(x, s, key), key)
    decreases |s|
  {
    var r := Insert(x, s, key);
    if |s| == 0 || key(x) <= key(s[0]) {
      assert r == [x] + s;
    } else {
      var t := s[1..];
      InsertSorted(x, t, key);
      InsertMultiset(x, t, key);
      var r' := Insert(x, t, key);
      assert r == [s[0]] + r';
      forall i | 0 <= i < |r'| ensures key(s[0]) <= key(r'[i]) {
        assert r'[i] in multiset(r');
        if r'[i] != x {
          assert r'[i] in t;
          var j :| 0 <= j < |t| && t[j] == r'[i];
          assert t[j] == s[j + 1];
        }
      }
    }
  }

  lemma {:induction false} InsertWithKey<T>(x: T, s: seq<T>, key: T -> int, k: int)
    ensures WithKey(Insert(x, s, key), key, k) == (if key(x) == k then [x] else []) + WithKey(s, key, k)
    decreases |s|
  {
    if |s| == 0 || key(x) <= key(s[0]) {
      WithKeyCons(x, s, key, k);
    } else {
      var t := s[1..];
      InsertWithKey(x, t, key, k);
      WithKeyCons(s[0], Insert(x, t, key), key, k);
      WithKeyCons(s[0], t, key, k);
      assert s == [s[0]] + t;
    }
  }

  /**
   * `SortBy` is Python's stable sort: the result is ordered by key, is a permutation
   * of the input, and keeps elements with equal keys in their input order.
   */
  lemma {:induction false} SortByStable<T>(xs: seq<T>, key: T -> int)
    ensures SortedBy(SortBy(xs, key), key)
    ensures multiset(SortBy(xs, key)) == multiset(xs)
    ensures forall k :: WithKey(SortBy(xs, key), key, k) == WithKey(xs, key, k)
    decreases |xs|
  {
    if |xs| > 0 {
      var rest := SortBy(xs[1..], key);
      SortByStable(xs[1..], key);
      InsertSorted(xs[0], rest, key);
      InsertMultiset(xs[0], rest, key);
      assert xs == [xs[0]] + xs[1..];
      forall k ensures WithKey(SortBy(xs, key), key, k) == WithKey(xs, key, k) {
        InsertWithKey(xs[0], rest, key, k);
        WithKeyCons(xs[0], xs[1..], key, k);
      }
    }
  }

  lemma MultisetNoDup<T>(a: seq<T>, b: seq<T>)
    requires multiset(a) == multiset(b) && NoDup(a)
    ensures NoDup(b)
  {
    forall x ensures multiset(a)[x] <= 1 { NoDupCount(a, x); }
    forall i, j | 0 <= i < j < |b| ensures b[i] != b[j] {
      assert b == b[..j] + [b[j]] + b[j + 1..];
      assert b[..j][i] == b[i];
      assert multiset(b)[b[j]] == multiset(b[..j])[b[j]] + 1 + multiset(b[j + 1..])[b[j]];
      assert multiset(b[..j])[b[i]] >= 1;
    }
  }

  lemma {:induction false} NoDupCount<T>(a: seq<T>, x: T)
    requires NoDup(a)
    ensures multiset(a)[x] <= 1
    decreases |a|
  {
    if |a| > 0 {
      NoDupCount(a[1..], x);
      assert a == [a[0]] + a[1..];
      if a[0] == x {
        assert x !in a[1..];
      }
    }
  }
}
