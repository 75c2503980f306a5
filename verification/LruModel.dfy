/** What a least recently used cache holds, as a sequence of items from least to most recently put. */
module LruModel {
  import opened Basics

  // ---------------------------------------------------------------- value level

  predicate Has<K(==), V>(s: seq<(K, V)>, k: K) {
    s != [] && (s[0].0 == k || Has(s[1..], k))
  }

  predicate Distinct<K(==), V>(s: seq<(K, V)>) {
    s != [] ==> !Has(s[1..], s[0].0) && Distinct(s[1..])
  }

  function KeySet<K(==), V>(s: seq<(K, V)>): set<K> {
    if s == [] then {} else {s[0].0} + KeySet(s[1..])
  }

  function Lookup<K(==), V>(s: seq<(K, V)>, k: K): (r: Option<V>)
    ensures r.Some? <==> Has(s, k)
  {
    if s == [] then None
    else if s[0].0 == k then Some(s[0].1)
    else Lookup(s[1..], k)
  }

  /** A stored number, or 0 for an unknown key. */
  function LastNumber<K(==)>(s: seq<(K, nat)>, k: K): nat {
    match Lookup(s, k)
    case None => 0
    case Some(n) => n
  }

  /** The items whose key is not `k`, in order. */
  function Without<K(==), V>(s: seq<(K, V)>, k: K): seq<(K, V)> {
    if s == [] then []
    else if s[0].0 == k then Without(s[1..], k)
    else [s[0]] + Without(s[1..], k)
  }

  /** `put`: capacity 0 means unbounded; a new key in a full cache evicts the front item. */
  function Put<K(==), V>(capacity: nat, s: seq<(K, V)>, k: K, v: V): seq<(K, V)> {
    if Has(s, k) then Without(s, k) + [(k, v)]
    else if capacity > 0 && |s| >= capacity then s[1..] + [(k, v)]
    else s + [(k, v)]
  }

  /** The cache after a history of puts, oldest first. */
  function Puts<K(==), V>(capacity: nat, h: seq<(K, V)>): seq<(K, V)> {
    if h == [] then []
    else Put(capacity, Puts(capacity, h[..|h| - 1]), h[|h| - 1].0, h[|h| - 1].1)
  }

  // ---------------------------------------------------------------- reference

  /** The puts not overwritten by a later put of the same key, oldest first. */
  function Latest<K(==), V>(h: seq<(K, V)>): seq<(K, V)> {
    if h == [] then []
    else if Has(h[1..], h[0].0) then Latest(h[1..])
    else [h[0]] + Latest(h[1..])
  }

  function Suffix<T>(s: seq<T>, n: nat): seq<T> {
    if |s| <= n then s else s[|s| - n..]
  }

  /** The keys stored behind (put more recently than) `k`. */
  function After<K(==), V>(s: seq<(K, V)>, k: K): set<K> {
    if s == [] then {}
    else if s[0].0 == k then KeySet(s[1..])
    else After(s[1..], k)
  }

  // ---------------------------------------------------------------- appending and removing

  lemma {:induction false} Snoc<K, V>(s: seq<(K, V)>, x: (K, V), k: K)
    ensures Has(s + [x], k) <==> Has(s, k) || x.0 == k
    ensures KeySet(s + [x]) == KeySet(s) + {x.0}
    ensures Lookup(s + [x], k) == if Has(s, k) then Lookup(s, k) else if x.0 == k then Some(x.1) else None
    ensures Has(s, k) ==> After(s + [x], k) == After(s, k) + {x.0}
  {
    if s == [] {
      assert s + [x] == [x];
    } else {
      assert (s + [x])[1..] == s[1..] + [x];
      Snoc(s[1..], x, k);
    }
  }

  lemma {:induction false} SnocDistinct<K, V>(s: seq<(K, V)>, x: (K, V))
    requires Distinct(s) && !Has(s, x.0)
    ensures Distinct(s + [x])
  {
    if s == [] {
      assert s + [x] == [x];
    } else {
      assert (s + [x])[1..] == s[1..] + [x];
      SnocDistinct(s[1..], x);
      Snoc(s[1..], x, s[0].0);
    }
  }

  lemma {:induction false} Removal<K, V>(s: seq<(K, V)>, x: K, k: K)
    requires Distinct(s)
    ensures Distinct(Without(s, x))
    ensures Has(Without(s, x), k) <==> Has(s, k) && k != x
    ensures k != x ==> Lookup(Without(s, x), k) == Lookup(s, k)
    ensures k != x ==> After(Without(s, x), k) <= After(s, k)
    ensures KeySet(Without(s, x)) == KeySet(s) - {x}
    ensures |Without(s, x)| == if Has(s, x) then |s| - 1 else |s|
    ensures !Has(s, x) ==> Without(s, x) == s
  {
    HasIsKey(s, x);
    if s != [] {
      Removal(s[1..], x, k);
      Removal(s[1..], x, s[0].0);
      HasIsKey(s[1..], x);
    }
  }

  lemma {:induction false} HasIsKey<K, V>(s: seq<(K, V)>, k: K)
    ensures Has(s, k) <==> k in KeySet(s)
  {
    if s != [] { HasIsKey(s[1..], k); }
  }

  lemma {:induction false} KeysCardinality<K, V>(s: seq<(K, V)>)
    requires Distinct(s)
    ensures |KeySet(s)| == |s|
  {
    if s != [] {
      KeysCardinality(s[1..]);
      HasIsKey(s[1..], s[0].0);
    }
  }

  lemma PutBasics<K, V>(capacity: nat, s: seq<(K, V)>, k: K, v: V)
    requires Distinct(s)
    ensures var r := Put(capacity, s, k, v);
            Distinct(r) && Lookup(r, k) == Some(v) && After(r, k) == {}
            && (capacity > 0 && |s| <= capacity ==> |r| <= capacity)
  {
    var base := if Has(s, k) then Without(s, k) else if capacity > 0 && |s| >= capacity then s[1..] else s;
    Removal(s, k, k);
    SnocDistinct(base, (k, v));
    Snoc(base, (k, v), k);
    AfterLast(base, (k, v));
  }

  lemma {:induction false} AfterLast<K, V>(s: seq<(K, V)>, x: (K, V))
    requires !Has(s, x.0)
    ensures After(s + [x], x.0) == {}
  {
    if s == [] {
      assert s + [x] == [x];
    } else {
      assert (s + [x])[1..] == s[1..] + [x];
      AfterLast(s[1..], x);
    }
  }

  // ---------------------------------------------------------------- what a bounded cache holds

  lemma {:induction false} LatestSnoc<K, V>(h: seq<(K, V)>, x: (K, V))
    ensures Latest(h + [x]) == Without(Latest(h), x.0) + [x]
  {
    if h == [] {
      assert h + [x] == [x];
    } else {
      assert (h + [x])[1..] == h[1..] + [x];
      Snoc(h[1..], x, h[0].0);
      LatestSnoc(h[1..], x);
    }
  }

  /** `Latest` keeps each key of the history once; its last item is the last put. */
  lemma {:induction false} LatestMeaning<K, V>(h: seq<(K, V)>, k: K)
    ensures Distinct(Latest(h))
    ensures Has(Latest(h), k) <==> Has(h, k)
    ensures h != [] ==> Latest(h) != [] && Latest(h)[|Latest(h)| - 1] == h[|h| - 1]
  {
    if h != [] {
      LatestMeaning(h[1..], k);
      LatestMeaning(h[1..], h[0].0);
      assert |h| > 1 ==> h[1..][|h| - 2] == h[|h| - 1];
    }
  }

  lemma SuffixTail<T>(s: seq<T>, n: nat)
    requires |s| > n
    ensures Suffix(s, n) == Suffix(s[1..], n)
  {
  }

  /** One put on a suffix is the same suffix of one put on the whole. */
  lemma {:induction false} PutOnSuffix<K, V>(capacity: nat, l: seq<(K, V)>, k: K, v: V)
    requires capacity > 0 && Distinct(l)
    ensures Put(capacity, Suffix(l, capacity), k, v) == Suffix(Without(l, k) + [(k, v)], capacity)
  {
    var w := Without(l, k) + [(k, v)];
    Removal(l, k, k);
    if |l| > capacity {
      SuffixTail(l, capacity);
      PutOnSuffix(capacity, l[1..], k, v);
      if l[0].0 != k {
        assert w[1..] == Without(l[1..], k) + [(k, v)];
        SuffixTail(w, capacity);
      }
    } else if !Has(l, k) && |l| == capacity {
      SuffixTail(w, capacity);
      assert w[1..] == l[1..] + [(k, v)];
    }
  }

  lemma PutsSnoc<K, V>(capacity: nat, h: seq<(K, V)>, x: (K, V))
    ensures Puts(capacity, h + [x]) == Put(capacity, Puts(capacity, h), x.0, x.1)
  {
    assert (h + [x])[..|h|] == h;
  }

  /** After any puts, a cache of capacity c > 0 holds exactly the last c distinct keys, in order of last put,
      each with its latest value; a cache of capacity 0 holds them all. */
  lemma {:induction false} PutsIsSuffixOfLatest<K, V>(capacity: nat, h: seq<(K, V)>)
    ensures Puts(capacity, h) == if capacity == 0 then Latest(h) else Suffix(Latest(h), capacity)
    ensures Distinct(Puts(capacity, h))
  {
    if h != [] {
      var p := h[..|h| - 1];
      var x := h[|h| - 1];
      assert h == p + [x];
      PutsIsSuffixOfLatest(capacity, p);
      LatestMeaning(p, x.0);
      LatestSnoc(p, x);
      if capacity == 0 {
        Removal(Latest(p), x.0, x.0);
      } else {
        PutOnSuffix(capacity, Latest(p), x.0, x.1);
      }
      PutBasics(capacity, Puts(capacity, p), x.0, x.1);
    }
  }

  /** A put of another key keeps `w` and its value, or evicts it because `capacity` other keys came after it. */
  lemma PutKeepsOrEvicts<K, V>(capacity: nat, s: seq<(K, V)>, k: K, v: V, w: K)
    requires capacity > 0 && |s| <= capacity && Distinct(s) && Has(s, w) && k != w
    ensures var r := Put(capacity, s, k, v);
            if Has(r, w) then Lookup(r, w) == Lookup(s, w) && After(r, w) <= After(s, w) + {k}
            else |After(s, w) + {k}| >= capacity
  {
    if Has(s, k) {
      Removal(s, k, w);
      Snoc(Without(s, k), (k, v), w);
    } else if |s| < capacity {
      Snoc(s, (k, v), w);
    } else {
      Snoc(s[1..], (k, v), w);
      if s[0].0 == w {
        KeysCardinality(s[1..]);
        HasIsKey(s[1..], k);
      }
    }
  }

  /** An unbounded cache forgets nothing. */
  lemma PutUnbounded<K, V>(s: seq<(K, V)>, k: K, v: V, p: K)
    requires Distinct(s)
    ensures Distinct(Put(0, s, k, v))
    ensures Lookup(Put(0, s, k, v), p) == if p == k then Some(v) else Lookup(s, p)
  {
    PutBasics(0, s, k, v);
    Removal(s, k, p);
    Snoc(if Has(s, k) then Without(s, k) else s, (k, v), p);
  }
}
