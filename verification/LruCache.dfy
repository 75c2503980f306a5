/** The least recently used cache: a list of items plus an index from keys to list nodes. */
module LruCache {
  import opened Basics
  import opened LruModel

  /** A list node; `id` stands for its iterator, which stays valid while other nodes come and go. */
  datatype Node<K, V> = Node(id: nat, key: K, value: V)

  function Items<K, V>(l: seq<Node<K, V>>): seq<(K, V)> {
    if l == [] then [] else [(l[0].key, l[0].value)] + Items(l[1..])
  }

  /** `list.erase(iterator)` */
  function Erase<K, V>(l: seq<Node<K, V>>, id: nat): seq<Node<K, V>> {
    if l == [] then [] else if l[0].id == id then l[1..] else [l[0]] + Erase(l[1..], id)
  }

  /** The index sends the key of every node to that node, and no two keys to one node. */
  ghost predicate Indexes<K, V>(index: map<K, nat>, l: seq<Node<K, V>>) {
    && (forall i :: 0 <= i < |l| ==> l[i].key in index && index[l[i].key] == l[i].id)
    && (forall k, k' :: k in index && k' in index && index[k] == index[k'] ==> k == k')
  }

  lemma {:induction false} EraseIsWithout<K, V>(index: map<K, nat>, l: seq<Node<K, V>>, k: K)
    requires Indexes(index, l) && Distinct(Items(l)) && k in index
    ensures Items(Erase(l, index[k])) == Without(Items(l), k)
    ensures forall n :: n in Erase(l, index[k]) ==> n in l && n.key != k
  {
    if l != [] {
      assert Items(l)[1..] == Items(l[1..]);
      assert forall i :: 0 <= i < |l[1..]| ==> l[1..][i] == l[i + 1];
      if l[0].id == index[k] {
        assert l[0].key == k;
        Removal(Items(l[1..]), k, k);
        forall n | n in l[1..] ensures n.key != k { NodeHas(l[1..], n); }
      } else {
        EraseIsWithout(index, l[1..], k);
      }
    }
  }

  lemma {:induction false} NodeHas<K, V>(l: seq<Node<K, V>>, n: Node<K, V>)
    requires n in l
    ensures Has(Items(l), n.key)
    ensures Distinct(Items(l)) ==> Lookup(Items(l), n.key) == Some(n.value)
  {
    assert Items(l)[1..] == Items(l[1..]);
    if n != l[0] {
      NodeHas(l[1..], n);
    }
  }

  lemma {:induction false} HasNode<K, V>(l: seq<Node<K, V>>, k: K) returns (n: Node<K, V>)
    requires Has(Items(l), k)
    ensures n in l && n.key == k
  {
    assert Items(l)[1..] == Items(l[1..]);
    if l[0].key == k { n := l[0]; } else { n := HasNode(l[1..], k); }
  }

  lemma {:induction false} ItemsSnoc<K, V>(l: seq<Node<K, V>>, n: Node<K, V>)
    ensures Items(l + [n]) == Items(l) + [(n.key, n.value)]
    ensures |Items(l)| == |l|
  {
    if l == [] {
      assert l + [n] == [n];
    } else {
      assert (l + [n])[1..] == l[1..] + [n];
      ItemsSnoc(l[1..], n);
    }
  }

  class LRUCache<K(==), V> {
    const capacity: nat
    var list: seq<Node<K, V>>
    var index: map<K, nat>
    var nextId: nat

    /** The list and the index hold the same distinct keys, and the index points into the list. */
    ghost predicate Valid()
      reads this
    {
      && Distinct(Items(list))
      && index.Keys == KeySet(Items(list))
      && Indexes(index, list)
      && (forall k :: k in index ==> index[k] < nextId)
    }

    function Contents(): seq<(K, V)>
      reads this
    {
      Items(list)
    }

    constructor (capacity: nat)
      ensures Valid() && Contents() == [] && this.capacity == capacity
    {
      this.capacity := capacity;
      list, index, nextId := [], map[], 0;
    }

    method Clear()
      modifies this
      ensures Valid() && Contents() == []
    {
      list := [];
      index := map[];
    }

    method Put(k: K, v: V) returns (it: nat)
      requires Valid()
      modifies this
      ensures Valid() && Contents() == LruModel.Put(capacity, old(Contents()), k, v)
      ensures list != [] && list[|list| - 1] == Node(it, k, v)
    {
      hide Indexes; hide Distinct;
      HasIsKey(Contents(), k);
      KeysCardinality(Contents());
      ItemsSnoc(list, Node(nextId, k, v));
      if k !in index {
        if capacity > 0 && |index| >= capacity {
          PopFront();
        }
      } else {
        EraseKey(k);
      }
      it := Append(k, v);
    }

    /** Appending a fresh node for an absent key keeps list and index in step. */
    method Append(k: K, v: V) returns (it: nat)
      requires Valid() && k !in index
      modifies this
      ensures Valid() && Contents() == old(Contents()) + [(k, v)]
      ensures list != [] && list[|list| - 1] == Node(it, k, v)
    {
      HasIsKey(Contents(), k);
      ItemsSnoc(list, Node(nextId, k, v));
      SnocDistinct(Contents(), (k, v));
      Snoc(Contents(), (k, v), k);
      it := nextId;
      list := list + [Node(it, k, v)];
      index := index[k := it];
      nextId := nextId + 1;
    }

    method PopFront()
      requires Valid() && list != []
      modifies this
      ensures Valid() && Contents() == old(Contents())[1..]
      ensures index.Keys <= old(index.Keys)
    {
      ghost var items := Contents();
      assert items[1..] == Items(list[1..]);
      HasIsKey(items[1..], items[0].0);
      forall n | n in list[1..] ensures n.key != list[0].key { NodeHas(list[1..], n); }
      index := index - {list[0].key};
      list := list[1..];
    }

    /** Erases the node of a stored key, through the iterator the index holds. */
    method EraseKey(k: K)
      requires Valid() && k in index
      modifies this
      ensures Valid() && Contents() == Without(old(Contents()), k) && index.Keys == old(index.Keys) - {k}
    {
      Removal(Contents(), k, k);
      EraseIsWithout(index, list, k);
      list := Erase(list, index[k]);
      index := index - {k};
    }

    method Get(k: K) returns (r: Option<(K, V)>)
      requires Valid()
      modifies this
      ensures Valid() && Contents() == Without(old(Contents()), k)
      ensures r == match Lookup(old(Contents()), k) case None => None case Some(v) => Some((k, v))
    {
      HasIsKey(Contents(), k);
      Removal(Contents(), k, k);
      if k !in index {
        return None;
      }
      var n := At(k);
      EraseKey(k);
      return Some((n.key, n.value));
    }

    /** The node an index entry points to. */
    method At(k: K) returns (n: Node<K, V>)
      requires Valid() && k in index
      ensures n in list && n.id == index[k] && n.key == k && Lookup(Contents(), k) == Some(n.value)
    {
      HasIsKey(Contents(), k);
      ghost var g := HasNode(list, k);
      assert exists i :: 0 <= i < |list| && list[i].id == index[k];
      var i :| 0 <= i < |list| && list[i].id == index[k];
      n := list[i];
      NodeHas(list, n);
    }

    /** An iterator is returned exactly for a stored key, and points to its item. */
    method Find(k: K) returns (it: Option<nat>)
      requires Valid()
      ensures it.Some? <==> Has(Contents(), k)
      ensures it.Some? ==>
                exists n :: n in list && n.id == it.value && n.key == k && Lookup(Contents(), k) == Some(n.value)
    {
      HasIsKey(Contents(), k);
      if k in index {
        var n := At(k);
        it := Some(index[k]);
      } else {
        it := None;
      }
    }
  }
}
