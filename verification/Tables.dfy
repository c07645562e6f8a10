// The chained hash table, as a refinement of a finite map.
module Tables {
  import opened Basics
  import opened Lists

  class Entry<K, V> {
    const key: K
    var val: V

    constructor (key: K, val: V)
      ensures this.key == key && this.val == val
    {
      this.key := key;
      this.val := val;
    }
  }

  // The comparison of the source is equality of key contents; the hash may be any function of the key.
  class HashTable<K(==), V> {
    const hash: K -> nat
    const buckets: seq<List<Entry<K, V>>>   // filled by the constructor and fixed from then on
    ghost var M: map<K, V>
    ghost var Repr: set<object>

    ghost predicate Valid()
      reads this, Repr
      ensures Valid() ==> this in Repr
    {
      && this in Repr
      && |buckets| > 0
      && (forall i :: 0 <= i < |buckets| ==> Owned(i))
      && (forall i, j :: 0 <= i < j < |buckets| ==> Apart(i, j))
      && (forall i :: 0 <= i < |buckets| ==> Keyed(i))
      && (forall k :: k in M ==> Present(k))
    }

    // Bucket i is a list of this table.
    ghost predicate Owned(i: int)
      requires 0 <= i < |buckets|
      reads this, Repr
    {
      && buckets[i] in Repr
      && (forall n :: n in buckets[i].nodes ==> n in Repr)
      && (forall e :: e in buckets[i].contents ==> e in Repr)
      && buckets[i].Valid()
    }

    // Different buckets share no memory.
    ghost predicate Apart(i: int, j: int)
      requires 0 <= i < |buckets| && 0 <= j < |buckets| && Owned(i) && Owned(j)
      reads this, Repr
    {
      buckets[i] != buckets[j] && forall n :: n in buckets[i].nodes ==> n !in buckets[j].nodes
    }

    // Bucket i holds keys that hash to it, each at most once, with their values.
    ghost predicate Keyed(i: int)
      requires 0 <= i < |buckets| && Owned(i)
      reads this, Repr
    {
      var c := buckets[i].contents;
      && (forall e :: e in c ==> Slot(e.key) == i && e.key in M && M[e.key] == e.val)
      && (forall p, q :: 0 <= p < q < |c| ==> c[p].key != c[q].key)
    }

    ghost predicate Present(k: K)
      requires |buckets| > 0 && Owned(Slot(k))
      reads this, Repr
    {
      exists e :: e in buckets[Slot(k)].contents && e.key == k
    }

    function Slot(k: K): (i: nat)
      requires |buckets| > 0
      ensures i < |buckets|
    {
      hash(k) % |buckets|
    }

    // hash_new
    constructor (numBuckets: nat, hash: K -> nat)
      requires numBuckets > 0
      ensures Valid() && fresh(Repr) && M == map[]
      ensures this.hash == hash && |buckets| == numBuckets
    {
      var bs: seq<List<Entry<K, V>>> := [];
      ghost var all: set<object> := {};
      for i := 0 to numBuckets
        invariant |bs| == i
        invariant forall j :: 0 <= j < i ==> bs[j].Valid() && bs[j].contents == [] && bs[j] in all
        invariant forall j, n :: 0 <= j < i && n in bs[j].nodes ==> n in all
        invariant forall j, k :: 0 <= j < k < i ==>
                    bs[j] != bs[k] && forall n :: n in bs[j].nodes ==> n !in bs[k].nodes
        invariant fresh(all)
      {
        var b := new List<Entry<K, V>>.Empty();
        bs := bs + [b];
        all := all + {b, b.inner};
      }
      this.hash := hash;
      buckets := bs;
      M := map[];
      Repr := all + {this};
    }

    // hash_lookup: the walk compares keys along one bucket; absence is the source's (void *) -1.
    method Lookup(key: K) returns (val: Option<V>)
      requires Valid()
      ensures val == if key in M then Some(M[key]) else None
    {
      var bucket := buckets[hash(key) % |buckets|];
      var temp: Node?<Entry<K, V>> := bucket.inner;
      assert Owned(Slot(key)) && Keyed(Slot(key));
      for i := 0 to bucket.length
        invariant temp == if i < |bucket.nodes| then bucket.nodes[i] else null
        invariant forall p :: 0 <= p < i ==> bucket.contents[p].key != key
      {
        var ent := temp.elt.value;
        assert ent == bucket.contents[i];
        if key == ent.key {
          return Some(ent.val);
        }
        assert bucket.LinkedAt(i);
        temp := temp.next;
      }
      assert key in M ==> Present(key);
      return None;
    }

    // hash_insert: the whole bucket is searched; an equal key has its value overwritten in place, otherwise
    // a new entry goes to the end of the bucket.
    method Insert(key: K, val: V)
      requires Valid()
      modifies Repr
      ensures Valid() && fresh(Repr - old(Repr)) && old(Repr) <= Repr
      ensures M == old(M)[key := val]
    {
      var elt := Find(key);
      assert Owned(Slot(key));
      if elt != null {
        Overwrite(elt, val);
      } else {
        var b := new Entry(key, val);
        InsertNew(b);
      }
    }

    // The entry of a key, null if there is none.
    method Find(key: K) returns (elt: Entry?<K, V>)
      requires Valid()
      ensures elt == null ==> key !in M
      ensures elt != null ==> elt in buckets[Slot(key)].contents && elt.key == key
    {
      var bucket := buckets[hash(key) % |buckets|];
      var temp: Node?<Entry<K, V>> := bucket.inner;
      assert Owned(Slot(key)) && Keyed(Slot(key));
      elt := null;
      for i := 0 to bucket.length
        invariant temp == if i < |bucket.nodes| then bucket.nodes[i] else null
        invariant elt == null ==> forall p :: 0 <= p < i ==> bucket.contents[p].key != key
        invariant elt != null ==> elt in bucket.contents && elt.key == key
      {
        var ent := temp.elt.value;
        assert ent == bucket.contents[i];
        if key == ent.key {
          elt := ent;
        }
        assert bucket.LinkedAt(i);
        temp := temp.next;
      }
      assert key in M ==> Present(key);
    }

    method Overwrite(elt: Entry<K, V>, val: V)
      requires Valid() && elt in buckets[Slot(elt.key)].contents
      modifies this`M, elt
      ensures Valid() && Repr == old(Repr)
      ensures M == old(M)[elt.key := val]
    {
      assert forall i :: 0 <= i < |buckets| ==> Owned(i) && Keyed(i);
      elt.val := val;
      M := M[elt.key := val];
      forall i | 0 <= i < |buckets| ensures Owned(i) { assert old(Owned(i)); }
      forall i, j | 0 <= i < j < |buckets| ensures Apart(i, j) { assert old(Apart(i, j)); }
      forall i | 0 <= i < |buckets| ensures Keyed(i) { assert old(Keyed(i)); }
      forall k | k in M ensures Present(k) { assert k != elt.key ==> old(Present(k)); }
    }

    // What AddTo leaves behind, seen from the state before it.
    twostate predicate Added(s: nat, new b: Entry<K, V>)
      requires s < |buckets|
      reads this, Repr
    {
      && old(Repr) <= Repr && this in Repr && b in Repr
      && (forall i :: 0 <= i < |buckets| ==>
            buckets[i] in Repr && (forall n :: n in buckets[i].nodes ==> n in Repr) && buckets[i].Valid())
      && buckets[s].contents == old(buckets[s].contents) + [b]
      && (forall n :: n in buckets[s].nodes ==> n in old(buckets[s].nodes) || fresh(n))
      && (forall i :: 0 <= i < |buckets| && i != s ==>
            buckets[i].contents == old(buckets[i].contents) && buckets[i].nodes == old(buckets[i].nodes))
    }

    // Adding to one bucket leaves the others alone.
    method AddTo(s: nat, b: Entry<K, V>)
      requires Valid() && s < |buckets| && b !in Repr
      modifies this, buckets[s], buckets[s].nodes
      ensures Added(s, b) && M == old(M)[b.key := b.val]
      ensures fresh(Repr - old(Repr) - {b})
    {
      assert Owned(s);
      forall i | 0 <= i < |buckets| && i != s
        ensures buckets[i] != buckets[s] && forall n :: n in buckets[i].nodes ==> n !in buckets[s].nodes
      {
        assert Owned(i);
        if i < s { assert Apart(i, s); } else { assert Apart(s, i); }
      }
      buckets[s].Add(b);
      Repr := Repr + {b, buckets[s].last};
      M := M[b.key := b.val];
      forall i | 0 <= i < |buckets| && i != s
        ensures buckets[i].Valid() && buckets[i].contents == old(buckets[i].contents)
                && buckets[i].nodes == old(buckets[i].nodes)
      {
        assert old(Owned(i));
        assert unchanged(buckets[i]);
        forall j | 0 <= j < |buckets[i].nodes| ensures unchanged(buckets[i].nodes[j]) {
          assert buckets[i].nodes[j] in buckets[i].nodes;
        }
        buckets[i].StaysValid();
      }
      forall i | 0 <= i < |buckets| ensures buckets[i] in Repr { assert old(Owned(i)); }
      forall i, n | 0 <= i < |buckets| && n in buckets[i].nodes ensures n in Repr { assert old(Owned(i)); }
    }

    method InsertNew(b: Entry<K, V>)
      requires Valid() && b !in Repr && b.key !in M
      modifies Repr
      ensures Valid() && fresh(Repr - old(Repr) - {b}) && old(Repr) <= Repr
      ensures M == old(M)[b.key := b.val]
    {
      var s := Slot(b.key);
      assert Owned(s) && Keyed(s);
      AddTo(s, b);
      KeepsShape(s, b);
      KeepsKeys(s, b);
    }

    twostate lemma KeepsShape(s: nat, new b: Entry<K, V>)
      requires old(Valid()) && s < |buckets| && Added(s, b)
      ensures forall i :: 0 <= i < |buckets| ==> Owned(i)
      ensures forall i, j :: 0 <= i < j < |buckets| ==> Apart(i, j)
    {
      forall i | 0 <= i < |buckets| ensures Owned(i) { assert old(Owned(i)); }
      forall i, j | 0 <= i < j < |buckets| ensures Apart(i, j) {
        assert old(Apart(i, j)) && old(Owned(i)) && old(Owned(j));
      }
    }

    twostate lemma KeepsKeys(s: nat, new b: Entry<K, V>)
      requires old(Valid()) && s < |buckets| && Added(s, b) && forall i :: 0 <= i < |buckets| ==> Owned(i)
      requires s == Slot(b.key) && b.key !in old(M) && M == old(M)[b.key := b.val]
      requires forall e: Entry<K, V> :: e in old(Repr) ==> e.val == old(e.val)
      ensures forall i :: 0 <= i < |buckets| ==> Keyed(i)
      ensures forall k :: k in M ==> Present(k)
    {
      forall i | 0 <= i < |buckets| ensures Keyed(i) { assert old(Keyed(i)) && old(Owned(i)); }
      forall k | k in M ensures Present(k) {
        assert Owned(Slot(k));
        if k == b.key {
          assert b in buckets[s].contents;
        } else {
          assert old(Present(k));
        }
      }
    }
  }
}
