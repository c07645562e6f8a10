// The growable vector that the symbol table uses as an append-only arena.
module Vectors {
  class PtrVec<T(0)> {
    var data: array<T>
    var length: nat
    var capacity: nat
    ghost var contents: seq<T>
    ghost var initial: nat   // the capacity it was created with
    ghost var copied: nat    // words moved by reallocation so far

    ghost predicate Valid()
      reads this, data
    {
      && data.Length == capacity && 1 <= initial
      && length < capacity
      && contents == data[..length]
      && copied + initial == capacity
      && (capacity == initial || capacity <= 2 * length)
    }

    // ptrvec_wcap; growing by doubling needs at least one slot to start from.
    constructor WithCapacity(cap: nat)
      ensures contents == [] && fresh(data) && data.Length == capacity == cap
      ensures cap >= 1 ==> Valid()
    {
      data := new T[cap];
      length := 0;
      capacity := cap;
      contents := [];
      initial := cap;
      copied := 0;
    }

    // ptrvec_reserve
    method Reserve(len: nat)
      requires data.Length == capacity && 1 <= capacity && len <= capacity
      modifies this`data, this`capacity, this`copied
      ensures data.Length == capacity && len < capacity
      ensures if len < old(capacity) then data == old(data) && capacity == old(capacity) && copied == old(copied)
              else fresh(data) && capacity == 2 * old(capacity) && copied == old(copied) + old(capacity)
      ensures data[..old(capacity)] == old(data[..])
    {
      if len < capacity {
        return;
      }
      var grown := new T[2 * capacity];
      for i := 0 to capacity
        invariant data == old(data) && copied == old(copied) && capacity == old(capacity) == data.Length && fresh(grown)
        invariant grown[..i] == data[..i] == old(data[..i])
      {
        grown[i] := data[i];
      }
      copied := copied + capacity;
      capacity := 2 * capacity;
      data := grown;
    }

    // ptrvec_push: the returned index is the element's id for good.
    method Push(elem: T) returns (idx: nat)
      requires Valid()
      modifies this, data
      ensures Valid() && contents == old(contents) + [elem] && idx == |old(contents)|
      ensures data == old(data) || fresh(data)
      ensures initial == old(initial)
    {
      idx := length;
      length := length + 1;
      Reserve(length);
      assert data[..idx] == old(contents);
      data[idx] := elem;
      contents := contents + [elem];
    }

    function At(i: nat): (elem: T)
      requires Valid() && i < length
      reads this, data
      ensures elem == contents[i]
    {
      data[i]
    }

    // n pushes move fewer than 2n words in total.
    lemma GrowthIsLinear()
      requires Valid()
      ensures copied == 0 || copied < 2 * length
    {
    }
  }
}
