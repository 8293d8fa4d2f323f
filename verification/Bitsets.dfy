/** Sets of indexes below a capacity, and their enumeration in ascending order. */
module Bitsets {
  const BITSET_NONE: nat := 0xFFFF_FFFF

  /** The least member at or above `index` and below `capacity`. */
  function NextMember(members: set<nat>, index: nat, capacity: nat): (next: nat)
    requires capacity < BITSET_NONE
    ensures next != 0xFFFF_FFFF ==> index <= next < capacity && next in members
    ensures forall i | index <= i < capacity && i in members :: next <= i
    ensures next == 0xFFFF_FFFF ==> forall i | index <= i < capacity :: i !in members
    decreases capacity - index
  {
    if index >= capacity then BITSET_NONE
    else if index in members then index
    else NextMember(members, index + 1, capacity)
  }

  /** A 64-bit word, as the set of positions of its set bits. */
  type Word = w: set<nat> | forall b | b in w :: b < 64

  class BitSet {
    const capacity: nat
    // nchunks words, and after them whatever happens to follow in memory.
    const chunks: array<Word>

    predicate Valid()
    {
      && capacity + 64 < 0x1_0000_0000
      && chunks.Length == (capacity + 63) / 64 + 1
    }

    predicate Holds(i: nat)
      requires Valid() && i < capacity
      reads chunks
    {
      i % 64 in chunks[i / 64]
    }

    ghost function Members(): (members: set<nat>)
      requires Valid()
      reads chunks
      ensures forall i: nat :: i in members <==> i < capacity && Holds(i)
    {
      set i | 0 <= i < capacity && Holds(i)
    }

    constructor (capacity: nat)
      requires capacity + 64 < 0x1_0000_0000
      ensures Valid() && fresh(chunks) && this.capacity == capacity && Members() == {}
    {
      this.capacity := capacity;
      chunks := new Word[(capacity + 63) / 64 + 1](_ => {});
    }

    /** Clear the words that belong to the set; the one after them stays. */
    method Reset()
      requires Valid()
      modifies chunks
      ensures Members() == {}
      ensures chunks[chunks.Length - 1] == old(chunks[chunks.Length - 1])
    {
      for c := 0 to chunks.Length - 1
        invariant forall d | 0 <= d < c :: chunks[d] == {}
        invariant chunks[chunks.Length - 1] == old(chunks[chunks.Length - 1])
      {
        chunks[c] := {};
      }
    }

    method Set(index: nat)
      requires Valid() && index < capacity
      modifies chunks
      ensures Members() == old(Members()) + {index}
    {
      chunks[index / 64] := chunks[index / 64] + {index % 64};
      assert forall i | 0 <= i < capacity && i != index :: i / 64 == index / 64 ==> i % 64 != index % 64;
    }

    method Unset(index: nat)
      requires Valid() && index < capacity
      modifies chunks
      ensures Members() == old(Members()) - {index}
    {
      chunks[index / 64] := chunks[index / 64] - {index % 64};
      assert forall i | 0 <= i < capacity && i != index :: i / 64 == index / 64 ==> i % 64 != index % 64;
    }

    method Get(index: nat) returns (present: bool)
      requires Valid() && index < capacity
      ensures present <==> index in Members()
    {
      present := index % 64 in chunks[index / 64];
    }

    /** Find the least member at or above `start`, testing one bit at a time but
        skipping over words that are zero. */
    method NextSetBit(start: nat) returns (next: nat)
      requires Valid() && start < 0x1_0000_0000
      ensures next == NextMember(Members(), start, capacity)
    {
      var index, chunk, bit := start, start / 64, start % 64;
      while index < capacity
        invariant index < capacity ==> chunk == index / 64 && bit == index % 64
        invariant start <= index && forall i | start <= i < index && i < capacity :: !Holds(i)
        decreases capacity - index
      {
        if bit in chunks[chunk] {
          NextMemberIs(Members(), start, capacity, index);
          return index;
        }
        bit := bit + 1;
        index := index + 1;
        if bit == 64 {
          bit := 0;
          chunk := chunk + 1;
          while chunks[chunk] == {}
            invariant chunk == index / 64 && index % 64 == 0 && chunk < chunks.Length
            invariant start <= index && forall i | start <= i < index && i < capacity :: !Holds(i)
            decreases capacity - index
          {
            chunk := chunk + 1;
            assert forall i | index <= i < index + 64 :: i / 64 == index / 64;
            index := index + 64;
            if index >= capacity {
              NextMemberIs(Members(), start, capacity, BITSET_NONE);
              return BITSET_NONE;
            }
          }
        }
      }
      NextMemberIs(Members(), start, capacity, BITSET_NONE);
      next := BITSET_NONE;
    }

    /** Visit the members one after another and add them up. */
    method Enumerate() returns (total: nat)
      requires Valid()
      ensures total == Sum(Listing(Members(), 0, capacity)) % 0x1_0000_0000
    {
      hide Visiting, Sum, Listing, Members, Holds;
      total := 0;
      ghost var members, visited, from: nat := Members(), [], 0;
      VisitNone(members, capacity);
      var elem := NextSetBit(0);
      while elem != BITSET_NONE
        invariant from <= capacity && elem == NextMember(members, from, capacity)
        invariant Visiting(members, capacity, visited, from, total)
        decreases capacity - from
      {
        VisitOne(members, capacity, visited, from, total);
        total := (total + elem) % 0x1_0000_0000;
        visited := visited + [elem];
        from := elem + 1;
        elem := NextSetBit(elem + 1);
      }
      VisitedAll(members, capacity, visited, from, total);
    }
  }

  /** The members from `from` on: each exactly once, in ascending order. */
  function Listing(members: set<nat>, from: nat, capacity: nat): (list: seq<nat>)
    requires capacity < BITSET_NONE && from <= capacity
    ensures forall m: nat :: m in list <==> from <= m < capacity && m in members
    ensures forall i, k | 0 <= i < k < |list| :: list[i] < list[k]
    decreases capacity - from
  {
    var next := NextMember(members, from, capacity);
    if next == BITSET_NONE then []
    else
      var rest := Listing(members, next + 1, capacity);
      assert forall k | 0 <= k < |rest| :: rest[k] in rest;
      [next] + rest
  }

  /** The members before `from` were visited, in order, and add up to the total. */
  ghost predicate Visiting(members: set<nat>, capacity: nat, visited: seq<nat>, from: nat, total: nat)
    requires capacity < BITSET_NONE && from <= capacity
  {
    Listing(members, 0, capacity) == visited + Listing(members, from, capacity)
    && total == Sum(visited) % 0x1_0000_0000
  }

  lemma VisitNone(members: set<nat>, capacity: nat)
    requires capacity < BITSET_NONE
    ensures Visiting(members, capacity, [], 0, 0)
  {
    assert Listing(members, 0, capacity) == [] + Listing(members, 0, capacity);
  }

  lemma VisitOne(members: set<nat>, capacity: nat, visited: seq<nat>, from: nat, total: nat)
    requires capacity < BITSET_NONE && from <= capacity && Visiting(members, capacity, visited, from, total)
    requires NextMember(members, from, capacity) != BITSET_NONE
    ensures var elem := NextMember(members, from, capacity);
            Visiting(members, capacity, visited + [elem], elem + 1, (total + elem) % 0x1_0000_0000)
  {
    hide Sum, Listing, NextMember;
    OneListed(members, from, capacity, visited);
    SumOneMore(visited, NextMember(members, from, capacity));
  }

  lemma OneListed(members: set<nat>, from: nat, capacity: nat, visited: seq<nat>)
    requires capacity < BITSET_NONE && from <= capacity && NextMember(members, from, capacity) != BITSET_NONE
    ensures var elem := NextMember(members, from, capacity);
            visited + Listing(members, from, capacity) == visited + [elem] + Listing(members, elem + 1, capacity)
  {
    hide NextMember;
    var elem := NextMember(members, from, capacity);
    var rest := Listing(members, elem + 1, capacity);
    assert Listing(members, from, capacity) == [elem] + rest;
    hide Listing;
    assert visited + ([elem] + rest) == visited + [elem] + rest;
  }

  lemma SumOneMore(s: seq<nat>, x: nat)
    ensures Sum(s + [x]) % 0x1_0000_0000 == (Sum(s) % 0x1_0000_0000 + x) % 0x1_0000_0000
  {
    assert (s + [x])[..|s|] == s;
  }

  lemma VisitedAll(members: set<nat>, capacity: nat, visited: seq<nat>, from: nat, total: nat)
    requires capacity < BITSET_NONE && from <= capacity && Visiting(members, capacity, visited, from, total)
    requires NextMember(members, from, capacity) == BITSET_NONE
    ensures total == Sum(Listing(members, 0, capacity)) % 0x1_0000_0000
  {
    assert visited + Listing(members, from, capacity) == visited;
  }

  function Sum(s: seq<nat>): nat {
    if s == [] then 0 else Sum(s[..|s| - 1]) + s[|s| - 1]
  }

  /** The next member is determined by what it must satisfy. */
  lemma NextMemberIs(members: set<nat>, index: nat, capacity: nat, next: nat)
    requires capacity < BITSET_NONE
    requires if next == BITSET_NONE then forall i | index <= i < capacity :: i !in members
             else index <= next < capacity && next in members && forall i | index <= i < next :: i !in members
    ensures NextMember(members, index, capacity) == next
  {}
}
