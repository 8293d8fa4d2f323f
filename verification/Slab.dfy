/** An allocator that cuts small regions off a chain of slabs and takes them all
    back at once. */
module Slabs {
  const DEFAULT_SLAB_SIZE: nat := 1024 * 1024

  /** Where an allocation lands: the number of its slab in the chain, and its first
      and one-past-last byte there. */
  datatype Place = Place(slab: nat, start: nat, end: nat)

  /** The state after a series of allocations since the last release: which slab is
      in use and how much of it is taken. */
  function Taken(size: nat, sizes: seq<nat>): (p: Place)
  {
    if sizes == [] then Place(0, 0, 0)
    else
      var before, bytes := Taken(size, sizes[..|sizes| - 1]), sizes[|sizes| - 1];
      if bytes > size then before
      else if before.end + bytes >= size then Place(before.slab + 1, 0, bytes)
      else Place(before.slab, before.end, before.end + bytes)
  }

  /** The k-th allocation of a series. */
  function Nth(size: nat, sizes: seq<nat>, k: nat): Place
    requires k < |sizes|
  { Taken(size, sizes[..k + 1]) }

  lemma Step(size: nat, sizes: seq<nat>, bytes: nat)
    ensures var p, q := Taken(size, sizes), Taken(size, sizes + [bytes]);
            q == if bytes > size then p
                 else if p.end + bytes >= size then Place(p.slab + 1, 0, bytes)
                 else Place(p.slab, p.end, p.end + bytes)
  {
    assert (sizes + [bytes])[..|sizes|] == sizes;
  }

  /** Positions only move forward. */
  lemma {:induction false} Forward(size: nat, sizes: seq<nat>, j: nat)
    requires j <= |sizes|
    ensures var p, q := Taken(size, sizes[..j]), Taken(size, sizes);
            p.slab < q.slab || (p.slab == q.slab && p.end <= q.end)
  {
    if j < |sizes| {
      var init := sizes[..|sizes| - 1];
      assert init[..j] == sizes[..j];
      Forward(size, init, j);
    } else {
      assert sizes[..j] == sizes;
    }
  }

  /** Every region lies within one slab, and no two overlap. */
  lemma RegionsDisjoint(size: nat, sizes: seq<nat>, j: nat, k: nat)
    requires j < k < |sizes| && sizes[j] <= size && sizes[k] <= size
    ensures var p, q := Nth(size, sizes, j), Nth(size, sizes, k);
            p.end <= size && p.end - p.start == sizes[j] && q.end <= size && q.end - q.start == sizes[k]
            && (p.slab != q.slab || p.end <= q.start)
  {
    assert sizes[..j + 1][..j] == sizes[..j];
    assert sizes[..k + 1][..k] == sizes[..k];
    assert sizes[..k][..j + 1] == sizes[..j + 1];
    Forward(size, sizes[..k], j + 1);
  }

  class Slab {
    var next: Slab?
    constructor ()
      ensures next == null
    { next := null; }
  }

  /** An address: a byte of a slab. */
  datatype Address = Null | At(slab: Slab, offset: nat)

  /** The addresses a series of allocations gets from a chain of slabs. */
  ghost function Given(chain: seq<Slab>, size: nat, sizes: seq<nat>): (g: seq<Address>)
    requires Taken(size, sizes).slab < |chain|
    ensures |g| == |sizes|
  {
    if sizes == [] then []
    else
      var init, t := sizes[..|sizes| - 1], Taken(size, sizes);
      Given(chain, size, init)
      + [if sizes[|sizes| - 1] > size then Null else At(chain[t.slab], t.start)]
  }

  /** A series gets the same addresses again from any longer chain. */
  lemma {:induction false} Replay(chain: seq<Slab>, longer: seq<Slab>, size: nat, sizes: seq<nat>)
    requires chain <= longer && Taken(size, sizes).slab < |chain|
    ensures Given(longer, size, sizes) == Given(chain, size, sizes)
  {
    if sizes == [] {
    } else {
      Replay(chain, longer, size, sizes[..|sizes| - 1]);
    }
  }

  /** Two regions handed out since the last release never share a byte. */
  lemma GivenDisjoint(chain: seq<Slab>, size: nat, sizes: seq<nat>, j: nat, k: nat)
    requires Taken(size, sizes).slab < |chain|
    requires forall a, b | 0 <= a < b < |chain| :: chain[a] != chain[b]
    requires j < k < |sizes| && sizes[j] <= size && sizes[k] <= size
    ensures var p, q := Given(chain, size, sizes)[j], Given(chain, size, sizes)[k];
            p.At? && q.At? && p.slab in chain && q.slab in chain
            && p.offset + sizes[j] <= size && q.offset + sizes[k] <= size
            && (p.slab != q.slab || p.offset + sizes[j] <= q.offset)
  {
    RegionsDisjoint(size, sizes, j, k);
    NthGiven(chain, size, sizes, j);
    NthGiven(chain, size, sizes, k);
  }

  lemma {:induction false} NthGiven(chain: seq<Slab>, size: nat, sizes: seq<nat>, k: nat)
    requires k < |sizes| && Taken(size, sizes).slab < |chain|
    ensures var p := Nth(size, sizes, k);
            p.slab < |chain|
            && Given(chain, size, sizes)[k] == if sizes[k] > size then Null else At(chain[p.slab], p.start)
  {
    var init := sizes[..|sizes| - 1];
    if k < |init| {
      NthGiven(chain, size, init, k);
      assert init[..k + 1] == sizes[..k + 1];
    } else {
      assert sizes[..k + 1] == sizes;
    }
  }

  class Allocator {
    var slabSize: nat
    var head: Slab
    var last: Slab
    var cur: nat
    var totalSize: nat
    ghost var chain: seq<Slab>
    ghost var sizes: seq<nat>
    ghost var given: seq<Address>
    ghost var past: seq<seq<nat>>

    ghost predicate Chained(upTo: Slab)
      reads this, chain
    {
      chain != [] && head == chain[0] && chain[|chain| - 1] == upTo && upTo.next == null
      && (forall i, j | 0 <= i < j < |chain| :: chain[i] != chain[j])
      && (forall i | 0 <= i < |chain| - 1 :: chain[i].next == chain[i + 1])
    }

    /** The slabs are distinct and linked in order; the position in the chain and
        the addresses handed out are those of the allocations made since the last
        release; and no slab that an earlier series reached was lost. */
    ghost predicate Valid()
      reads this, chain
    {
      slabSize > 0 && chain != [] && Chained(chain[|chain| - 1])
      && totalSize == |chain| * slabSize
      && Taken(slabSize, sizes).slab < |chain|
      && last == chain[Taken(slabSize, sizes).slab] && cur == Taken(slabSize, sizes).end
      && given == Given(chain, slabSize, sizes)
      && forall e | e in past :: Taken(slabSize, e).slab < |chain|
    }

    /** A size of zero stands for the default size. */
    constructor (size: nat)
      ensures Valid() && sizes == [] && past == [] && |chain| == 1 && fresh(chain[0])
      ensures slabSize == if size == 0 then 1_048_576 else size
    {
      var s := new Slab();
      slabSize := if size == 0 then DEFAULT_SLAB_SIZE else size;
      head, last := s, s;
      cur, totalSize := 0, if size == 0 then DEFAULT_SLAB_SIZE else size;
      chain, sizes, given, past := [s], [], [], [];
    }

    /** Append a slab. */
    method NewSlab()
      requires chain != [] && Chained(last) && totalSize == |chain| * slabSize
      modifies this`last, this`cur, this`totalSize, this`chain, last
      ensures |chain| == |old(chain)| + 1 && chain[..|old(chain)|] == old(chain) && fresh(last)
      ensures Chained(last) && cur == 0 && totalSize == |chain| * slabSize
    {
      var s := new Slab();
      last.next := s;
      last := s;
      cur := 0;
      totalSize := totalSize + slabSize;
      chain := chain + [s];
    }

    /** Go on to the slab after the i-th, which is the one in use, adding it if the
        chain ends here. */
    method MoveOn(ghost i: nat)
      requires i < |chain| && last == chain[i] && Chained(chain[|chain| - 1]) && totalSize == |chain| * slabSize
      modifies this`last, this`cur, this`totalSize, this`chain, chain
      ensures old(chain) <= chain && forall s | s in chain[|old(chain)|..] :: fresh(s)
      ensures |chain| == if i + 1 < |old(chain)| then |old(chain)| else |old(chain)| + 1
      ensures last == chain[i + 1] && cur == 0
      ensures Chained(chain[|chain| - 1]) && totalSize == |chain| * slabSize
    {
      assert i < |chain| - 1 ==> chain[i].next == chain[i + 1];
      if last.next == null {
        NewSlab();
      } else {
        last := last.next;
        cur := 0;
      }
    }

    /** Cut a region off the slab in use, or off the next one if it does not fit. */
    method Alloc(bytes: nat) returns (r: Address)
      requires Valid()
      modifies this, chain
      ensures Valid() && slabSize == old(slabSize) && past == old(past)
      ensures sizes == old(sizes) + [bytes] && given == old(given) + [r]
      ensures r.Null? <==> bytes > slabSize
      ensures old(chain) <= chain && forall s | s in chain[|old(chain)|..] :: fresh(s)
      ensures |chain| == if Taken(slabSize, sizes).slab < |old(chain)| then |old(chain)| else |old(chain)| + 1
      ensures (exists e | e in past :: sizes <= e) ==> chain == old(chain)
    {
      hide Given, Taken;
      ghost var was, had := chain, sizes;
      sizes := sizes + [bytes];
      assert sizes[..|had|] == had;
      if bytes <= slabSize {
        if cur + bytes >= slabSize {
          MoveOn(Taken(slabSize, had).slab);
        }
        r := At(last, cur);
        cur := cur + bytes;
      } else {
        r := Null;
      }
      given := given + [r];
      Step(slabSize, had, bytes);
      OneMore(was, chain, slabSize, had, bytes);
      forall e | e in past && sizes <= e ensures Taken(slabSize, sizes).slab < |was| {
        Forward(slabSize, e, |sizes|);
        assert e[..|sizes|] == sizes;
      }
    }

    /** Take every region back; the slabs stay in the chain. */
    method Free()
      requires Valid()
      modifies this`last, this`cur, this`sizes, this`given, this`past
      ensures Valid() && sizes == [] && given == [] && past == old(past) + [old(sizes)]
    {
      past := past + [sizes];
      cur := 0;
      last := head;
      sizes, given := [], [];
    }
  }

  lemma OneMore(chain: seq<Slab>, longer: seq<Slab>, size: nat, sizes: seq<nat>, bytes: nat)
    requires chain <= longer && Taken(size, sizes).slab < |chain|
    requires Taken(size, sizes + [bytes]).slab < |longer|
    ensures var t := Taken(size, sizes + [bytes]);
            Given(longer, size, sizes + [bytes])
            == Given(chain, size, sizes) + [if bytes > size then Null else At(longer[t.slab], t.start)]
  {
    assert (sizes + [bytes])[..|sizes|] == sizes;
    Replay(chain, longer, size, sizes);
  }
}
