/** A binary heap of elements with priorities, in two arrays indexed from one, with
    a sentinel priority below all others at index zero. */
module Heaps {
  import opened Wrappers

  const DEFAULT_CAPACITY: nat := 1000000
  const MIN_CAPACITY: nat := 10

  /** A floating-point priority that is not NaN, by its rank in the order of the
      single-precision numbers; the least one is minus infinity. */
  const LOWEST: int := -0x7F80_0000
  type Priority = p: int | LOWEST <= p witness LOWEST

  datatype Item<T> = Item(elem: T, prio: Priority)

  function Zip<T>(elems: seq<T>, prios: seq<Priority>): (s: seq<Item<T>>)
    requires |elems| == |prios|
    ensures |s| == |elems| && forall k | 0 <= k < |s| :: s[k] == Item(elems[k], prios[k])
  { seq(|elems|, k requires 0 <= k < |elems| => Item(elems[k], prios[k])) }

  /** A parent is never above its children. */
  ghost predicate Heap<T>(s: seq<Item<T>>) {
    forall k | 2 <= k < |s| :: s[k / 2].prio <= s[k].prio
  }

  /** Heap order but for slot i, whose place between its parent and its children is
      already right for what may come between them. */
  ghost predicate HeapBut<T>(s: seq<Item<T>>, i: nat) {
    (forall k | 2 <= k < |s| && k != i && k / 2 != i :: s[k / 2].prio <= s[k].prio)
    && (2 <= i < |s| ==> forall k | 2 <= k < |s| && k / 2 == i :: s[i / 2].prio <= s[k].prio)
  }

  ghost predicate BelowChildren<T>(s: seq<Item<T>>, i: nat, p: Priority) {
    forall k | 2 <= k < |s| && k / 2 == i :: p <= s[k].prio
  }

  /** Filling slot i in order. */
  lemma FillSlot<T>(s: seq<Item<T>>, i: nat, x: Item<T>)
    requires 1 <= i < |s| && HeapBut(s, i) && BelowChildren(s, i, x.prio)
    requires i >= 2 ==> s[i / 2].prio <= x.prio
    ensures Heap(s[i := x])
  {
    var t := s[i := x];
    forall k | 2 <= k < |t| ensures t[k / 2].prio <= t[k].prio {
      if k != i && k / 2 != i {
        assert s[k / 2].prio <= s[k].prio;
      }
    }
  }

  /** Moving the parent down into slot i moves the slot up. */
  lemma SlotUp<T>(s: seq<Item<T>>, i: nat, p: Priority)
    requires 2 <= i < |s| && HeapBut(s, i) && BelowChildren(s, i, p) && s[i / 2].prio > p
    ensures HeapBut(s[i := s[i / 2]], i / 2) && BelowChildren(s[i := s[i / 2]], i / 2, p)
  {
    var t, j := s[i := s[i / 2]], i / 2;
    forall k | 2 <= k < |t| && k / 2 == j ensures s[j].prio <= t[k].prio {
    }
    if j >= 2 {
      assert s[j / 2].prio <= s[j].prio;
    }
    forall k | 2 <= k < |t| && k != j && k / 2 != j ensures t[k / 2].prio <= t[k].prio {
      if k / 2 != i {
        assert s[k / 2].prio <= s[k].prio;
      }
    }
  }

  /** Moving the lesser child up into slot i moves the slot down. */
  lemma SlotDown<T>(s: seq<Item<T>>, i: nat, c: nat)
    requires 1 <= i < |s| && HeapBut(s, i) && 2 <= c < |s| && c / 2 == i
    requires forall k | 2 <= k < |s| && k / 2 == i :: s[c].prio <= s[k].prio
    ensures HeapBut(s[i := s[c]], c)
  {
    var t := s[i := s[c]];
    forall k | 2 <= k < |t| && k != c && k / 2 != c ensures t[k / 2].prio <= t[k].prio {
      if k != i && k / 2 != i {
        assert s[k / 2].prio <= s[k].prio;
      }
    }
    forall k | 2 <= k < |t| && k / 2 == c ensures t[c / 2].prio <= t[k].prio {
      assert s[k / 2].prio <= s[k].prio;
    }
  }

  lemma {:induction false} RootIsLeast<T>(s: seq<Item<T>>, k: nat)
    requires Heap(s) && 1 <= k < |s|
    ensures s[1].prio <= s[k].prio
  {
    if k == 1 {
    } else {
      RootIsLeast(s, k / 2);
    }
  }

  ghost function Contents<T>(s: seq<Item<T>>): multiset<Item<T>>
    requires s != []
  { multiset(s[1..]) }

  /** Moving an item from slot j into slot i, and filling j instead of i, changes
      nothing in all. */
  lemma Moved<T>(s: seq<Item<T>>, i: nat, j: nat, x: Item<T>)
    requires 1 <= i < |s| && 1 <= j < |s| && i != j
    ensures Contents(s[i := s[j]][j := x]) == Contents(s[i := x])
  {
    var a := s[1..];
    assert s[i := s[j]][j := x][1..] == a[i - 1 := a[j - 1]][j - 1 := x];
    assert s[i := x][1..] == a[i - 1 := x];
  }

  /** Room for one more item: its slot is the last. */
  lemma LastSlot<T>(was: seq<Item<T>>, s: seq<Item<T>>, x: Item<T>)
    requires was != [] && |s| == |was| + 1 && s[..|was|] == was && Heap(was)
    ensures HeapBut(s, |was|) && BelowChildren(s, |was|, x.prio)
    ensures Contents(s[|was| := x]) == Contents(was) + multiset{x}
  {
    forall k | 2 <= k < |s| && k != |was| ensures s[k / 2].prio <= s[k].prio {
      assert was[k / 2].prio <= was[k].prio;
    }
    assert s[|was| := x][1..] == was[1..] + [x];
  }

  /** Taking the root out leaves the last item to be put back. */
  lemma TakeOut<T>(s: seq<Item<T>>)
    requires |s| > 1 && Heap(s)
    ensures Heap(s[..|s| - 1])
    ensures |s| > 2 ==>
      Contents(s[..|s| - 1][1 := s[|s| - 1]]) == Contents(s) - multiset{s[1]}
    ensures |s| == 2 ==> Contents(s) - multiset{s[1]} == multiset{}
  {
    var n := |s| - 1;
    if n > 1 {
      var mid := s[2..n];
      assert s[1..] == [s[1]] + mid + [s[n]];
      assert s[..n][1 := s[n]][1..] == [s[n]] + mid;
    } else {
      assert s[1..] == [s[1]];
    }
  }

  ghost predicate LesserChild<T>(s: seq<Item<T>>, i: nat, c: nat) {
    1 <= i && 2 * i < |s| && (c == 2 * i || (c == 2 * i + 1 && c < |s|))
    && s[c].prio <= s[2 * i].prio && (2 * i + 1 < |s| ==> s[c].prio <= s[2 * i + 1].prio)
  }

  lemma StopHere<T>(s: seq<Item<T>>, i: nat, c: nat, p: Priority)
    requires LesserChild(s, i, c) && p <= s[c].prio
    ensures BelowChildren(s, i, p)
  {}

  /** On the way down: item x is to go into slot i or below it. */
  ghost predicate GoingDown<T>(was: seq<Item<T>>, s: seq<Item<T>>, i: nat, x: Item<T>) {
    |s| == |was| && HeapBut(s, i) && 1 <= i && (2 <= i < |s| ==> s[i / 2].prio <= x.prio)
    && (|s| > 1 ==> i < |s| && Contents(s[i := x]) == Contents(was[1 := x]))
  }

  lemma DownStart<T>(was: seq<Item<T>>, x: Item<T>)
    requires was != [] && Heap(was)
    ensures GoingDown(was, was, 1, x)
  {}

  lemma DownStep<T>(was: seq<Item<T>>, s: seq<Item<T>>, i: nat, c: nat, x: Item<T>)
    requires GoingDown(was, s, i, x) && LesserChild(s, i, c) && s[c].prio <= x.prio
    ensures GoingDown(was, s[i := s[c]], c, x)
  {
    SlotDown(s, i, c);
    Moved(s, i, c, x);
  }

  lemma DownDone<T>(was: seq<Item<T>>, s: seq<Item<T>>, i: nat, x: Item<T>)
    requires s != [] && GoingDown(was, s, i, x)
    requires |s| <= 2 * i || BelowChildren(s, i, x.prio)
    ensures |s| == 1 ==> Heap(s) && Contents(s) == multiset{}
    ensures |s| > 1 ==> Heap(s[i := x]) && Contents(s[i := x]) == Contents(was[1 := x])
  {
    if |s| > 1 { FillSlot(s, i, x); }
  }

  class BinHeap<T(0)> {
    var prio: array<Priority>
    var elem: array<T>
    var size: nat
    var capacity: nat

    ghost function Slots(n: nat): (s: seq<Item<T>>)
      requires n < prio.Length && n < elem.Length
      reads this`prio, this`elem, prio, elem
      ensures |s| == n + 1
    { Zip(elem[..n + 1], prio[..n + 1]) }

    /** Priorities and elements live in different arrays, also when elements are
        priorities themselves. */
    ghost predicate Separate()
      reads this`prio, this`elem
    {
      var p: object, e: object := prio, elem;
      p != e
    }

    ghost predicate Allocated()
      reads this`prio, this`elem, this`size, this`capacity, prio, elem
    {
      Separate() && prio.Length == elem.Length == capacity + 1 && size <= capacity && MIN_CAPACITY <= capacity
      && prio[0] == LOWEST
    }

    ghost predicate Valid()
      reads this, prio, elem
    { Allocated() && Heap(Slots(size)) }

    ghost function Items(): multiset<Item<T>>
      requires Valid()
      reads this, prio, elem
    { Contents(Slots(size)) }

    constructor (cap: nat)
      ensures Valid() && fresh(prio) && fresh(elem) && Items() == multiset{}
      ensures capacity == if cap == 0 then 1_000_000 else if cap < 10 then 10 else cap
      ensures prio[0] == -0x7F80_0000
    {
      var c := if cap == 0 then DEFAULT_CAPACITY else cap;
      c := if c < MIN_CAPACITY then MIN_CAPACITY else c;
      capacity := c;
      elem := new T[c + 1];
      prio := new Priority[c + 1];
      size := 0;
      new;
      prio[0] := LOWEST;
    }

    method Reset()
      requires Valid()
      modifies this`size
      ensures Valid() && Items() == multiset{}
    { size := 0; }

    method PeekMin() returns (r: Option<Item<T>>)
      requires Valid()
      ensures r.None? <==> Items() == multiset{}
      ensures r.Some? ==> r.value in Items() && forall x | x in Items() :: r.value.prio <= x.prio
    {
      if size == 0 { return None; }
      Least();
      r := Some(Item(elem[1], prio[1]));
    }

    lemma Least()
      requires Valid() && size > 0
      ensures Slots(size)[1] in Items() && forall x | x in Items() :: Slots(size)[1].prio <= x.prio
    {
      var s := Slots(size);
      assert s[1] == s[1..][0];
      forall x | x in Contents(s) ensures s[1].prio <= x.prio {
        var k :| 0 <= k < |s[1..]| && s[1..][k] == x;
        RootIsLeast(s, k + 1);
      }
    }

    /** More room; what is there stays. */
    method Resize(cap: nat)
      requires prio.Length == elem.Length == capacity + 1 && capacity <= cap
      modifies this`capacity, this`prio, this`elem
      ensures Separate() && prio.Length == elem.Length == capacity + 1 && capacity == cap && fresh(prio) && fresh(elem)
      ensures Slots(old(capacity)) == old(Slots(capacity))
    {
      var newPrio := new Priority[cap + 1];
      var newElem := new T[cap + 1];
      forall k | 0 <= k <= capacity { newPrio[k] := prio[k]; }
      forall k | 0 <= k <= capacity { newElem[k] := elem[k]; }
      prio, elem, capacity := newPrio, newElem, cap;
    }

    method Insert(e: T, p: Priority)
      requires Valid()
      modifies this, prio, elem
      ensures Valid() && Items() == old(Items()) + multiset{Item(e, p)}
      ensures capacity == if old(size) == old(capacity) then 2 * old(capacity) else old(capacity)
      ensures capacity == old(capacity) ==> prio == old(prio) && elem == old(elem)
      ensures capacity != old(capacity) ==> fresh(prio) && fresh(elem)
    {
      hide Heap, Contents;
      ghost var s := Slots(capacity);
      assert Slots(size) == s[..size + 1];
      size := size + 1;
      if size > capacity { Resize(capacity * 2); }
      assert Slots(size - 1) == s[..size];
      assert prio[0] == s[0].prio;
      SiftUp(e, p);
    }

    method Put(i: nat, e: T, p: Priority)
      requires Allocated() && 1 <= i <= capacity
      modifies prio, elem
      ensures Allocated()
      ensures Slots(size) == if i <= size then old(Slots(size))[i := Item(e, p)] else old(Slots(size))
    {
      elem[i] := e;
      prio[i] := p;
    }

    /** Find the place of a new item from the last slot upward. */
    method SiftUp(e: T, p: Priority)
      requires Allocated() && size > 0 && Heap(Slots(size - 1))
      modifies prio, elem
      ensures Valid() && Items() == old(Contents(Slots(size - 1))) + multiset{Item(e, p)}
    {
      hide Heap, HeapBut, BelowChildren, Contents;
      ghost var x := Item(e, p);
      ghost var was := Slots(size - 1);
      var i := size;
      LastSlot(was, Slots(size), x);
      while prio[i / 2] > p
        invariant Allocated() && 1 <= i <= size
        invariant HeapBut(Slots(size), i) && BelowChildren(Slots(size), i, p)
        invariant Contents(Slots(size)[i := x]) == Contents(was) + multiset{x}
        decreases i
      {
        ghost var s := Slots(size);
        SlotUp(s, i, p);
        Moved(s, i, i / 2, x);
        Put(i, elem[i / 2], prio[i / 2]);
        i := i / 2;
      }
      ghost var s := Slots(size);
      FillSlot(s, i, x);
      Put(i, e, p);
    }

    /** Take out the root, if any, and find the place of the last item from the root down. */
    method ExtractMin() returns (r: Option<T>)
      requires Valid()
      modifies this`size, prio, elem
      ensures Valid() && capacity == old(capacity)
      ensures old(size) == 0 ==> r == None && Items() == old(Items())
      ensures old(size) > 0 ==> r.Some? && Extracted(old(Items()), Item(r.value, old(prio[1])), Items())
    {
      hide Heap, Contents;
      if size == 0 { return None; }
      Least();
      r := Some(elem[1]);
      ghost var s := Slots(size);
      TakeOut(s);
      size := size - 1;
      assert Slots(size) == s[..size + 1];
      SiftDown(elem[size + 1], prio[size + 1]);
    }

    method Child(i: nat) returns (child: nat)
      requires Allocated() && 1 <= i && i * 2 <= size
      ensures i < child <= size && LesserChild(Slots(size), i, child)
    {
      child := i * 2;
      if child != size && prio[child + 1] < prio[child] { child := child + 1; }
    }

    method SiftDown(e: T, p: Priority)
      requires Allocated() && size < capacity && Heap(Slots(size))
      modifies prio, elem
      ensures Valid()
      ensures size > 0 ==> Items() == old(Contents(Slots(size)[1 := Item(e, p)]))
      ensures size == 0 ==> Items() == multiset{}
    {
      hide Heap, HeapBut, BelowChildren, Contents, LesserChild, GoingDown;
      ghost var x := Item(e, p);
      ghost var was := Slots(size);
      DownStart(was, x);
      var i := 1;
      while i * 2 <= size
        invariant Allocated() && size < capacity && 1 <= i && (i <= size || (size == 0 && i == 1))
        invariant GoingDown(was, Slots(size), i, x)
        decreases size - i
      {
        ghost var s := Slots(size);
        var child := Child(i);
        if p <= prio[child] {
          StopHere(s, i, child, p);
          break;
        }
        DownStep(was, s, i, child, x);
        Put(i, elem[child], prio[child]);
        i := child;
      }
      ghost var s := Slots(size);
      DownDone(was, s, i, x);
      Put(i, e, p);
    }
  }

  /** What ExtractMin does to the items. */
  ghost predicate Extracted<T>(m: multiset<Item<T>>, x: Item<T>, rest: multiset<Item<T>>) {
    x in m && rest == m - multiset{x} && forall y | y in m :: x.prio <= y.prio
  }

  /** A series of extractions down to the empty heap. */
  ghost predicate Drained<T>(m: multiset<Item<T>>, out: seq<Item<T>>)
    decreases |out|
  {
    if out == [] then m == multiset{}
    else Extracted(m, out[0], m - multiset{out[0]}) && Drained(m - multiset{out[0]}, out[1..])
  }

  lemma {:induction false} DrainKeeps<T>(m: multiset<Item<T>>, out: seq<Item<T>>)
    requires Drained(m, out)
    ensures multiset(out) == m
  {
    if out == [] {
    } else {
      DrainKeeps(m - multiset{out[0]}, out[1..]);
      assert out == [out[0]] + out[1..];
    }
  }

  /** Draining the heap sorts what was in it. */
  lemma {:induction false} DrainSorts<T>(m: multiset<Item<T>>, out: seq<Item<T>>)
    requires Drained(m, out)
    ensures multiset(out) == m
    ensures forall i, j | 0 <= i < j < |out| :: out[i].prio <= out[j].prio
  {
    DrainKeeps(m, out);
    if out == [] {
    } else {
      var rest := out[1..];
      DrainSorts(m - multiset{out[0]}, rest);
      forall i, j | 0 <= i < j < |out| ensures out[i].prio <= out[j].prio {
        if i > 0 {
          assert rest[i - 1].prio <= rest[j - 1].prio;
        } else {
          assert out[j] in multiset(out);
        }
      }
    }
  }
}
