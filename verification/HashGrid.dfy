/** A grid of bins over coordinates: a counting sort of item numbers by bin. */
module HashGrids {
  datatype Coord = Coord(x: int, y: int)

  function Abs(n: int): (a: nat)
    ensures a == n || a == -n
  { if n < 0 then -n else n }

  /** The quotient cut off toward zero, without its sign. */
  function Quotient(a: int, b: nat): nat
    requires b > 0
  { Abs(a) / b }

  /** A bin: its row and column. */
  datatype Bin = Bin(y: nat, x: nat)

  function BinOf(dim: nat, size: Coord, c: Coord): (b: Bin)
    requires dim > 0 && size.x != 0 && size.y != 0
    ensures b.y < dim && b.x < dim
  { Bin(Quotient(c.y, Abs(size.y)) % dim, Quotient(c.x, Abs(size.x)) % dim) }

  /** On each axis a bin is the number of whole bin sizes from zero, whatever the sign,
      wrapped around the grid. */
  lemma BinIs(dim: nat, size: Coord, c: Coord, n: nat, m: nat)
    requires dim > 0 && size.x != 0 && size.y != 0
    requires n * Abs(size.x) <= Abs(c.x) < (n + 1) * Abs(size.x)
    requires m * Abs(size.y) <= Abs(c.y) < (m + 1) * Abs(size.y)
    ensures BinOf(dim, size, c).x == n % dim && BinOf(dim, size, c).y == m % dim
  {
    QuotientIs(c.x, Abs(size.x), n);
    QuotientIs(c.y, Abs(size.y), m);
  }

  lemma QuotientIs(a: int, b: nat, n: nat)
    requires b > 0 && n * b <= Abs(a) < (n + 1) * b
    ensures Quotient(a, b) == n
  {
    var q := Quotient(a, b);
    WholeTimes(q, n, b);
    WholeTimes(n, q, b);
  }

  lemma WholeTimes(m: nat, n: nat, b: nat)
    ensures m < n ==> (m + 1) * b <= n * b
  {
    if m < n { assert (n - m - 1) * b >= 0; }
  }

  /** The items of one bin, in ascending order. */
  function Members(bins: seq<Bin>, b: Bin): (m: seq<nat>)
    ensures |m| <= |bins|
  {
    if bins == [] then []
    else
      var k := |bins| - 1;
      var m := Members(bins[..k], b);
      if bins[k] == b then m + [k] else m
  }

  /** How many items lie in the bins before a given one, row by row. */
  function Start(bins: seq<Bin>, dim: nat, y: nat, x: nat): nat
    requires x <= dim
    decreases y, x
  {
    if x > 0 then Start(bins, dim, y, x - 1) + |Members(bins, Bin(y, x - 1))|
    else if y > 0 then Start(bins, dim, y - 1, dim)
    else 0
  }

  /** Items of a bin: numbers of exactly the coordinates in it, ascending. */
  lemma {:induction false} MembersAre(bins: seq<Bin>, b: Bin)
    ensures forall c: nat :: c in Members(bins, b) <==> c < |bins| && bins[c] == b
    ensures forall i, j | 0 <= i < j < |Members(bins, b)| :: Members(bins, b)[i] < Members(bins, b)[j]
  {
    if bins == [] {
    } else {
      var k := |bins| - 1;
      MembersAre(bins[..k], b);
      forall c: nat ensures c in Members(bins, b) <==> c < |bins| && bins[c] == b {
        if c < k { assert bins[..k][c] == bins[c]; }
      }
      var m, few := Members(bins, b), Members(bins[..k], b);
      forall i, j | 0 <= i < j < |m| ensures m[i] < m[j] {
        assert few[i] in few;
        if j < |few| { assert few[i] < few[j]; }
      }
    }
  }

  /** More items only add members at the end. */
  lemma {:induction false} MembersGrow(bins: seq<Bin>, n: nat, b: Bin)
    requires n <= |bins|
    ensures Members(bins[..n], b) <= Members(bins, b)
    ensures n < |bins| && bins[n] == b ==> |Members(bins[..n], b)| < |Members(bins, b)|
  {
    if n == |bins| {
      assert bins[..n] == bins;
    } else {
      var k := |bins| - 1;
      MembersGrow(bins[..k], n, b);
      assert bins[..k][..n] == bins[..n];
      if n < k { assert bins[..k][n] == bins[n]; }
    }
  }

  ghost predicate Before(y: nat, x: nat, v: nat, u: nat) { y < v || (y == v && x < u) }

  /** Bins follow each other without overlap. */
  lemma {:induction false} StartGrows(bins: seq<Bin>, dim: nat, y: nat, x: nat, v: nat, u: nat)
    requires x < dim && u <= dim && Before(y, x, v, u)
    ensures Start(bins, dim, y, x) + |Members(bins, Bin(y, x))| <= Start(bins, dim, v, u)
    decreases v, u
  {
    if u > 0 {
      if y != v || x != u - 1 { StartGrows(bins, dim, y, x, v, u - 1); }
    } else {
      StartGrows(bins, dim, y, x, v - 1, dim);
    }
  }

  lemma NextStart(bins: seq<Bin>, dim: nat, y: nat, x: nat)
    requires x < dim
    ensures Start(bins, dim, y, x + 1) == Start(bins, dim, y, x) + |Members(bins, Bin(y, x))|
  {}

  /** One more item moves the start of the bins after its own by one. */
  lemma {:induction false} StartOfMore(bins: seq<Bin>, dim: nat, y: nat, x: nat)
    requires bins != [] && x <= dim && bins[|bins| - 1].x < dim
    ensures var b := bins[|bins| - 1];
            Start(bins, dim, y, x)
            == Start(bins[..|bins| - 1], dim, y, x) + if Before(b.y, b.x, y, x) then 1 else 0
    decreases y, x
  {
    if x > 0 {
      StartOfMore(bins, dim, y, x - 1);
    } else if y > 0 {
      StartOfMore(bins, dim, y - 1, dim);
    }
  }

  lemma {:induction false} StartOfNone(dim: nat, y: nat, x: nat)
    requires x <= dim
    ensures Start([], dim, y, x) == 0
    decreases y, x
  {
    if x > 0 {
      StartOfNone(dim, y, x - 1);
    } else if y > 0 {
      StartOfNone(dim, y - 1, dim);
    }
  }

  ghost predicate Within(bins: seq<Bin>, dim: nat) {
    forall k | 0 <= k < |bins| :: bins[k].y < dim && bins[k].x < dim
  }

  /** All bins together take as many places as there are items. */
  lemma {:induction false} BinsCover(bins: seq<Bin>, dim: nat)
    requires Within(bins, dim)
    ensures Start(bins, dim, dim, 0) == |bins|
  {
    if bins == [] {
      StartOfNone(dim, dim, 0);
    } else {
      BinsCover(bins[..|bins| - 1], dim);
      StartOfMore(bins, dim, dim, 0);
    }
  }

  /** The place of the next item lies within its bin's slice and in no other bin. */
  lemma NextPlace(bins: seq<Bin>, dim: nat, n: nat, y: nat, x: nat)
    requires Within(bins, dim) && n < |bins| && y < dim && x < dim
    ensures var b := bins[n]; var place := Start(bins, dim, b.y, b.x) + |Members(bins[..n], b)|;
            place < |bins|
            && (Bin(y, x) == b || place < Start(bins, dim, y, x)
                || Start(bins, dim, y, x) + |Members(bins[..n], Bin(y, x))| <= place)
  {
    var b := bins[n];
    MembersGrow(bins, n, b);
    MembersGrow(bins, n, Bin(y, x));
    StartGrows(bins, dim, b.y, b.x, dim, 0);
    BinsCover(bins, dim);
    if Before(b.y, b.x, y, x) {
      StartGrows(bins, dim, b.y, b.x, y, x);
    } else if Bin(y, x) != b {
      StartGrows(bins, dim, y, x, b.y, b.x);
    }
  }

  lemma MembersNext(bins: seq<Bin>, n: nat, b: Bin)
    requires n < |bins|
    ensures Members(bins[..n + 1], b) == Members(bins[..n], b) + if bins[n] == b then [n] else []
  {
    assert bins[..n + 1][..n] == bins[..n];
  }

  /** The slices of all bins hold their members. */
  ghost predicate Arranged(bins: seq<Bin>, dim: nat, items: seq<nat>) {
    |items| == |bins|
    && forall y: nat, x: nat | y < dim && x < dim ::
         var s := Start(bins, dim, y, x);
         s + |Members(bins, Bin(y, x))| <= |items|
         && items[s..s + |Members(bins, Bin(y, x))|] == Members(bins, Bin(y, x))
  }

  /** Place k is in the slice of bin b. */
  ghost predicate InSlice(bins: seq<Bin>, dim: nat, b: Bin, k: nat) {
    b.y < dim && b.x < dim
    && Start(bins, dim, b.y, b.x) <= k < Start(bins, dim, b.y, b.x) + |Members(bins, b)|
  }

  lemma {:induction false} SomeSlice(bins: seq<Bin>, dim: nat, y: nat, x: nat, k: nat) returns (b: Bin)
    requires x <= dim && (y < dim || (y == dim && x == 0)) && k < Start(bins, dim, y, x)
    ensures InSlice(bins, dim, b, k)
    decreases y, x
  {
    if x > 0 {
      if k < Start(bins, dim, y, x - 1) {
        b := SomeSlice(bins, dim, y, x - 1, k);
      } else {
        b := Bin(y, x - 1);
      }
    } else {
      b := SomeSlice(bins, dim, y - 1, dim, k);
    }
  }

  lemma SliceAt(bins: seq<Bin>, dim: nat, items: seq<nat>, b: Bin, k: nat)
    requires Arranged(bins, dim, items) && InSlice(bins, dim, b, k)
    ensures k < |items| && items[k] == Members(bins, b)[k - Start(bins, dim, b.y, b.x)]
  {
    hide Start, Members;
    var s, m := Start(bins, dim, b.y, b.x), Members(bins, b);
    assert b == Bin(b.y, b.x);
    assert items[s..s + |m|][k - s] == items[k];
  }

  /** Every place holds an item number, in the slice of that item's own bin. */
  lemma PlaceHolds(bins: seq<Bin>, dim: nat, items: seq<nat>, k: nat)
    requires Within(bins, dim) && Arranged(bins, dim, items) && k < |items|
    ensures items[k] < |bins| && InSlice(bins, dim, bins[items[k]], k)
  {
    hide Start, Members;
    assert |items| == |bins|;
    hide Arranged;
    BinsCover(bins, dim);
    var b := SomeSlice(bins, dim, dim, 0, k);
    MembersAre(bins, b);
    SliceAt(bins, dim, items, b, k);
    assert items[k] in Members(bins, b);
  }

  /** The items are a permutation of all item numbers: each one has its place in the
      slice of its own bin, and no other place. */
  lemma EachItemOnce(bins: seq<Bin>, dim: nat, items: seq<nat>, c: nat) returns (k: nat)
    requires Within(bins, dim) && Arranged(bins, dim, items) && c < |bins|
    ensures k < |items| && items[k] == c && InSlice(bins, dim, bins[c], k)
    ensures forall j | 0 <= j < |items| && items[j] == c :: j == k
  {
    hide Start, Members, Arranged;
    var b := bins[c];
    var m := Members(bins, b);
    MembersAre(bins, b);
    var i :| 0 <= i < |m| && m[i] == c;
    k := Start(bins, dim, b.y, b.x) + i;
    SliceAt(bins, dim, items, b, k);
    forall j | 0 <= j < |items| && items[j] == c ensures j == k {
      PlaceHolds(bins, dim, items, j);
      SliceAt(bins, dim, items, b, j);
    }
  }

  class HashGrid {
    const dim: nat
    const binSize: Coord
    const coords: seq<Coord>
    const counts: array2<nat>
    const bins: array2<nat>
    const items: array<nat>

    ghost predicate Shaped() {
      binSize.x != 0 && binSize.y != 0 && (coords == [] || dim > 0)
      && counts.Length0 == counts.Length1 == bins.Length0 == bins.Length1 == dim
      && items.Length == |coords| && counts != bins
    }

    ghost function Bins(): (bs: seq<Bin>)
      requires Shaped()
      ensures |bs| == |coords| && Within(bs, dim)
    { seq(|coords|, c requires 0 <= c < |coords| => BinOf(dim, binSize, coords[c])) }

    /** The items of a bin, as a reader of the grid finds them. */
    ghost function InBin(y: nat, x: nat): seq<nat>
      requires Shaped() && y < dim && x < dim && bins[y, x] + counts[y, x] <= items.Length
      reads counts, bins, items
    { items[bins[y, x]..bins[y, x] + counts[y, x]] }

    ghost predicate Sorted(n: nat)
      requires Shaped() && n <= |coords|
      reads counts, bins, items
    {
      forall y: nat, x: nat | y < dim && x < dim ::
        bins[y, x] == Start(Bins(), dim, y, x)
        && bins[y, x] + counts[y, x] <= items.Length
        && InBin(y, x) == Members(Bins()[..n], Bin(y, x))
    }

    /** A finished grid lists every item exactly once. */
    lemma ItemsOnce(c: nat) returns (k: nat)
      requires Valid() && c < |coords|
      ensures var b := BinOf(dim, binSize, coords[c]);
              bins[b.y, b.x] + counts[b.y, b.x] <= items.Length && c in InBin(b.y, b.x)
      ensures k < items.Length && items[k] == c && forall j | 0 <= j < items.Length && items[j] == c :: j == k
    {
      hide Members, Start, Arranged, InSlice;
      var bs := Bins();
      FinishedGrid();
      MembersAre(bs, bs[c]);
      assert Bin(bs[c].y, bs[c].x) == bs[c];
      k := EachItemOnce(bs, dim, items[..], c);
      forall j | 0 <= j < items.Length && items[j] == c ensures j == k {
        assert items[..][j] == c;
      }
    }

    lemma FinishedGrid()
      requires Valid()
      ensures Arranged(Bins(), dim, items[..])
      ensures forall y: nat, x: nat | y < dim && x < dim ::
                bins[y, x] + counts[y, x] <= items.Length && InBin(y, x) == Members(Bins(), Bin(y, x))
    {
      hide Members, Start;
      var bs := Bins();
      assert bs[..|coords|] == bs;
      forall y: nat, x: nat | y < dim && x < dim
        ensures bins[y, x] == Start(bs, dim, y, x) && InBin(y, x) == Members(bs, Bin(y, x))
        ensures counts[y, x] == |Members(bs, Bin(y, x))|
      {
        assert |InBin(y, x)| == counts[y, x];
      }
    }

    /** Each bin is a slice of the items, one after the other, and holds exactly its
        own items in ascending order. */
    ghost predicate Valid()
      reads counts, bins, items
    { Shaped() && Sorted(|coords|) }

    constructor (dim: nat, binSize: Coord, coords: seq<Coord>)
      requires binSize.x != 0 && binSize.y != 0 && (coords == [] || dim > 0)
      ensures Valid() && this.dim == dim && this.binSize == binSize && this.coords == coords
      ensures fresh(counts) && fresh(bins) && fresh(items)
    {
      this.dim, this.binSize, this.coords := dim, binSize, coords;
      counts := new nat[dim, dim]((i, j) => 0);
      bins := new nat[dim, dim]((i, j) => 0);
      items := new nat[|coords|];
      new;
      Count();
      Place();
      Fill();
    }

    /** Count the items of each bin. */
    method Count()
      requires Shaped() && forall y, x | 0 <= y < dim && 0 <= x < dim :: counts[y, x] == 0
      modifies counts
      ensures Placed(0, 0)
    {
      for c := 0 to |coords|
        invariant forall y: nat, x: nat | y < dim && x < dim :: counts[y, x] == |Members(Bins()[..c], Bin(y, x))|
      {
        var b := BinOf(dim, binSize, coords[c]);
        counts[b.y, b.x] := counts[b.y, b.x] + 1;
        assert Bins()[..c + 1][..c] == Bins()[..c];
      }
      assert Bins()[..|coords|] == Bins();
    }

    /** Give each bin its slice. */
    method Place()
      requires Shaped() && Placed(0, 0)
      modifies counts, bins
      ensures Sorted(0)
    {
      hide Placed, Sorted;
      var bin := 0;
      for y := 0 to dim
        invariant bin == Start(Bins(), dim, y, 0)
        invariant Placed(y, 0)
      {
        bin := PlaceRow(y, bin);
      }
      AllPlaced();
    }

    method PlaceRow(y: nat, first: nat) returns (bin: nat)
      requires Shaped() && y < dim && Placed(y, 0) && first == Start(Bins(), dim, y, 0)
      modifies counts, bins
      ensures bin == Start(Bins(), dim, y + 1, 0) && Placed(y + 1, 0)
    {
      hide Placed, Start;
      bin := first;
      for x := 0 to dim
        invariant bin == Start(Bins(), dim, y, x)
        invariant Placed(y, x)
      {
        bin := PlaceBin(y, x, bin);
      }
      RowPlaced(y);
    }

    method PlaceBin(y: nat, x: nat, start: nat) returns (bin: nat)
      requires Shaped() && y < dim && x < dim && Placed(y, x) && start == Start(Bins(), dim, y, x)
      modifies counts, bins
      ensures bin == Start(Bins(), dim, y, x + 1) && Placed(y, x + 1)
    {
      hide Members;
      NextStart(Bins(), dim, y, x);
      hide Start;
      bins[y, x] := start;
      bin := start + counts[y, x];
      counts[y, x] := 0;
    }

    lemma RowPlaced(y: nat)
      requires Shaped() && Placed(y, dim)
      ensures Placed(y + 1, 0) && Start(Bins(), dim, y + 1, 0) == Start(Bins(), dim, y, dim)
    {
      hide Members;
    }

    lemma AllPlaced()
      requires Shaped() && Placed(dim, 0)
      ensures Sorted(0)
    {
      forall y: nat, x: nat | y < dim && x < dim ensures Start(Bins(), dim, y, x) <= items.Length {
        StartGrows(Bins(), dim, y, x, dim, 0);
        BinsCover(Bins(), dim);
      }
    }

    ghost predicate Placed(v: nat, u: nat)
      requires Shaped()
      reads counts, bins
    {
      forall y: nat, x: nat | y < dim && x < dim ::
        if Before(y, x, v, u) then counts[y, x] == 0 && bins[y, x] == Start(Bins(), dim, y, x)
        else counts[y, x] == |Members(Bins(), Bin(y, x))|
    }

    /** Put each item in the next place of its bin. */
    method Fill()
      requires Shaped() && Sorted(0)
      modifies counts, items
      ensures Sorted(|coords|)
    {
      hide Sorted;
      for c := 0 to |coords|
        invariant Sorted(c)
      {
        Add(c);
      }
    }

    method Add(c: nat)
      requires Shaped() && c < |coords| && Sorted(c)
      modifies counts, items
      ensures Sorted(c + 1)
    {
      hide Start, Members;
      var b := BinOf(dim, binSize, coords[c]);
      NextPlace(Bins(), dim, c, b.y, b.x);
      ghost var place := bins[b.y, b.x] + counts[b.y, b.x];
      items[bins[b.y, b.x] + counts[b.y, b.x]] := c;
      counts[b.y, b.x] := counts[b.y, b.x] + 1;
      forall y: nat, x: nat | y < dim && x < dim
        ensures bins[y, x] + counts[y, x] <= items.Length
        ensures InBin(y, x) == Members(Bins()[..c + 1], Bin(y, x))
      {
        NextPlace(Bins(), dim, c, y, x);
        MembersNext(Bins(), c, Bin(y, x));
      }
    }
  }
}
