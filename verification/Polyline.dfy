/** Encoded polylines: coordinate differences as printable text, five bits to a
    character. */
module Polylines {
  import opened Wrappers

  const WORD: nat := 0x1_0000_0000
  const HALF: int := 0x2000_0000
  const BUFLEN: nat := 1024

  /** A coordinate in units of 1e-5 degrees, cut off toward zero. */
  function Fixed(c: real): int {
    var x := c * 100000.0;
    if x >= 0.0 then x.Floor else -((-x).Floor)
  }

  /** The 32-bit word that is encoded: shifted left by one, and inverted for a
      negative coordinate, so that the lowest bit tells the sign. */
  function Binary(c: real): nat {
    var binary := (Fixed(c) % WORD * 2) % WORD;
    if c < 0.0 then WORD - 1 - binary else binary
  }

  function Symbol(chunk: nat, more: bool): char
    requires chunk < 32
  { (63 + chunk + if more then 32 else 0) as char }

  /** The shortest little-endian text for a number, five bits a character. */
  function Encode(n: nat): (s: string)
    ensures |s| > 0
  {
    if n < 32 then [Symbol(n, false)] else [Symbol(n % 32, true)] + Encode(n / 32)
  }

  /** n shifted right by 5 * i bits. */
  function Chunks(n: nat, i: nat): nat {
    if i == 0 then n else Chunks(n, i - 1) / 32
  }

  lemma {:induction false} ChunksVanish(n: nat, i: nat, k: nat)
    requires i <= k && Chunks(n, i) == 0
    ensures Chunks(n, k) == 0
  {
    if i == k {
    } else {
      ChunksVanish(n, i, k - 1);
    }
  }

  /** The six chunks of a word are those of its low 30 bits. */
  lemma LowBits(binary: nat, i: nat)
    requires i < 6
    ensures Chunks(binary % 0x4000_0000, i) % 32 == Chunks(binary, i) % 32
    ensures Chunks(binary % 0x4000_0000, 6) == 0
  {
    var n, k := binary % 0x4000_0000, binary / 0x4000_0000;
    var n1, b1 := n / 32, binary / 32;
    assert Chunks(n, 1) == n1 && Chunks(binary, 1) == b1 == n1 + k * 0x200_0000 && n1 < 0x200_0000;
    var n2, b2 := n1 / 32, b1 / 32;
    assert Chunks(n, 2) == n2 && Chunks(binary, 2) == b2 == n2 + k * 0x10_0000 && n2 < 0x10_0000;
    var n3, b3 := n2 / 32, b2 / 32;
    assert Chunks(n, 3) == n3 && Chunks(binary, 3) == b3 == n3 + k * 0x8000 && n3 < 0x8000;
    var n4, b4 := n3 / 32, b3 / 32;
    assert Chunks(n, 4) == n4 && Chunks(binary, 4) == b4 == n4 + k * 0x400 && n4 < 0x400;
    var n5, b5 := n4 / 32, b4 / 32;
    assert Chunks(n, 5) == n5 && Chunks(binary, 5) == b5 == n5 + k * 0x20 && n5 < 0x20;
  }

  /** Cut the word into six chunks, drop the zero chunks at the high end, and mark
      all but the last as continued. */
  method EncodeDouble(c: real) returns (out: string)
    ensures out == Encode(Low(c)) && |out| <= 6
  {
    hide Binary, Encode, Chunks;
    var binary := Binary(c);
    ghost var n := binary % 0x4000_0000;
    var chunks: seq<nat> := [0, 0, 0, 0, 0, 0];
    var lastChunk := 0;
    for i := 0 to 6
      invariant |chunks| == 6 && forall k | 0 <= k < i :: chunks[k] == Chunks(n, k) % 32
      invariant 0 <= lastChunk < 6 && lastChunk <= i
      invariant forall k | lastChunk < k < i :: chunks[k] == 0
      invariant lastChunk > 0 ==> lastChunk < i && chunks[lastChunk] != 0
    {
      LowBits(binary, i);
      chunks := chunks[i := Chunks(binary, i) % 32];
      if chunks[i] != 0 { lastChunk := i; }
    }
    LowBits(binary, 0);
    out := EmitChunks(n, chunks, lastChunk);
  }

  method EmitChunks(ghost n: nat, chunks: seq<nat>, lastChunk: nat) returns (out: string)
    requires |chunks| == 6 && lastChunk < 6 && Chunks(n, 6) == 0
    requires forall k | 0 <= k < 6 :: chunks[k] == Chunks(n, k) % 32
    requires forall k | lastChunk < k < 6 :: chunks[k] == 0
    requires lastChunk > 0 ==> chunks[lastChunk] != 0
    ensures out == Encode(n) && |out| == lastChunk + 1
  {
    hide Encode, Chunks;
    out := "";
    NothingEmitted(n);
    for i := 0 to lastChunk + 1
      invariant |out| == i
      invariant i <= lastChunk ==> Encode(n) == out + Encode(Chunks(n, i))
      invariant i > lastChunk ==> Encode(n) == out
    {
      EmitOne(n, i, lastChunk, out);
      out := out + [Symbol(chunks[i], i != lastChunk)];
    }
  }

  lemma NothingEmitted(n: nat)
    ensures Encode(n) == "" + Encode(Chunks(n, 0))
  {}

  lemma EmitOne(n: nat, i: nat, last: nat, out: string)
    requires i <= last < 6 && Chunks(n, 6) == 0
    requires forall k | last < k < 6 :: Chunks(n, k) % 32 == 0
    requires last > 0 ==> Chunks(n, last) % 32 != 0
    ensures i < last ==>
      out + Encode(Chunks(n, i)) == out + [Symbol(Chunks(n, i) % 32, true)] + Encode(Chunks(n, i + 1))
    ensures i == last ==> Encode(Chunks(n, i)) == [Symbol(Chunks(n, i) % 32, false)]
  {
    if i < last {
      ChunkGoesOn(n, i, last);
      var m := Chunks(n, i);
      assert Chunks(n, i + 1) == m / 32;
      assert out + ([Symbol(m % 32, true)] + Encode(m / 32)) == out + [Symbol(m % 32, true)] + Encode(m / 32);
    } else {
      HighChunks(n, last);
    }
  }

  /** Above the last nonzero chunk nothing is left. */
  lemma HighChunks(n: nat, last: nat)
    requires last < 6 && Chunks(n, 6) == 0
    requires forall k | last < k < 6 :: Chunks(n, k) % 32 == 0
    ensures Chunks(n, last) < 32
  {
    var k := 6;
    while k > last + 1
      invariant last < k <= 6 && Chunks(n, k) == 0
    {
      k := k - 1;
    }
  }

  lemma ChunkGoesOn(n: nat, i: nat, last: nat)
    requires i < last && Chunks(n, last) % 32 != 0
    ensures Chunks(n, i) >= 32
  {
    if Chunks(n, i) < 32 {
      ChunksVanish(n, i + 1, last);
    }
  }

  /* ----- a reference decoder ----- */

  predicate IsSymbol(c: char) { 63 <= c as int < 127 }

  /** Read one number and what follows it. */
  function Decode(t: string): (r: Option<(nat, string)>)
    ensures r.Some? ==> |r.value.1| < |t|
  {
    if t == "" || !IsSymbol(t[0]) then None
    else
      var v := t[0] as int - 63;
      if v < 32 then Some((v, t[1..]))
      else match Decode(t[1..])
        case None => None
        case Some((high, rest)) => Some((v - 32 + 32 * high, rest))
  }

  /** The signed number behind an encoded one. */
  function Signed(n: nat): int { if n % 2 == 1 then -(n as int + 1) / 2 else n / 2 }

  /** Read signed numbers to the end of the text. */
  function DecodeAll(t: string): Option<seq<int>>
    decreases |t|
  {
    if t == "" then Some([])
    else match Decode(t)
      case None => None
      case Some((n, rest)) =>
        match DecodeAll(rest)
        case None => None
        case Some(s) => Some([Signed(n)] + s)
  }

  /** The code delimits itself: a number is read back, leaving what follows. */
  lemma {:induction false} DecodeEncode(n: nat, rest: string)
    ensures Decode(Encode(n) + rest) == Some((n, rest))
  {
    var t := Encode(n) + rest;
    if n < 32 {
    } else {
      assert t[1..] == Encode(n / 32) + rest;
      DecodeEncode(n / 32, rest);
    }
  }

  /** The number a coordinate is sent as. */
  function Low(c: real): nat { Binary(c) % 0x4000_0000 }

  /** In range, and not a negative coordinate so small that it is cut off to zero. */
  predicate Survives(c: real) { -HALF <= Fixed(c) < HALF && !(c < 0.0 && Fixed(c) == 0) }

  /** Exactly these coordinates are read back. A negative one cut off to zero comes
      back as -2^29. */
  lemma SignedBinary(c: real)
    ensures Survives(c) <==> Signed(Low(c)) == Fixed(c)
    ensures c < 0.0 && Fixed(c) == 0 ==> Signed(Low(c)) == -HALF
  {
    hide Fixed, Signed;
    SignedRange(Low(c));
    FixedSign(c);
    var f := Fixed(c);
    if -HALF <= f < HALF {
      if c < 0.0 { NegativeWord(f); } else { PositiveWord(f); }
    }
  }

  lemma SignedRange(n: nat)
    requires n < 0x4000_0000
    ensures -HALF <= Signed(n) < HALF
  {}

  lemma NegativeWord(f: int)
    requires -HALF <= f <= 0
    ensures 0 <= WORD - 1 - (f % WORD * 2) % WORD
    ensures Signed((WORD - 1 - (f % WORD * 2) % WORD) % 0x4000_0000) == if f == 0 then -HALF else f
  {
    if f < 0 {
      assert f % WORD == f + WORD;
      assert ((f + WORD) * 2) % WORD == f * 2 + WORD;
    }
  }

  lemma PositiveWord(f: int)
    requires 0 <= f < HALF
    ensures Signed((f % WORD * 2) % WORD % 0x4000_0000) == f
  {}

  /** A coordinate is cut off toward zero. */
  lemma FixedSign(c: real)
    ensures c >= 0.0 ==> Fixed(c) >= 0
    ensures c < 0.0 ==> Fixed(c) <= 0
    ensures -1.0 < Fixed(c) as real - c * 100000.0 < 1.0
    ensures if c >= 0.0 then 0.0 <= Fixed(c) as real <= c * 100000.0 else c * 100000.0 <= Fixed(c) as real <= 0.0
  {}

  /* ----- whole polylines ----- */

  type Point = (real, real)

  function TextOf(ds: seq<real>): string {
    if ds == [] then "" else Encode(Low(ds[0])) + TextOf(ds[1..])
  }

  function Axis(p: Point, lon: bool): real { if lon then p.1 else p.0 }

  function LastPoint(pts: seq<Point>): Point {
    if pts == [] then (0.0, 0.0) else pts[|pts| - 1]
  }

  /** Latitude and longitude differences in turn, the first pair absolute. */
  function Deltas(pts: seq<Point>): (ds: seq<real>)
    ensures |ds| == 2 * |pts|
  {
    if pts == [] then []
    else
      var init, p := pts[..|pts| - 1], pts[|pts| - 1];
      Deltas(init) + [p.0 - LastPoint(init).0, p.1 - LastPoint(init).1]
  }

  function Decoded(ds: seq<real>): (ns: seq<int>)
    ensures |ns| == |ds|
  { seq(|ds|, i requires 0 <= i < |ds| => Signed(Low(ds[i]))) }

  function Truncated(ds: seq<real>): (ns: seq<int>)
    ensures |ns| == |ds|
  { seq(|ds|, i requires 0 <= i < |ds| => Fixed(ds[i])) }

  lemma {:induction false} TextOfMore(ds: seq<real>, c: real)
    ensures TextOf(ds + [c]) == TextOf(ds) + Encode(Low(c))
  {
    if ds == [] {
      assert TextOf([c]) == Encode(Low(c)) + TextOf([]);
    } else {
      assert (ds + [c])[1..] == ds[1..] + [c];
      TextOfMore(ds[1..], c);
    }
  }

  lemma {:induction false} ReadText(ds: seq<real>)
    ensures DecodeAll(TextOf(ds)) == Some(Decoded(ds))
  {
    hide Encode, Decode, Low, Signed;
    if ds == [] {
    } else {
      DecodeEncode(Low(ds[0]), TextOf(ds[1..]));
      ReadText(ds[1..]);
      assert Decoded(ds) == [Signed(Low(ds[0]))] + Decoded(ds[1..]);
    }
  }

  /** The reader recovers the truncated differences exactly when each survives. */
  lemma DeltasRoundTrip(ds: seq<real>)
    ensures DecodeAll(TextOf(ds)) == Some(Truncated(ds)) <==> forall i | 0 <= i < |ds| :: Survives(ds[i])
  {
    hide TextOf, DecodeAll, Low, Signed, Fixed, Survives;
    ReadText(ds);
    forall i | 0 <= i < |ds| ensures Survives(ds[i]) <==> Decoded(ds)[i] == Truncated(ds)[i] {
      SignedBinary(ds[i]);
    }
    assert (forall i | 0 <= i < |ds| :: Survives(ds[i])) ==> Decoded(ds) == Truncated(ds);
  }

  /** One coordinate of the k-th point, as a reader adds the differences up. */
  function Along(ns: seq<int>, k: nat, lon: bool): int
    requires 2 * k <= |ns|
  {
    if k == 0 then 0 else Along(ns, k - 1, lon) + ns[2 * k - 2 + if lon then 1 else 0]
  }

  lemma {:induction false} AlongPrefix(ns: seq<int>, more: seq<int>, k: nat, lon: bool)
    requires 2 * k <= |ns|
    ensures Along(ns + more, k, lon) == Along(ns, k, lon)
  {
    if k == 0 {
    } else {
      AlongPrefix(ns, more, k - 1, lon);
    }
  }

  /** After k points a reader is off by less than k units of 1e-5 degrees. */
  lemma {:induction false} ErrorStaysSmall(pts: seq<Point>, lon: bool)
    requires pts != []
    ensures -(|pts| as real)
            < Along(Truncated(Deltas(pts)), |pts|, lon) as real - Axis(LastPoint(pts), lon) * 100000.0
            < |pts| as real
  {
    hide Fixed;
    var init, k := pts[..|pts| - 1], |pts| - 1;
    var d := Axis(LastPoint(pts), lon) - Axis(LastPoint(init), lon);
    FixedSign(d);
    var past, ns := Truncated(Deltas(init)), Truncated(Deltas(pts));
    assert ns == past + [ns[2 * k], ns[2 * k + 1]];
    AlongPrefix(past, [ns[2 * k], ns[2 * k + 1]], k, lon);
    assert Along(ns, k + 1, lon) == Along(past, k, lon) + Fixed(d);
    if k == 0 {
    } else {
      ErrorStaysSmall(init, lon);
    }
  }

  lemma {:induction false} DeltasPrefix(pts: seq<Point>, k: nat)
    requires k <= |pts|
    ensures Deltas(pts[..k]) == Deltas(pts)[..2 * k]
  {
    if k < |pts| {
      DeltasPrefix(pts[..|pts| - 1], k);
      assert pts[..|pts| - 1][..k] == pts[..k];
    } else {
      assert pts[..k] == pts;
    }
  }

  /** What a reader makes of a polyline: every point, each coordinate within as many
      units as points were read. */
  lemma PolylineIsReadable(pts: seq<Point>, k: nat, lon: bool)
    requires forall i | 0 <= i < |Deltas(pts)| :: Survives(Deltas(pts)[i])
    requires 0 < k <= |pts|
    ensures DecodeAll(TextOf(Deltas(pts))) == Some(Truncated(Deltas(pts)))
    ensures -(k as real)
            < Along(Truncated(Deltas(pts)), k, lon) as real - Axis(pts[k - 1], lon) * 100000.0
            < k as real
  {
    hide TextOf, DecodeAll, Fixed, Survives;
    DeltasRoundTrip(Deltas(pts));
    ErrorStaysSmall(pts[..k], lon);
    DeltasPrefix(pts, k);
    var ns, front := Truncated(Deltas(pts)), Truncated(Deltas(pts[..k]));
    assert ns == front + ns[2 * k..];
    AlongPrefix(front, ns[2 * k..], k, lon);
  }

  /* ----- the buffer ----- */

  class Polyline {
    var lastLat: real
    var lastLon: real
    const buf: array<char>
    var cur: nat
    var points: nat
    ghost var given: seq<Point>

    /** The text is the code of the first `points` points given since the start,
        and the terminating NUL lies within the buffer. Points are only left out
        once the buffer is nearly full. */
    ghost predicate Valid()
      reads this, buf
    {
      buf.Length == BUFLEN && cur < BUFLEN && buf[cur] == '\0'
      && points <= |given|
      && buf[..cur] == TextOf(Deltas(given[..points]))
      && (lastLat, lastLon) == LastPoint(given[..points])
      && (points < |given| ==> cur >= BUFLEN - 13)
    }

    constructor ()
      ensures Valid() && fresh(buf) && given == []
    {
      lastLat, lastLon := 0.0, 0.0;
      cur, points := 0, 0;
      given := [];
      buf := new char[BUFLEN];
      new;
      buf[0] := '\0';
    }

    method Begin()
      requires buf.Length == BUFLEN
      modifies this, buf
      ensures Valid() && given == []
    {
      lastLat, lastLon := 0.0, 0.0;
      cur := 0;
      buf[cur] := '\0';
      points := 0;
      given := [];
    }

    /** Append the code of one number and a NUL after it. */
    method Put(c: real)
      requires buf.Length == BUFLEN && cur + 6 < BUFLEN
      modifies this`cur, buf
      ensures cur <= old(cur) + 6 && buf[cur] == '\0'
      ensures buf[..cur] == old(buf[..cur]) + Encode(Low(c))
    {
      hide Low, Encode;
      var out := EncodeDouble(c);
      forall i | 0 <= i < |out| { buf[cur + i] := out[i]; }
      cur := cur + |out|;
      buf[cur] := '\0';
    }

    /** A point is taken unless fewer than 13 bytes may be left. */
    method Point(lat: real, lon: real)
      requires Valid()
      modifies this, buf
      ensures Valid() && given == old(given) + [(lat, lon)]
      ensures points == if old(cur) >= 1011 then old(points) else old(points) + 1
    {
      hide Low, Encode, TextOf, Deltas;
      given := given + [(lat, lon)];
      if cur >= BUFLEN - 13 {
        assert given[..points] == old(given)[..points];
        return;
      }
      ghost var before := given[..points];
      assert before == old(given)[..points];
      Put(lat - lastLat);
      Put(lon - lastLon);
      lastLat, lastLon := lat, lon;
      points := points + 1;
      OnePoint(before, (lat, lon));
      assert given[..points] == before + [(lat, lon)];
    }

    method Length() returns (n: nat)
      requires Valid()
      ensures n <= |given| && buf[..cur] == TextOf(Deltas(given[..n]))
      ensures n < |given| ==> cur >= 1011
    { n := points; }
  }

  lemma OnePoint(pts: seq<Point>, p: Point)
    ensures TextOf(Deltas(pts + [p]))
            == TextOf(Deltas(pts)) + Encode(Low(p.0 - LastPoint(pts).0)) + Encode(Low(p.1 - LastPoint(pts).1))
  {
    hide Encode, Low, TextOf;
    var a, b := p.0 - LastPoint(pts).0, p.1 - LastPoint(pts).1;
    DeltasMore(pts, p);
    TextOfMore(Deltas(pts), a);
    TextOfMore(Deltas(pts) + [a], b);
  }

  lemma DeltasMore(pts: seq<Point>, p: Point)
    ensures Deltas(pts + [p]) == Deltas(pts) + [p.0 - LastPoint(pts).0] + [p.1 - LastPoint(pts).1]
  {
    DeltasSplit(pts + [p], pts, p);
    hide Deltas, LastPoint;
    var ds, a, b := Deltas(pts), p.0 - LastPoint(pts).0, p.1 - LastPoint(pts).1;
    assert ds + [a, b] == ds + [a] + [b];
  }

  lemma DeltasSplit(all: seq<Point>, init: seq<Point>, p: Point)
    requires all == init + [p]
    ensures Deltas(all) == Deltas(init) + [p.0 - LastPoint(init).0, p.1 - LastPoint(init).1]
  {
    hide LastPoint;
    assert all[..|all| - 1] == init && all[|all| - 1] == p;
  }
}
