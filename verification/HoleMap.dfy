/** Data and hole boundaries of a file, derived from its chunk list. */
module HoleMap {
  import opened Sorting

  const TWO64: nat := 0x1_0000_0000_0000_0000
  const TWO32: nat := 0x1_0000_0000

  type U64 = x: nat | x < TWO64
  type U32 = x: nat | x < TWO32

  datatype ChunkRef = ChunkRef(hash: nat, offset: U64, size: U32)

  datatype Extent = Extent(start: nat, end: nat)

  /** The end of a ref as the code computes it: the sum may wrap. */
  function EndOf(r: ChunkRef): U64 {
    (r.offset + r.size) % TWO64
  }

  /** The byte range of a ref, in that arithmetic: a wrapping ref holds nothing. */
  predicate Holds(r: ChunkRef, b: nat) {
    r.offset <= b < EndOf(r)
  }

  ghost predicate Covered(refs: seq<ChunkRef>, b: nat) {
    exists r :: r in refs && Holds(r, b)
  }

  ghost predicate In(x: seq<Extent>, b: nat) {
    exists e :: e in x && e.start <= b < e.end
  }

  /** Nonempty extents in order, with at least one byte between neighbours. */
  ghost predicate Separated(x: seq<Extent>) {
    && (forall i :: 0 <= i < |x| ==> x[i].start < x[i].end)
    && (forall i, j :: 0 <= i < j < |x| ==> x[i].end < x[j].start)
  }

  ghost predicate Within(x: seq<Extent>, n: nat) {
    forall i :: 0 <= i < |x| ==> x[i].end <= n
  }

  /** A ref holds its bytes from offset to offset plus size, and none at all when that
      end passes the top of the address space. */
  lemma HoldsExactly(r: ChunkRef, b: nat)
    ensures r.offset + r.size < 0x1_0000_0000_0000_0000 ==> (Holds(r, b) <==> r.offset <= b < r.offset + r.size)
    ensures r.offset + r.size >= 0x1_0000_0000_0000_0000 ==> !Holds(r, b)
  {
    if r.offset + r.size >= TWO64 {
      assert (r.offset + r.size) % TWO64 == r.offset + r.size - TWO64;
    }
  }

  // ---- normalizedExtents ----

  /** The clamped, nonempty range of each ref below n. */
  function Clamp(refs: seq<ChunkRef>, n: nat): seq<Extent> {
    if refs == [] then []
    else
      var r := refs[|refs| - 1];
      var rest := Clamp(refs[..|refs| - 1], n);
      var end := if EndOf(r) > n then n else EndOf(r);
      if r.offset >= n || end <= r.offset then rest else rest + [Extent(r.offset, end)]
  }

  function Start(e: Extent): int { e.start }

  /** Fold one more extent into a merged prefix. */
  function Absorb(x: seq<Extent>, e: Extent): seq<Extent> {
    if x == [] then [e]
    else
      var last := x[|x| - 1];
      if e.start <= last.end
      then x[|x| - 1 := Extent(last.start, if e.end > last.end then e.end else last.end)]
      else x + [e]
  }

  function Merged(x: seq<Extent>): seq<Extent> {
    if x == [] then [] else Absorb(Merged(x[..|x| - 1]), x[|x| - 1])
  }

  /** What normalizedExtents returns. */
  function Extents(refs: seq<ChunkRef>, n: nat): seq<Extent> {
    Merged(Sort(Clamp(refs, n), Start))
  }

  lemma InAppend(x: seq<Extent>, e: Extent, b: nat)
    ensures In(x + [e], b) <==> In(x, b) || e.start <= b < e.end
  {
    assert e in x + [e];
    if In(x, b) {
      var f :| f in x && f.start <= b < f.end;
      assert f in x + [e];
    }
  }

  lemma {:induction false} ClampCovers(refs: seq<ChunkRef>, n: nat, b: nat)
    ensures In(Clamp(refs, n), b) <==> b < n && Covered(refs, b)
  {
    if refs != [] {
      var r := refs[|refs| - 1];
      var rest := refs[..|refs| - 1];
      ClampCovers(rest, n, b);
      InAppend(Clamp(rest, n), Extent(r.offset, if EndOf(r) > n then n else EndOf(r)), b);
      assert refs == rest + [r];
      assert Covered(refs, b) <==> Covered(rest, b) || Holds(r, b) by {
        if Covered(rest, b) {
          var q :| q in rest && Holds(q, b);
          assert q in refs;
        }
        assert r in refs;
      }
    }
  }

  lemma {:induction false} ClampWithin(refs: seq<ChunkRef>, n: nat, e: Extent)
    requires e in Clamp(refs, n)
    ensures e.start < e.end <= n
  {
    var r := refs[|refs| - 1];
    if e in Clamp(refs[..|refs| - 1], n) {
      ClampWithin(refs[..|refs| - 1], n, e);
    }
  }

  lemma AbsorbSeparated(x: seq<Extent>, e: Extent, n: nat)
    requires Separated(x) && Within(x, n) && e.start < e.end <= n
    requires x != [] ==> x[|x| - 1].start <= e.start
    ensures Separated(Absorb(x, e)) && Within(Absorb(x, e), n)
    ensures Absorb(x, e) != [] && Absorb(x, e)[|Absorb(x, e)| - 1].start <= e.start
  {
  }

  lemma AbsorbCovers(x: seq<Extent>, e: Extent, b: nat)
    requires x != [] ==> x[|x| - 1].start <= e.start
    requires x != [] ==> x[|x| - 1].start < x[|x| - 1].end
    ensures In(Absorb(x, e), b) <==> In(x, b) || e.start <= b < e.end
  {
    if x == [] || e.start > x[|x| - 1].end {
      InAppend(x, e, b);
      assert x == [] ==> [] + [e] == [e];
    } else {
      var last := x[|x| - 1];
      var front := x[..|x| - 1];
      var grown := Extent(last.start, if e.end > last.end then e.end else last.end);
      assert x == front + [last];
      assert Absorb(x, e) == front + [grown];
      InAppend(front, last, b);
      InAppend(front, grown, b);
    }
  }

  ghost predicate Proper(x: seq<Extent>, n: nat) {
    SortedBy(x, Start) && forall i :: 0 <= i < |x| ==> x[i].start < x[i].end <= n
  }

  /** Merging sorted extents separates them. */
  lemma {:induction false} MergedSeparated(x: seq<Extent>, n: nat)
    requires Proper(x, n)
    ensures Separated(Merged(x)) && Within(Merged(x), n)
    ensures x != [] ==> Merged(x) != [] && Merged(x)[|Merged(x)| - 1].start <= x[|x| - 1].start
  {
    if x != [] {
      var front, e := x[..|x| - 1], x[|x| - 1];
      MergedSeparated(front, n);
      assert front != [] ==> Start(front[|front| - 1]) <= Start(e);
      assert front == [] ==> Merged(front) == [];
      AbsorbSeparated(Merged(front), e, n);
    }
  }

  /** Merging keeps every byte and adds none. */
  lemma {:induction false} MergedCovers(x: seq<Extent>, n: nat, b: nat)
    requires Proper(x, n)
    ensures In(Merged(x), b) <==> In(x, b)
  {
    if x != [] {
      var front, e := x[..|x| - 1], x[|x| - 1];
      MergedCovers(front, n, b);
      MergedSeparated(front, n);
      assert front != [] ==> Start(front[|front| - 1]) <= Start(e);
      assert front == [] ==> Merged(front) == [];
      AbsorbCovers(Merged(front), e, b);
      InAppend(front, e, b);
      assert x == front + [e];
    }
  }

  /** The canonical form: strictly separated extents below n that cover exactly
      the covered bytes below n, for any refs in any order. */
  lemma ExtentsCorrect(refs: seq<ChunkRef>, n: nat)
    ensures Separated(Extents(refs, n)) && Within(Extents(refs, n), n)
    ensures forall b: nat :: In(Extents(refs, n), b) <==> b < n && Covered(refs, b)
  {
    var c := Clamp(refs, n);
    var sorted := Sort(c, Start);
    SortCorrect(c, Start);
    forall i | 0 <= i < |sorted| ensures sorted[i].start < sorted[i].end <= n {
      assert sorted[i] in sorted;
      SameMembers(sorted, c, sorted[i]);
      ClampWithin(refs, n, sorted[i]);
    }
    MergedSeparated(sorted, n);
    forall b: nat ensures In(Extents(refs, n), b) <==> b < n && Covered(refs, b) {
      ClampCovers(refs, n, b);
      InSorted(sorted, c, b);
      MergedCovers(sorted, n, b);
    }
  }

  lemma InSorted(a: seq<Extent>, c: seq<Extent>, b: nat)
    requires multiset(a) == multiset(c)
    ensures In(a, b) <==> In(c, b)
  {
    if In(a, b) {
      var e :| e in a && e.start <= b < e.end;
      SameMembers(a, c, e);
    }
    if In(c, b) {
      var e :| e in c && e.start <= b < e.end;
      SameMembers(a, c, e);
    }
  }

  // ---- the canonical form is unique ----

  lemma FirstByte(x: seq<Extent>)
    requires Separated(x) && x != []
    ensures In(x, x[0].start) && forall b: nat :: b < x[0].start ==> !In(x, b)
    ensures !In(x, x[0].end) && forall b: nat :: x[0].start <= b < x[0].end ==> In(x, b)
  {
    assert x[0] in x;
  }

  lemma TailBytes(x: seq<Extent>, b: nat)
    requires Separated(x) && x != []
    ensures In(x[1..], b) <==> In(x, b) && b > x[0].end
  {
    assert x == [x[0]] + x[1..];
    if In(x, b) && b > x[0].end {
      var e :| e in x && e.start <= b < e.end;
      assert e in x[1..];
    }
    if In(x[1..], b) {
      var e :| e in x[1..] && e.start <= b < e.end;
      assert e in x;
    }
  }

  lemma SameHead(x: seq<Extent>, y: seq<Extent>)
    requires Separated(x) && Separated(y) && x != [] && y != []
    requires forall b: nat :: In(x, b) <==> In(y, b)
    ensures x[0] == y[0]
  {
    FirstByte(x);
    FirstByte(y);
    assert In(y, x[0].start) && In(x, y[0].start);
    assert !In(y, x[0].end) && !In(x, y[0].end);
  }

  /** Two separated lists that cover the same bytes are the same list. */
  lemma {:induction false} CanonicalExtents(x: seq<Extent>, y: seq<Extent>)
    requires Separated(x) && Separated(y) && forall b: nat :: In(x, b) <==> In(y, b)
    ensures x == y
  {
    if x == [] {
      if y != [] { FirstByte(y); }
    } else if y == [] {
      FirstByte(x);
    } else {
      SameHead(x, y);
      forall b: nat ensures In(x[1..], b) <==> In(y[1..], b) {
        TailBytes(x, b);
        TailBytes(y, b);
      }
      CanonicalExtents(x[1..], y[1..]);
    }
  }

  /** Order and duplication of refs do not matter, only the bytes they hold. */
  lemma ExtentsDependOnCoverage(refs: seq<ChunkRef>, refs': seq<ChunkRef>, n: nat)
    requires forall b: nat :: b < n ==> (Covered(refs, b) <==> Covered(refs', b))
    ensures Extents(refs, n) == Extents(refs', n)
  {
    ExtentsCorrect(refs, n);
    ExtentsCorrect(refs', n);
    CanonicalExtents(Extents(refs, n), Extents(refs', n));
  }

  // ---- the in-place merge ----

  /** Compact the sorted extents in a[..n] in place: the merged prefix grows in
      the same array that is still being read. */
  method MergeInPlace(a: array<Extent>, n: nat) returns (m: nat)
    requires 0 < n <= a.Length
    modifies a
    ensures 0 < m <= n && a[..m] == Merged(old(a[..n]))
  {
    m := 1;
    var i := 1;
    assert old(a[..1])[..0] == [];
    assert a[..1] == Merged(old(a[..1]));
    while i < n
      invariant 1 <= m <= i <= n
      invariant forall k :: i <= k < n ==> a[k] == old(a[k])
      invariant a[..m] == Merged(old(a[..i]))
    {
      var e := a[i];
      var last := a[m - 1];
      ghost var merged := a[..m];
      assert old(a[..i + 1])[..i] == old(a[..i]);
      if e.start <= last.end {
        a[m - 1] := Extent(last.start, if e.end > last.end then e.end else last.end);
      } else {
        a[m] := e;
        m := m + 1;
      }
      assert a[..m] == Absorb(merged, e);
      i := i + 1;
    }
  }

  method NormalizedExtents(refs: seq<ChunkRef>, fileSize: U64) returns (x: seq<Extent>)
    ensures x == Extents(refs, fileSize)
    ensures Separated(x) && Within(x, fileSize)
    ensures forall b: nat :: In(x, b) <==> b < fileSize && Covered(refs, b)
  {
    ExtentsCorrect(refs, fileSize);
    var ext: seq<Extent> := [];
    for i := 0 to |refs|
      invariant ext == Clamp(refs[..i], fileSize)
    {
      assert refs[..i + 1][..i] == refs[..i];
      var r := refs[i];
      var end := EndOf(r);
      if end > fileSize { end := fileSize; }
      if r.offset < fileSize && end > r.offset {
        ext := ext + [Extent(r.offset, end)];
      }
    }
    assert refs[..|refs|] == refs;
    SortCorrect(ext, Start);
    ext := Sort(ext, Start);
    if ext == [] { return []; }
    var a := new Extent[|ext|](i requires 0 <= i < |ext| => ext[i]);
    assert a[..|ext|] == ext;
    var m := MergeInPlace(a, |ext|);
    return a[..m];
  }

  // ---- segments ----

  datatype SegmentKind = Data | Hole

  datatype Segment = Segment(kind: SegmentKind, start: nat, end: nat)

  /** The segmentation of [pos, n) that follows from the extents. */
  function SegmentsFrom(x: seq<Extent>, pos: nat, n: nat): seq<Segment> {
    if x == [] then (if pos < n then [Segment(Hole, pos, n)] else [])
    else
      var rest := [Segment(Data, x[0].start, x[0].end)] + SegmentsFrom(x[1..], x[0].end, n);
      if x[0].start > pos then [Segment(Hole, pos, x[0].start)] + rest else rest
  }

  function Segments(refs: seq<ChunkRef>, n: nat): seq<Segment> {
    SegmentsFrom(Extents(refs, n), 0, n)
  }

  method SegmentsExtents(x: seq<Extent>, fileSize: nat) returns (segs: seq<Segment>)
    requires Separated(x) && Within(x, fileSize)
    ensures segs == SegmentsFrom(x, 0, fileSize)
  {
    assert x != [] ==> x[0].start < x[0].end <= fileSize;
    if fileSize == 0 {
      return [];
    }
    if x == [] { return [Segment(Hole, 0, fileSize)]; }
    segs := [];
    var pos: nat := 0;
    for i := 0 to |x|
      invariant segs + SegmentsFrom(x[i..], pos, fileSize) == SegmentsFrom(x, 0, fileSize)
    {
      assert x[i..][0] == x[i] && x[i..][1..] == x[i + 1..];
      if x[i].start > pos {
        segs := segs + [Segment(Hole, pos, x[i].start)];
      }
      segs := segs + [Segment(Data, x[i].start, x[i].end)];
      pos := x[i].end;
    }
    if pos < fileSize {
      segs := segs + [Segment(Hole, pos, fileSize)];
    }
  }

  /** Nonempty segments laid end to end from lo to hi, kinds alternating. */
  ghost predicate Tiles(segs: seq<Segment>, lo: nat, hi: nat) {
    && (segs == [] <==> lo >= hi)
    && (segs != [] ==> segs[0].start == lo && segs[|segs| - 1].end == hi)
    && (forall i :: 0 <= i < |segs| ==> segs[i].start < segs[i].end)
    && (forall i :: 0 <= i < |segs| - 1 ==> segs[i].end == segs[i + 1].start && segs[i].kind != segs[i + 1].kind)
  }

  /** Every byte of every segment is what the segment says. */
  ghost predicate Truthful(segs: seq<Segment>, x: seq<Extent>) {
    forall i, b: nat :: 0 <= i < |segs| && segs[i].start <= b < segs[i].end ==> (segs[i].kind == Data <==> In(x, b))
  }

  lemma TilePrepend(seg: Segment, rest: seq<Segment>, hi: nat)
    requires seg.start < seg.end <= hi && Tiles(rest, seg.end, hi)
    requires rest != [] ==> rest[0].kind != seg.kind
    ensures Tiles([seg] + rest, seg.start, hi)
  {
  }

  /** From a position at or before the first extent, the segments tile the rest
      and begin with data only where an extent begins. */
  lemma {:induction false} SegmentsTile(x: seq<Extent>, pos: nat, n: nat)
    requires Separated(x) && Within(x, n) && pos <= n && (x != [] ==> pos <= x[0].start)
    ensures Tiles(SegmentsFrom(x, pos, n), pos, n)
    ensures var segs := SegmentsFrom(x, pos, n);
            segs != [] ==> (segs[0].kind == Data <==> x != [] && x[0].start == pos)
    decreases |x|
  {
    if x != [] {
      var tail := SegmentsFrom(x[1..], x[0].end, n);
      var data := Segment(Data, x[0].start, x[0].end);
      SegmentsTile(x[1..], x[0].end, n);
      TilePrepend(data, tail, n);
      if x[0].start > pos {
        TilePrepend(Segment(Hole, pos, x[0].start), [data] + tail, n);
      }
    }
  }

  lemma {:induction false} SegmentsTruthful(x: seq<Extent>, pos: nat, n: nat)
    requires Separated(x) && Within(x, n) && pos <= n && (x != [] ==> pos <= x[0].start)
    ensures Truthful(SegmentsFrom(x, pos, n), x)
    decreases |x|
  {
    if x != [] {
      var tail := SegmentsFrom(x[1..], x[0].end, n);
      SegmentsTruthful(x[1..], x[0].end, n);
      FirstByte(x);
      SegmentsStartAfter(x[1..], x[0].end, n);
      var segs := SegmentsFrom(x, pos, n);
      var k := |segs| - |tail|;
      assert segs[k..] == tail;
      forall i, b: nat | 0 <= i < |segs| && segs[i].start <= b < segs[i].end
        ensures segs[i].kind == Data <==> In(x, b)
      {
        if i >= k {
          assert segs[i] == tail[i - k];
          TailBytes(x, b);
          assert b == x[0].end ==> !In(x[1..], b);
        }
      }
    }
  }

  lemma {:induction false} SegmentsStartAfter(x: seq<Extent>, pos: nat, n: nat)
    requires Separated(x) && Within(x, n) && pos <= n && (x != [] ==> pos <= x[0].start)
    ensures forall i :: 0 <= i < |SegmentsFrom(x, pos, n)| ==> SegmentsFrom(x, pos, n)[i].start >= pos
    decreases |x|
  {
    if x != [] {
      SegmentsStartAfter(x[1..], x[0].end, n);
    }
  }

  /** READ_PLUS: the segments of any chunk list tile [0, n) with alternating
      kinds and tell data from hole on every byte. */
  lemma SegmentsCorrect(refs: seq<ChunkRef>, n: nat)
    ensures Tiles(Segments(refs, n), 0, n)
    ensures var segs := Segments(refs, n);
            forall i, b: nat :: 0 <= i < |segs| && segs[i].start <= b < segs[i].end ==>
              (segs[i].kind == Data <==> b < n && Covered(refs, b))
  {
    ExtentsCorrect(refs, n);
    SegmentsTile(Extents(refs, n), 0, n);
    SegmentsTruthful(Extents(refs, n), 0, n);
  }

  // ---- SEEK ----

  /** SEEK_DATA: the least data byte at or after `from`, or none. */
  method NextDataOffset(x: seq<Extent>, fileSize: nat, from: nat) returns (off: nat, found: bool)
    requires Separated(x) && Within(x, fileSize)
    ensures found <==> exists b: nat :: from <= b && In(x, b)
    ensures found ==> from <= off && In(x, off) && forall b: nat :: from <= b < off ==> !In(x, b)
  {
    if from >= fileSize {
      return 0, false;
    }
    for i := 0 to |x|
      invariant forall k :: 0 <= k < i ==> x[k].end <= from
    {
      if x[i].end > from {
        assert x[i] in x;
        if x[i].start <= from {
          assert In(x, from);
          return from, true;
        }
        assert In(x, x[i].start);
        return x[i].start, true;
      }
    }
    return 0, false;
  }

  /** SEEK_HOLE: the least byte at or after `from` that no extent covers, the
      end of file counting as a hole; no answer at or past it. */
  method NextHoleOffset(x: seq<Extent>, fileSize: nat, from: nat) returns (off: nat, found: bool)
    requires Separated(x) && Within(x, fileSize)
    ensures found <==> from < fileSize
    ensures found ==> from <= off <= fileSize && !In(x, off) && forall b: nat :: from <= b < off ==> In(x, b)
  {
    if from >= fileSize {
      return 0, false;
    }
    for i := 0 to |x|
      invariant forall k :: 0 <= k < i ==> x[k].end <= from
    {
      if x[i].end > from {
        assert x[i] in x;
        if x[i].start <= from {
          return x[i].end, true;
        }
        return from, true;
      }
    }
    return from, true;
  }

  /** SEEK agrees with READ_PLUS: the byte at a sought offset lies in a segment of
      the sought kind, and every segment before it that starts at or after
      `from` is of the other kind. */
  lemma SeekAgreesWithSegments(refs: seq<ChunkRef>, n: nat, from: nat, off: nat, kind: SegmentKind, i: nat)
    requires from <= off < n
    requires Covered(refs, off) <==> kind == Data
    requires forall b: nat :: from <= b < off ==> (Covered(refs, b) <==> kind != Data)
    requires i < |Segments(refs, n)|
    ensures var s := Segments(refs, n)[i];
            && (s.start <= off < s.end ==> s.kind == kind)
            && (from < s.end <= off ==> s.kind != kind)
  {
    SegmentsCorrect(refs, n);
    var s := Segments(refs, n)[i];
    if from < s.end <= off {
      assert s.start <= s.end - 1 < s.end;
      assert Covered(refs, s.end - 1) <==> kind != Data;
    }
  }
}
