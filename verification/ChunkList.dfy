/** Rewriting a file's chunk list: rollup merge, truncate and hole punching,
    and the sparse-file operations built on them. */
module ChunkList {
  import opened Common
  import opened Sorting
  import opened HoleMap

  function Offset(r: ChunkRef): int { r.offset }

  /** The refs whose bytes a read of b may return. */
  ghost function Sources(refs: seq<ChunkRef>, b: nat): set<ChunkRef> {
    set r | r in refs && Holds(r, b)
  }

  /** No byte is held twice. */
  ghost predicate NonOverlapping(refs: seq<ChunkRef>) {
    && (forall r, q, b :: r in refs && q in refs && Holds(r, b) && Holds(q, b) ==> r == q)
    && (forall r, b :: r in refs && Holds(r, b) ==> multiset(refs)[r] == 1)
  }

  /** The overlap test of the merge, on the code's wrapping ends. */
  predicate Overlaps(e: ChunkRef, q: ChunkRef) {
    e.offset < EndOf(q) && q.offset < EndOf(e)
  }

  predicate Clear(e: ChunkRef, incoming: seq<ChunkRef>) {
    forall q :: q in incoming ==> !Overlaps(e, q)
  }

  /** The end of the punched range, clamped at the top of the address space. */
  function PunchEnd(offset: U64, length: U64): nat {
    if offset + length >= TWO64 then TWO64 - 1 else offset + length
  }

  predicate Survives(r: ChunkRef, offset: U64, length: U64) {
    !(r.offset >= offset && EndOf(r) <= PunchEnd(offset, length))
  }

  /** Which refs a rewrite keeps: those clear of the incoming refs, those that
      begin below a size, those not wholly inside a punched range. */
  datatype Rule = ClearOf(incoming: seq<ChunkRef>) | Below(size: nat) | Outside(offset: U64, length: U64)

  predicate Keeps(rule: Rule, r: ChunkRef) {
    match rule
    case ClearOf(incoming) => Clear(r, incoming)
    case Below(size) => r.offset < size
    case Outside(offset, length) => Survives(r, offset, length)
  }

  function Filter(refs: seq<ChunkRef>, rule: Rule): seq<ChunkRef> {
    if refs == [] then []
    else
      var rest := Filter(refs[..|refs| - 1], rule);
      if Keeps(rule, refs[|refs| - 1]) then rest + [refs[|refs| - 1]] else rest
  }

  lemma {:induction false} FilterMultiset(refs: seq<ChunkRef>, rule: Rule, r: ChunkRef)
    ensures multiset(Filter(refs, rule))[r] == if Keeps(rule, r) then multiset(refs)[r] else 0
  {
    if refs != [] {
      FilterMultiset(refs[..|refs| - 1], rule, r);
      assert refs == refs[..|refs| - 1] + [refs[|refs| - 1]];
    }
  }

  /** `out` is the kept refs, plus `added`, in offset order. */
  ghost predicate IsRewrite(out: seq<ChunkRef>, refs: seq<ChunkRef>, rule: Rule, added: seq<ChunkRef>) {
    IsSortOf(out, Filter(refs, rule) + added, Offset)
  }

  lemma RewriteCount(out: seq<ChunkRef>, refs: seq<ChunkRef>, rule: Rule, added: seq<ChunkRef>, r: ChunkRef)
    requires IsRewrite(out, refs, rule, added)
    ensures multiset(out)[r] == (if Keeps(rule, r) then multiset(refs)[r] else 0) + multiset(added)[r]
    ensures r in out <==> (r in refs && Keeps(rule, r)) || r in added
  {
    FilterMultiset(refs, rule, r);
    assert r in out <==> multiset(out)[r] > 0;
    assert r in refs <==> multiset(refs)[r] > 0;
    assert r in added <==> multiset(added)[r] > 0;
  }

  /** Two refs that hold bytes overlap exactly when they share one. */
  lemma OverlapsExactly(e: ChunkRef, q: ChunkRef)
    requires Holds(e, e.offset) && Holds(q, q.offset)
    ensures Overlaps(e, q) <==> exists b: nat :: Holds(e, b) && Holds(q, b)
  {
    if Overlaps(e, q) {
      var b := if e.offset > q.offset then e.offset else q.offset;
      assert Holds(e, b) && Holds(q, b);
    }
  }

  // ---- MergeChunkRefsByOffset ----

  method MergeByOffset(existing: seq<ChunkRef>, incoming: seq<ChunkRef>) returns (out: seq<ChunkRef>)
    ensures IsRewrite(out, existing, ClearOf(incoming), incoming)
  {
    out := [];
    for i := 0 to |existing|
      invariant out == Filter(existing[..i], ClearOf(incoming))
    {
      assert existing[..i + 1][..i] == existing[..i];
      var e := existing[i];
      var overlaps := false;
      for j := 0 to |incoming|
        invariant overlaps <==> exists k :: 0 <= k < j && Overlaps(e, incoming[k])
      {
        if Overlaps(e, incoming[j]) {
          overlaps := true;
        }
      }
      assert overlaps <==> !Clear(e, incoming);
      if !overlaps {
        out := out + [e];
      }
    }
    assert existing[..|existing|] == existing;
    SortCorrect(out + incoming, Offset);
    out := Sort(out + incoming, Offset);
  }

  /** Refs that share a byte overlap. */
  lemma SharedByte(e: ChunkRef, q: ChunkRef, b: nat)
    requires Holds(e, b) && Holds(q, b)
    ensures Overlaps(e, q)
  {
  }

  /** On every byte the incoming refs hold, they alone are read; elsewhere the
      old refs that no incoming ref overlaps are read, and nothing else. */
  lemma MergeSources(out: seq<ChunkRef>, existing: seq<ChunkRef>, incoming: seq<ChunkRef>, b: nat)
    requires IsRewrite(out, existing, ClearOf(incoming), incoming)
    ensures Covered(incoming, b) ==> Sources(out, b) == Sources(incoming, b)
    ensures !Covered(incoming, b) ==> Sources(out, b) == set e | e in Sources(existing, b) && Clear(e, incoming)
  {
    forall r ensures r in Sources(out, b) <==>
                     Holds(r, b) && (r in incoming || (r in existing && Clear(r, incoming)))
    {
      RewriteCount(out, existing, ClearOf(incoming), incoming, r);
    }
    if Covered(incoming, b) {
      var q :| q in incoming && Holds(q, b);
      forall r | r in existing && Holds(r, b) ensures !Clear(r, incoming) {
        SharedByte(r, q, b);
      }
    }
  }

  /** Among refs that hold bytes, an old ref stays exactly when it shares no byte with
      an incoming one, or is one of them. */
  lemma MergeKeeps(out: seq<ChunkRef>, existing: seq<ChunkRef>, incoming: seq<ChunkRef>, e: ChunkRef)
    requires IsRewrite(out, existing, ClearOf(incoming), incoming) && e in existing && Holds(e, e.offset)
    requires forall q :: q in incoming ==> Holds(q, q.offset)
    ensures e in out <==> e in incoming || forall q, b: nat :: q in incoming && Holds(q, b) ==> !Holds(e, b)
  {
    RewriteCount(out, existing, ClearOf(incoming), incoming, e);
    forall q | q in incoming ensures Overlaps(e, q) <==> exists b: nat :: Holds(e, b) && Holds(q, b) {
      OverlapsExactly(e, q);
    }
  }

  /** Coverage is lost exactly on the bytes of an overlapped old ref that the
      incoming refs do not hold and no other kept ref holds. */
  lemma MergeCoverage(out: seq<ChunkRef>, existing: seq<ChunkRef>, incoming: seq<ChunkRef>, b: nat)
    requires IsRewrite(out, existing, ClearOf(incoming), incoming)
    ensures Covered(out, b) <==>
            Covered(incoming, b) || exists e :: e in existing && Holds(e, b) && Clear(e, incoming)
  {
    if Covered(out, b) {
      var r :| r in out && Holds(r, b);
      RewriteCount(out, existing, ClearOf(incoming), incoming, r);
    }
    if q :| q in incoming && Holds(q, b) {
      RewriteCount(out, existing, ClearOf(incoming), incoming, q);
    }
    if e :| e in existing && Holds(e, b) && Clear(e, incoming) {
      RewriteCount(out, existing, ClearOf(incoming), incoming, e);
    }
  }

  /** Merging two non-overlapping lists gives a sorted non-overlapping list. */
  lemma MergeNonOverlapping(out: seq<ChunkRef>, existing: seq<ChunkRef>, incoming: seq<ChunkRef>)
    requires IsRewrite(out, existing, ClearOf(incoming), incoming)
    requires NonOverlapping(existing) && NonOverlapping(incoming)
    ensures SortedBy(out, Offset) && NonOverlapping(out)
  {
    forall r, q, b | r in out && q in out && Holds(r, b) && Holds(q, b) ensures r == q {
      MergeSources(out, existing, incoming, b);
      assert r in Sources(out, b) && q in Sources(out, b);
    }
    forall r, b | r in out && Holds(r, b) ensures multiset(out)[r] == 1 {
      RewriteCount(out, existing, ClearOf(incoming), incoming, r);
      if r in incoming {
        SharedByte(r, r, b);
      }
    }
  }

  // ---- PruneChunkRefsToSize ----

  method PruneToSize(refs: seq<ChunkRef>, size: nat) returns (out: seq<ChunkRef>)
    ensures IsRewrite(out, refs, Below(size), [])
  {
    out := [];
    for i := 0 to |refs|
      invariant out == Filter(refs[..i], Below(size))
    {
      assert refs[..i + 1][..i] == refs[..i];
      if refs[i].offset < size {
        out := out + [refs[i]];
      }
    }
    assert refs[..|refs|] == refs && out + [] == out;
    SortCorrect(out, Offset);
    out := Sort(out, Offset);
  }

  /** After a truncate to n, the data at any size m is the data of the refs that
      begin below n: a ref straddling n keeps its tail past n. */
  lemma PruneCoverage(out: seq<ChunkRef>, refs: seq<ChunkRef>, n: nat, b: nat)
    requires IsRewrite(out, refs, Below(n), [])
    ensures Covered(out, b) <==> exists r :: r in refs && r.offset < n && Holds(r, b)
  {
    if Covered(out, b) {
      var r :| r in out && Holds(r, b);
      RewriteCount(out, refs, Below(n), [], r);
    }
    if r :| r in refs && r.offset < n && Holds(r, b) {
      RewriteCount(out, refs, Below(n), [], r);
    }
  }

  /** Truncating to n leaves the segmentation of [0, n) as it was. */
  lemma PruneKeepsSegments(out: seq<ChunkRef>, refs: seq<ChunkRef>, n: nat)
    requires IsRewrite(out, refs, Below(n), [])
    ensures Segments(out, n) == Segments(refs, n)
  {
    forall b: nat | b < n ensures Covered(out, b) <==> Covered(refs, b) {
      PruneCoverage(out, refs, n, b);
    }
    ExtentsDependOnCoverage(out, refs, n);
  }

  /** A later growth to m reads as a hole exactly when no kept ref straddles the
      truncation point. */
  lemma GrowthIsHole(out: seq<ChunkRef>, refs: seq<ChunkRef>, n: nat, m: nat)
    requires IsRewrite(out, refs, Below(n), []) && n < m
    ensures (forall b: nat :: n <= b < m ==> !In(Extents(out, m), b))
            <==> (forall r :: r in refs && r.offset < n ==> EndOf(r) <= n)
  {
    ExtentsCorrect(out, m);
    if r :| r in refs && r.offset < n && EndOf(r) > n {
      assert Holds(r, n);
      PruneCoverage(out, refs, n, n);
      assert In(Extents(out, m), n);
    }
    forall b: nat | n <= b < m && In(Extents(out, m), b)
      ensures exists r :: r in refs && r.offset < n && EndOf(r) > n
    {
      PruneCoverage(out, refs, n, b);
    }
  }

  // ---- PunchHole ----

  method Punch(refs: seq<ChunkRef>, offset: U64, length: U64) returns (out: seq<ChunkRef>)
    ensures length == 0 || refs == [] ==> out == refs
    ensures length != 0 && refs != [] ==> IsRewrite(out, refs, Outside(offset, length), [])
  {
    if length == 0 || refs == [] {
      return refs;
    }
    out := [];
    for i := 0 to |refs|
      invariant out == Filter(refs[..i], Outside(offset, length))
    {
      assert refs[..i + 1][..i] == refs[..i];
      if Survives(refs[i], offset, length) {
        out := out + [refs[i]];
      }
    }
    assert refs[..|refs|] == refs && out + [] == out;
    SortCorrect(out, Offset);
    out := Sort(out, Offset);
  }

  /** Punching changes what is read at a byte only inside the range, and there
      only by dropping refs that lie wholly inside it. */
  lemma PunchSources(out: seq<ChunkRef>, refs: seq<ChunkRef>, offset: U64, length: U64, b: nat)
    requires IsRewrite(out, refs, Outside(offset, length), [])
    ensures !(offset <= b < PunchEnd(offset, length)) ==> Sources(out, b) == Sources(refs, b)
    ensures Sources(out, b) == set r | r in Sources(refs, b) && Survives(r, offset, length)
  {
    forall r ensures r in out <==> r in refs && Survives(r, offset, length) {
      RewriteCount(out, refs, Outside(offset, length), [], r);
    }
  }

  // ---- the file operations ----

  datatype Error = IsDirectory | InvalidArgument | AccessDenied

  /** A range whose end is past the top of the address space. */
  predicate RangeOverflows(offset: U64, length: U64) {
    length > 0 && offset > TWO64 - 1 - length
  }

  /** A range is refused exactly when its end is not a 64-bit number. */
  lemma RangeOverflowsExactly(offset: U64, length: U64)
    ensures RangeOverflows(offset, length) <==> offset + length >= 0x1_0000_0000_0000_0000
  {
  }

  class SparseFile {
    const regular: bool
    var size: U64
    var blocks: seq<ChunkRef>

    constructor (regular: bool)
      ensures this.regular == regular && size == 0 && blocks == []
    {
      this.regular, size, blocks := regular, 0, [];
    }

    /** The size-changing part of SetFileAttributes. */
    method SetSize(newSize: U64)
      modifies this
      ensures size == newSize
      ensures newSize >= old(size) ==> blocks == old(blocks)
      ensures newSize < old(size) && old(blocks) != [] ==>
                IsRewrite(blocks, old(blocks), Below(newSize), [])
      ensures newSize <= old(size) ==> Segments(blocks, newSize) == Segments(old(blocks), newSize)
    {
      if newSize < size && blocks != [] {
        var pruned := PruneToSize(blocks, newSize);
        PruneKeepsSegments(pruned, blocks, newSize);
        blocks := pruned;
      }
      size := newSize;
    }

    /** DEALLOCATE: bytes outside the range keep their sources; the size stays. */
    method PunchHole(permitted: bool, offset: U64, length: U64) returns (err: Option<Error>)
      modifies this
      ensures err == (if !regular then Some(IsDirectory)
                      else if RangeOverflows(offset, length) then Some(InvalidArgument)
                      else if !permitted then Some(AccessDenied) else None)
      ensures size == old(size)
      ensures err.Some? || length == 0 || offset >= size ==> blocks == old(blocks)
      ensures forall b: nat :: !(offset <= b < offset + length) ==> Sources(blocks, b) == Sources(old(blocks), b)
      ensures err.None? && length > 0 && offset < size ==>
                forall b: nat :: Sources(blocks, b) ==
                  set r | r in Sources(old(blocks), b) && !(r.offset >= offset && EndOf(r) <= offset + length)
    {
      if !regular { return Some(IsDirectory); }
      if RangeOverflows(offset, length) { return Some(InvalidArgument); }
      if !permitted { return Some(AccessDenied); }
      if length == 0 || offset >= size || blocks == [] { return None; }
      var punched := Punch(blocks, offset, length);
      forall b: nat
        ensures !(offset <= b < offset + length) ==> Sources(punched, b) == Sources(blocks, b)
        ensures Sources(punched, b) == set r | r in Sources(blocks, b) && Survives(r, offset, length)
      {
        PunchSources(punched, blocks, offset, length, b);
      }
      blocks := punched;
      return None;
    }

    /** ALLOCATE: the size only grows, to cover the range; no ref changes. */
    method Allocate(permitted: bool, offset: U64, length: U64) returns (err: Option<Error>)
      modifies this
      ensures err == (if !regular then Some(IsDirectory)
                      else if RangeOverflows(offset, length) then Some(InvalidArgument)
                      else if !permitted then Some(AccessDenied) else None)
      ensures blocks == old(blocks)
      ensures size == if err.Some? || length == 0 || offset + length <= old(size) then old(size) else offset + length
      ensures forall b: nat :: b < old(size) ==> (In(Extents(blocks, size), b) <==> In(Extents(blocks, old(size)), b))
    {
      ExtentsCorrect(blocks, size);
      if !regular { return Some(IsDirectory); }
      if RangeOverflows(offset, length) { return Some(InvalidArgument); }
      if !permitted { return Some(AccessDenied); }
      if length == 0 || offset + length <= size { return None; }
      size := offset + length;
      ExtentsCorrect(blocks, size);
      return None;
    }
  }

  /** Write 10 bytes, truncate to 4, allocate to 20: the six truncated bytes are
      data again, although growth is documented to read as zeros. */
  lemma TruncatedTailReturns(hash: nat, out: seq<ChunkRef>)
    requires IsRewrite(out, [ChunkRef(hash, 0, 10)], Below(4), [])
    ensures forall b: nat :: 4 <= b < 10 ==> In(Extents(out, 20), b)
  {
    var r := ChunkRef(hash, 0, 10);
    ExtentsCorrect(out, 20);
    forall b: nat | 4 <= b < 10 ensures Covered(out, b) {
      assert r in [r] && Holds(r, b);
      PruneCoverage(out, [r], 4, b);
    }
  }
}
