/** A whole carve run on the store: its commits, the reap at its end, and what each
    byte of the file then reads from through File.Blocks. */
module CarveRun {

  import opened Common
  import opened HoleMap
  import opened ChunkIds
  import opened Manifest
  import opened ManifestStore
  import opened ChunkList

  /** A row holds the byte and projects to the reference. */
  ghost predicate RowReads(rows: map<string, Row>, id: string, r: ChunkRef, b: nat) {
    HoldsByte(rows, id, b) && RefOf(id, rows[id]) == Some(r)
  }

  ghost predicate Reads(rows: map<string, Row>, r: ChunkRef, b: nat) {
    exists id :: RowReads(rows, id, r, b)
  }

  ghost predicate AllCanonical(rows: map<string, Row>, payload: string) {
    forall id :: id in rows ==> Canonical(id, payload)
  }

  /** A canonical row and its reference hold the same bytes: neither end wraps. */
  lemma SameBytes(id: string, row: Row, payload: string, b: nat)
    requires Canonical(id, payload)
    ensures RefOf(id, row).Some?
    ensures Holds(RefOf(id, row).value, b) <==> OffsetOf(id) <= b < OffsetOf(id) + row.size
  {
    CanonicalParts(id, payload);
    assert OffsetOf(id) + row.size < TWO64;
  }

  lemma InProjection(out: seq<ChunkRef>, rows: map<string, Row>, payload: string, r: ChunkRef)
    requires IsProjection(out, rows, payload)
    ensures r in out <==> exists id :: id in IdsFor(rows, payload, r)
  {
    assert r in out <==> multiset(out)[r] > 0;
    assert multiset(out)[r] == |IdsFor(rows, payload, r)|;
    if r in out {
      assert IdsFor(rows, payload, r) != {};
    }
  }

  /** What File.Blocks reads at a byte is what the file's rows say. */
  lemma ProjectionReads(out: seq<ChunkRef>, rows: map<string, Row>, payload: string, r: ChunkRef, b: nat)
    requires IsProjection(out, rows, payload) && AllCanonical(FileRows(rows, payload), payload)
    ensures r in Sources(out, b) <==> Reads(FileRows(rows, payload), r, b)
  {
    var own := FileRows(rows, payload);
    InProjection(out, rows, payload, r);
    if r in Sources(out, b) {
      var id :| id in IdsFor(rows, payload, r);
      assert id in own;
      SameBytes(id, own[id], payload, b);
      assert RowReads(own, id, r, b);
    }
    if Reads(own, r, b) {
      var id :| RowReads(own, id, r, b);
      SameBytes(id, own[id], payload, b);
      assert id in IdsFor(rows, payload, r);
    }
  }

  lemma SameReads(rows: map<string, Row>, rows': map<string, Row>, r: ChunkRef, b: nat)
    requires RowsAt(rows, b) == RowsAt(rows', b)
    ensures Reads(rows, r, b) <==> Reads(rows', r, b)
  {
    if id :| RowReads(rows, id, r, b) {
      assert id in RowsAt(rows', b) && RowsAt(rows, b)[id] == rows[id];
      assert RowReads(rows', id, r, b);
    }
    if id :| RowReads(rows', id, r, b) {
      assert id in RowsAt(rows, b) && RowsAt(rows', b)[id] == rows'[id];
      assert RowReads(rows, id, r, b);
    }
  }

  /** The run as the store sees it: its old rows, and the rows its attempts wrote. */
  ghost predicate IsRunOf(c: Carve, s: Store, attempts: seq<Attempt>) {
    && CarveOk(c) && TilesSpan(c)
    && c.prior == FileRows(s.rows, c.payload) && c.added == RowsWritten(s, attempts)
  }

  ghost function AfterRun(c: Carve, s: Store, attempts: seq<Attempt>): map<string, Row> {
    Reap(Run(s, attempts).rows, c.payload, c.lo, c.hi, TiledOffsets(c))
  }

  lemma RunFileRows(c: Carve, s: Store, attempts: seq<Attempt>)
    requires IsRunOf(c, s, attempts)
    ensures FileRows(AfterRun(c, s, attempts), c.payload) == AfterCarve(c)
    ensures AllCanonical(AfterCarve(c), c.payload)
  {
    forall id | id in c.added ensures PayloadOf(id) == c.payload {
      CanonicalParts(id, c.payload);
    }
    CarveRunRows(s, attempts, c, c.payload);
    forall id | id in AfterCarve(c) ensures Canonical(id, c.payload) {
      CarveRows(c, id);
    }
  }

  /** For canonical rows, what is read at a byte determines the rows there. */
  lemma ReadsDetermineRows(rows: map<string, Row>, rows': map<string, Row>, payload: string, b: nat)
    requires AllCanonical(rows, payload) && AllCanonical(rows', payload)
    requires forall r :: Reads(rows, r, b) <==> Reads(rows', r, b)
    ensures RowsAt(rows, b) == RowsAt(rows', b)
  {
    forall id
      ensures HoldsByte(rows, id, b) <==> HoldsByte(rows', id, b)
      ensures HoldsByte(rows, id, b) && HoldsByte(rows', id, b) ==> rows[id] == rows'[id]
    {
      if HoldsByte(rows, id, b) {
        ReadRowIsThere(rows, rows', payload, id, b);
      }
      if HoldsByte(rows', id, b) {
        ReadRowIsThere(rows', rows, payload, id, b);
      }
    }
    SameRowsAt(rows, rows', b);
  }

  lemma ReadRowIsThere(rows: map<string, Row>, rows': map<string, Row>, payload: string, id: string, b: nat)
    requires AllCanonical(rows, payload) && AllCanonical(rows', payload) && HoldsByte(rows, id, b)
    requires forall r :: Reads(rows, r, b) ==> Reads(rows', r, b)
    ensures HoldsByte(rows', id, b) && rows[id] == rows'[id]
  {
    CanonicalParts(id, payload);
    var r := ChunkRef(rows[id].hash, OffsetOf(id), rows[id].size);
    assert RowReads(rows, id, r, b);
    assert Reads(rows', r, b);
    var id' :| RowReads(rows', id', r, b);
    CanonicalParts(id', payload);
    SameOffsetSameId(payload, id, id');
  }

  /** Through File.Blocks a byte reads as its rows say, before and after. */
  lemma ReadsAfterRun(c: Carve, s: Store, attempts: seq<Attempt>, before: seq<ChunkRef>, after: seq<ChunkRef>,
                      r: ChunkRef, b: nat)
    requires IsRunOf(c, s, attempts)
    requires IsProjection(before, s.rows, c.payload) && IsProjection(after, AfterRun(c, s, attempts), c.payload)
    ensures r in Sources(after, b) <==> Reads(AfterCarve(c), r, b)
    ensures r in Sources(before, b) <==> Reads(c.prior, r, b)
  {
    RunFileRows(c, s, attempts);
    ProjectionReads(after, AfterRun(c, s, attempts), c.payload, r, b);
    ProjectionReads(before, s.rows, c.payload, r, b);
  }

  ghost predicate ReadsChunks(c: Carve, after: seq<ChunkRef>) {
    forall r, b: nat :: c.lo <= b < c.hi ==> (r in Sources(after, b) <==> Reads(c.tiling, r, b))
  }

  ghost predicate ReadsAsBefore(c: Carve, before: seq<ChunkRef>, after: seq<ChunkRef>) {
    forall r, b: nat :: !(c.lo <= b < c.hi) ==> (r in Sources(after, b) <==> r in Sources(before, b))
  }

  lemma BlocksInside(c: Carve, s: Store, attempts: seq<Attempt>, before: seq<ChunkRef>, after: seq<ChunkRef>)
    requires IsRunOf(c, s, attempts)
    requires IsProjection(before, s.rows, c.payload) && IsProjection(after, AfterRun(c, s, attempts), c.payload)
    ensures ReadsChunks(c, after) <==> !CrossesIn(c) && AllStand(c)
  {
    RunFileRows(c, s, attempts);
    forall r, b: nat ensures r in Sources(after, b) <==> Reads(AfterCarve(c), r, b) {
      ReadsAfterRun(c, s, attempts, before, after, r, b);
    }
    CarveInside(c);
    if ReadsChunks(c, after) {
      forall b: nat | c.lo <= b < c.hi ensures RowsAt(AfterCarve(c), b) == RowsAt(c.tiling, b) {
        forall r ensures Reads(AfterCarve(c), r, b) <==> Reads(c.tiling, r, b) {
          assert r in Sources(after, b) <==> Reads(c.tiling, r, b);
        }
        ReadsDetermineRows(AfterCarve(c), c.tiling, c.payload, b);
      }
    } else {
      var r, b: nat :| c.lo <= b < c.hi && !(r in Sources(after, b) <==> Reads(c.tiling, r, b));
      if RowsAt(AfterCarve(c), b) == RowsAt(c.tiling, b) {
        SameReads(AfterCarve(c), c.tiling, r, b);
      }
    }
  }

  lemma BlocksOutside(c: Carve, s: Store, attempts: seq<Attempt>, before: seq<ChunkRef>, after: seq<ChunkRef>)
    requires IsRunOf(c, s, attempts)
    requires IsProjection(before, s.rows, c.payload) && IsProjection(after, AfterRun(c, s, attempts), c.payload)
    ensures ReadsAsBefore(c, before, after) <==> !CrossesOut(c)
  {
    RunFileRows(c, s, attempts);
    forall r, b: nat
      ensures r in Sources(after, b) <==> Reads(AfterCarve(c), r, b)
      ensures r in Sources(before, b) <==> Reads(c.prior, r, b)
    {
      ReadsAfterRun(c, s, attempts, before, after, r, b);
    }
    CarveOutside(c);
    if ReadsAsBefore(c, before, after) {
      forall b: nat | !(c.lo <= b < c.hi) ensures RowsAt(AfterCarve(c), b) == RowsAt(c.prior, b) {
        forall r ensures Reads(AfterCarve(c), r, b) <==> Reads(c.prior, r, b) {
          assert r in Sources(after, b) <==> r in Sources(before, b);
        }
        ReadsDetermineRows(AfterCarve(c), c.prior, c.payload, b);
      }
    } else {
      var r, b: nat :| !(c.lo <= b < c.hi) && !(r in Sources(after, b) <==> r in Sources(before, b));
      if RowsAt(AfterCarve(c), b) == RowsAt(c.prior, b) {
        SameReads(AfterCarve(c), c.prior, r, b);
      }
    }
  }

  /** Through File.Blocks each byte of the span reads from the chunk the run made for
      it exactly when no old row reached in and every chunk has a row; each byte
      outside reads what it read before exactly when no old row reached out. */
  lemma BlocksAfterRun(c: Carve, s: Store, attempts: seq<Attempt>, before: seq<ChunkRef>, after: seq<ChunkRef>)
    requires IsRunOf(c, s, attempts)
    requires IsProjection(before, s.rows, c.payload) && IsProjection(after, AfterRun(c, s, attempts), c.payload)
    ensures ReadsChunks(c, after) <==> !CrossesIn(c) && AllStand(c)
    ensures ReadsAsBefore(c, before, after) <==> !CrossesOut(c)
  {
    BlocksInside(c, s, attempts, before, after);
    BlocksOutside(c, s, attempts, before, after);
  }

  /** carveRun against the metadata: the commits of its blocks, overlapping, so that
      any of them may fail, and one reap if the packing and every commit succeeded. */
  method CarveOnto(store: BlockStore, attempts: seq<Attempt>, packed: bool, tiled: set<int>, lo: nat, hi: nat,
                   payload: string, ghost c: Carve) returns (done: bool)
    requires store.Coherent() && forall i :: 0 <= i < |attempts| ==> OneFile(attempts[i].commit.fileChunks)
    requires IsRunOf(c, store.store, attempts) && payload in store.blocks
    requires payload == c.payload && lo == c.lo && hi == c.hi && tiled == TiledOffsets(c)
    modifies store
    ensures store.Coherent() && store.blocks.Keys == old(store.blocks).Keys
    ensures done <==> packed && forall i :: 0 <= i < |attempts| ==> attempts[i].succeeds
    ensures !done ==> store.store == Run(old(store.store), attempts)
    ensures done ==> store.store.rows == AfterRun(c, old(store.store), attempts)
    ensures done ==> (ReadsChunks(c, store.blocks[payload]) <==> !CrossesIn(c) && AllStand(c))
    ensures done ==> (ReadsAsBefore(c, old(store.blocks)[payload], store.blocks[payload]) <==> !CrossesOut(c))
  {
    done := packed;
    for i := 0 to |attempts|
      invariant store.Coherent() && store.blocks.Keys == old(store.blocks).Keys
      invariant Run(store.store, attempts[i..]) == Run(old(store.store), attempts)
      invariant done <==> packed && forall j :: 0 <= j < i ==> attempts[j].succeeds
    {
      assert attempts[i..][0] == attempts[i] && attempts[i..][1..] == attempts[i + 1..];
      store.Commit(attempts[i].commit, attempts[i].succeeds);
      done := done && attempts[i].succeeds;
    }
    if !done { return; }
    store.ReapSuperseded(payload, lo, hi, tiled);
    BlocksAfterRun(c, old(store.store), attempts, old(store.blocks)[payload], store.blocks[payload]);
  }

  // ---- truncates and punches between projections ----

  /** SETATTR and DEALLOCATE rewrite File.Blocks without touching the rows: it stays
      the projection exactly when the rewrite drops nothing. */
  lemma RewriteLeavesProjection(out: seq<ChunkRef>, blocks: seq<ChunkRef>, rows: map<string, Row>, payload: string,
                                rule: Rule)
    requires IsProjection(blocks, rows, payload) && IsRewrite(out, blocks, rule, [])
    ensures IsProjection(out, rows, payload) <==> forall r :: r in blocks ==> Keeps(rule, r)
  {
    forall r ensures multiset(out)[r] == if Keeps(rule, r) then multiset(blocks)[r] else 0 {
      RewriteCount(out, blocks, rule, [], r);
    }
    if r :| r in blocks && !Keeps(rule, r) {
      assert multiset(blocks)[r] > 0 && multiset(blocks)[r] == |IdsFor(rows, payload, r)|;
      assert multiset(out)[r] != |IdsFor(rows, payload, r)|;
    } else {
      forall r ensures multiset(out)[r] == |IdsFor(rows, payload, r)| {
        assert multiset(blocks)[r] == |IdsFor(rows, payload, r)|;
        assert r in blocks <==> multiset(blocks)[r] > 0;
      }
    }
  }

  /** The next projection of the file brings back exactly what the rewrite dropped, so
      a punched range, or a tail cut off and grown over, reads its old bytes again. */
  lemma ProjectionUndoesRewrite(out: seq<ChunkRef>, blocks: seq<ChunkRef>, next: seq<ChunkRef>,
                                rows: map<string, Row>, payload: string, rule: Rule, b: nat)
    requires IsProjection(blocks, rows, payload) && IsRewrite(out, blocks, rule, [])
    requires IsProjection(next, rows, payload)
    ensures Sources(next, b) == Sources(blocks, b)
    ensures Sources(out, b) == set r | r in Sources(next, b) && Keeps(rule, r)
  {
    forall r
      ensures r in next <==> r in blocks
      ensures r in out <==> r in blocks && Keeps(rule, r)
    {
      assert multiset(next)[r] == |IdsFor(rows, payload, r)| == multiset(blocks)[r];
      assert r in next <==> multiset(next)[r] > 0;
      RewriteCount(out, blocks, rule, [], r);
    }
  }
}
