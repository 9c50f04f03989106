/** The manifest transactions as the store runs them, keeping File.Blocks the
    sorted projection of the manifest rows. */
module ManifestStore {
  import opened Common
  import opened Sorting
  import opened HoleMap
  import opened ChunkIds
  import opened Manifest
  import ChunkList

  /** The chunk reference a row projects to; an unparseable id projects to none. */
  function RefOf(id: string, row: Row): Option<ChunkRef> {
    match ParseOffset(id)
    case None => None
    case Some(off) => Some(ChunkRef(row.hash, off, row.size))
  }

  ghost function IdsFor(rows: map<string, Row>, payload: string, r: ChunkRef): set<string> {
    set id | id in rows && PayloadOf(id) == payload && RefOf(id, rows[id]) == Some(r)
  }

  /** Sorted by offset, holding each reference once per row that projects to it. */
  ghost predicate IsProjection(out: seq<ChunkRef>, rows: map<string, Row>, payload: string) {
    SortedBy(out, ChunkList.Offset) && forall r :: multiset(out)[r] == |IdsFor(rows, payload, r)|
  }

  /** A reference stands in the block list exactly when a row of the file starts at
      its offset and has its hash and size. */
  lemma BlocksCarryRows(out: seq<ChunkRef>, rows: map<string, Row>, payload: string, r: ChunkRef)
    requires IsProjection(out, rows, payload)
    ensures r in out <==>
            exists id :: id in rows && PayloadOf(id) == payload && ParseOffset(id) == Some(r.offset)
                         && rows[id].hash == r.hash && rows[id].size == r.size
  {
    assert r in out <==> multiset(out)[r] > 0;
    assert multiset(out)[r] == |IdsFor(rows, payload, r)|;
    if r in out {
      assert IdsFor(rows, payload, r) != {};
      var id :| id in IdsFor(rows, payload, r);
      assert id in rows && ParseOffset(id) == Some(r.offset) && rows[id].hash == r.hash && rows[id].size == r.size;
    }
    if id :| (id in rows && PayloadOf(id) == payload && ParseOffset(id) == Some(r.offset)
              && rows[id].hash == r.hash && rows[id].size == r.size) {
      assert id in IdsFor(rows, payload, r);
    }
  }

  // ---- ManifestToChunkRefs ----

  function Projected(rows: seq<Option<FileChunk>>): seq<ChunkRef> {
    if rows == [] then []
    else
      var rest := Projected(rows[..|rows| - 1]);
      match rows[|rows| - 1]
      case None => rest
      case Some(fc) =>
        match RefOf(fc.id, fc.row)
        case None => rest
        case Some(r) => rest + [r]
  }

  method ManifestToChunkRefs(rows: seq<Option<FileChunk>>) returns (refs: seq<ChunkRef>)
    ensures IsSortOf(refs, Projected(rows), ChunkList.Offset)
  {
    refs := [];
    for i := 0 to |rows|
      invariant refs == Projected(rows[..i])
    {
      assert rows[..i + 1][..i] == rows[..i];
      if rows[i].Some? {
        var off, ok := ParseChunkOffset(rows[i].value.id);
        if ok {
          refs := refs + [ChunkRef(rows[i].value.row.hash, off, rows[i].value.row.size)];
        }
      }
    }
    assert rows[..|rows|] == rows;
    SortCorrect(refs, ChunkList.Offset);
    refs := Sort(refs, ChunkList.Offset);
  }

  // ---- listing ----

  ghost predicate Distinct(ids: seq<string>) {
    forall i, j :: 0 <= i < j < |ids| ==> ids[i] != ids[j]
  }

  /** A listing: each row of the payload once, in no promised order. */
  ghost predicate IsListing(ids: seq<string>, rows: map<string, Row>, payload: string) {
    Distinct(ids) && forall id :: id in ids <==> id in rows && PayloadOf(id) == payload
  }

  function RowsOf(ids: seq<string>, rows: map<string, Row>): seq<Option<FileChunk>>
    requires forall id :: id in ids ==> id in rows
  {
    seq(|ids|, i requires 0 <= i < |ids| => assert ids[i] in ids; Some(FileChunk(ids[i], rows[ids[i]])))
  }

  ghost function Hits(ids: seq<string>, rows: map<string, Row>, r: ChunkRef): set<string> {
    set id | id in ids && id in rows && RefOf(id, rows[id]) == Some(r)
  }

  lemma {:induction false} ListingCount(ids: seq<string>, rows: map<string, Row>, r: ChunkRef)
    requires Distinct(ids) && forall id :: id in ids ==> id in rows
    ensures multiset(Projected(RowsOf(ids, rows)))[r] == |Hits(ids, rows, r)|
  {
    if ids == [] {
      assert Hits(ids, rows, r) == {};
    } else {
      var front, last := ids[..|ids| - 1], ids[|ids| - 1];
      HitsStep(front, last, rows, r);
      assert ids == front + [last];
      ListingCount(front, rows, r);
      SetSizes(Hits(front, rows, r), last);
      ProjectedStep(ids, rows, r);
    }
  }

  lemma HitsStep(front: seq<string>, last: string, rows: map<string, Row>, r: ChunkRef)
    requires Distinct(front + [last]) && forall id :: id in front + [last] ==> id in rows
    ensures Distinct(front) && (forall id :: id in front ==> id in rows) && last in rows
    ensures last !in Hits(front, rows, r)
    ensures Hits(front + [last], rows, r) ==
            if RefOf(last, rows[last]) == Some(r) then Hits(front, rows, r) + {last} else Hits(front, rows, r)
  {
    var ids := front + [last];
    assert forall i :: 0 <= i < |front| ==> ids[i] == front[i];
    assert ids[|front|] == last;
  }

  lemma ProjectedStep(ids: seq<string>, rows: map<string, Row>, r: ChunkRef)
    requires ids != [] && forall id :: id in ids ==> id in rows
    ensures var front, last := ids[..|ids| - 1], ids[|ids| - 1];
            && (forall id :: id in front ==> id in rows) && last in rows
            && multiset(Projected(RowsOf(ids, rows)))[r] ==
               multiset(Projected(RowsOf(front, rows)))[r] + if RefOf(last, rows[last]) == Some(r) then 1 else 0
  {
    var front, last := ids[..|ids| - 1], ids[|ids| - 1];
    assert last in ids;
    assert RowsOf(ids, rows)[..|ids| - 1] == RowsOf(front, rows);
    assert RowsOf(ids, rows)[|ids| - 1] == Some(FileChunk(last, rows[last]));
  }

  /** Projecting any listing gives a projection of the rows. */
  lemma ListingProjects(out: seq<ChunkRef>, ids: seq<string>, rows: map<string, Row>, payload: string)
    requires IsListing(ids, rows, payload) && IsSortOf(out, Projected(RowsOf(ids, rows)), ChunkList.Offset)
    ensures IsProjection(out, rows, payload)
  {
    forall r ensures multiset(out)[r] == |IdsFor(rows, payload, r)| {
      ListingCount(ids, rows, r);
      assert Hits(ids, rows, r) == IdsFor(rows, payload, r);
    }
  }

  /** A projection only looks at its own file's rows. */
  lemma ProjectionFrame(out: seq<ChunkRef>, rows: map<string, Row>, rows': map<string, Row>, payload: string)
    requires IsProjection(out, rows, payload) && FileRows(rows, payload) == FileRows(rows', payload)
    ensures IsProjection(out, rows', payload)
  {
    forall r ensures IdsFor(rows, payload, r) == IdsFor(rows', payload, r) {
      forall id ensures id in IdsFor(rows, payload, r) <==> id in IdsFor(rows', payload, r) {
        assert id in FileRows(rows, payload) <==> id in FileRows(rows', payload);
      }
    }
  }

  /** The file a batch of rows belongs to: the first id that names one. */
  function PayloadOfChunks(fcs: seq<Option<FileChunk>>): string {
    if fcs == [] then ""
    else if fcs[0].Some? && PayloadOf(fcs[0].value.id) != "" then PayloadOf(fcs[0].value.id)
    else PayloadOfChunks(fcs[1..])
  }

  /** All rows of one carve belong to one file. */
  ghost predicate OneFile(fcs: seq<Option<FileChunk>>) {
    forall i :: 0 <= i < |fcs| && fcs[i].Some? ==> PayloadOf(fcs[i].value.id) in {"", PayloadOfChunks(fcs)}
  }

  lemma {:induction false} PutRowsFrame(rows: map<string, Row>, fcs: seq<Option<FileChunk>>, other: string)
    requires forall i :: 0 <= i < |fcs| && fcs[i].Some? ==> PayloadOf(fcs[i].value.id) != other
    ensures FileRows(PutRows(rows, fcs), other) == FileRows(rows, other)
  {
    if fcs != [] {
      PutRowsFrame(rows, fcs[..|fcs| - 1], other);
    }
  }

  class BlockStore {
    var store: Store
    var blocks: map<string, seq<ChunkRef>>   // File.Blocks of every file, by payload id

    constructor ()
      ensures store == Store(map[], map[], map[]) && blocks == map[]
    {
      store, blocks := Store(map[], map[], map[]), map[];
    }

    /** File.Blocks is the projection of the rows, for every file. */
    ghost predicate Coherent()
      reads this
    {
      forall p :: p in blocks && p != "" ==> IsProjection(blocks[p], store.rows, p)
    }

    method ListFileChunks(rows: map<string, Row>, payload: string) returns (ids: seq<string>)
      ensures IsListing(ids, rows, payload)
    {
      ids := [];
      var todo := rows.Keys;
      while todo != {}
        invariant todo <= rows.Keys && Distinct(ids)
        invariant forall id :: id in ids <==> id in rows && id !in todo && PayloadOf(id) == payload
        decreases |todo|
      {
        var id :| id in todo;
        todo := todo - {id};
        if PayloadOf(id) == payload {
          ids := ids + [id];
        }
      }
    }

    /** Re-materialize one file's block list from the rows of the transaction. */
    method ProjectManifestToBlocks(rows: map<string, Row>, payload: string)
      modifies this`blocks
      ensures blocks.Keys == old(blocks).Keys
      ensures forall p :: p in blocks && p != payload ==> blocks[p] == old(blocks)[p]
      ensures payload == "" ==> blocks == old(blocks)
      ensures payload != "" && payload in blocks ==> IsProjection(blocks[payload], rows, payload)
    {
      if payload == "" || payload !in blocks {
        return;
      }
      var ids := ListFileChunks(rows, payload);
      var refs := ManifestToChunkRefs(RowsOf(ids, rows));
      ListingProjects(refs, ids, rows, payload);
      blocks := blocks[payload := refs];
    }

    /** DefaultCommitBlock: one transaction that commits or rolls back whole. */
    method Commit(c: Commit, succeeds: bool)
      requires Coherent() && OneFile(c.fileChunks)
      modifies this
      ensures store == if succeeds then CommitBlock(old(store), c) else old(store)
      ensures Coherent() && blocks.Keys == old(blocks).Keys
    {
      if c.block in store.records || !succeeds {
        return;
      }
      var rows := store.rows;
      for i := 0 to |c.fileChunks|
        invariant rows == PutRows(store.rows, c.fileChunks[..i])
      {
        assert c.fileChunks[..i + 1][..i] == c.fileChunks[..i];
        if c.fileChunks[i].Some? {
          rows := rows[c.fileChunks[i].value.id := c.fileChunks[i].value.row];
        }
      }
      assert c.fileChunks[..|c.fileChunks|] == c.fileChunks;
      var locators := store.locators;
      for i := 0 to |c.chunks|
        invariant locators == PutLocators(store.locators, c.chunks[..i])
      {
        assert c.chunks[..i + 1][..i] == c.chunks[..i];
        locators := locators - {c.chunks[i].hash};
        locators := locators[c.chunks[i].hash := c.chunks[i].remote];
      }
      assert c.chunks[..|c.chunks|] == c.chunks;
      var payload := PayloadOfChunks(c.fileChunks);
      ProjectManifestToBlocks(rows, payload);
      forall p | p in blocks && p != "" && p != payload ensures IsProjection(blocks[p], rows, p) {
        PutRowsFrame(store.rows, c.fileChunks, p);
        ProjectionFrame(blocks[p], store.rows, rows, p);
      }
      store := Store(store.records[c.block := c.record], rows, locators);
    }

    /** ReapSupersededManifest: delete the superseded rows one by one. */
    method ReapSuperseded(payload: string, lo: int, hi: int, written: set<int>)
      requires Coherent()
      modifies this
      ensures store == old(store).(rows := Reap(old(store).rows, payload, lo, hi, written))
      ensures Coherent() && blocks.Keys == old(blocks).Keys
    {
      if payload == "" || hi <= lo {
        return;
      }
      var ids := ListFileChunks(store.rows, payload);
      var rows := store.rows;
      for i := 0 to |ids|
        invariant store == old(store) && blocks == old(blocks)
        invariant forall id :: id in rows <==>
                    id in store.rows && !(id in ids[..i] && Superseded(id, payload, lo, hi, written))
        invariant forall id :: id in rows ==> rows[id] == store.rows[id]
      {
        var off, ok := ParseChunkOffset(ids[i]);
        assert ids[i] in ids;
        if ok && lo <= Signed(off) < hi && Signed(off) !in written {
          rows := rows - {ids[i]};
        }
        assert forall id :: id in ids[..i + 1] <==> id in ids[..i] || id == ids[i];
      }
      assert ids[..|ids|] == ids;
      assert rows == Reap(store.rows, payload, lo, hi, written);
      ReapFileRows(store.rows, payload, lo, hi, written);
      ProjectManifestToBlocks(rows, payload);
      forall p | p in blocks && p != "" && p != payload ensures IsProjection(blocks[p], rows, p) {
        ProjectionFrame(blocks[p], store.rows, rows, p);
      }
      store := store.(rows := rows);
    }
  }
}
