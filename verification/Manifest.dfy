/** The per-file chunk manifest: block commits, the reap at the end of a carve
    run, and what they leave of records, rows and locators. */
module Manifest {
  import opened Common
  import opened HoleMap
  import opened ChunkIds

  type BlockId = string
  type Hash = nat
  type Locator = nat

  datatype Row = Row(hash: Hash, size: U32)

  datatype FileChunk = FileChunk(id: string, row: Row)

  datatype ChunkCommit = ChunkCommit(hash: Hash, remote: Locator)

  /** One CommitBlock call; nil manifest rows are skipped. */
  datatype Commit = Commit(block: BlockId, record: nat, chunks: seq<ChunkCommit>, fileChunks: seq<Option<FileChunk>>)

  datatype Store = Store(records: map<BlockId, nat>, rows: map<string, Row>, locators: map<Hash, Locator>)

  // ---- DefaultCommitBlock ----

  function PutRows(rows: map<string, Row>, fcs: seq<Option<FileChunk>>): map<string, Row> {
    if fcs == [] then rows
    else
      var rest := PutRows(rows, fcs[..|fcs| - 1]);
      match fcs[|fcs| - 1]
      case None => rest
      case Some(fc) => rest[fc.id := fc.row]
  }

  /** DeleteSynced then MarkSynced: the last write of a hash wins. */
  function PutLocators(locators: map<Hash, Locator>, chunks: seq<ChunkCommit>): map<Hash, Locator> {
    if chunks == [] then locators
    else PutLocators(locators, chunks[..|chunks| - 1])[chunks[|chunks| - 1].hash := chunks[|chunks| - 1].remote]
  }

  /** The writes of a commit whose block is not recorded yet. */
  function Install(s: Store, c: Commit): Store {
    Store(s.records[c.block := c.record], PutRows(s.rows, c.fileChunks), PutLocators(s.locators, c.chunks))
  }

  function CommitBlock(s: Store, c: Commit): Store {
    if c.block in s.records then s else Install(s, c)
  }

  // ---- repeats and retries ----

  /** One attempt: its transaction commits or rolls back. */
  datatype Attempt = Attempt(commit: Commit, succeeds: bool)

  function Run(s: Store, attempts: seq<Attempt>): Store
    decreases |attempts|
  {
    if attempts == [] then s
    else Run(if attempts[0].succeeds then CommitBlock(s, attempts[0].commit) else s, attempts[1..])
  }

  /** The first successful attempt of each block not seen before. */
  function Firsts(attempts: seq<Attempt>, seen: set<BlockId>): seq<Commit>
    decreases |attempts|
  {
    if attempts == [] then []
    else
      var c := attempts[0].commit;
      if attempts[0].succeeds && c.block !in seen
      then [c] + Firsts(attempts[1..], seen + {c.block})
      else Firsts(attempts[1..], seen)
  }

  function InstallAll(s: Store, commits: seq<Commit>): Store
    decreases |commits|
  {
    if commits == [] then s else InstallAll(Install(s, commits[0]), commits[1..])
  }

  /** Repeated and retried commits leave exactly what the first successful
      occurrence of each block, taken in order, would leave. */
  lemma {:induction false} RunIsFirsts(s: Store, attempts: seq<Attempt>)
    ensures Run(s, attempts) == InstallAll(s, Firsts(attempts, s.records.Keys))
    decreases |attempts|
  {
    if attempts != [] {
      var c := attempts[0].commit;
      if attempts[0].succeeds && c.block !in s.records {
        var t := Install(s, c);
        RunIsFirsts(t, attempts[1..]);
        assert t.records.Keys == s.records.Keys + {c.block};
        var rest := Firsts(attempts[1..], t.records.Keys);
        assert ([c] + rest)[1..] == rest;
      } else {
        RunIsFirsts(s, attempts[1..]);
      }
    }
  }

  /** The locator the commits give a hash: the last one to name it. */
  function LastLocator(chunks: seq<ChunkCommit>, h: Hash): Option<Locator> {
    if chunks == [] then None
    else if chunks[|chunks| - 1].hash == h then Some(chunks[|chunks| - 1].remote)
    else LastLocator(chunks[..|chunks| - 1], h)
  }

  function AllChunks(commits: seq<Commit>): seq<ChunkCommit> {
    if commits == [] then [] else commits[0].chunks + AllChunks(commits[1..])
  }

  function AllRows(commits: seq<Commit>): seq<Option<FileChunk>> {
    if commits == [] then [] else commits[0].fileChunks + AllRows(commits[1..])
  }

  lemma {:induction false} PutRowsAppend(rows: map<string, Row>, a: seq<Option<FileChunk>>, b: seq<Option<FileChunk>>)
    ensures PutRows(rows, a + b) == PutRows(PutRows(rows, a), b)
  {
    if b == [] {
      assert a + b == a;
    } else {
      PutRowsAppend(rows, a, b[..|b| - 1]);
      assert (a + b)[..|a + b| - 1] == a + b[..|b| - 1];
    }
  }

  lemma {:induction false} PutLocatorsAppend(l: map<Hash, Locator>, a: seq<ChunkCommit>, b: seq<ChunkCommit>)
    ensures PutLocators(l, a + b) == PutLocators(PutLocators(l, a), b)
  {
    if b == [] {
      assert a + b == a;
    } else {
      PutLocatorsAppend(l, a, b[..|b| - 1]);
      assert (a + b)[..|a + b| - 1] == a + b[..|b| - 1];
    }
  }

  /** Batches of one run add up: their rows and chunks may as well have come in
      one commit. */
  lemma {:induction false} InstallAllAdds(s: Store, commits: seq<Commit>)
    ensures InstallAll(s, commits).rows == PutRows(s.rows, AllRows(commits))
    ensures InstallAll(s, commits).locators == PutLocators(s.locators, AllChunks(commits))
    decreases |commits|
  {
    if commits != [] {
      InstallAllAdds(Install(s, commits[0]), commits[1..]);
      PutRowsAppend(s.rows, commits[0].fileChunks, AllRows(commits[1..]));
      PutLocatorsAppend(s.locators, commits[0].chunks, AllChunks(commits[1..]));
    }
  }

  lemma {:induction false} LocatorIsLast(l: map<Hash, Locator>, chunks: seq<ChunkCommit>, h: Hash)
    ensures var last := LastLocator(chunks, h);
            && (last.Some? ==> h in PutLocators(l, chunks) && PutLocators(l, chunks)[h] == last.value)
            && (last.None? ==>
                  (h in PutLocators(l, chunks) <==> h in l) && (h in l ==> PutLocators(l, chunks)[h] == l[h]))
  {
    if chunks != [] {
      LocatorIsLast(l, chunks[..|chunks| - 1], h);
    }
  }

  /** After any attempts, each hash's locator comes from the last of the first
      occurrences that names it. */
  lemma RunLocators(s: Store, attempts: seq<Attempt>, h: Hash)
    ensures var last := LastLocator(AllChunks(Firsts(attempts, s.records.Keys)), h);
            var t := Run(s, attempts);
            && (last.Some? ==> h in t.locators && t.locators[h] == last.value)
            && (last.None? ==>
                  (h in t.locators <==> h in s.locators) && (h in s.locators ==> t.locators[h] == s.locators[h]))
  {
    var firsts := Firsts(attempts, s.records.Keys);
    RunIsFirsts(s, attempts);
    InstallAllAdds(s, firsts);
    LocatorIsLast(s.locators, AllChunks(firsts), h);
  }

  /** The row the commits give an id: that of the last chunk to name it. */
  function LastRow(fcs: seq<Option<FileChunk>>, id: string): Option<Row> {
    if fcs == [] then None
    else
      var last := fcs[|fcs| - 1];
      if last.Some? && last.value.id == id then Some(last.value.row) else LastRow(fcs[..|fcs| - 1], id)
  }

  /** Rows are written as they come, hash and size: the last chunk naming an id
      decides, and an id no chunk names keeps what it had. */
  lemma {:induction false} RowIsLast(rows: map<string, Row>, fcs: seq<Option<FileChunk>>, id: string)
    ensures var last := LastRow(fcs, id);
            var t := PutRows(rows, fcs);
            && (last.Some? ==> id in t && t[id] == last.value)
            && (last.None? ==> (id in t <==> id in rows) && (id in rows ==> t[id] == rows[id]))
  {
    if fcs != [] {
      RowIsLast(rows, fcs[..|fcs| - 1], id);
    }
  }

  /** After any attempts, each row is that of the last chunk naming its id among the
      first occurrences. */
  lemma RunRowsAreLast(s: Store, attempts: seq<Attempt>, id: string)
    ensures var last := LastRow(AllRows(Firsts(attempts, s.records.Keys)), id);
            var t := Run(s, attempts);
            && (last.Some? ==> id in t.rows && t.rows[id] == last.value)
            && (last.None? ==> (id in t.rows <==> id in s.rows) && (id in s.rows ==> t.rows[id] == s.rows[id]))
  {
    RunIsFirsts(s, attempts);
    InstallAllAdds(s, Firsts(attempts, s.records.Keys));
    RowIsLast(s.rows, AllRows(Firsts(attempts, s.records.Keys)), id);
  }

  /** The first successful attempt at a block. */
  function FirstRecord(attempts: seq<Attempt>, b: BlockId): Option<nat>
    decreases |attempts|
  {
    if attempts == [] then None
    else if attempts[0].succeeds && attempts[0].commit.block == b then Some(attempts[0].commit.record)
    else FirstRecord(attempts[1..], b)
  }

  /** A block keeps the record it had, and otherwise gets that of its first
      successful commit, whatever comes after. */
  lemma {:induction false} RunRecords(s: Store, attempts: seq<Attempt>, b: BlockId)
    ensures var t := Run(s, attempts);
            && (b in s.records ==> b in t.records && t.records[b] == s.records[b])
            && (b !in s.records ==> (b in t.records <==> FirstRecord(attempts, b).Some?))
            && (b !in s.records && b in t.records ==> Some(t.records[b]) == FirstRecord(attempts, b))
    decreases |attempts|
  {
    if attempts != [] {
      RunRecords(if attempts[0].succeeds then CommitBlock(s, attempts[0].commit) else s, attempts[1..], b);
    }
  }

  /** For instance: on an empty store, one commit of one chunk of four bytes. */
  lemma OneCommit(payload: string, hash: Hash, remote: Locator)
    ensures var fc := FileChunk(ChunkId(payload, 0), Row(hash, 4));
            var c := Commit("b", 9, [ChunkCommit(hash, remote)], [Some(fc)]);
            CommitBlock(Store(map[], map[], map[]), c)
            == Store(map["b" := 9], map[ChunkId(payload, 0) := Row(hash, 4)], map[hash := remote])
  {
    var fcs := [Some(FileChunk(ChunkId(payload, 0), Row(hash, 4)))];
    var chunks := [ChunkCommit(hash, remote)];
    assert fcs[..0] == [] && chunks[..0] == [];
    assert PutRows(map[], fcs) == map[ChunkId(payload, 0) := Row(hash, 4)];
    assert PutLocators(map[], chunks) == map[hash := remote];
  }

  // ---- ReapSupersededManifest ----

  const TWO63: nat := 0x8000_0000_0000_0000

  /** A uint64 read as an int64. */
  function Signed(x: U64): int {
    if x < TWO63 then x else x - TWO64
  }

  /** A row of the payload that starts in the run's span and that the run did
      not write. */
  predicate Superseded(id: string, payload: string, lo: int, hi: int, written: set<int>) {
    PayloadOf(id) == payload &&
    match ParseOffset(id)
    case None => false
    case Some(off) => lo <= Signed(off) < hi && Signed(off) !in written
  }

  function Reap(rows: map<string, Row>, payload: string, lo: int, hi: int, written: set<int>): map<string, Row> {
    if payload == "" || hi <= lo then rows
    else map id | id in rows && !Superseded(id, payload, lo, hi, written) :: rows[id]
  }

  /** The reap leaves alone the rows of other files, rows whose id names no offset or
      one past the signed range, rows that start outside the span, and the offsets it
      is given; every other row of the file goes. */
  lemma ReapExactly(rows: map<string, Row>, payload: string, lo: nat, hi: int, written: set<int>, id: string)
    requires payload != "" && lo < hi
    ensures var t := Reap(rows, payload, lo, hi, written);
            && (id in t ==> id in rows && t[id] == rows[id])
            && (id in rows && id !in t <==>
                id in rows && PayloadOf(id) == payload && ParseOffset(id).Some? &&
                var off := ParseOffset(id).value; off < 0x8000_0000_0000_0000 && lo <= off < hi && off !in written)
  {
  }

  // ---- a whole carve run ----

  /** Rows as the carver writes them: the id names the payload and the offset. */
  predicate Canonical(id: string, payload: string) {
    match ParseOffset(id)
    case None => false
    case Some(off) => off < TWO63 && id == ChunkId(payload, off)
  }

  function OffsetOf(id: string): U64 {
    match ParseOffset(id)
    case None => 0
    case Some(off) => off
  }

  lemma CanonicalParts(id: string, payload: string)
    requires Canonical(id, payload)
    ensures PayloadOf(id) == payload && ParseOffset(id) == Some(OffsetOf(id)) && Signed(OffsetOf(id)) == OffsetOf(id)
  {
    ChunkIdRoundTrip(payload, OffsetOf(id));
  }

  lemma SameOffsetSameId(payload: string, id: string, id': string)
    requires Canonical(id, payload) && Canonical(id', payload) && OffsetOf(id) == OffsetOf(id')
    ensures id == id'
  {
  }

  /** A carve run of [lo, hi): the old rows of the file, the rows its chunking
      calls for, and those of them it wrote.  A chunk whose content is durable
      already is not packed, so no row is written for it. */
  datatype Carve = Carve(payload: string, prior: map<string, Row>, tiling: map<string, Row>, added: map<string, Row>,
                         lo: nat, hi: nat)

  /** What the carver guarantees: one file's canonical rows, nonempty chunks that
      start inside the span, and rows written only as the chunking calls for. */
  ghost predicate CarveOk(c: Carve) {
    && c.payload != "" && c.lo < c.hi
    && (forall id :: id in c.prior ==> Canonical(id, c.payload))
    && (forall id :: id in c.tiling ==>
          Canonical(id, c.payload) && c.lo <= OffsetOf(id) < c.hi && c.tiling[id].size > 0)
    && (forall id :: id in c.added ==> id in c.tiling && c.added[id] == c.tiling[id])
  }

  /** The offsets handed to the reap: of every chunk of the run, novel or not. */
  ghost function TiledOffsets(c: Carve): set<int> {
    set id | id in c.tiling :: OffsetOf(id)
  }

  ghost function AfterCarve(c: Carve): map<string, Row> {
    Reap(c.prior + c.added, c.payload, c.lo, c.hi, TiledOffsets(c))
  }

  /** An old row the run leaves alone: it starts outside the span, or where a chunk
      of the run starts for which no row was written. */
  predicate Survives(c: Carve, id: string) {
    id in c.prior && id !in c.added && (id in c.tiling || !(c.lo <= OffsetOf(id) < c.hi))
  }

  /** A row of the file is superseded when it starts in the span but at no chunk. */
  lemma CarvedRow(c: Carve, id: string)
    requires CarveOk(c) && (id in c.prior || id in c.added)
    ensures Superseded(id, c.payload, c.lo, c.hi, TiledOffsets(c)) <==>
            c.lo <= OffsetOf(id) < c.hi && id !in c.tiling
  {
    CanonicalParts(id, c.payload);
    assert id in c.tiling ==> OffsetOf(id) in TiledOffsets(c);
    if OffsetOf(id) in TiledOffsets(c) {
      var id' :| id' in c.tiling && OffsetOf(id') == OffsetOf(id);
      SameOffsetSameId(c.payload, id, id');
    }
  }

  /** Exactly the run's own rows and the surviving old rows remain. */
  lemma CarveRows(c: Carve, id: string)
    requires CarveOk(c)
    ensures id in AfterCarve(c) <==> id in c.added || Survives(c, id)
    ensures id in AfterCarve(c) ==> AfterCarve(c)[id] == if id in c.added then c.added[id] else c.prior[id]
  {
    if id in c.prior || id in c.added {
      CarvedRow(c, id);
    }
  }

  /** Row id holds byte b of the file. */
  predicate HoldsByte(rows: map<string, Row>, id: string, b: nat) {
    id in rows && OffsetOf(id) <= b < OffsetOf(id) + rows[id].size
  }

  /** The rows a read of byte b may use. */
  ghost function RowsAt(rows: map<string, Row>, b: nat): map<string, Row> {
    map id | id in rows && HoldsByte(rows, id, b) :: rows[id]
  }

  ghost predicate Held(rows: map<string, Row>, b: nat) {
    exists id :: HoldsByte(rows, id, b)
  }

  ghost predicate NoOverlap(rows: map<string, Row>) {
    forall b: nat, id, id' :: HoldsByte(rows, id, b) && HoldsByte(rows, id', b) ==> id == id'
  }

  /** The chunks tile the span: each byte of it once, and no other byte. */
  ghost predicate TilesSpan(c: Carve) {
    && NoOverlap(c.tiling)
    && (forall b: nat :: Held(c.tiling, b) <==> c.lo <= b < c.hi)
  }

  /** An old row reaches into the span from the left. */
  predicate ReachesIn(c: Carve, id: string) {
    id in c.prior && OffsetOf(id) < c.lo < OffsetOf(id) + c.prior[id].size
  }

  ghost predicate CrossesIn(c: Carve) {
    exists id :: ReachesIn(c, id)
  }

  /** An old row that goes, or is replaced, reached past the span's right end. */
  predicate ReachesOut(c: Carve, id: string) {
    id in c.prior && !Survives(c, id) && c.hi < OffsetOf(id) + c.prior[id].size
  }

  ghost predicate CrossesOut(c: Carve) {
    exists id :: ReachesOut(c, id)
  }

  /** The old row already says what the chunk calls for. */
  predicate Stands(c: Carve, id: string) {
    id in c.tiling && id !in c.added ==> id in c.prior && c.prior[id] == c.tiling[id]
  }

  /** Every chunk without a new row has its row from before. */
  ghost predicate AllStand(c: Carve) {
    forall id :: Stands(c, id)
  }

  lemma CarveByte(c: Carve, id: string, b: nat)
    requires CarveOk(c) && TilesSpan(c)
    ensures HoldsByte(AfterCarve(c), id, b) <==>
            HoldsByte(c.added, id, b) || (HoldsByte(c.prior, id, b) && Survives(c, id))
    ensures HoldsByte(c.added, id, b) ==> HoldsByte(c.tiling, id, b)
    ensures HoldsByte(c.tiling, id, b) ==> c.lo <= b < c.hi
  {
    CarveRows(c, id);
    assert HoldsByte(c.tiling, id, b) ==> Held(c.tiling, b);
  }

  // ---- overlaps ----

  /** A surviving old row shares a byte with a new one. */
  ghost predicate Clash(c: Carve, prev: string, next: string, b: nat) {
    Survives(c, prev) && HoldsByte(c.prior, prev, b) && HoldsByte(c.added, next, b)
  }

  lemma OverlapIsClash(c: Carve, id: string, id': string, b: nat)
    requires CarveOk(c) && TilesSpan(c) && NoOverlap(c.prior) && id != id'
    requires HoldsByte(AfterCarve(c), id, b) && HoldsByte(AfterCarve(c), id', b)
    ensures Clash(c, id, id', b) || Clash(c, id', id, b)
  {
    CarveByte(c, id, b);
    CarveByte(c, id', b);
  }

  /** After the reap no byte is held twice exactly when no surviving old row shares
      one with a new row. */
  lemma CarveNoOverlap(c: Carve)
    requires CarveOk(c) && TilesSpan(c) && NoOverlap(c.prior)
    ensures NoOverlap(AfterCarve(c)) <==> !exists prev, next, b: nat :: Clash(c, prev, next, b)
  {
    var after := AfterCarve(c);
    if prev, next, b: nat :| Clash(c, prev, next, b) {
      CarveByte(c, prev, b);
      CarveByte(c, next, b);
    } else {
      forall b: nat, id, id' | HoldsByte(after, id, b) && HoldsByte(after, id', b) ensures id == id' {
        if id != id' {
          OverlapIsClash(c, id, id', b);
        }
      }
    }
  }

  // ---- inside the span ----

  lemma InsideRow(c: Carve, id: string, b: nat)
    requires CarveOk(c) && TilesSpan(c) && Stands(c, id) && !ReachesIn(c, id) && c.lo <= b < c.hi
    ensures HoldsByte(AfterCarve(c), id, b) <==> HoldsByte(c.tiling, id, b)
    ensures HoldsByte(c.tiling, id, b) ==> AfterCarve(c)[id] == c.tiling[id]
  {
    CarveByte(c, id, b);
    CarveRows(c, id);
  }

  lemma InsideByte(c: Carve, b: nat)
    requires CarveOk(c) && TilesSpan(c) && !CrossesIn(c) && AllStand(c) && c.lo <= b < c.hi
    ensures RowsAt(AfterCarve(c), b) == RowsAt(c.tiling, b)
  {
    forall id
      ensures HoldsByte(AfterCarve(c), id, b) <==> HoldsByte(c.tiling, id, b)
      ensures HoldsByte(c.tiling, id, b) ==> AfterCarve(c)[id] == c.tiling[id]
    {
      assert Stands(c, id) && !ReachesIn(c, id);
      InsideRow(c, id, b);
    }
    SameRowsAt(AfterCarve(c), c.tiling, b);
  }

  lemma SameRowsAt(rows: map<string, Row>, rows': map<string, Row>, b: nat)
    requires forall id :: HoldsByte(rows, id, b) <==> HoldsByte(rows', id, b)
    requires forall id :: HoldsByte(rows, id, b) && HoldsByte(rows', id, b) ==> rows[id] == rows'[id]
    ensures RowsAt(rows, b) == RowsAt(rows', b)
  {
  }

  lemma MissingRowShows(c: Carve, id: string)
    requires CarveOk(c) && TilesSpan(c) && !Stands(c, id)
    ensures RowsAt(AfterCarve(c), OffsetOf(id)) != RowsAt(c.tiling, OffsetOf(id))
  {
    CarveRows(c, id);
    assert id in RowsAt(c.tiling, OffsetOf(id));
  }

  lemma ReachingRowShows(c: Carve, id: string)
    requires CarveOk(c) && TilesSpan(c) && ReachesIn(c, id)
    ensures RowsAt(AfterCarve(c), c.lo) != RowsAt(c.tiling, c.lo)
  {
    CarveRows(c, id);
    assert id in RowsAt(AfterCarve(c), c.lo) && id !in RowsAt(c.tiling, c.lo);
  }

  /** Every byte of the span reads from the chunk the run made for it, and from
      nothing else, exactly when no old row reached in and every chunk without a new
      row has its row from before. */
  lemma CarveInside(c: Carve)
    requires CarveOk(c) && TilesSpan(c)
    ensures (forall b: nat :: c.lo <= b < c.hi ==> RowsAt(AfterCarve(c), b) == RowsAt(c.tiling, b))
            <==> !CrossesIn(c) && AllStand(c)
  {
    if !AllStand(c) {
      var id :| !Stands(c, id);
      MissingRowShows(c, id);
    } else if CrossesIn(c) {
      var id :| ReachesIn(c, id);
      ReachingRowShows(c, id);
    } else {
      forall b: nat | c.lo <= b < c.hi ensures RowsAt(AfterCarve(c), b) == RowsAt(c.tiling, b) {
        InsideByte(c, b);
      }
    }
  }

  /** Then no byte is held twice either. */
  lemma CarveTiles(c: Carve)
    requires CarveOk(c) && TilesSpan(c) && NoOverlap(c.prior) && AllStand(c)
    ensures NoOverlap(AfterCarve(c)) <==> !CrossesIn(c)
  {
    if CrossesIn(c) {
      var id :| ReachesIn(c, id);
      ReachingRowOverlaps(c, id);
    } else {
      forall prev, next, b: nat ensures !Clash(c, prev, next, b) {
        assert Stands(c, prev) && !ReachesIn(c, prev);
        NoClash(c, prev, next, b);
      }
      CarveNoOverlap(c);
    }
  }

  lemma ReachingRowOverlaps(c: Carve, id: string)
    requires CarveOk(c) && TilesSpan(c) && AllStand(c) && ReachesIn(c, id)
    ensures !NoOverlap(AfterCarve(c))
  {
    assert Held(c.tiling, c.lo);
    var chunk :| HoldsByte(c.tiling, chunk, c.lo);
    assert Stands(c, chunk);
    CarveByte(c, id, c.lo);
    CarveByte(c, chunk, c.lo);
    assert HoldsByte(c.prior, id, c.lo);
  }

  lemma NoClash(c: Carve, prev: string, next: string, b: nat)
    requires CarveOk(c) && TilesSpan(c) && Stands(c, prev) && !ReachesIn(c, prev)
    ensures !Clash(c, prev, next, b)
  {
    CarveByte(c, next, b);
    if Clash(c, prev, next, b) {
      if prev in c.tiling {
        assert HoldsByte(c.tiling, prev, b) && HoldsByte(c.tiling, next, b);
      }
    }
  }

  // ---- outside the span ----

  lemma OutsideByte(c: Carve, b: nat)
    requires CarveOk(c) && TilesSpan(c) && !CrossesOut(c) && !(c.lo <= b < c.hi)
    ensures RowsAt(AfterCarve(c), b) == RowsAt(c.prior, b)
  {
    forall id
      ensures HoldsByte(AfterCarve(c), id, b) <==> HoldsByte(c.prior, id, b)
      ensures HoldsByte(AfterCarve(c), id, b) && HoldsByte(c.prior, id, b) ==> AfterCarve(c)[id] == c.prior[id]
    {
      assert !ReachesOut(c, id);
      OutsideRow(c, id, b);
    }
    SameRowsAt(AfterCarve(c), c.prior, b);
  }

  lemma OutsideRow(c: Carve, id: string, b: nat)
    requires CarveOk(c) && TilesSpan(c) && !ReachesOut(c, id) && !(c.lo <= b < c.hi)
    ensures HoldsByte(AfterCarve(c), id, b) <==> HoldsByte(c.prior, id, b)
    ensures HoldsByte(AfterCarve(c), id, b) ==> AfterCarve(c)[id] == c.prior[id]
  {
    CarveByte(c, id, b);
    CarveRows(c, id);
  }

  lemma CrossingLosesBytes(c: Carve, id: string)
    requires CarveOk(c) && TilesSpan(c) && ReachesOut(c, id)
    ensures RowsAt(AfterCarve(c), c.hi) != RowsAt(c.prior, c.hi)
  {
    CarveByte(c, id, c.hi);
    assert id in RowsAt(c.prior, c.hi) && id !in RowsAt(AfterCarve(c), c.hi);
  }

  /** Outside the span every byte reads from the same old row, exactly when no old
      row that went or was replaced reached past the span's end. */
  lemma CarveOutside(c: Carve)
    requires CarveOk(c) && TilesSpan(c)
    ensures (forall b: nat :: !(c.lo <= b < c.hi) ==> RowsAt(AfterCarve(c), b) == RowsAt(c.prior, b))
            <==> !CrossesOut(c)
  {
    if CrossesOut(c) {
      var id :| ReachesOut(c, id);
      CrossingLosesBytes(c, id);
    } else {
      forall b: nat | !(c.lo <= b < c.hi) ensures RowsAt(AfterCarve(c), b) == RowsAt(c.prior, b) {
        OutsideByte(c, b);
      }
    }
  }

  // ---- runs driven again, and chunks durable elsewhere ----

  /** Driving a finished run again, when all its chunks are durable and it writes no
      row, changes nothing. */
  lemma RedrivenRun(c: Carve)
    requires CarveOk(c)
    ensures var again := c.(prior := AfterCarve(c), added := map[]);
            CarveOk(again) && AfterCarve(again) == AfterCarve(c)
  {
    var again := c.(prior := AfterCarve(c), added := map[]);
    RedrivenOk(c);
    forall id
      ensures id in AfterCarve(again) <==> id in AfterCarve(c)
      ensures id in AfterCarve(c) ==> AfterCarve(again)[id] == AfterCarve(c)[id]
    {
      RedrivenRow(c, again, id);
    }
  }

  lemma RedrivenOk(c: Carve)
    requires CarveOk(c)
    ensures CarveOk(c.(prior := AfterCarve(c), added := map[]))
  {
    forall id | id in AfterCarve(c) ensures Canonical(id, c.payload) {
      CarveRows(c, id);
    }
  }

  lemma RedrivenRow(c: Carve, again: Carve, id: string)
    requires CarveOk(c) && CarveOk(again) && again == c.(prior := AfterCarve(c), added := map[])
    ensures id in AfterCarve(again) <==> id in AfterCarve(c)
    ensures id in AfterCarve(c) ==> AfterCarve(again)[id] == AfterCarve(c)[id]
  {
    CarveRows(c, id);
    CarveRows(again, id);
  }

  /** One chunk of four bytes at offset 0, whose content another file made durable. */
  ghost function DurableElsewhere(payload: string, prior: map<string, Row>): Carve {
    Carve(payload, prior, map[ChunkId(payload, 0) := Row(7, 4)], map[], 0, 4)
  }

  /** It gets no row: a file without one is left with a gap, and a file with a row
      there keeps reading what that row held. */
  lemma DedupedChunkIsNotRead(payload: string)
    requires payload != ""
    ensures var bare := DurableElsewhere(payload, map[]);
            var stale := DurableElsewhere(payload, map[ChunkId(payload, 0) := Row(1, 4)]);
            && CarveOk(bare) && TilesSpan(bare) && RowsAt(AfterCarve(bare), 0) == map[]
            && CarveOk(stale) && TilesSpan(stale)
            && RowsAt(AfterCarve(stale), 0) == map[ChunkId(payload, 0) := Row(1, 4)]
  {
    DurableElsewhereRows(payload, map[]);
    DurableElsewhereRows(payload, map[ChunkId(payload, 0) := Row(1, 4)]);
    FirstByteOf(payload, Row(1, 4));
  }

  lemma FirstByteOf(payload: string, row: Row)
    requires row.size > 0
    ensures RowsAt(map[ChunkId(payload, 0) := row], 0) == map[ChunkId(payload, 0) := row]
  {
    ChunkIdRoundTrip(payload, 0);
  }

  lemma DurableElsewhereRows(payload: string, prior: map<string, Row>)
    requires payload != "" && prior.Keys <= {ChunkId(payload, 0)}
    ensures var c := DurableElsewhere(payload, prior);
            CarveOk(c) && TilesSpan(c) && RowsAt(AfterCarve(c), 0) == RowsAt(prior, 0)
  {
    var c := DurableElsewhere(payload, prior);
    OneChunkOk(payload, prior);
    OneChunkTiles(payload, c.tiling);
    forall id
      ensures HoldsByte(AfterCarve(c), id, 0) <==> HoldsByte(prior, id, 0)
      ensures HoldsByte(AfterCarve(c), id, 0) && HoldsByte(prior, id, 0) ==> AfterCarve(c)[id] == prior[id]
    {
      assert id in prior ==> id in prior.Keys;
      NotReaped(c, id);
    }
    SameRowsAt(AfterCarve(c), prior, 0);
  }

  lemma OneChunkOk(payload: string, prior: map<string, Row>)
    requires payload != "" && prior.Keys <= {ChunkId(payload, 0)}
    ensures CarveOk(DurableElsewhere(payload, prior))
  {
    ChunkIdRoundTrip(payload, 0);
    assert Canonical(ChunkId(payload, 0), payload) && OffsetOf(ChunkId(payload, 0)) == 0;
    forall id | id in prior ensures id == ChunkId(payload, 0) {
      assert id in prior.Keys;
    }
  }

  lemma NotReaped(c: Carve, id: string)
    requires CarveOk(c) && c.added == map[] && (id in c.prior ==> id in c.tiling)
    ensures id in AfterCarve(c) <==> id in c.prior
    ensures id in AfterCarve(c) && id in c.prior ==> AfterCarve(c)[id] == c.prior[id]
  {
    CarveRows(c, id);
  }

  lemma OneChunkTiles(payload: string, tiling: map<string, Row>)
    requires tiling == map[ChunkId(payload, 0) := Row(7, 4)]
    ensures NoOverlap(tiling) && forall b: nat :: Held(tiling, b) <==> 0 <= b < 4
  {
    ChunkIdRoundTrip(payload, 0);
    forall b: nat ensures Held(tiling, b) <==> 0 <= b < 4 {
      assert HoldsByte(tiling, ChunkId(payload, 0), b) <==> b < 4;
    }
  }

  // ---- rows that cross the ends of the span ----

  /** An old row at `at` of eight bytes, and a run that writes one chunk of eight
      bytes at `lo`. */
  ghost function OneOverOne(payload: string, at: U64, lo: U64): Carve {
    var chunk := map[ChunkId(payload, lo) := Row(7, 8)];
    Carve(payload, map[ChunkId(payload, at) := Row(1, 8)], chunk, chunk, lo, lo + 8)
  }

  lemma OneOverOneOk(payload: string, at: U64, lo: U64)
    requires payload != "" && at < 100 && lo < 100
    ensures CarveOk(OneOverOne(payload, at, lo)) && TilesSpan(OneOverOne(payload, at, lo))
    ensures OffsetOf(ChunkId(payload, at)) == at && OffsetOf(ChunkId(payload, lo)) == lo
  {
    ChunkIdRoundTrip(payload, at);
    ChunkIdRoundTrip(payload, lo);
    OneChunkHolds(payload, lo);
  }

  lemma OneChunkHolds(payload: string, lo: U64)
    requires lo < 100
    ensures var chunk := map[ChunkId(payload, lo) := Row(7, 8)];
            NoOverlap(chunk) && forall b: nat :: Held(chunk, b) <==> lo <= b < lo + 8
  {
    ChunkIdRoundTrip(payload, lo);
    var chunk := map[ChunkId(payload, lo) := Row(7, 8)];
    forall b: nat ensures Held(chunk, b) <==> lo <= b < lo + 8 {
      assert HoldsByte(chunk, ChunkId(payload, lo), b) <==> lo <= b < lo + 8;
    }
  }

  /** Old bytes 0 to 7 and a run over 4 to 11: bytes 4 to 7 are held twice. */
  lemma RowCrossesIn(payload: string)
    requires payload != ""
    ensures var c := OneOverOne(payload, 0, 4);
            CrossesIn(c) && !NoOverlap(AfterCarve(c))
  {
    var c := OneOverOne(payload, 0, 4);
    OneOverOneOk(payload, 0, 4);
    assert ReachesIn(c, ChunkId(payload, 0));
    ReachingRowOverlaps(c, ChunkId(payload, 0));
  }

  /** Old bytes 4 to 11 and a run over 0 to 7: bytes 8 to 11 are held no more. */
  lemma RowCrossesOut(payload: string)
    requires payload != ""
    ensures var c := OneOverOne(payload, 4, 0);
            CrossesOut(c) && HoldsByte(c.prior, ChunkId(payload, 4), 8) && !Held(AfterCarve(c), 8)
  {
    var c := OneOverOne(payload, 4, 0);
    OneOverOneOk(payload, 4, 0);
    assert ChunkId(payload, 4) !in c.tiling;
    assert ReachesOut(c, ChunkId(payload, 4));
    forall id ensures !HoldsByte(AfterCarve(c), id, 8) {
      CarveByte(c, id, 8);
    }
  }

  // ---- the run on the whole store ----

  /** The rows of one file. */
  ghost function FileRows(rows: map<string, Row>, payload: string): map<string, Row> {
    map id | id in rows && PayloadOf(id) == payload :: rows[id]
  }

  lemma {:induction false} PutRowsOverlay(rows: map<string, Row>, fcs: seq<Option<FileChunk>>)
    ensures PutRows(rows, fcs) == rows + PutRows(map[], fcs)
  {
    if fcs != [] {
      PutRowsOverlay(rows, fcs[..|fcs| - 1]);
    }
  }

  lemma ReapFileRows(rows: map<string, Row>, payload: string, lo: int, hi: int, written: set<int>)
    ensures FileRows(Reap(rows, payload, lo, hi, written), payload)
              == Reap(FileRows(rows, payload), payload, lo, hi, written)
    ensures forall other :: other != payload ==>
              FileRows(Reap(rows, payload, lo, hi, written), other) == FileRows(rows, other)
  {
  }

  ghost predicate AllOfFile(rows: map<string, Row>, payload: string) {
    forall id :: id in rows ==> PayloadOf(id) == payload
  }

  lemma OverlayFileRows(rows: map<string, Row>, added: map<string, Row>, payload: string)
    requires AllOfFile(added, payload)
    ensures FileRows(rows + added, payload) == FileRows(rows, payload) + added
    ensures forall other :: other != payload ==> FileRows(rows + added, other) == FileRows(rows, other)
  {
  }

  /** The rows a sequence of attempts writes. */
  function RowsWritten(s: Store, attempts: seq<Attempt>): map<string, Row> {
    PutRows(map[], AllRows(Firsts(attempts, s.records.Keys)))
  }

  lemma RunOverlaysRows(s: Store, attempts: seq<Attempt>)
    ensures Run(s, attempts).rows == s.rows + RowsWritten(s, attempts)
  {
    var firsts := Firsts(attempts, s.records.Keys);
    RunIsFirsts(s, attempts);
    InstallAllAdds(s, firsts);
    PutRowsOverlay(s.rows, AllRows(firsts));
  }

  /** A carve run committed in any number of batches, with any retries and
      repeats, then reaped, does to the file's rows what AfterCarve says and
      leaves every other file's rows alone. */
  lemma CarveRunRows(s: Store, attempts: seq<Attempt>, c: Carve, other: string)
    requires c.prior == FileRows(s.rows, c.payload) && c.added == RowsWritten(s, attempts)
    requires AllOfFile(c.added, c.payload)
    ensures var after := Reap(Run(s, attempts).rows, c.payload, c.lo, c.hi, TiledOffsets(c));
            && FileRows(after, c.payload) == AfterCarve(c)
            && (other != c.payload ==> FileRows(after, other) == FileRows(s.rows, other))
  {
    RunOverlaysRows(s, attempts);
    OverlayFileRows(s.rows, c.added, c.payload);
    ReapFileRows(s.rows + c.added, c.payload, c.lo, c.hi, TiledOffsets(c));
  }
}
