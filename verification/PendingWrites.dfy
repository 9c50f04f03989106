/** Deferred write commits: buffered write state, flushes in flight, and the
    merged read that must look like committing every write at once. */
module PendingWrites {

  import opened Common

  /** Buffered state of one file; time 0 is "no write yet". */
  datatype Pending = Pending(maxSize: nat, lastMtime: nat, clear: bool, hasPreAttr: bool, cached: Option<nat>)

  /** The part of the file row that writes change. */
  datatype Row = Row(size: nat, setid: bool)

  // ---- the tracker's operations on one handle ----

  function Recorded(p: Option<Pending>, size: nat, mtime: nat, clear: bool): Pending {
    match p
    case None => Pending(size, mtime, clear, true, None)
    case Some(q) =>
      q.(maxSize := Max(size, q.maxSize),
         lastMtime := if q.lastMtime == 0 then mtime else q.lastMtime,
         clear := clear || q.clear)
  }

  function Restored(p: Option<Pending>, popped: Pending): Pending {
    match p
    case None => popped
    case Some(q) =>
      Pending(Max(popped.maxSize, q.maxSize),
              if q.lastMtime == 0 then popped.lastMtime else q.lastMtime,
              popped.clear || q.clear,
              q.hasPreAttr || popped.hasPreAttr,
              if q.cached.None? then popped.cached else q.cached)
  }

  function WithCache(p: Option<Pending>, file: nat): Pending {
    match p
    case None => Pending(0, 0, false, false, Some(file))
    case Some(q) => q.(cached := Some(file))
  }

  /** InvalidateCache drops an entry that looks empty: no pre-write attributes
      and no size.  A latched setuid clear does not keep it. */
  predicate Droppable(p: Pending) {
    !p.hasPreAttr && p.maxSize == 0
  }

  function Invalidated(p: Option<Pending>): Option<Pending> {
    match p
    case None => None
    case Some(q) => if Droppable(q) then None else Some(q.(cached := None))
  }

  predicate HasWriteData(p: Pending) {
    p.maxSize > 0 || p.lastMtime != 0 || p.clear
  }

  function Recached(p: Option<Pending>, popped: Pending): Option<Pending> {
    if popped.cached.Some? then Some(WithCache(p, popped.cached.value)) else p
  }

  // ---- the tracker ----

  class PendingWritesTracker {
    var pending: map<string, Pending>
    var flushLocks: map<string, nat>   // handle -> mutex identity
    var mutexes: nat                   // mutexes created so far

    constructor ()
      ensures pending == map[] && flushLocks == map[] && mutexes == 0
    {
      pending, flushLocks, mutexes := map[], map[], 0;
    }

    ghost function At(h: string): Option<Pending>
      reads this
    {
      if h in pending then Some(pending[h]) else None
    }

    ghost predicate OnlyAt(before: map<string, Pending>, h: string)
      reads this
    {
      forall k :: k != h ==> (k in pending <==> k in before) && (k in before ==> pending[k] == before[k])
    }

    method GetFlushLock(h: string) returns (mutex: nat)
      modifies this`flushLocks, this`mutexes
      ensures h in flushLocks && flushLocks[h] == mutex
      ensures h in old(flushLocks) ==> flushLocks == old(flushLocks) && mutexes == old(mutexes)
      ensures h !in old(flushLocks) ==>
                mutex == old(mutexes) && mutexes == mutex + 1 && flushLocks == old(flushLocks)[h := mutex]
    {
      if h !in flushLocks {
        flushLocks := flushLocks[h := mutexes];
        mutexes := mutexes + 1;
      }
      mutex := flushLocks[h];
    }

    method RecordWrite(h: string, size: nat, mtime: nat, clear: bool)
      modifies this`pending
      ensures At(h) == Some(Recorded(old(At(h)), size, mtime, clear)) && OnlyAt(old(pending), h)
    {
      if h !in pending {
        pending := pending[h := Pending(size, mtime, clear, true, None)];
      } else {
        var state := pending[h];
        if size > state.maxSize { state := state.(maxSize := size); }
        if state.lastMtime == 0 { state := state.(lastMtime := mtime); }
        if clear { state := state.(clear := true); }
        pending := pending[h := state];
      }
    }

    /** Takes the state out, and with it the lock table's entry for the handle. */
    method PopPending(h: string) returns (state: Option<Pending>)
      modifies this`pending, this`flushLocks
      ensures state == old(At(h)) && At(h) == None && OnlyAt(old(pending), h)
      ensures flushLocks == if state.Some? then old(flushLocks) - {h} else old(flushLocks)
    {
      if h !in pending { return None; }
      state := Some(pending[h]);
      pending := pending - {h};
      flushLocks := flushLocks - {h};
    }

    method RestorePending(h: string, state: Pending)
      modifies this`pending
      ensures At(h) == Some(Restored(old(At(h)), state)) && OnlyAt(old(pending), h)
    {
      if h !in pending {
        pending := pending[h := state];
        return;
      }
      var cur := pending[h];
      if state.maxSize > cur.maxSize { cur := cur.(maxSize := state.maxSize); }
      if cur.lastMtime == 0 && state.lastMtime != 0 { cur := cur.(lastMtime := state.lastMtime); }
      if state.clear { cur := cur.(clear := true); }
      if !cur.hasPreAttr { cur := cur.(hasPreAttr := state.hasPreAttr); }
      if cur.cached.None? { cur := cur.(cached := state.cached); }
      pending := pending[h := cur];
    }

    method SetCachedFile(h: string, file: nat)
      modifies this`pending
      ensures At(h) == Some(WithCache(old(At(h)), file)) && OnlyAt(old(pending), h)
    {
      if h !in pending {
        pending := pending[h := Pending(0, 0, false, false, Some(file))];
      } else {
        pending := pending[h := pending[h].(cached := Some(file))];
      }
    }

    method InvalidateCache(h: string)
      modifies this`pending
      ensures At(h) == Invalidated(old(At(h))) && OnlyAt(old(pending), h)
    {
      if h !in pending { return; }
      var state := pending[h].(cached := None);
      if !state.hasPreAttr && state.maxSize == 0 {
        pending := pending - {h};
      } else {
        pending := pending[h := state];
      }
    }
  }

  // ---- one file under any interleaving ----

  type Flush = nat

  /** The row, the buffered state, and the states flushes have popped. */
  datatype State = State(row: Row, pending: Option<Pending>, inflight: map<Flush, Pending>)

  datatype Event =
    | Write(size: nat, mtime: nat, nonRoot: bool, sawBits: bool, clearCommits: bool)
    | Pop(flush: Flush)
    | Commit(flush: Flush, succeeds: bool)
    | Cache(file: nat)
    | Invalidate
    | Truncate(size: nat, nonRoot: bool)

  /** A truncate waits for the flush lock; everything else never blocks. */
  predicate Blocked(s: State, ev: Event) {
    ev.Truncate? && s.inflight != map[]
  }

  /** flushPendingWrite's transaction. */
  function Flushed(row: Row, p: Pending): Row {
    Row(Max(p.maxSize, row.size), row.setid && !p.clear)
  }

  function Next(s: State, ev: Event): State {
    match ev
    case Write(size, mtime, nonRoot, sawBits, clearCommits) =>
      // a non-root write to a file seen with setuid bits clears them at once, if the store lets it
      var clears := nonRoot && sawBits;
      s.(row := if clears && clearCommits then s.row.(setid := false) else s.row,
         pending := Some(Recorded(if clears then Invalidated(s.pending) else s.pending, size, mtime, nonRoot)))
    case Pop(f) =>
      if f in s.inflight || s.pending.None? then s
      else if HasWriteData(s.pending.value) then s.(pending := None, inflight := s.inflight[f := s.pending.value])
      else s.(pending := Recached(None, s.pending.value))
    case Commit(f, succeeds) =>
      if f !in s.inflight then s
      else
        var p := s.inflight[f];
        if succeeds
        then State(Flushed(s.row, p), Recached(s.pending, p), s.inflight - {f})
        else s.(pending := Some(Restored(s.pending, p)), inflight := s.inflight - {f})
    case Cache(file) => s.(pending := Some(WithCache(s.pending, file)))
    case Invalidate => s.(pending := Invalidated(s.pending))
    case Truncate(size, nonRoot) =>
      // the stored row is rewritten, and buffered state discarded with its latched clear
      if Blocked(s, ev) then s else State(Row(size, s.row.setid && !nonRoot), None, map[])
  }

  /** immediateCommitWrite: what the row would be with no deferral. */
  function Immediate(row: Row, ev: Event): Row {
    match ev
    case Write(size, _, nonRoot, _, _) => Row(Max(size, row.size), row.setid && !nonRoot)
    case Truncate(size, nonRoot) => Row(size, row.setid && !nonRoot)
    case _ => row
  }

  function Applied(s: State, row: Row, ev: Event): Row {
    if Blocked(s, ev) then row else Immediate(row, ev)
  }

  function Run(s: State, events: seq<Event>): State
    decreases |events|
  {
    if events == [] then s else Run(Next(s, events[0]), events[1..])
  }

  function RunImmediate(s: State, row: Row, events: seq<Event>): Row
    decreases |events|
  {
    if events == [] then row else RunImmediate(Next(s, events[0]), Applied(s, row, events[0]), events[1..])
  }

  function PendingSize(s: State): nat {
    if s.pending.Some? then s.pending.value.maxSize else 0
  }

  predicate PendingClear(s: State) {
    s.pending.Some? && s.pending.value.clear
  }

  ghost predicate InflightClear(s: State) {
    exists f :: f in s.inflight && s.inflight[f].clear
  }

  /** n is the largest of the stored, buffered and in-flight sizes. */
  ghost predicate IsPeak(s: State, n: nat) {
    && s.row.size <= n && PendingSize(s) <= n
    && (forall f :: f in s.inflight ==> s.inflight[f].maxSize <= n)
    && (s.row.size == n || PendingSize(s) == n || exists f :: f in s.inflight && s.inflight[f].maxSize == n)
  }

  /** No size and no setuid clear is lost or invented. */
  ghost predicate Accounts(s: State, row: Row) {
    && IsPeak(s, row.size)
    && (row.setid <==> s.row.setid && !PendingClear(s) && !InflightClear(s))
  }

  /** A cache invalidation, or a truncate by root, that throws away the only record
      of a setuid clear. */
  ghost predicate LosesClear(s: State, ev: Event) {
    && PendingClear(s) && s.row.setid && !InflightClear(s)
    && ((ev.Invalidate? && Droppable(s.pending.value)) || (ev.Truncate? && !Blocked(s, ev) && !ev.nonRoot))
  }

  lemma WriteAccounts(s: State, ev: Event, row: Row)
    requires Accounts(s, row) && ev.Write?
    ensures Accounts(Next(s, ev), Immediate(row, ev))
  {
    var t := Next(s, ev);
    assert t.inflight == s.inflight;
    if f :| f in s.inflight && s.inflight[f].maxSize == row.size {
      assert f in t.inflight && t.inflight[f].maxSize == row.size;
    }
  }

  lemma PopAccounts(s: State, f: Flush, row: Row)
    requires Accounts(s, row) && f !in s.inflight && s.pending.Some? && HasWriteData(s.pending.value)
    ensures Accounts(Next(s, Pop(f)), row)
  {
    var t := Next(s, Pop(f));
    var p := s.pending.value;
    assert t.inflight[f] == p;
    forall g | g in s.inflight ensures g in t.inflight && t.inflight[g] == s.inflight[g] {
    }
    if g :| g in s.inflight && s.inflight[g].maxSize == row.size {
      assert t.inflight[g].maxSize == row.size;
    }
    if g :| g in s.inflight && s.inflight[g].clear {
      assert t.inflight[g].clear;
    }
    if g :| g in t.inflight && t.inflight[g].clear {
      assert g == f || s.inflight[g].clear;
    }
  }

  lemma CommitAccounts(s: State, f: Flush, succeeds: bool, row: Row)
    requires Accounts(s, row) && f in s.inflight
    ensures Accounts(Next(s, Commit(f, succeeds)), row)
  {
    var t := Next(s, Commit(f, succeeds));
    var p := s.inflight[f];
    if g :| g in s.inflight && s.inflight[g].maxSize == row.size {
      assert g == f || (g in t.inflight && t.inflight[g].maxSize == row.size);
    }
    if g :| g in s.inflight && s.inflight[g].clear {
      assert g == f || (g in t.inflight && t.inflight[g].clear);
    }
    if g :| g in t.inflight && t.inflight[g].clear {
      assert g in s.inflight && s.inflight[g].clear;
    }
    assert p.clear ==> InflightClear(s);
  }

  /** Every event keeps the account, except those that lose a clear. */
  lemma StepAccounts(s: State, ev: Event, row: Row)
    requires Accounts(s, row)
    ensures Accounts(Next(s, ev), Applied(s, row, ev)) <==> !LosesClear(s, ev)
  {
    match ev
    case Write(_, _, _, _, _) => WriteAccounts(s, ev, row);
    case Pop(f) =>
      if f !in s.inflight && s.pending.Some? && HasWriteData(s.pending.value) {
        PopAccounts(s, f, row);
      }
    case Commit(f, succeeds) =>
      if f in s.inflight {
        CommitAccounts(s, f, succeeds, row);
      }
    case Cache(_) =>
    case Invalidate =>
    case Truncate(_, _) =>
  }

  ghost predicate RunLosesNoClear(s: State, events: seq<Event>)
    decreases |events|
  {
    events != [] ==> !LosesClear(s, events[0]) && RunLosesNoClear(Next(s, events[0]), events[1..])
  }

  lemma {:induction false} RunAccounts(s: State, events: seq<Event>, row: Row)
    requires Accounts(s, row) && RunLosesNoClear(s, events)
    ensures Accounts(Run(s, events), RunImmediate(s, row, events))
    decreases |events|
  {
    if events != [] {
      StepAccounts(s, events[0], row);
      RunAccounts(Next(s, events[0]), events[1..], Applied(s, row, events[0]));
    }
  }

  /** mergePendingWrites, for size and setuid/setgid. */
  function MergedRead(s: State): Row {
    match s.pending
    case None => s.row
    case Some(p) => Row(Max(p.maxSize, s.row.size), s.row.setid && !p.clear)
  }

  /** From a file with nothing buffered: whenever no flush is in flight, a
      reader sees exactly what immediate commits would have stored. */
  lemma MergedReadIsImmediate(row: Row, events: seq<Event>)
    requires RunLosesNoClear(State(row, None, map[]), events)
    requires Run(State(row, None, map[]), events).inflight == map[]
    ensures MergedRead(Run(State(row, None, map[]), events)) == RunImmediate(State(row, None, map[]), row, events)
  {
    RunAccounts(State(row, None, map[]), events, row);
  }

  predicate NoTruncate(events: seq<Event>) {
    forall i :: 0 <= i < |events| ==> !events[i].Truncate?
  }

  /** What immediate commits store: a size no smaller than the start and every write,
      and equal to one of them; the setuid bits unless a non-root write came. */
  lemma {:induction false} ImmediateIs(s: State, row: Row, events: seq<Event>)
    requires NoTruncate(events)
    ensures var r := RunImmediate(s, row, events);
            && r.size >= row.size && (forall i :: 0 <= i < |events| && events[i].Write? ==> r.size >= events[i].size)
            && (r.size == row.size || exists i :: 0 <= i < |events| && events[i].Write? && events[i].size == r.size)
            && (r.setid <==> row.setid && forall i :: 0 <= i < |events| && events[i].Write? ==> !events[i].nonRoot)
    decreases |events|
  {
    if events != [] {
      var t, mid, rest := Next(s, events[0]), Applied(s, row, events[0]), events[1..];
      ImmediateIs(t, mid, rest);
      var r := RunImmediate(t, mid, rest);
      if r.size != row.size {
        if r.size == mid.size {
          assert events[0].Write? && events[0].size == r.size;
        } else {
          var i :| 0 <= i < |rest| && rest[i].Write? && rest[i].size == r.size;
          assert events[i + 1].Write? && events[i + 1].size == r.size;
        }
      }
      forall i | 0 <= i < |events| && events[i].Write? ensures r.size >= events[i].size {
        assert i > 0 ==> events[i] == rest[i - 1];
      }
      assert forall i :: 0 <= i < |rest| ==> rest[i] == events[i + 1];
    }
  }

  /** A truncate that goes through starts over: its own size, and the bits unless it
      is not root's. */
  lemma TruncateIs(s: State, row: Row, size: nat, nonRoot: bool)
    requires s.inflight == map[]
    ensures Applied(s, row, Truncate(size, nonRoot)) == Row(size, row.setid && !nonRoot)
    ensures var t := Next(s, Truncate(size, nonRoot));
            t.pending == None && t.row == Row(size, s.row.setid && !nonRoot)
  {
  }

  // ---- the buffered time, mark and cached file ----

  predicate AllWrites(events: seq<Event>) {
    forall i :: 0 <= i < |events| ==> events[i].Write?
  }

  /** The first time in the writes that is not the zero time. */
  function FirstTime(writes: seq<Event>): nat
    requires AllWrites(writes)
  {
    if writes == [] then 0 else if writes[0].mtime != 0 then writes[0].mtime else FirstTime(writes[1..])
  }

  /** Writes onto nothing, or onto other writes: the first time stays, the pre-write
      mark is set, and no file is cached. */
  lemma {:induction false} WritesLeave(s: State, writes: seq<Event>)
    requires AllWrites(writes) && (s.pending.Some? ==> s.pending.value.hasPreAttr && s.pending.value.cached == None)
    ensures var t := Run(s, writes);
            && t.inflight == s.inflight && (writes == [] ==> t.pending == s.pending)
            && (writes != [] ==>
                  && t.pending.Some? && t.pending.value.hasPreAttr && t.pending.value.cached == None
                  && t.pending.value.lastMtime ==
                     if s.pending.Some? && s.pending.value.lastMtime != 0 then s.pending.value.lastMtime
                     else FirstTime(writes))
    decreases |writes|
  {
    if writes != [] {
      WritesLeave(Next(s, writes[0]), writes[1..]);
    }
  }

  lemma {:induction false} RunAppend(s: State, a: seq<Event>, b: seq<Event>)
    ensures Run(s, a + b) == Run(Run(s, a), b)
    decreases |a|
  {
    if a == [] {
      assert a + b == b;
    } else {
      assert (a + b)[1..] == a[1..] + b;
      RunAppend(Next(s, a[0]), a[1..], b);
    }
  }

  /** A flush that fails with some writes made while it was under way. */
  function FailedFlush(f: Flush, since: seq<Event>): seq<Event> {
    [Pop(f)] + (since + [Commit(f, false)])
  }

  /** It puts its state back under those writes: their time wins, the popped one
      stands if they have none, and the mark and the cached file are not lost. */
  lemma FailedFlushLeaves(s: State, f: Flush, since: seq<Event>)
    requires s.pending.Some? && HasWriteData(s.pending.value) && f !in s.inflight && AllWrites(since)
    ensures var p := s.pending.value;
            var t := Run(s, FailedFlush(f, since));
            && t.inflight == s.inflight && t.pending.Some? && HasWriteData(t.pending.value)
            && t.pending.value.lastMtime == (if FirstTime(since) != 0 then FirstTime(since) else p.lastMtime)
            && t.pending.value.hasPreAttr == (p.hasPreAttr || since != [])
            && t.pending.value.cached == p.cached
  {
    var m := Next(s, Pop(f));
    Unfold(s, s.row, Pop(f), since + [Commit(f, false)]);
    RunAppend(m, since, [Commit(f, false)]);
    WritesLeave(m, since);
    var n := Run(m, since);
    Unfold(n, s.row, Commit(f, false), []);
    assert [Commit(f, false)] + [] == [Commit(f, false)];
    assert s.inflight[f := s.pending.value] - {f} == s.inflight;
  }

  /** One failed flush after another. */
  function Retries(f: Flush, rounds: seq<seq<Event>>): seq<Event> {
    if rounds == [] then []
    else Retries(f, rounds[..|rounds| - 1]) + FailedFlush(f, rounds[|rounds| - 1])
  }

  predicate WriteRounds(rounds: seq<seq<Event>>) {
    forall i :: 0 <= i < |rounds| ==> AllWrites(rounds[i])
  }

  /** The time of the latest round that has one. */
  function LatestRound(rounds: seq<seq<Event>>): nat
    requires WriteRounds(rounds)
  {
    if rounds == [] then 0
    else
      var last := rounds[|rounds| - 1];
      if FirstTime(last) != 0 then FirstTime(last) else LatestRound(rounds[..|rounds| - 1])
  }

  /** However many flushes fail, the time left is that of the first write of the
      latest round with a time, or else the one before them all. */
  lemma {:induction false} RetriesLeave(s: State, f: Flush, rounds: seq<seq<Event>>)
    requires s.pending.Some? && HasWriteData(s.pending.value) && f !in s.inflight && WriteRounds(rounds)
    ensures var t := Run(s, Retries(f, rounds));
            && t.inflight == s.inflight && t.pending.Some? && HasWriteData(t.pending.value)
            && t.pending.value.lastMtime ==
               (if LatestRound(rounds) != 0 then LatestRound(rounds) else s.pending.value.lastMtime)
            && t.pending.value.cached == s.pending.value.cached
            && (s.pending.value.hasPreAttr ==> t.pending.value.hasPreAttr)
  {
    if rounds != [] {
      var front, last := rounds[..|rounds| - 1], rounds[|rounds| - 1];
      RetriesLeave(s, f, front);
      RunAppend(s, Retries(f, front), FailedFlush(f, last));
      FailedFlushLeaves(Run(s, Retries(f, front)), f, last);
    }
  }

  /** Caching and invalidating touch the cached file alone, but that an entry with no
      mark and no size goes whole. */
  lemma CacheLeaves(s: State, file: nat)
    requires s.pending.Some?
    ensures var p := s.pending.value;
            && Next(s, Cache(file)) == s.(pending := Some(p.(cached := Some(file))))
            && Next(s, Invalidate) ==
               s.(pending := if p.hasPreAttr || p.maxSize > 0 then Some(p.(cached := None)) else None)
  {
  }

  /** A pop takes everything there is to write; with nothing to write, the cached file
      alone stays. */
  lemma PopLeaves(s: State, f: Flush)
    requires s.pending.Some? && f !in s.inflight
    ensures var p := s.pending.value;
            var t := Next(s, Pop(f));
            if p.maxSize == 0 && p.lastMtime == 0 && !p.clear
            then t.inflight == s.inflight && t.pending ==
                 if p.cached.Some? then Some(Pending(0, 0, false, false, p.cached)) else None
            else t.pending == None && t.inflight == s.inflight[f := p]
  {
  }

  /** An accepted flush leaves later writes as they are and keeps its cached file. */
  lemma CommitLeaves(s: State, f: Flush)
    requires f in s.inflight
    ensures var p := s.inflight[f];
            var t := Next(s, Commit(f, true));
            && t.inflight == s.inflight - {f}
            && (p.cached.None? ==> t.pending == s.pending)
            && (p.cached.Some? && s.pending.Some? ==> t.pending == Some(s.pending.value.(cached := p.cached)))
            && (p.cached.Some? && s.pending.None? ==> t.pending == Some(Pending(0, 0, false, false, p.cached)))
  {
  }

  /** A non-root write that saw the bits clears them in the row at once, if the store
      lets it; nothing else a write does touches the row. */
  lemma WriteTouchesRow(s: State, ev: Event)
    requires ev.Write?
    ensures Next(s, ev).row ==
            if ev.nonRoot && ev.sawBits && ev.clearCommits then s.row.(setid := false) else s.row
  {
  }

  lemma StepPeak(s: State, ev: Event, n: nat)
    requires IsPeak(s, n)
    ensures IsPeak(Next(s, ev), Applied(s, Row(n, false), ev).size)
  {
    var row := Row(n, s.row.setid && !PendingClear(s) && !InflightClear(s));
    StepAccounts(s, ev, row);
  }

  lemma {:induction false} RunPeak(s: State, events: seq<Event>, row: Row)
    requires IsPeak(s, row.size)
    ensures IsPeak(Run(s, events), RunImmediate(s, row, events).size)
    decreases |events|
  {
    if events != [] {
      StepPeak(s, events[0], row.size);
      RunPeak(Next(s, events[0]), events[1..], Applied(s, row, events[0]));
    }
  }

  /** And at every moment of every run the largest of stored, buffered and
      in-flight sizes is what immediate commits would have stored: the largest of the
      starting size, or the last truncate's, and every write since. */
  lemma SizesConserved(row: Row, events: seq<Event>)
    ensures IsPeak(Run(State(row, None, map[]), events), RunImmediate(State(row, None, map[]), row, events).size)
  {
    RunPeak(State(row, None, map[]), events, row);
  }

  lemma Unfold(s: State, row: Row, ev: Event, rest: seq<Event>)
    ensures Run(s, [ev] + rest) == Run(Next(s, ev), rest)
    ensures RunImmediate(s, row, [ev] + rest) == RunImmediate(Next(s, ev), Applied(s, row, ev), rest)
  {
    assert ([ev] + rest)[1..] == rest;
  }

  /** The lost clear can happen: a cached entry, a zero-length non-root write
      that did not see the bits, then a cache invalidation. */
  lemma ClearCanBeLost()
    ensures var s := State(Row(0, true), None, map[]);
            var events := [Cache(0)] + ([Write(0, 1, true, false, false)] + ([Invalidate] + []));
            MergedRead(Run(s, events)).setid && !RunImmediate(s, s.row, events).setid
  {
    var s := State(Row(0, true), None, map[]);
    var write := Write(0, 1, true, false, false);
    var e3 := [Invalidate] + [];
    var s1 := Next(s, Cache(0));
    var s2 := Next(s1, write);
    Unfold(s, s.row, Cache(0), [write] + e3);
    Unfold(s1, s.row, write, e3);
    Unfold(s2, Immediate(s.row, write), Invalidate, []);
  }

  /** And so can: a non-root write that did not see the bits, then a truncate by root. */
  lemma TruncateCanLoseClear()
    ensures var s := State(Row(0, true), None, map[]);
            var events := [Write(8, 1, true, false, false)] + ([Truncate(4, false)] + []);
            MergedRead(Run(s, events)).setid && !RunImmediate(s, s.row, events).setid
  {
    var s := State(Row(0, true), None, map[]);
    var write := Write(8, 1, true, false, false);
    var s1 := Next(s, write);
    Unfold(s, s.row, write, [Truncate(4, false)] + []);
    Unfold(s1, Immediate(s.row, write), Truncate(4, false), []);
  }
}
