/** The single-flight health check: a cached report with a lifetime, and at most
    one probe in flight whose result every caller that joined it shares. */
module HealthCache {

  import opened Common

  type Time = int

  datatype Report = Answer(id: nat) | ProbePanicked(reason: nat) | NoReport

  /** What the mutex guards; `C` identifies a call in flight. */
  datatype Slot<+C> = Slot(last: Report, lastAt: Option<Time>, inflight: Option<C>)

  datatype Choice<+C> = Hit(report: Report) | Join(call: C) | Lead

  /** The first critical section: answer from cache, join, or lead. */
  function Choose<C>(slot: Slot<C>, ttl: nat, now: Time): Choice<C> {
    if ttl > 0 && slot.lastAt.Some? && now - slot.lastAt.value < ttl then Hit(slot.last)
    else match slot.inflight
      case Some(call) => Join(call)
      case None => Lead
  }

  function Published<C>(slot: Slot<C>, rep: Report, now: Time): Slot<C> {
    Slot(rep, Some(now), None)
  }

  function Invalidated<C>(slot: Slot<C>): Slot<C> {
    slot.(last := NoReport, lastAt := None)
  }

  class InflightCall {
    var done: bool
    var rep: Report

    constructor ()
      ensures !done && rep == NoReport
    {
      done, rep := false, NoReport;
    }
  }

  class CachedChecker {
    const ttl: nat
    var last: Report
    var lastAt: Option<Time>
    var inflight: InflightCall?

    ghost function Guarded(): Slot<InflightCall>
      reads this
    {
      var call: Option<InflightCall> := if inflight == null then None else Some(inflight);
      Slot(last, lastAt, call)
    }

    constructor (ttl: nat)
      ensures this.ttl == ttl && Guarded() == Slot(NoReport, None, None)
    {
      this.ttl := ttl;
      last, lastAt, inflight := NoReport, None, null;
    }

    /** Up to the first unlock: a leader also gets the call it registered. */
    method Enter(now: Time) returns (choice: Choice<InflightCall>, call: InflightCall?)
      modifies this
      ensures choice == Choose(old(Guarded()), ttl, now)
      ensures !choice.Lead? ==> Guarded() == old(Guarded()) && call == null
      ensures choice.Lead? ==>
                call != null && fresh(call) && !call.done && Guarded() == old(Guarded()).(inflight := Some(call))
    {
      call := null;
      if ttl > 0 && lastAt.Some? && now - lastAt.value < ttl {
        choice := Hit(last);
        return;
      }
      if inflight != null {
        choice := Join(inflight);
        return;
      }
      call := new InflightCall();
      inflight := call;
      choice := Lead;
    }

    /** The leader after its probe returned or panicked: publish, then release. */
    method Finish(call: InflightCall, rep: Report, now: Time)
      modifies this, call
      ensures Guarded() == Published(old(Guarded()), rep, now)
      ensures call.done && call.rep == rep
    {
      last := rep;
      lastAt := Some(now);
      inflight := null;
      call.rep := rep;
      call.done := true;
    }

    method Invalidate()
      modifies this
      ensures Guarded() == Invalidated(old(Guarded()))
    {
      lastAt := None;
      last := NoReport;
    }
  }

  // ---- every schedule of any number of callers ----

  type Caller = nat
  type CallId = nat

  /** A call in flight: who leads it, what its probe produced, and the report
      its waiters can read once it is released. */
  datatype Call = Call(leader: Caller, probed: Option<Report>, rep: Option<Report>)

  datatype Phase =
    | Probing(call: CallId)
    | Probed(call: CallId, rep: Report, panicked: bool)
    | Stored(call: CallId, rep: Report, panicked: bool)
    | Waiting(call: CallId)
    | FromCache(rep: Report, at: Time, seen: nat)
    | FromCall(call: CallId, rep: Report)
    | Led(call: CallId, rep: Report)
    | Panics(call: CallId)
    | Canceled

  datatype Item = Store(call: CallId, rep: Report, at: Time) | Drop

  datatype State = State(slot: Slot<CallId>, calls: seq<Call>, phases: map<Caller, Phase>, log: seq<Item>)

  datatype Event =
    | Enter(caller: Caller, now: Time)
    | ProbeEnds(caller: Caller, rep: Report, panicked: bool)
    | Publish(caller: Caller, now: Time)
    | Release(caller: Caller)
    | Wake(caller: Caller)
    | Cancel(caller: Caller)
    | Invalidate

  const START := State(Slot(NoReport, None, None), [], map[], [])

  predicate Enabled(s: State, ev: Event) {
    match ev
    case Enter(c, _) => c !in s.phases && (s.slot.inflight.Some? ==> s.slot.inflight.value < |s.calls|)
    case ProbeEnds(c, _, _) => c in s.phases && s.phases[c].Probing? && s.phases[c].call < |s.calls|
    case Publish(c, _) => c in s.phases && s.phases[c].Probed?
    case Release(c) => c in s.phases && s.phases[c].Stored? && s.phases[c].call < |s.calls|
    case Wake(c) =>
      && c in s.phases && s.phases[c].Waiting?
      && s.phases[c].call < |s.calls| && s.calls[s.phases[c].call].rep.Some?
    case Cancel(c) => c in s.phases && s.phases[c].Waiting?
    case Invalidate => true
  }

  function Entered(s: State, c: Caller, now: Time, ttl: nat): State {
    match Choose(s.slot, ttl, now)
    case Hit(rep) => s.(phases := s.phases[c := FromCache(rep, now, |s.log|)])
    case Join(call) => s.(phases := s.phases[c := Waiting(call)])
    case Lead => s.(slot := s.slot.(inflight := Some(|s.calls|)),
                    calls := s.calls + [Call(c, None, None)],
                    phases := s.phases[c := Probing(|s.calls|)])
  }

  /** An event that is not enabled changes nothing. */
  function Next(s: State, ev: Event, ttl: nat): State {
    if !Enabled(s, ev) then s
    else match ev
      case Enter(c, now) => Entered(s, c, now, ttl)
      case ProbeEnds(c, rep, panicked) =>
        var call := s.phases[c].call;
        s.(phases := s.phases[c := Probed(call, rep, panicked)],
           calls := s.calls[call := s.calls[call].(probed := Some(rep))])
      case Publish(c, now) =>
        var p := s.phases[c];
        s.(slot := Published(s.slot, p.rep, now), phases := s.phases[c := Stored(p.call, p.rep, p.panicked)],
           log := s.log + [Store(p.call, p.rep, now)])
      case Release(c) =>
        var p := s.phases[c];
        s.(calls := s.calls[p.call := s.calls[p.call].(rep := Some(p.rep))],
           phases := s.phases[c := if p.panicked then Panics(p.call) else Led(p.call, p.rep)])
      case Wake(c) =>
        var call := s.phases[c].call;
        s.(phases := s.phases[c := FromCall(call, s.calls[call].rep.value)])
      case Cancel(c) => s.(phases := s.phases[c := Canceled])
      case Invalidate => s.(slot := Invalidated(s.slot), log := s.log + [Drop])
  }

  function Run(s: State, events: seq<Event>, ttl: nat): State
    decreases |events|
  {
    if events == [] then s else Run(Next(s, events[0], ttl), events[1..], ttl)
  }

  // ---- invariants ----

  predicate Leads(p: Phase) { p.Probing? || p.Probed? || p.Stored? }

  /** What each caller's phase says about its call and the history. */
  ghost predicate PhaseOk(s: State, c: Caller, p: Phase, ttl: nat) {
    match p
    case Probing(k) => k < |s.calls| && s.calls[k] == Call(c, None, None) && s.slot.inflight == Some(k)
    case Probed(k, rep, _) => k < |s.calls| && s.calls[k] == Call(c, Some(rep), None) && s.slot.inflight == Some(k)
    case Stored(k, rep, _) => k < |s.calls| && s.calls[k] == Call(c, Some(rep), None)
    case Waiting(k) => k < |s.calls|
    case FromCall(k, rep) => k < |s.calls| && s.calls[k].probed == Some(rep)
    case Led(k, rep) => k < |s.calls| && s.calls[k] == Call(c, Some(rep), Some(rep))
    case Panics(k) => k < |s.calls| && s.calls[k].leader == c && s.calls[k].rep.Some?
    case FromCache(rep, at, seen) => 1 <= seen <= |s.log| && IsFresh(s.log[seen - 1], rep, at, ttl)
    case Canceled => true
  }

  /** A log item that answers `rep` at time `at`. */
  predicate IsFresh(item: Item, rep: Report, at: Time, ttl: nat) {
    item.Store? && item.rep == rep && at - item.at < ttl
  }

  ghost predicate PhasesOk(s: State, ttl: nat) {
    forall c :: c in s.phases ==> PhaseOk(s, c, s.phases[c], ttl)
  }

  /** A call that is not released still has a leader that will release it. */
  predicate CallOk(s: State, k: CallId)
    requires k < |s.calls|
  {
    var call := s.calls[k];
    && (call.rep.Some? ==> call.rep == call.probed)
    && (call.rep.None? ==> call.leader in s.phases && Leads(s.phases[call.leader]) && s.phases[call.leader].call == k)
  }

  ghost predicate CallsOk(s: State) {
    forall k :: 0 <= k < |s.calls| ==> CallOk(s, k)
  }

  /** The slot names a call whose probe is still running or unpublished. */
  predicate SlotOk(s: State) {
    s.slot.inflight.Some? ==>
      var k := s.slot.inflight.value;
      k < |s.calls| && s.calls[k].leader in s.phases &&
      var p := s.phases[s.calls[k].leader];
      (p.Probing? || p.Probed?) && p.call == k
  }

  /** The cache is the last item of the history. */
  predicate CacheOk(s: State) {
    if s.slot.lastAt.Some? then
      s.log != [] && var item := s.log[|s.log| - 1];
      item.Store? && item.rep == s.slot.last && Some(item.at) == s.slot.lastAt
    else s.log == [] || s.log[|s.log| - 1].Drop?
  }

  /** Every stored report is what a probe produced. */
  ghost predicate LogOk(s: State) {
    forall i :: 0 <= i < |s.log| && s.log[i].Store? ==>
      s.log[i].call < |s.calls| && s.calls[s.log[i].call].probed == Some(s.log[i].rep)
  }

  ghost predicate Inv(s: State, ttl: nat) {
    PhasesOk(s, ttl) && CallsOk(s) && SlotOk(s) && CacheOk(s) && LogOk(s)
  }

  lemma StepPhase(s: State, ev: Event, ttl: nat, c: Caller)
    requires Inv(s, ttl) && Enabled(s, ev) && c in Next(s, ev, ttl).phases
    ensures var t := Next(s, ev, ttl); PhaseOk(t, c, t.phases[c], ttl)
  {
    assert c in s.phases ==> PhaseOk(s, c, s.phases[c], ttl);
    if !ev.Invalidate? && ev.caller in s.phases {
      assert PhaseOk(s, ev.caller, s.phases[ev.caller], ttl);
      if s.phases[ev.caller].Waiting? {
        assert CallOk(s, s.phases[ev.caller].call);
      }
    }
  }

  lemma StepCall(s: State, ev: Event, ttl: nat, k: CallId)
    requires Inv(s, ttl) && Enabled(s, ev) && k < |Next(s, ev, ttl).calls|
    ensures CallOk(Next(s, ev, ttl), k)
  {
    if k < |s.calls| {
      assert CallOk(s, k);
    }
    if !ev.Invalidate? && ev.caller in s.phases {
      assert PhaseOk(s, ev.caller, s.phases[ev.caller], ttl);
    }
  }

  lemma StepSlot(s: State, ev: Event, ttl: nat)
    requires Inv(s, ttl) && Enabled(s, ev)
    ensures SlotOk(Next(s, ev, ttl)) && CacheOk(Next(s, ev, ttl))
  {
    if !ev.Invalidate? && ev.caller in s.phases {
      assert PhaseOk(s, ev.caller, s.phases[ev.caller], ttl);
    }
  }

  lemma StepLog(s: State, ev: Event, ttl: nat)
    requires Inv(s, ttl) && Enabled(s, ev)
    ensures LogOk(Next(s, ev, ttl))
  {
    if !ev.Invalidate? && ev.caller in s.phases {
      assert PhaseOk(s, ev.caller, s.phases[ev.caller], ttl);
    }
  }

  lemma StepInv(s: State, ev: Event, ttl: nat)
    requires Inv(s, ttl)
    ensures Inv(Next(s, ev, ttl), ttl)
  {
    if Enabled(s, ev) {
      var t := Next(s, ev, ttl);
      forall c | c in t.phases ensures PhaseOk(t, c, t.phases[c], ttl) { StepPhase(s, ev, ttl, c); }
      forall k | 0 <= k < |t.calls| ensures CallOk(t, k) { StepCall(s, ev, ttl, k); }
      StepSlot(s, ev, ttl);
      StepLog(s, ev, ttl);
    }
  }

  lemma {:induction false} RunInv(s: State, events: seq<Event>, ttl: nat)
    requires Inv(s, ttl)
    ensures Inv(Run(s, events, ttl), ttl)
    decreases |events|
  {
    if events != [] {
      StepInv(s, events[0], ttl);
      RunInv(Next(s, events[0], ttl), events[1..], ttl);
    }
  }

  // ---- what every schedule guarantees ----

  /** At most one probe runs at a time. */
  lemma OneProbe(events: seq<Event>, ttl: nat, c: Caller, d: Caller)
    requires var s := Run(START, events, ttl);
             c in s.phases && s.phases[c].Probing? && d in s.phases && s.phases[d].Probing?
    ensures c == d
  {
    RunInv(START, events, ttl);
    var s := Run(START, events, ttl);
    assert PhaseOk(s, c, s.phases[c], ttl) && PhaseOk(s, d, s.phases[d], ttl);
  }

  /** A caller that joined call k waits for it, was answered by it or gave up. */
  predicate BoundTo(s: State, c: Caller, k: CallId) {
    c in s.phases &&
    (s.phases[c] == Waiting(k) || (s.phases[c].FromCall? && s.phases[c].call == k) || s.phases[c].Canceled?)
  }

  lemma {:induction false} RunBoundTo(s: State, events: seq<Event>, ttl: nat, c: Caller, k: CallId)
    requires BoundTo(s, c, k)
    ensures BoundTo(Run(s, events, ttl), c, k)
    decreases |events|
  {
    if events != [] {
      RunBoundTo(Next(s, events[0], ttl), events[1..], ttl, c, k);
    }
  }

  /** A caller that joins call k in any reachable state, and is not canceled, returns
      the report that the probe of call k produced, whatever happens later. */
  lemma WaiterGetsItsProbe(events: seq<Event>, ttl: nat, c: Caller, now: Time, later: seq<Event>)
    requires var s := Run(START, events, ttl); c !in s.phases && Choose(s.slot, ttl, now).Join?
    ensures var s := Run(START, events, ttl);
            var k := Choose(s.slot, ttl, now).call;
            var t := Run(Next(s, Enter(c, now), ttl), later, ttl);
            && BoundTo(t, c, k)
            && (t.phases[c].FromCall? ==> k < |t.calls| && t.calls[k].probed == Some(t.phases[c].rep))
  {
    var s := Run(START, events, ttl);
    var m := Next(s, Enter(c, now), ttl);
    RunInv(START, events, ttl);
    StepInv(s, Enter(c, now), ttl);
    RunInv(m, later, ttl);
    RunBoundTo(m, later, ttl, c, Choose(s.slot, ttl, now).call);
    var t := Run(m, later, ttl);
    assert PhaseOk(t, c, t.phases[c], ttl);
  }

  /** A cached answer was, when given, the last thing published, by a probe,
      younger than the lifetime and not invalidated since. */
  lemma CachedAnswerIsFresh(events: seq<Event>, ttl: nat, c: Caller)
    requires var s := Run(START, events, ttl); c in s.phases && s.phases[c].FromCache?
    ensures var s := Run(START, events, ttl);
            var p := s.phases[c];
            && 1 <= p.seen <= |s.log| && IsFresh(s.log[p.seen - 1], p.rep, p.at, ttl)
            && var k := s.log[p.seen - 1].call; k < |s.calls| && s.calls[k].probed == Some(p.rep)
  {
    RunInv(START, events, ttl);
    var s := Run(START, events, ttl);
    assert PhaseOk(s, c, s.phases[c], ttl);
  }

  /** What a caller entering a reachable state meets, by the history: the last report
      if it was the last thing to happen to the cache and is younger than the lifetime;
      else the call in flight; else a call of its own. */
  lemma EnterExactly(events: seq<Event>, ttl: nat, c: Caller, now: Time)
    requires c !in Run(START, events, ttl).phases
    ensures var s := Run(START, events, ttl);
            var t := Next(s, Enter(c, now), ttl);
            var young := ttl > 0 && s.log != [] && s.log[|s.log| - 1].Store? && now - s.log[|s.log| - 1].at < ttl;
            && c in t.phases
            && (young ==> t.phases[c] == FromCache(s.log[|s.log| - 1].rep, now, |s.log|) && t.calls == s.calls)
            && (!young && s.slot.inflight.Some? ==>
                  t.phases[c] == Waiting(s.slot.inflight.value) && t.calls == s.calls)
            && (!young && s.slot.inflight.None? ==>
                  && t.phases[c] == Probing(|s.calls|) && t.slot.inflight == Some(|s.calls|)
                  && t.calls == s.calls + [Call(c, None, None)])
  {
    RunInv(START, events, ttl);
  }

  /** A publication is cached until the next one or an invalidation. */
  lemma CacheExactly(events: seq<Event>, ttl: nat)
    ensures var s := Run(START, events, ttl);
            if s.log != [] && s.log[|s.log| - 1].Store?
            then s.slot.last == s.log[|s.log| - 1].rep && s.slot.lastAt == Some(s.log[|s.log| - 1].at)
            else s.slot.lastAt == None
  {
    RunInv(START, events, ttl);
  }

  /** A waiter whose own context ends stops waiting, and nobody else notices. */
  lemma CancelLeaves(s: State, ttl: nat, c: Caller)
    requires c in s.phases && s.phases[c].Waiting?
    ensures Next(s, Cancel(c), ttl) == s.(phases := s.phases[c := Canceled])
  {
  }

  /** Nobody waits for nothing: a waiter's call is released or has a live leader. */
  lemma WaiterIsServed(events: seq<Event>, ttl: nat, c: Caller)
    requires var s := Run(START, events, ttl); c in s.phases && s.phases[c].Waiting?
    ensures var s := Run(START, events, ttl);
            var k := s.phases[c].call;
            && k < |s.calls|
            && var leader := s.calls[k].leader;
            s.calls[k].rep.Some? || (leader in s.phases && Leads(s.phases[leader]) && s.phases[leader].call == k)
  {
    RunInv(START, events, ttl);
    var s := Run(START, events, ttl);
    assert PhaseOk(s, c, s.phases[c], ttl);
    assert CallOk(s, s.phases[c].call);
  }

  /** However the probe ends, its leader's remaining steps clear the slot and hand
      every waiter on the call its report. */
  lemma ProbeAlwaysReleases(events: seq<Event>, ttl: nat, c: Caller, rep: Report, panicked: bool, now: Time, w: Caller)
    requires var s := Run(START, events, ttl); c in s.phases && s.phases[c].Probing?
    ensures var s := Run(START, events, ttl);
            var t := Next(Next(Next(s, ProbeEnds(c, rep, panicked), ttl), Publish(c, now), ttl), Release(c), ttl);
            && t.slot == Slot(rep, Some(now), None)
            && t.phases[c] == (if panicked then Panics(s.phases[c].call) else Led(s.phases[c].call, rep))
            && (w in s.phases && s.phases[w] == Waiting(s.phases[c].call) ==>
                  Enabled(t, Wake(w)) && Next(t, Wake(w), ttl).phases[w] == FromCall(s.phases[c].call, rep))
  {
    RunInv(START, events, ttl);
    var s := Run(START, events, ttl);
    assert PhaseOk(s, c, s.phases[c], ttl);
  }

  /** In every schedule: once a leader has returned or panicked, the slot does not
      name its call, and every waiter on the call can wake with what its probe
      produced. */
  lemma FinishedLeaderReleased(events: seq<Event>, ttl: nat, c: Caller, w: Caller)
    requires var s := Run(START, events, ttl); c in s.phases && (s.phases[c].Led? || s.phases[c].Panics?)
    ensures var s := Run(START, events, ttl);
            var k := s.phases[c].call;
            && k < |s.calls| && s.slot.inflight != Some(k) && s.calls[k].probed.Some?
            && (w in s.phases && s.phases[w] == Waiting(k) ==>
                  && Enabled(s, Wake(w))
                  && Next(s, Wake(w), ttl).phases[w] == FromCall(k, s.calls[k].probed.value))
  {
    RunInv(START, events, ttl);
    var s := Run(START, events, ttl);
    assert PhaseOk(s, c, s.phases[c], ttl);
    assert CallOk(s, s.phases[c].call);
  }

  // ---- invalidation ----

  /** Nothing published or answered since the invalidation comes from a call begun
      before it: `n` calls and `m` items of history are older. */
  ghost predicate OnlyNew(t: State, n: nat, m: nat, earlier: set<Caller>) {
    && m <= |t.log| && n <= |t.calls|
    && (t.slot.inflight.Some? ==> t.slot.inflight.value >= n)
    && (t.slot.lastAt.Some? ==> |t.log| > m)
    && (forall c :: c in t.phases && (t.phases[c].Probing? || t.phases[c].Probed?) ==> t.phases[c].call >= n)
    && (forall i :: m <= i < |t.log| && t.log[i].Store? ==> t.log[i].call >= n)
    && (forall c :: c in t.phases && c !in earlier && t.phases[c].FromCache? ==> t.phases[c].seen > m)
  }

  lemma StepOnlyNew(t: State, ev: Event, ttl: nat, n: nat, m: nat, earlier: set<Caller>)
    requires Inv(t, ttl) && OnlyNew(t, n, m, earlier)
    ensures OnlyNew(Next(t, ev, ttl), n, m, earlier)
  {
  }

  lemma {:induction false} RunOnlyNew(t: State, events: seq<Event>, ttl: nat, n: nat, m: nat, earlier: set<Caller>)
    requires Inv(t, ttl) && OnlyNew(t, n, m, earlier)
    ensures OnlyNew(Run(t, events, ttl), n, m, earlier)
    decreases |events|
  {
    if events != [] {
      StepInv(t, events[0], ttl);
      StepOnlyNew(t, events[0], ttl, n, m, earlier);
      RunOnlyNew(Next(t, events[0], ttl), events[1..], ttl, n, m, earlier);
    }
  }

  /** After an invalidation in s and the given events, a caller that came later is
      answered from the cache with the report of a probe that began before it. */
  ghost predicate StaleAnswer(s: State, after: seq<Event>, ttl: nat, c: Caller) {
    var t := Run(Next(s, Invalidate, ttl), after, ttl);
    c !in s.phases && c in t.phases && t.phases[c].FromCache? &&
    var seen := t.phases[c].seen;
    1 <= seen <= |t.log| && t.log[seen - 1].Store? && t.log[seen - 1].call < |s.calls|
  }

  lemma NoStaleAnswer(before: seq<Event>, ttl: nat, after: seq<Event>, c: Caller)
    requires Run(START, before, ttl).slot.inflight.None?
    ensures !StaleAnswer(Run(START, before, ttl), after, ttl, c)
  {
    var s := Run(START, before, ttl);
    var t := Next(s, Invalidate, ttl);
    RunInv(START, before, ttl);
    StepInv(s, Invalidate, ttl);
    forall d | d in t.phases ensures !t.phases[d].Probing? && !t.phases[d].Probed? {
      assert PhaseOk(t, d, t.phases[d], ttl);
    }
    RunOnlyNew(t, after, ttl, |s.calls|, |t.log|, s.phases.Keys);
  }

  lemma {:induction false} UnusedCaller(used: set<Caller>) returns (c: Caller)
    ensures forall d :: d in used ==> d < c
  {
    if used == {} {
      c := 0;
    } else {
      var d :| d in used;
      c := UnusedCaller(used - {d});
      assert forall e :: e in used ==> e == d || e in used - {d};
      if c <= d {
        c := d + 1;
      }
    }
  }

  lemma Unfold(s: State, ev: Event, rest: seq<Event>, ttl: nat)
    ensures Run(s, [ev] + rest, ttl) == Run(Next(s, ev, ttl), rest, ttl)
  {
    assert ([ev] + rest)[1..] == rest;
  }

  /** The call in flight finishes after the invalidation, and the next caller is
      given its report. */
  lemma InflightAnswers(s: State, ttl: nat, c: Caller) returns (after: seq<Event>)
    requires Inv(s, ttl) && ttl > 0 && s.slot.inflight.Some? && c !in s.phases
    ensures StaleAnswer(s, after, ttl, c)
  {
    var leader := s.calls[s.slot.inflight.value].leader;
    var e3 := [Enter(c, 0)] + [];
    var e2 := [Publish(leader, 0)] + e3;
    after := [ProbeEnds(leader, Answer(0), false)] + e2;
    var s0 := Next(s, Invalidate, ttl);
    var s1 := Next(s0, ProbeEnds(leader, Answer(0), false), ttl);
    var s2 := Next(s1, Publish(leader, 0), ttl);
    Unfold(s0, ProbeEnds(leader, Answer(0), false), e2, ttl);
    Unfold(s1, Publish(leader, 0), e3, ttl);
    Unfold(s2, Enter(c, 0), [], ttl);
    assert PhaseOk(s, leader, s.phases[leader], ttl);
    assert s1.phases[leader].Probed? && s1.phases[leader].call == s.slot.inflight.value;
  }

  /** After an invalidation in any reachable state, every later cached answer comes
      from a probe that began after it, exactly when no probe was in flight. */
  lemma InvalidateExact(before: seq<Event>, ttl: nat)
    requires ttl > 0
    ensures var s := Run(START, before, ttl);
            (forall after, c :: !StaleAnswer(s, after, ttl, c)) <==> s.slot.inflight.None?
  {
    var s := Run(START, before, ttl);
    RunInv(START, before, ttl);
    if s.slot.inflight.None? {
      forall after, c ensures !StaleAnswer(s, after, ttl, c) {
        NoStaleAnswer(before, ttl, after, c);
      }
    } else {
      var c := UnusedCaller(s.phases.Keys);
      assert c !in s.phases;
      var after := InflightAnswers(s, ttl, c);
    }
  }

  /** Such a schedule from the start: a probe begins, the cache is invalidated, the
      probe ends, and its report is the next cached answer. */
  lemma InvalidateMissesInflight(ttl: nat, rep: Report)
    requires ttl > 0
    ensures var t := Run(START, [Enter(0, 0)] + ([Invalidate] + ([ProbeEnds(0, rep, false)]
                                + ([Publish(0, 1)] + ([Enter(1, 1)] + [])))), ttl);
            && t.calls == [Call(0, Some(rep), None)] && t.log == [Drop, Store(0, rep, 1)]
            && 1 in t.phases && t.phases[1] == FromCache(rep, 1, 2)
  {
    var e5 := [Enter(1, 1)] + [];
    var e4 := [Publish(0, 1)] + e5;
    var e3 := [ProbeEnds(0, rep, false)] + e4;
    var e2 := [Invalidate] + e3;
    var s1 := Next(START, Enter(0, 0), ttl);
    var s2 := Next(s1, Invalidate, ttl);
    var s3 := Next(s2, ProbeEnds(0, rep, false), ttl);
    var s4 := Next(s3, Publish(0, 1), ttl);
    Unfold(START, Enter(0, 0), e2, ttl);
    Unfold(s1, Invalidate, e3, ttl);
    Unfold(s2, ProbeEnds(0, rep, false), e4, ttl);
    Unfold(s3, Publish(0, 1), e5, ttl);
    Unfold(s4, Enter(1, 1), [], ttl);
    assert s3.phases[0] == Probed(0, rep, false);
  }
}
