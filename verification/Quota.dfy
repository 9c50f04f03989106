/** Per-user and per-group quotas: hard ceilings, soft thresholds with a grace
    timer, and the default-user fallback with its per-user timers. */
module Quota {

  import opened Common

  type Time = int

  /** Nanoseconds in a second: times are instants in nanoseconds. */
  const SECOND := 1_000_000_000

  const MAX_INT64 := 0x7fff_ffff_ffff_ffff

  type Int64 = n: int | -0x8000_0000_0000_0000 <= n <= MAX_INT64

  /** Two's-complement addition. */
  function Add64(a: Int64, b: Int64): Int64 {
    var sum := a + b;
    if sum > MAX_INT64 then sum - 0x1_0000_0000_0000_0000
    else if sum < -MAX_INT64 - 1 then sum + 0x1_0000_0000_0000_0000
    else sum
  }

  datatype Scope = User | Group

  datatype Key = Key(share: string, scope: Scope, id: nat)

  /** The id that keys the quota of every user without one of their own. */
  const DEFAULT_USER := 0xffff_ffff

  function DefaultKey(share: string): Key {
    Key(share, User, DEFAULT_USER)
  }

  /** Zero means no limit, no threshold, no grace. */
  datatype Limit = Limit(hardBytes: Int64, softBytes: Int64, hardFiles: Int64, softFiles: Int64, graceSeconds: Int64)

  datatype Row = Row(limit: Limit, graceStartedAt: Option<Time>)

  datatype Usage = Usage(bytes: Int64, files: Int64)

  datatype Dimension = Dimension(used: Int64, delta: Int64, soft: Int64, hard: Int64)

  datatype Decision = Admit | HardLimit | GraceExpired

  // ---- one axis ----

  predicate PassesHard(d: Dimension) {
    d.delta <= 0 || d.hard <= 0 || Add64(d.used, d.delta) <= d.hard
  }

  predicate CrossesSoft(d: Dimension) {
    d.delta > 0 && d.soft > 0 && Add64(d.used, d.delta) > d.soft
  }

  /** A growing axis passes exactly when it stays at or below the ceiling or
      wraps around the counter. */
  lemma HardCheckExact(d: Dimension)
    requires d.delta > 0 && d.hard > 0
    ensures PassesHard(d) <==> (d.used + d.delta <= d.hard || d.used + d.delta > MAX_INT64)
  {
  }

  function Dimensions(l: Limit, u: Usage, bytes: Int64, files: Int64): seq<Dimension> {
    [Dimension(u.bytes, bytes, l.softBytes, l.hardBytes), Dimension(u.files, files, l.softFiles, l.hardFiles)]
  }

  predicate AllPassHard(dims: seq<Dimension>) {
    forall i :: 0 <= i < |dims| ==> PassesHard(dims[i])
  }

  predicate SomeCrossesSoft(dims: seq<Dimension>) {
    exists i :: 0 <= i < |dims| && CrossesSoft(dims[i])
  }

  /** The loop over the axes: stops at the first ceiling crossed. */
  method ScanDimensions(dims: seq<Dimension>) returns (ok: bool, overSoft: bool)
    ensures ok <==> AllPassHard(dims)
    ensures ok ==> (overSoft <==> SomeCrossesSoft(dims))
  {
    overSoft := false;
    for i := 0 to |dims|
      invariant forall j :: 0 <= j < i ==> PassesHard(dims[j])
      invariant overSoft <==> exists j :: 0 <= j < i && CrossesSoft(dims[j])
    {
      var d := dims[i];
      if d.delta <= 0 { continue; }
      var projected := Add64(d.used, d.delta);
      if d.hard > 0 && projected > d.hard { return false, overSoft; }
      if d.soft > 0 && projected > d.soft { overSoft := true; }
    }
    ok := true;
  }

  // ---- limits and timers, with the copies the control plane persists ----

  datatype Tables = Tables(
    rows: map<Key, Row>, dynGrace: map<Key, Time>,
    savedRows: map<Key, Option<Time>>, savedDyn: map<Key, Time>)

  /** A grace timer: a stored row's, or one user's under the default quota. */
  datatype Timer = RowTimer(key: Key) | UserTimer(key: Key)

  function Read(t: Tables, timer: Timer): Option<Time> {
    match timer
    case RowTimer(k) => if k in t.rows then t.rows[k].graceStartedAt else None
    case UserTimer(k) => if k in t.dynGrace then Some(t.dynGrace[k]) else None
  }

  /** Sets or clears a timer, persisting only a change. */
  function Write(t: Tables, timer: Timer, v: Option<Time>): Tables {
    match timer
    case RowTimer(k) =>
      if k !in t.rows || t.rows[k].graceStartedAt == v then t
      else t.(rows := t.rows[k := t.rows[k].(graceStartedAt := v)], savedRows := t.savedRows[k := v])
    case UserTimer(k) =>
      if v.None? then
        if k !in t.dynGrace then t
        else t.(dynGrace := t.dynGrace - {k}, savedDyn := t.savedDyn - {k})
      else if k in t.dynGrace && t.dynGrace[k] == v.value then t
      else t.(dynGrace := t.dynGrace[k := v.value], savedDyn := t.savedDyn[k := v.value])
  }

  /** The row that governs an identity: its own, or for a user the default. */
  function Governing(t: Tables, k: Key): Option<Key> {
    if k in t.rows then Some(k)
    else if k.scope.User? && DefaultKey(k.share) in t.rows then Some(DefaultKey(k.share))
    else None
  }

  function TimerOf(k: Key, rowKey: Key): Timer {
    if k.scope.User? && rowKey.id == DEFAULT_USER then UserTimer(k) else RowTimer(rowKey)
  }

  datatype Verdict = Verdict(tables: Tables, decision: Decision)

  /** enforceOne; `usage` is None when the usage lookup fails. */
  function Enforce(t: Tables, timer: Timer, l: Limit, usage: Option<Usage>, bytes: Int64, files: Int64, now: Time)
    : Verdict
  {
    if usage.None? then Verdict(t, Admit)
    else
      var dims := Dimensions(l, usage.value, bytes, files);
      if !AllPassHard(dims) then Verdict(t, HardLimit)
      else if !SomeCrossesSoft(dims) then Verdict(Write(t, timer, None), Admit)
      else if l.graceSeconds <= 0 then Verdict(t, Admit)
      else match Read(t, timer)
        case None => Verdict(Write(t, timer, Some(now)), Admit)
        case Some(start) =>
          Verdict(t, if now > start + l.graceSeconds * SECOND then GraceExpired else Admit)
  }

  function EnforceFor(t: Tables, k: Key, usage: Option<Usage>, bytes: Int64, files: Int64, now: Time): Verdict {
    match Governing(t, k)
    case None => Verdict(t, Admit)
    case Some(rowKey) => Enforce(t, TimerOf(k, rowKey), t.rows[rowKey].limit, usage, bytes, files, now)
  }

  datatype Op = Op(
    share: string, uid: nat, gid: nat, bytes: Int64, files: Int64, now: Time,
    userLookupFails: bool, groupLookupFails: bool)

  function UserKey(op: Op): Key { Key(op.share, User, op.uid) }

  function GroupKey(op: Op): Key { Key(op.share, Group, op.gid) }

  datatype State = State(tables: Tables, usage: map<Key, Usage>)

  function UsageOf(s: State, k: Key): Usage {
    if k in s.usage then s.usage[k] else Usage(0, 0)
  }

  function Lookup(s: State, k: Key, fails: bool): Option<Usage> {
    if fails then None else Some(UsageOf(s, k))
  }

  function UserVerdict(s: State, op: Op): Verdict {
    EnforceFor(s.tables, UserKey(op), Lookup(s, UserKey(op), op.userLookupFails), op.bytes, op.files, op.now)
  }

  /** checkIdentityQuotas: the user's quota first, then the group's. */
  function Check(s: State, op: Op): Verdict {
    if op.bytes <= 0 && op.files <= 0 then Verdict(s.tables, Admit)
    else
      var v := UserVerdict(s, op);
      if v.decision != Admit then v
      else EnforceFor(v.tables, GroupKey(op), Lookup(s, GroupKey(op), op.groupLookupFails), op.bytes, op.files, op.now)
  }

  class QuotaLimits {
    var rows: map<Key, Row>
    var dynGrace: map<Key, Time>
    var savedRows: map<Key, Option<Time>>
    var savedDyn: map<Key, Time>

    ghost function Snapshot(): Tables
      reads this
    {
      Tables(rows, dynGrace, savedRows, savedDyn)
    }

    method ResolveUser(share: string, uid: nat) returns (rowKey: Option<Key>)
      ensures rowKey == Governing(Snapshot(), Key(share, User, uid))
    {
      if Key(share, User, uid) in rows { return Some(Key(share, User, uid)); }
      if DefaultKey(share) in rows { return Some(DefaultKey(share)); }
      rowKey := None;
    }

    method SetDynGrace(k: Key, v: Option<Time>) returns (changed: bool)
      modifies `dynGrace
      ensures Read(Snapshot(), UserTimer(k)) == v
      ensures forall other :: other != k ==>
                Read(Snapshot(), UserTimer(other)) == old(Read(Snapshot(), UserTimer(other)))
      ensures changed <==> dynGrace != old(dynGrace)
      ensures dynGrace == Write(old(Snapshot()), UserTimer(k), v).dynGrace
    {
      if v.None? {
        if k !in dynGrace { return false; }
        dynGrace := dynGrace - {k};
        return true;
      }
      if k in dynGrace && dynGrace[k] == v.value { return false; }
      dynGrace := dynGrace[k := v.value];
      assert k in dynGrace && dynGrace[k] == v.value;
      changed := true;
    }

    method UpdateGraceStartedAt(k: Key, v: Option<Time>) returns (changed: bool)
      modifies `rows
      ensures rows == Write(old(Snapshot()), RowTimer(k), v).rows
      ensures changed <==> k in old(rows) && old(rows)[k].graceStartedAt != v
      ensures changed <==> rows != old(rows)
    {
      if k !in rows { return false; }
      if rows[k].graceStartedAt == v { return false; }
      rows := rows[k := rows[k].(graceStartedAt := v)];
      assert rows[k] != old(rows)[k];
      changed := true;
    }

    /** startGrace and clearGrace: update in memory, then persist on change. */
    method SetGrace(timer: Timer, v: Option<Time>)
      modifies this
      ensures Snapshot() == Write(old(Snapshot()), timer, v)
    {
      match timer {
        case UserTimer(k) =>
          var changed := SetDynGrace(k, v);
          if changed { savedDyn := if v.None? then savedDyn - {k} else savedDyn[k := v.value]; }
        case RowTimer(k) =>
          var changed := UpdateGraceStartedAt(k, v);
          if changed { savedRows := savedRows[k := v]; }
      }
    }

    method LiveGrace(timer: Timer) returns (start: Option<Time>)
      ensures start == Read(Snapshot(), timer)
    {
      match timer {
        case UserTimer(k) => start := if k in dynGrace then Some(dynGrace[k]) else None;
        case RowTimer(k) => start := if k in rows then rows[k].graceStartedAt else None;
      }
    }

    method EnforceOne(timer: Timer, l: Limit, usage: Option<Usage>, bytes: Int64, files: Int64, now: Time)
      returns (decision: Decision)
      modifies this
      ensures Verdict(Snapshot(), decision) == Enforce(old(Snapshot()), timer, l, usage, bytes, files, now)
    {
      if usage.None? { return Admit; }
      var ok, overSoft := ScanDimensions(Dimensions(l, usage.value, bytes, files));
      if !ok { return HardLimit; }
      decision := Admit;
      if !overSoft {
        SetGrace(timer, None);
        return;
      }
      if l.graceSeconds <= 0 { return; }
      var start := LiveGrace(timer);
      if start.None? {
        SetGrace(timer, Some(now));
        return;
      }
      if now > start.value + l.graceSeconds * SECOND { decision := GraceExpired; }
    }

    method CheckIdentityQuotas(op: Op, userUsage: Option<Usage>, groupUsage: Option<Usage>, ghost s: State)
      returns (decision: Decision)
      requires s.tables == Snapshot()
      requires userUsage == Lookup(s, UserKey(op), op.userLookupFails)
      requires groupUsage == Lookup(s, GroupKey(op), op.groupLookupFails)
      modifies this
      ensures Verdict(Snapshot(), decision) == Check(s, op)
    {
      decision := Admit;
      if op.bytes <= 0 && op.files <= 0 { return; }
      if !exists k | k in rows.Keys :: k.share == op.share { return; }
      var rowKey := ResolveUser(op.share, op.uid);
      if rowKey.Some? {
        var l := rows[rowKey.value].limit;
        decision := EnforceOne(TimerOf(UserKey(op), rowKey.value), l, userUsage, op.bytes, op.files, op.now);
        if decision != Admit { return; }
      }
      if GroupKey(op) in rows {
        var l := rows[GroupKey(op)].limit;
        decision := EnforceOne(TimerOf(GroupKey(op), GroupKey(op)), l, groupUsage, op.bytes, op.files, op.now);
      }
    }
  }

  // ---- runs in which an admitted operation charges its deltas ----

  function Charge(u: Usage, op: Op): Usage {
    Usage(Add64(u.bytes, op.bytes), Add64(u.files, op.files))
  }

  function Next(s: State, op: Op): State {
    var v := Check(s, op);
    if v.decision != Admit then s.(tables := v.tables)
    else State(v.tables, s.usage[UserKey(op) := Charge(UsageOf(s, UserKey(op)), op)]
                                [GroupKey(op) := Charge(UsageOf(s, GroupKey(op)), op)])
  }

  function Run(s: State, ops: seq<Op>): State
    decreases |ops|
  {
    if ops == [] then s else Run(Next(s, ops[0]), ops[1..])
  }

  // ---- limits do not move ----

  ghost predicate SameLimits(t: Tables, u: Tables) {
    t.rows.Keys == u.rows.Keys && forall k :: k in t.rows ==> t.rows[k].limit == u.rows[k].limit
  }

  lemma EnforceKeepsLimits(t: Tables, k: Key, usage: Option<Usage>, bytes: Int64, files: Int64, now: Time)
    ensures SameLimits(t, EnforceFor(t, k, usage, bytes, files, now).tables)
  {
  }

  lemma CheckKeepsLimits(s: State, op: Op)
    ensures SameLimits(s.tables, Check(s, op).tables)
  {
    EnforceKeepsLimits(s.tables, UserKey(op), Lookup(s, UserKey(op), op.userLookupFails), op.bytes, op.files, op.now);
    EnforceKeepsLimits(UserVerdict(s, op).tables, GroupKey(op), Lookup(s, GroupKey(op), op.groupLookupFails),
                       op.bytes, op.files, op.now);
  }

  // ---- which quota governs whom ----

  /** An identity with a quota of its own is governed by that; a user without one by
      the quota of user id 2^32 - 1 of the share, if there is one; a group without one
      by none. */
  lemma GoverningExactly(t: Tables, k: Key)
    ensures k in t.rows ==> Governing(t, k) == Some(k)
    ensures k !in t.rows && k.scope.User? && Key(k.share, User, 4294967295) in t.rows ==>
              Governing(t, k) == Some(Key(k.share, User, 4294967295))
    ensures k !in t.rows && (k.scope.Group? || Key(k.share, User, 4294967295) !in t.rows) ==> Governing(t, k) == None
  {
  }

  /** The limit is passed on an axis that grows: whatever the counter's width, so
      long as the sum fits it. */
  predicate Exceeds(l: Limit, u: Usage, op: Op) {
    || (op.bytes > 0 && l.hardBytes > 0 && u.bytes + op.bytes > l.hardBytes)
    || (op.files > 0 && l.hardFiles > 0 && u.files + op.files > l.hardFiles)
  }

  predicate Crosses(l: Limit, u: Usage, op: Op) {
    || (op.bytes > 0 && l.softBytes > 0 && u.bytes + op.bytes > l.softBytes)
    || (op.files > 0 && l.softFiles > 0 && u.files + op.files > l.softFiles)
  }

  lemma ScanExactly(l: Limit, u: Usage, op: Op)
    requires FitsIn(u, op)
    ensures AllPassHard(Dimensions(l, u, op.bytes, op.files)) <==> !Exceeds(l, u, op)
    ensures SomeCrossesSoft(Dimensions(l, u, op.bytes, op.files)) <==> Crosses(l, u, op)
  {
    var dims := Dimensions(l, u, op.bytes, op.files);
    assert AllPassHard(dims) <==> PassesHard(dims[0]) && PassesHard(dims[1]);
    assert SomeCrossesSoft(dims) <==> CrossesSoft(dims[0]) || CrossesSoft(dims[1]);
  }

  /** The decision of one quota that can be read: a hard refusal exactly when an axis
      passes its ceiling; a grace refusal exactly when not that, a threshold is crossed,
      grace is configured and the running timer is older than it, in nanoseconds;
      otherwise the operation is admitted. */
  lemma EnforceExactly(t: Tables, timer: Timer, l: Limit, u: Usage, op: Op)
    requires FitsIn(u, op)
    ensures var d := Enforce(t, timer, l, Some(u), op.bytes, op.files, op.now).decision;
            && (d == HardLimit <==> Exceeds(l, u, op))
            && (d == GraceExpired <==>
                && !Exceeds(l, u, op) && Crosses(l, u, op) && l.graceSeconds > 0
                && Read(t, timer).Some? && op.now > Read(t, timer).value + l.graceSeconds * 1000000000)
  {
    ScanExactly(l, u, op);
  }

  /** The hard refusal of the whole check: the user's ceiling, or, if the user's quota
      admits, the group's; a lookup that fails never refuses. */
  ghost predicate OverCeiling(s: State, op: Op, k: Key) {
    var g := Governing(s.tables, k);
    g.Some? && !LookupFails(op, k) && Exceeds(s.tables.rows[g.value].limit, UsageOf(s, k), op)
  }

  lemma HardRefusalExactly(s: State, op: Op)
    requires op.bytes > 0 || op.files > 0
    requires FitsIn(UsageOf(s, UserKey(op)), op) && FitsIn(UsageOf(s, GroupKey(op)), op)
    ensures Check(s, op).decision == HardLimit <==>
            OverCeiling(s, op, UserKey(op)) ||
            (UserVerdict(s, op).decision == Admit && OverCeiling(s, op, GroupKey(op)))
  {
    var u, g := Governing(s.tables, UserKey(op)), Governing(s.tables, GroupKey(op));
    if u.Some? {
      EnforceExactly(s.tables, TimerOf(UserKey(op), u.value), s.tables.rows[u.value].limit,
                     UsageOf(s, UserKey(op)), op);
    }
    GroupUnmoved(s, op);
    if g.Some? {
      EnforceExactly(s.tables, TimerOf(GroupKey(op), g.value), s.tables.rows[g.value].limit,
                     UsageOf(s, GroupKey(op)), op);
    }
  }

  /** Growth of nothing is admitted and touches nothing. */
  lemma ShrinkingAdmitted(s: State, op: Op)
    requires op.bytes <= 0 && op.files <= 0
    ensures Check(s, op) == Verdict(s.tables, Admit)
  {
  }

  /** A user with a quota of their own is refused for its ceiling, and no default
      quota plays a part: the decision is the same with any other one. */
  lemma OwnQuotaDecides(s: State, op: Op, fallback: Row)
    requires UserKey(op) in s.tables.rows && op.uid != 4294967295
    requires !op.userLookupFails && FitsIn(UsageOf(s, UserKey(op)), op) && (op.bytes > 0 || op.files > 0)
    ensures UserVerdict(s, op).decision == HardLimit <==>
            Exceeds(s.tables.rows[UserKey(op)].limit, UsageOf(s, UserKey(op)), op)
    ensures var t := s.(tables := s.tables.(rows := s.tables.rows[Key(op.share, User, 4294967295) := fallback]));
            UserVerdict(t, op).decision == UserVerdict(s, op).decision
  {
    EnforceExactly(s.tables, TimerOf(UserKey(op), UserKey(op)), s.tables.rows[UserKey(op)].limit,
                   UsageOf(s, UserKey(op)), op);
  }

  // ---- usage is conserved ----

  /** What the admitted operations of a run add to an identity. */
  function Charged(s: State, ops: seq<Op>, k: Key): (int, int)
    decreases |ops|
  {
    if ops == [] then (0, 0)
    else
      var rest := Charged(Next(s, ops[0]), ops[1..], k);
      if Check(s, ops[0]).decision == Admit && (UserKey(ops[0]) == k || GroupKey(ops[0]) == k)
      then (ops[0].bytes + rest.0, ops[0].files + rest.1) else rest
  }

  lemma StepCharges(s: State, op: Op, k: Key)
    requires Counts(s, op)
    ensures var u, v := UsageOf(s, k), UsageOf(Next(s, op), k);
            if Check(s, op).decision == Admit && (UserKey(op) == k || GroupKey(op) == k)
            then v.bytes == u.bytes + op.bytes && v.files == u.files + op.files else v == u
  {
  }

  /** Usage is the starting usage plus what was admitted, for every identity. */
  lemma {:induction false} UsageConserved(s: State, ops: seq<Op>, k: Key)
    requires AllCount(s, ops)
    ensures UsageOf(Run(s, ops), k).bytes == UsageOf(s, k).bytes + Charged(s, ops, k).0
    ensures UsageOf(Run(s, ops), k).files == UsageOf(s, k).files + Charged(s, ops, k).1
    decreases |ops|
  {
    if ops != [] {
      StepCharges(s, ops[0], k);
      UsageConserved(Next(s, ops[0]), ops[1..], k);
    }
  }

  // ---- hard limits ----

  predicate Under(l: Limit, u: Usage) {
    && (l.hardBytes > 0 ==> u.bytes <= l.hardBytes)
    && (l.hardFiles > 0 ==> u.files <= l.hardFiles)
  }

  ghost predicate UnderQuota(s: State, k: Key) {
    var g := Governing(s.tables, k);
    g.Some? ==> Under(s.tables.rows[g.value].limit, UsageOf(s, k))
  }

  ghost predicate Within(s: State) {
    forall k :: UnderQuota(s, k)
  }

  predicate FitsIn(u: Usage, op: Op) {
    u.bytes + op.bytes <= MAX_INT64 && -MAX_INT64 - 1 <= u.bytes + op.bytes
    && u.files + op.files <= MAX_INT64 && -MAX_INT64 - 1 <= u.files + op.files
  }

  /** What the hard limits rest on: usage can be read, and no counter wraps. */
  predicate Counts(s: State, op: Op) {
    && !op.userLookupFails && !op.groupLookupFails
    && FitsIn(UsageOf(s, UserKey(op)), op) && FitsIn(UsageOf(s, GroupKey(op)), op)
  }

  ghost predicate AllCount(s: State, ops: seq<Op>)
    decreases |ops|
  {
    ops == [] || (Counts(s, ops[0]) && AllCount(Next(s, ops[0]), ops[1..]))
  }

  lemma AdmittedIsUnder(t: Tables, k: Key, u: Usage, op: Op)
    requires FitsIn(u, op)
    requires op.bytes > 0 || op.files > 0
    requires EnforceFor(t, k, Some(u), op.bytes, op.files, op.now).decision == Admit
    requires Governing(t, k).Some? && Under(t.rows[Governing(t, k).value].limit, u)
    ensures Under(t.rows[Governing(t, k).value].limit, Charge(u, op))
  {
    var dims := Dimensions(t.rows[Governing(t, k).value].limit, u, op.bytes, op.files);
    assert PassesHard(dims[0]) && PassesHard(dims[1]);
  }

  predicate LookupFails(op: Op, k: Key) {
    if k == UserKey(op) then op.userLookupFails else op.groupLookupFails
  }

  lemma ChargedIsUnder(s: State, op: Op, k: Key)
    requires Check(s, op).decision == Admit && (k == UserKey(op) || k == GroupKey(op))
    requires UnderQuota(s, k) && FitsIn(UsageOf(s, k), op) && !LookupFails(op, k)
    ensures UnderQuota(Next(s, op), k)
  {
    CheckKeepsLimits(s, op);
    if op.bytes > 0 || op.files > 0 {
      var t := if k == UserKey(op) then s.tables else UserVerdict(s, op).tables;
      if Governing(t, k).Some? {
        AdmittedIsUnder(t, k, UsageOf(s, k), op);
      }
    }
  }

  lemma StepWithin(s: State, op: Op)
    requires Within(s) && Counts(s, op)
    ensures Within(Next(s, op))
  {
    CheckKeepsLimits(s, op);
    forall k ensures UnderQuota(Next(s, op), k) {
      assert UnderQuota(s, k);
      if Check(s, op).decision == Admit && (k == UserKey(op) || k == GroupKey(op)) {
        ChargedIsUnder(s, op, k);
      } else {
        assert UsageOf(Next(s, op), k) == UsageOf(s, k);
      }
    }
  }

  /** No run takes any user, explicit or default, or any group past a fixed hard
      limit on bytes or files. */
  lemma {:induction false} HardLimitsHold(s: State, ops: seq<Op>)
    requires Within(s) && AllCount(s, ops)
    ensures Within(Run(s, ops))
    decreases |ops|
  {
    if ops != [] {
      StepWithin(s, ops[0]);
      HardLimitsHold(Next(s, ops[0]), ops[1..]);
    }
  }

  /** The sum of usage and deltas stays within the identity's hard limits. */
  ghost predicate SumFits(s: State, op: Op, k: Key) {
    var g := Governing(s.tables, k);
    var u := UsageOf(s, k);
    g.Some? ==>
      var l := s.tables.rows[g.value].limit;
      && (l.hardBytes > 0 ==> u.bytes + op.bytes <= l.hardBytes)
      && (l.hardFiles > 0 ==> u.files + op.files <= l.hardFiles)
  }

  /** An admitted operation leaves each identity it charges within its limit exactly
      when that identity's usage could be read or the sum fits anyway. */
  lemma AdmittedUnderExact(s: State, op: Op, k: Key)
    requires Check(s, op).decision == Admit && (k == UserKey(op) || k == GroupKey(op))
    requires UnderQuota(s, k) && FitsIn(UsageOf(s, k), op)
    ensures UnderQuota(Next(s, op), k) <==> !LookupFails(op, k) || SumFits(s, op, k)
  {
    CheckKeepsLimits(s, op);
    if !LookupFails(op, k) {
      ChargedIsUnder(s, op, k);
    }
  }

  /** Failed lookups never refuse: with one, the other identity decides alone, and
      with both anything is admitted. */
  lemma FailedLookupAdmits(s: State, op: Op)
    ensures op.groupLookupFails && (op.bytes > 0 || op.files > 0) ==> Check(s, op) == UserVerdict(s, op)
    ensures op.userLookupFails && (op.bytes > 0 || op.files > 0) ==>
              Check(s, op) == EnforceFor(s.tables, GroupKey(op), Lookup(s, GroupKey(op), op.groupLookupFails),
                                         op.bytes, op.files, op.now)
    ensures op.userLookupFails && op.groupLookupFails ==> Check(s, op) == Verdict(s.tables, Admit)
  {
  }

  // ---- what a timer holds ----

  /** What one operation is to one timer. */
  datatype Touch = Untouched | Relief | Breach(at: Time)

  function TouchOn(l: Limit, usage: Option<Usage>, op: Op): Touch {
    if usage.None? then Untouched
    else
      var dims := Dimensions(l, usage.value, op.bytes, op.files);
      if !AllPassHard(dims) then Untouched
      else if !SomeCrossesSoft(dims) then Relief
      else if l.graceSeconds <= 0 then Untouched
      else Breach(op.now)
  }

  /** The touch on `timer` by an operation against identity `k`. */
  function TouchFor(t: Tables, k: Key, usage: Option<Usage>, op: Op, timer: Timer): Touch {
    var g := Governing(t, k);
    if g.Some? && TimerOf(k, g.value) == timer then TouchOn(t.rows[g.value].limit, usage, op) else Untouched
  }

  /** The group's quota is only reached when the user's admits. */
  function TouchOf(s: State, op: Op, timer: Timer): Touch {
    if op.bytes <= 0 && op.files <= 0 then Untouched
    else
      var user := TouchFor(s.tables, UserKey(op), Lookup(s, UserKey(op), op.userLookupFails), op, timer);
      if user != Untouched || UserVerdict(s, op).decision != Admit then user
      else TouchFor(s.tables, GroupKey(op), Lookup(s, GroupKey(op), op.groupLookupFails), op, timer)
  }

  function Touches(s: State, ops: seq<Op>, timer: Timer): (r: seq<Touch>)
    ensures |r| == |ops|
    decreases |ops|
  {
    if ops == [] then [] else [TouchOf(s, ops[0], timer)] + Touches(Next(s, ops[0]), ops[1..], timer)
  }

  /** `i` is the breach that started the timer still running at the end: nothing
      relieved it since, and earlier breaches were relieved before it. */
  ghost predicate Starts(touches: seq<Touch>, i: nat) {
    && i < |touches| && touches[i].Breach?
    && (forall j :: i <= j < |touches| ==> touches[j] != Relief)
    && (forall j :: 0 <= j < i && touches[j].Breach? ==> exists m :: j < m < i && touches[m] == Relief)
  }

  function AfterTouch(timer: Option<Time>, touch: Touch): Option<Time> {
    match touch
    case Untouched => timer
    case Relief => None
    case Breach(at) => if timer.None? then Some(at) else timer
  }

  lemma ReadWrite(t: Tables, timer: Timer, v: Option<Time>, other: Timer)
    requires timer.RowTimer? ==> timer.key in t.rows
    ensures Read(Write(t, timer, v), other) == if other == timer then v else Read(t, other)
  {
  }

  lemma EnforceTimer(t: Tables, k: Key, usage: Option<Usage>, op: Op, timer: Timer)
    ensures Read(EnforceFor(t, k, usage, op.bytes, op.files, op.now).tables, timer)
              == AfterTouch(Read(t, timer), TouchFor(t, k, usage, op, timer))
  {
    var g := Governing(t, k);
    if g.Some? {
      ReadWrite(t, TimerOf(k, g.value), None, timer);
      ReadWrite(t, TimerOf(k, g.value), Some(op.now), timer);
    }
  }

  lemma TimersApart(s: State, op: Op, timer: Timer, t: Tables)
    requires TouchFor(s.tables, UserKey(op), Lookup(s, UserKey(op), op.userLookupFails), op, timer) != Untouched
    ensures TouchFor(t, GroupKey(op), Lookup(s, GroupKey(op), op.groupLookupFails), op, timer) == Untouched
  {
  }

  lemma StepTimer(s: State, op: Op, timer: Timer)
    ensures Read(Next(s, op).tables, timer) == AfterTouch(Read(s.tables, timer), TouchOf(s, op, timer))
  {
    if op.bytes > 0 || op.files > 0 {
      var v := UserVerdict(s, op);
      var userUsage := Lookup(s, UserKey(op), op.userLookupFails);
      var groupUsage := Lookup(s, GroupKey(op), op.groupLookupFails);
      EnforceTimer(s.tables, UserKey(op), userUsage, op, timer);
      EnforceTimer(v.tables, GroupKey(op), groupUsage, op, timer);
      if TouchFor(s.tables, UserKey(op), userUsage, op, timer) != Untouched {
        TimersApart(s, op, timer, v.tables);
      }
      EnforceKeepsLimits(s.tables, UserKey(op), userUsage, op.bytes, op.files, op.now);
      TouchSameLimits(s.tables, v.tables, GroupKey(op), groupUsage, op, timer);
    }
  }

  lemma TouchSameLimits(t: Tables, u: Tables, k: Key, usage: Option<Usage>, op: Op, timer: Timer)
    requires SameLimits(t, u)
    ensures TouchFor(t, k, usage, op, timer) == TouchFor(u, k, usage, op, timer)
  {
    assert k in t.rows <==> k in u.rows;
    assert DefaultKey(k.share) in t.rows <==> DefaultKey(k.share) in u.rows;
  }

  function TimerAfter(timer: Option<Time>, touches: seq<Touch>): Option<Time> {
    if touches == [] then timer
    else AfterTouch(TimerAfter(timer, touches[..|touches| - 1]), touches[|touches| - 1])
  }

  lemma {:induction false} TimerAfterFirst(timer: Option<Time>, touch: Touch, rest: seq<Touch>)
    ensures TimerAfter(timer, [touch] + rest) == TimerAfter(AfterTouch(timer, touch), rest)
    decreases |rest|
  {
    var all := [touch] + rest;
    if rest == [] {
      assert all[..0] == [];
    } else {
      assert all[..|all| - 1] == [touch] + rest[..|rest| - 1];
      TimerAfterFirst(timer, touch, rest[..|rest| - 1]);
    }
  }

  lemma {:induction false} RunTimer(s: State, ops: seq<Op>, timer: Timer)
    ensures Read(Run(s, ops).tables, timer) == TimerAfter(Read(s.tables, timer), Touches(s, ops, timer))
    decreases |ops|
  {
    if ops != [] {
      StepTimer(s, ops[0], timer);
      RunTimer(Next(s, ops[0]), ops[1..], timer);
      TimerAfterFirst(Read(s.tables, timer), TouchOf(s, ops[0], timer), Touches(Next(s, ops[0]), ops[1..], timer));
    }
  }

  /** A timer that starts stopped runs exactly from the first breach not yet
      relieved. */
  lemma {:induction false} TimerIsFirstBreach(touches: seq<Touch>)
    ensures TimerAfter(None, touches).Some? ==>
              exists i: nat :: Starts(touches, i) && TimerAfter(None, touches) == Some(touches[i].at)
    ensures TimerAfter(None, touches).None? ==>
              forall i :: 0 <= i < |touches| && touches[i].Breach? ==>
                exists m :: i < m < |touches| && touches[m] == Relief
    decreases |touches|
  {
    if touches != [] {
      var front, last := touches[..|touches| - 1], touches[|touches| - 1];
      TimerIsFirstBreach(front);
      if TimerAfter(None, front).Some? {
        var i: nat :| Starts(front, i) && TimerAfter(None, front) == Some(front[i].at);
        if last != Relief {
          StartsGrows(front, last, i);
          assert front + [last] == touches;
        } else {
          assert touches[|touches| - 1] == Relief;
        }
      } else {
        StoppedGrows(touches);
      }
    }
  }

  lemma StartsGrows(front: seq<Touch>, last: Touch, i: nat)
    requires Starts(front, i) && last != Relief
    ensures Starts(front + [last], i) && (front + [last])[i] == front[i]
  {
    var all := front + [last];
    forall j | 0 <= j < i && all[j].Breach? ensures exists m :: j < m < i && all[m] == Relief {
      var m :| j < m < i && front[m] == Relief;
      assert all[m] == Relief;
    }
  }

  lemma StoppedGrows(touches: seq<Touch>)
    requires touches != []
    requires var front := touches[..|touches| - 1];
             forall i :: 0 <= i < |front| && front[i].Breach? ==> exists m :: i < m < |front| && front[m] == Relief
    ensures touches[|touches| - 1].Breach? ==> Starts(touches, |touches| - 1)
    ensures !touches[|touches| - 1].Breach? ==>
              forall i :: 0 <= i < |touches| && touches[i].Breach? ==>
                exists m :: i < m < |touches| && touches[m] == Relief
  {
    var front := touches[..|touches| - 1];
    forall i | 0 <= i < |front| && touches[i].Breach?
      ensures exists m :: i < m < |front| && touches[m] == Relief
    {
      assert front[i].Breach?;
      var m :| i < m < |front| && front[m] == Relief;
      assert touches[m] == Relief;
    }
  }

  /** At most one breach can be the one that started the timer. */
  lemma StartIsUnique(touches: seq<Touch>, i: nat, j: nat)
    requires Starts(touches, i) && Starts(touches, j)
    ensures i == j
  {
  }

  /** The breach that started the running timer came before the given time. */
  ghost predicate RunningSince(touches: seq<Touch>, before: Time) {
    exists i: nat :: Starts(touches, i) && touches[i].at < before
  }

  /** After any run from a stopped timer, an operation within its hard limits is
      refused for grace exactly when it crosses a soft threshold and the breach
      that started the running timer is more than the grace period old. */
  lemma GraceDenialExact(s: State, ops: seq<Op>, op: Op, k: Key)
    requires Governing(s.tables, k).Some?
    requires Read(s.tables, TimerOf(k, Governing(s.tables, k).value)) == None
    ensures var row := Governing(s.tables, k).value;
            var l := s.tables.rows[row].limit;
            var touches := Touches(s, ops, TimerOf(k, row));
            var t := Run(s, ops);
            EnforceFor(t.tables, k, Some(UsageOf(t, k)), op.bytes, op.files, op.now).decision == GraceExpired <==>
            TouchOn(l, Some(UsageOf(t, k)), op).Breach? && RunningSince(touches, op.now - l.graceSeconds * SECOND)
  {
    var row := Governing(s.tables, k).value;
    var touches := Touches(s, ops, TimerOf(k, row));
    RunKeepsLimits(s, ops);
    RunTimer(s, ops, TimerOf(k, row));
    TimerIsFirstBreach(touches);
    StartMeansRunning(touches);
  }

  /** Identity `k` is refused for grace after the run: the operation crosses a soft
      threshold, and the breach that started the running timer is too old. */
  ghost predicate Overdue(s: State, ops: seq<Op>, op: Op, k: Key) {
    var g := Governing(s.tables, k);
    g.Some? && !LookupFails(op, k) &&
    var l := s.tables.rows[g.value].limit;
    var touches := Touches(s, ops, TimerOf(k, g.value));
    TouchOn(l, Some(UsageOf(Run(s, ops), k)), op).Breach? && RunningSince(touches, op.now - l.graceSeconds * SECOND)
  }

  ghost predicate Stopped(t: Tables, k: Key) {
    Governing(t, k).Some? ==> Read(t, TimerOf(k, Governing(t, k).value)) == None
  }

  lemma IdentityGraceExact(s: State, ops: seq<Op>, op: Op, k: Key)
    requires Stopped(s.tables, k)
    ensures var t := Run(s, ops);
            var usage := Lookup(t, k, LookupFails(op, k));
            EnforceFor(t.tables, k, usage, op.bytes, op.files, op.now).decision == GraceExpired
            <==> Overdue(s, ops, op, k)
  {
    RunKeepsLimits(s, ops);
    if Governing(s.tables, k).Some? {
      GraceDenialExact(s, ops, op, k);
    }
  }

  /** The user's enforcement leaves the group's as it was. */
  lemma GroupUnmoved(s: State, op: Op)
    ensures var usage := Lookup(s, GroupKey(op), op.groupLookupFails);
            EnforceFor(UserVerdict(s, op).tables, GroupKey(op), usage, op.bytes, op.files, op.now).decision
            == EnforceFor(s.tables, GroupKey(op), usage, op.bytes, op.files, op.now).decision
  {
    var v := UserVerdict(s, op);
    var g := Governing(s.tables, GroupKey(op));
    var userUsage := Lookup(s, UserKey(op), op.userLookupFails);
    EnforceKeepsLimits(s.tables, UserKey(op), userUsage, op.bytes, op.files, op.now);
    if g.Some? {
      EnforceTimer(s.tables, UserKey(op), userUsage, op, TimerOf(GroupKey(op), g.value));
    }
  }

  /** The whole check refuses for grace exactly when the user is overdue, or the
      user's quota admits and the group is. */
  lemma CheckGraceExact(s: State, ops: seq<Op>, op: Op)
    requires Stopped(s.tables, UserKey(op)) && Stopped(s.tables, GroupKey(op))
    requires op.bytes > 0 || op.files > 0
    ensures var t := Run(s, ops);
            Check(t, op).decision == GraceExpired <==>
            Overdue(s, ops, op, UserKey(op)) ||
            (UserVerdict(t, op).decision == Admit && Overdue(s, ops, op, GroupKey(op)))
  {
    IdentityGraceExact(s, ops, op, UserKey(op));
    IdentityGraceExact(s, ops, op, GroupKey(op));
    GroupUnmoved(Run(s, ops), op);
  }

  lemma {:induction false} StartMeansRunning(touches: seq<Touch>)
    ensures forall i: nat :: Starts(touches, i) ==> TimerAfter(None, touches) == Some(touches[i].at)
  {
    TimerIsFirstBreach(touches);
    forall i: nat | Starts(touches, i) ensures TimerAfter(None, touches) == Some(touches[i].at) {
      if TimerAfter(None, touches).Some? {
        var j: nat :| Starts(touches, j) && TimerAfter(None, touches) == Some(touches[j].at);
        StartIsUnique(touches, i, j);
      }
    }
  }

  lemma {:induction false} RunKeepsLimits(s: State, ops: seq<Op>)
    ensures SameLimits(s.tables, Run(s, ops).tables)
    decreases |ops|
  {
    if ops != [] {
      CheckKeepsLimits(s, ops[0]);
      RunKeepsLimits(Next(s, ops[0]), ops[1..]);
    }
  }

  // ---- users under the default quota do not share a timer ----

  lemma {:induction false} UsersIsolated(s: State, ops: seq<Op>, k: Key)
    requires forall i :: 0 <= i < |ops| ==> UserKey(ops[i]) != k
    ensures Read(Run(s, ops).tables, UserTimer(k)) == Read(s.tables, UserTimer(k))
    decreases |ops|
  {
    if ops != [] {
      assert UserKey(ops[0]) != k;
      StepTimer(s, ops[0], UserTimer(k));
      UsersIsolated(Next(s, ops[0]), ops[1..], k);
    }
  }

  /** So no operation of others changes what a quota decides about a user or group,
      for any usage, growth and time: users under the default quota included. */
  lemma IdentityIndependent(s: State, ops: seq<Op>, k: Key, usage: Option<Usage>, bytes: Int64, files: Int64, now: Time)
    requires forall i :: 0 <= i < |ops| ==> UserKey(ops[i]) != k && GroupKey(ops[i]) != k
    ensures EnforceFor(Run(s, ops).tables, k, usage, bytes, files, now).decision
            == EnforceFor(s.tables, k, usage, bytes, files, now).decision
  {
    RunKeepsLimits(s, ops);
    var g := Governing(s.tables, k);
    assert Governing(Run(s, ops).tables, k) == g by {
      assert k in s.tables.rows <==> k in Run(s, ops).tables.rows;
      assert DefaultKey(k.share) in s.tables.rows <==> DefaultKey(k.share) in Run(s, ops).tables.rows;
    }
    if g.Some? {
      OthersLeaveTimer(s, ops, k, g.value);
    }
  }

  lemma {:induction false} OthersLeaveTimer(s: State, ops: seq<Op>, k: Key, rowKey: Key)
    requires Governing(s.tables, k) == Some(rowKey)
    requires forall i :: 0 <= i < |ops| ==> UserKey(ops[i]) != k && GroupKey(ops[i]) != k
    ensures Read(Run(s, ops).tables, TimerOf(k, rowKey)) == Read(s.tables, TimerOf(k, rowKey))
    decreases |ops|
  {
    if ops != [] {
      assert UserKey(ops[0]) != k && GroupKey(ops[0]) != k;
      OtherIsUntouched(s, ops[0], k, rowKey);
      StepTimer(s, ops[0], TimerOf(k, rowKey));
      CheckKeepsLimits(s, ops[0]);
      assert k in s.tables.rows <==> k in Next(s, ops[0]).tables.rows;
      assert DefaultKey(k.share) in s.tables.rows <==> DefaultKey(k.share) in Next(s, ops[0]).tables.rows;
      OthersLeaveTimer(Next(s, ops[0]), ops[1..], k, rowKey);
    }
  }

  lemma OtherIsUntouched(s: State, op: Op, k: Key, rowKey: Key)
    requires Governing(s.tables, k) == Some(rowKey) && UserKey(op) != k && GroupKey(op) != k
    ensures TouchOf(s, op, TimerOf(k, rowKey)) == Untouched
  {
  }

  // ---- one timer for both axes ----

  predicate StaysUnder(used: Int64, delta: Int64, soft: Int64, hard: Int64) {
    (hard <= 0 || used + delta <= hard) && (soft <= 0 || used + delta <= soft)
  }

  /** With usage over its soft threshold on one axis, an operation stops the timer
      exactly when it does not grow that axis and the other stays under its limits. */
  lemma OneAxisRelievesBoth(l: Limit, u: Usage, op: Op)
    requires FitsIn(u, op) && (op.bytes > 0 || op.files > 0)
    ensures 0 < l.softBytes < u.bytes ==>
              (TouchOn(l, Some(u), op) == Relief <==>
               op.bytes <= 0 && StaysUnder(u.files, op.files, l.softFiles, l.hardFiles))
    ensures 0 < l.softFiles < u.files ==>
              (TouchOn(l, Some(u), op) == Relief <==>
               op.files <= 0 && StaysUnder(u.bytes, op.bytes, l.softBytes, l.hardBytes))
  {
    var dims := Dimensions(l, u, op.bytes, op.files);
    assert AllPassHard(dims) <==> PassesHard(dims[0]) && PassesHard(dims[1]);
    assert SomeCrossesSoft(dims) <==> CrossesSoft(dims[0]) || CrossesSoft(dims[1]);
  }

  predicate OverSoft(l: Limit, u: Usage) {
    0 < l.softBytes < u.bytes || 0 < l.softFiles < u.files
  }

  /** The check comes to the identity's quota, and can read its usage. */
  predicate Reaches(s: State, op: Op, k: Key) {
    && (op.bytes > 0 || op.files > 0) && !LookupFails(op, k)
    && (k == UserKey(op) || (k == GroupKey(op) && UserVerdict(s, op).decision == Admit))
  }

  lemma ReachesTimer(s: State, op: Op, k: Key)
    requires Reaches(s, op, k) && Governing(s.tables, k).Some?
    ensures var g := Governing(s.tables, k).value;
            TouchOf(s, op, TimerOf(k, g)) == TouchOn(s.tables.rows[g].limit, Some(UsageOf(s, k)), op)
  {
  }

  /** So a timer can be reset while usage stays over: after a relieving operation it
      is stopped, the next breach is admitted and starts a whole new grace period,
      even where without the relief it would have been refused. */
  lemma GraceRestarts(s: State, op: Op, later: Op, k: Key, start: Time)
    requires Reaches(s, op, k) && Reaches(Next(s, op), later, k) && Governing(s.tables, k).Some?
    requires var g := Governing(s.tables, k).value;
             var l, u := s.tables.rows[g].limit, UsageOf(s, k);
             && Read(s.tables, TimerOf(k, g)) == Some(start) && later.now > start + l.graceSeconds * SECOND
             && TouchOn(l, Some(u), op) == Relief && OverSoft(l, u) && OverSoft(l, Charge(u, op))
             && TouchOn(l, Some(u), later).Breach? && TouchOn(l, Some(UsageOf(Next(s, op), k)), later).Breach?
    ensures var g := Governing(s.tables, k).value;
            var l, m := s.tables.rows[g].limit, Next(s, op);
            && EnforceFor(s.tables, k, Some(UsageOf(s, k)), later.bytes, later.files, later.now).decision
               == GraceExpired
            && Read(m.tables, TimerOf(k, g)) == None && OverSoft(l, UsageOf(m, k))
            && EnforceFor(m.tables, k, Some(UsageOf(m, k)), later.bytes, later.files, later.now).decision == Admit
            && Read(Next(m, later).tables, TimerOf(k, g)) == Some(later.now)
  {
    var g := Governing(s.tables, k).value;
    var m := Next(s, op);
    CheckKeepsLimits(s, op);
    ReachesTimer(s, op, k);
    ReachesTimer(m, later, k);
    StepTimer(s, op, TimerOf(k, g));
    StepTimer(m, later, TimerOf(k, g));
  }

  /** Ten seconds are ten thousand million nanoseconds: at the end of them the grace
      still holds, one nanosecond later it does not. */
  lemma GraceBoundary(share: string, start: Time)
    ensures var k := Key(share, User, 1);
            var t := Tables(map[k := Row(Limit(0, 100, 0, 0, 10), Some(start))], map[], map[k := Some(start)], map[]);
            var u := Some(Usage(150, 1));
            && EnforceFor(t, k, u, 1, 0, start + 10000000000).decision == Admit
            && EnforceFor(t, k, u, 1, 0, start + 10000000001).decision == GraceExpired
  {
    var k := Key(share, User, 1);
    var l := Limit(0, 100, 0, 0, 10);
    var t := Tables(map[k := Row(l, Some(start))], map[], map[k := Some(start)], map[]);
    EnforceExactly(t, RowTimer(k), l, Usage(150, 1), Op(share, 1, 1, 1, 0, start + 10000000000, false, false));
    EnforceExactly(t, RowTimer(k), l, Usage(150, 1), Op(share, 1, 1, 1, 0, start + 10000000001, false, false));
  }

  /** For instance: 150 bytes against a soft 100 with ten seconds of grace, long over.
      A create is admitted and stops the timer; the write after it is admitted too. */
  lemma GraceCanBeReset(share: string)
    ensures var k := Key(share, User, 1);
            var s := State(Tables(map[k := Row(Limit(0, 100, 0, 0, 10), Some(0))], map[], map[k := Some(0)], map[]),
                           map[k := Usage(150, 1)]);
            var create := Op(share, 1, 1, 0, 1, 60 * SECOND, false, false);
            var write := Op(share, 1, 1, 1, 0, 61 * SECOND, false, false);
            && Check(s, write).decision == GraceExpired
            && Check(s, create).decision == Admit && Check(Next(s, create), write).decision == Admit
            && Read(Next(Next(s, create), write).tables, RowTimer(k)) == Some(61 * SECOND)
  {
    var k := Key(share, User, 1);
    var l := Limit(0, 100, 0, 0, 10);
    var s := State(Tables(map[k := Row(l, Some(0))], map[], map[k := Some(0)], map[]), map[k := Usage(150, 1)]);
    var create := Op(share, 1, 1, 0, 1, 60 * SECOND, false, false);
    var write := Op(share, 1, 1, 1, 0, 61 * SECOND, false, false);
    OneAxisRelievesBoth(l, Usage(150, 1), create);
    OneBreach(l, Usage(150, 1), write);
    OneBreach(l, Usage(150, 2), write);
    GraceRestarts(s, create, write, k, 0);
  }

  lemma OneBreach(l: Limit, u: Usage, op: Op)
    requires l == Limit(0, 100, 0, 0, 10) && u.bytes == 150 && op.bytes == 1 && op.files == 0
    ensures TouchOn(l, Some(u), op) == Breach(op.now)
  {
    var dims := Dimensions(l, u, op.bytes, op.files);
    assert AllPassHard(dims) && CrossesSoft(dims[0]);
  }

  // ---- persisted timers ----

  ghost predicate Mirrored(t: Tables) {
    && t.savedDyn == t.dynGrace
    && (forall k :: k in t.rows ==> k in t.savedRows && t.savedRows[k] == t.rows[k].graceStartedAt)
  }

  lemma {:induction false} PersistedTimersAgree(s: State, ops: seq<Op>)
    requires Mirrored(s.tables)
    ensures Mirrored(Run(s, ops).tables)
    decreases |ops|
  {
    if ops != [] {
      CheckMirrored(s, ops[0]);
      PersistedTimersAgree(Next(s, ops[0]), ops[1..]);
    }
  }

  lemma EnforceMirrored(t: Tables, k: Key, usage: Option<Usage>, bytes: Int64, files: Int64, now: Time)
    requires Mirrored(t)
    ensures Mirrored(EnforceFor(t, k, usage, bytes, files, now).tables)
  {
  }

  lemma CheckMirrored(s: State, op: Op)
    requires Mirrored(s.tables)
    ensures Mirrored(Next(s, op).tables)
  {
    EnforceMirrored(s.tables, UserKey(op), Lookup(s, UserKey(op), op.userLookupFails), op.bytes, op.files, op.now);
    EnforceMirrored(UserVerdict(s, op).tables, GroupKey(op), Lookup(s, GroupKey(op), op.groupLookupFails),
                    op.bytes, op.files, op.now);
  }
}
