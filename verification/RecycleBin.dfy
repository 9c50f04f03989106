/** The bin as values: which rows carry DeletedAt, which bin entries recycling
    placed, and when every placed entry names a row that carries it. */
module RecycleBin {

  import opened Common
  import opened Namespace
  import opened NamespaceTheorems
  import NamespaceTree

  /** `stamped` is the rows with DeletedAt; `placed` is the history of bin entries
      that a recycle made and that still name the node they were made for. */
  datatype Trash = Trash(ns: State, stamped: set<Handle>, placed: set<Entry>)

  /** Nothing but the moved entries changed place, and no row was dropped. */
  ghost predicate Kept(s: State, t: State, moved: set<Entry>) {
    && t.root == s.root
    && (forall h :: h in s.kinds ==> h in t.kinds && t.kinds[h] == s.kinds[h])
    && (forall e :: e in s.children && e !in moved ==> e in t.children && t.children[e] == s.children[e])
  }

  /** A row write puts back the stamp of the row as it was read. */
  function WithStamp(marks: set<Handle>, h: Handle, on: bool): set<Handle> {
    if on then marks + {h} else marks - {h}
  }

  /** How a recycle ends: before the stamp, at the move with the stamp rolled back
      or not, or in the bin. */
  datatype Ending = Refused | RolledBack | RollbackRefused | Moved

  datatype Event =
    | Recycle(at: Entry, grown: State, bin: Entry, ending: Ending)
    | Replace(from: Entry, to: Entry, grown: State, bin: Entry, ending: Ending, commits: bool)
    | Plain(call: Call)

  /** `grown` is the namespace once the bin path exists, as far as it was made, and
      `bin` the name found free in it. */
  ghost predicate CanRecycle(s: State, at: Entry, grown: State, bin: Entry, ending: Ending) {
    && Kept(s, grown, {})
    && (!ending.Refused? ==> at in s.children && s.children[at] in s.kinds && bin !in grown.children)
    && (ending.Moved? ==> CanRename(grown, at, bin))
  }

  ghost function AfterRecycle(s: Trash, at: Entry, grown: State, bin: Entry, ending: Ending): Trash
    requires CanRecycle(s.ns, at, grown, bin, ending)
  {
    match ending
    case Refused => s.(ns := grown)
    case RolledBack => s.(ns := grown, stamped := s.stamped - {s.ns.children[at]})
    case RollbackRefused => s.(ns := grown, stamped := s.stamped + {s.ns.children[at]})
    case Moved =>
      Trash(RenameState(grown, at, bin), s.stamped + {s.ns.children[at]}, s.placed - {at} + {bin})
  }

  ghost predicate Legal(s: Trash, ev: Event) {
    match ev
    case Recycle(at, grown, bin, ending) => CanRecycle(s.ns, at, grown, bin, ending)
    case Replace(from, to, grown, bin, ending, _) =>
      && CanRecycle(s.ns, to, grown, bin, ending) && from != to
      && from in s.ns.children && s.ns.children[from] in s.ns.kinds && !IsDir(s.ns, s.ns.children[from])
      && (to in s.ns.children ==> !IsDir(s.ns, s.ns.children[to]))
      && (ending.Moved? ==>
            var m := RenameState(grown, to, bin);
            CanRename(m, from, to) && to !in m.children)
    case Plain(c) => FreshHandle(s.ns, c)
  }

  /** The placed entries that a call leaves in place. */
  ghost function StillPlaced(s: Trash, t: State): set<Entry> {
    set e | e in s.placed && e in s.ns.children && e in t.children
            && t.children[e] == s.ns.children[e] && t.children[e] in t.kinds
  }

  ghost function Next(s: Trash, ev: Event): Trash {
    if !Legal(s, ev) then s
    else match ev
      case Recycle(at, grown, bin, ending) => AfterRecycle(s, at, grown, bin, ending)
      case Replace(from, to, grown, bin, ending, commits) =>
        var m := AfterRecycle(s, to, grown, bin, ending);
        if !ending.Moved? || !commits then m
        else
          // the row of `from` was read before the recycle and is written after it
          var src := s.ns.children[from];
          Trash(RenameState(m.ns, from, to), WithStamp(m.stamped, src, src in s.stamped), m.placed - {from, to})
      case Plain(c) =>
        if !Succeeds(s.ns, c) then s
        else
          var t := Namespace.Next(s.ns, c);
          Trash(t, if c.op.Create? then s.stamped - {c.op.newId} else s.stamped, StillPlaced(s, t))
  }

  /** What a recycle leaves: the victim stamped unless it never came that far or was
      rolled back, no other stamp touched, and one entry moved if it ended in the bin. */
  lemma RecycleEffect(s: Trash, at: Entry, grown: State, bin: Entry, ending: Ending)
    requires CanRecycle(s.ns, at, grown, bin, ending)
    ensures var t := Next(s, Recycle(at, grown, bin, ending));
            && (!ending.Moved? ==> t.ns == grown && t.placed == s.placed)
            && (ending.Refused? ==> t.stamped == s.stamped)
            && (!ending.Refused? ==>
                  forall h :: h in t.stamped <==>
                    if h == s.ns.children[at] then ending.Moved? || ending.RollbackRefused? else h in s.stamped)
            && (ending.Moved? ==>
                  && (forall e :: e in t.ns.children <==> e == bin || (e in grown.children && e != at))
                  && (forall e :: e in t.ns.children ==>
                        t.ns.children[e] == if e == bin then s.ns.children[at] else grown.children[e])
                  && t.ns.kinds == grown.kinds && t.placed == s.placed - {at} + {bin})
  {
  }

  ghost function Run(s: Trash, events: seq<Event>): Trash
    decreases |events|
  {
    if events == [] then s else Run(Next(s, events[0]), events[1..])
  }

  // ---- every bin entry carries the stamp ----

  ghost predicate Live(s: Trash) {
    forall e :: e in s.placed ==> e in s.ns.children && s.ns.children[e] in s.ns.kinds
  }

  ghost predicate AllStamped(s: Trash) {
    forall e :: e in s.placed && e in s.ns.children ==> s.ns.children[e] in s.stamped
  }

  /** A placed bin entry names the node. */
  ghost predicate InBin(s: Trash, h: Handle) {
    exists e :: e in s.placed && e in s.ns.children && s.ns.children[e] == h
  }

  /** The events after which a placed entry names an unstamped row: a rollback that
      clears the stamp of a node with another link in the bin, and a rename over
      another link of the renamed node. */
  ghost predicate Unstamps(s: Trash, ev: Event) {
    Legal(s, ev) &&
    match ev
    case Recycle(at, _, _, ending) => ending.RolledBack? && InBin(s, s.ns.children[at])
    case Replace(from, to, _, _, ending, commits) =>
      || (ending.RolledBack? && InBin(s, s.ns.children[to]))
      || (ending.Moved? && commits && s.ns.children[from] == s.ns.children[to] && s.ns.children[to] !in s.stamped)
    case Plain(_) => false
  }

  lemma RecycleLive(s: Trash, at: Entry, grown: State, bin: Entry, ending: Ending)
    requires Live(s) && CanRecycle(s.ns, at, grown, bin, ending)
    ensures Live(AfterRecycle(s, at, grown, bin, ending))
  {
  }

  lemma RecycleStamped(s: Trash, at: Entry, grown: State, bin: Entry, ending: Ending)
    requires Live(s) && AllStamped(s) && CanRecycle(s.ns, at, grown, bin, ending)
    ensures AllStamped(AfterRecycle(s, at, grown, bin, ending)) <==>
            !(ending.RolledBack? && InBin(s, s.ns.children[at]))
  {
    var t := AfterRecycle(s, at, grown, bin, ending);
    if ending.RolledBack? && InBin(s, s.ns.children[at]) {
      var e :| e in s.placed && e in s.ns.children && s.ns.children[e] == s.ns.children[at];
      assert e in t.placed && t.ns.children[e] !in t.stamped;
    }
  }

  /** A rename that lands on a free name moves one entry and touches no row. */
  lemma LandOnFree(m: State, from: Entry, to: Entry, e: Entry)
    requires CanRename(m, from, to) && to !in m.children && e !in {from, to}
    ensures var t := RenameState(m, from, to);
            && t.kinds == m.kinds && to in t.children && t.children[to] == m.children[from]
            && (e in t.children <==> e in m.children) && (e in m.children ==> t.children[e] == m.children[e])
  {
  }

  /** The stamp left on the overwritten node by a committed recycling rename. */
  lemma ReplaceStamps(s: Trash, from: Entry, to: Entry, grown: State, bin: Entry)
    requires Legal(s, Replace(from, to, grown, bin, Moved, true))
    ensures var t := Next(s, Replace(from, to, grown, bin, Moved, true));
            var src, victim := s.ns.children[from], s.ns.children[to];
            && t.stamped == (if src == victim then s.stamped else s.stamped + {victim})
            && bin in t.ns.children && t.ns.children[bin] == victim && bin in t.placed
  {
    LandOnFree(grown, to, bin, from);
    LandOnFree(RenameState(grown, to, bin), from, to, bin);
  }

  lemma ReplaceOthers(s: Trash, from: Entry, to: Entry, grown: State, bin: Entry, e: Entry)
    requires Live(s) && Legal(s, Replace(from, to, grown, bin, Moved, true))
    requires e in s.placed && e !in {from, to}
    ensures var t := Next(s, Replace(from, to, grown, bin, Moved, true));
            e in t.placed && e in t.ns.children
            && t.ns.children[e] == s.ns.children[e] && t.ns.children[e] in t.ns.kinds
  {
    assert e != bin;
    LandOnFree(grown, to, bin, e);
    LandOnFree(RenameState(grown, to, bin), from, to, e);
  }

  lemma ReplaceStep(s: Trash, from: Entry, to: Entry, grown: State, bin: Entry)
    requires Live(s) && AllStamped(s) && Legal(s, Replace(from, to, grown, bin, Moved, true))
    ensures var t := Next(s, Replace(from, to, grown, bin, Moved, true));
            Live(t) && (AllStamped(t) <==> s.ns.children[from] != s.ns.children[to] || s.ns.children[to] in s.stamped)
  {
    var t := Next(s, Replace(from, to, grown, bin, Moved, true));
    ReplaceStamps(s, from, to, grown, bin);
    LandOnFree(RenameState(grown, to, bin), from, to, bin);
    forall e | e in t.placed && e != bin
      ensures e in s.placed && e in t.ns.children
      ensures t.ns.children[e] == s.ns.children[e] && t.ns.children[e] in t.ns.kinds
    {
      ReplaceOthers(s, from, to, grown, bin, e);
    }
  }

  lemma PlainStep(s: Trash, c: Call)
    requires Live(s) && AllStamped(s) && FreshHandle(s.ns, c)
    ensures Live(Next(s, Plain(c))) && AllStamped(Next(s, Plain(c)))
  {
  }

  /** One call leaves every placed bin entry stamped exactly when it is neither of
      the two. */
  lemma StepStamped(s: Trash, ev: Event)
    requires Live(s) && AllStamped(s)
    ensures Live(Next(s, ev)) && (AllStamped(Next(s, ev)) <==> !Unstamps(s, ev))
  {
    if Legal(s, ev) {
      match ev
      case Recycle(at, grown, bin, ending) =>
        RecycleLive(s, at, grown, bin, ending);
        RecycleStamped(s, at, grown, bin, ending);
      case Replace(from, to, grown, bin, ending, commits) =>
        if ending.Moved? && commits {
          ReplaceStep(s, from, to, grown, bin);
        } else {
          RecycleLive(s, to, grown, bin, ending);
          RecycleStamped(s, to, grown, bin, ending);
        }
      case Plain(c) => PlainStep(s, c);
    }
  }

  ghost predicate RunKeepsStamps(s: Trash, events: seq<Event>)
    decreases |events|
  {
    events != [] ==> !Unstamps(s, events[0]) && RunKeepsStamps(Next(s, events[0]), events[1..])
  }

  /** Over every run of recycles, recycling renames, their failures and any other
      calls: every entry that recycling placed in the bin and that is still there
      carries DeletedAt. */
  lemma {:induction false} RunStamped(s: Trash, events: seq<Event>)
    requires Live(s) && AllStamped(s) && RunKeepsStamps(s, events)
    ensures Live(Run(s, events)) && AllStamped(Run(s, events))
    decreases |events|
  {
    if events != [] {
      StepStamped(s, events[0]);
      RunStamped(Next(s, events[0]), events[1..]);
    }
  }

  // ---- the tree ----

  /** A recycle moves a directory below itself, or another call does, or deletes one
      with subdirectories. */
  ghost predicate Uproots(s: Trash, ev: Event) {
    Legal(s, ev) &&
    match ev
    case Recycle(at, grown, bin, ending) => ending.Moved? && NamespaceTree.Nests(grown, at, bin)
    case Replace(_, _, _, _, _, _) => false
    case Plain(c) => NamespaceTree.NestingCall(s.ns, c) || !NamespaceTree.TreeSafe(s.ns, c)
  }

  lemma RecycleTree(grown: State, at: Entry, bin: Entry)
    requires NamespaceTree.Tree(grown) && CanRename(grown, at, bin) && bin !in grown.children
    ensures NamespaceTree.Tree(RenameState(grown, at, bin)) <==> !NamespaceTree.Nests(grown, at, bin)
  {
    NamespaceTree.RenameTree(grown, at, bin);
  }

  /** Both renames of a recycling rename move a file to a free name. */
  ghost predicate MovesFiles(grown: State, from: Entry, to: Entry, bin: Entry) {
    && CanRename(grown, to, bin) && bin !in grown.children && from != to
    && to in grown.children && !IsDir(grown, grown.children[to])
    && from in grown.children && !IsDir(grown, grown.children[from])
    && var m := RenameState(grown, to, bin);
    CanRename(m, from, to) && to !in m.children
  }

  lemma ReplaceMovesFiles(s: Trash, ev: Event)
    requires ev.Replace? && Legal(s, ev) && ev.ending.Moved?
    ensures MovesFiles(ev.grown, ev.from, ev.to, ev.bin)
    ensures var m := RenameState(ev.grown, ev.to, ev.bin);
            Next(s, ev).ns == if ev.commits then RenameState(m, ev.from, ev.to) else m
  {
  }

  lemma ReplaceTree(grown: State, from: Entry, to: Entry, bin: Entry)
    requires NamespaceTree.Tree(grown) && MovesFiles(grown, from, to, bin)
    ensures var m := RenameState(grown, to, bin);
            NamespaceTree.Tree(m) && NamespaceTree.Tree(RenameState(m, from, to))
  {
    RecycleTree(grown, to, bin);
    LandOnFree(grown, to, bin, from);
    RecycleTree(RenameState(grown, to, bin), from, to);
  }

  lemma ReplaceStepTree(s: Trash, ev: Event)
    requires ev.Replace? && Legal(s, ev) && NamespaceTree.Tree(ev.grown)
    ensures NamespaceTree.Tree(Next(s, ev).ns)
  {
    if ev.ending.Moved? {
      ReplaceMovesFiles(s, ev);
      ReplaceTree(ev.grown, ev.from, ev.to, ev.bin);
    }
  }

  lemma RecycleStepTree(s: Trash, ev: Event)
    requires ev.Recycle? && Legal(s, ev) && NamespaceTree.Tree(ev.grown)
    ensures NamespaceTree.Tree(Next(s, ev).ns) <==> !(ev.ending.Moved? && NamespaceTree.Nests(ev.grown, ev.at, ev.bin))
  {
    if ev.ending.Moved? {
      RecycleTree(ev.grown, ev.at, ev.bin);
    }
  }

  lemma PlainStepTree(s: Trash, c: Call)
    requires NamespaceTree.Tree(s.ns) && FreshHandle(s.ns, c)
    ensures NamespaceTree.Tree(Next(s, Plain(c)).ns) <==>
            !NamespaceTree.NestingCall(s.ns, c) && NamespaceTree.TreeSafe(s.ns, c)
  {
    NamespaceTree.StepKeepsTree(s.ns, c);
  }

  /** The namespace stays a tree exactly when the bin path a directory is moved to is
      not below that directory; recycling renames never harm it. */
  lemma StepTree(s: Trash, ev: Event)
    requires NamespaceTree.Tree(s.ns) && (ev.Plain? || NamespaceTree.Tree(ev.grown))
    ensures NamespaceTree.Tree(Next(s, ev).ns) <==> !Uproots(s, ev)
  {
    if Legal(s, ev) {
      match ev
      case Recycle(_, _, _, _) => RecycleStepTree(s, ev);
      case Replace(_, _, _, _, _, _) => ReplaceStepTree(s, ev);
      case Plain(c) => PlainStepTree(s, c);
    }
  }

  // ---- the condition before the call ----

  /** Whatever becomes of a recycle, it keeps the bin stamped exactly when its
      victim has no other link in the bin. */
  lemma RecycleSafe(s: Trash, at: Entry, grown: State, bin: Entry)
    requires Live(s) && AllStamped(s) && CanRecycle(s.ns, at, grown, bin, Moved)
    ensures (forall ending :: AllStamped(Next(s, Recycle(at, grown, bin, ending)))) <==> !InBin(s, s.ns.children[at])
  {
    forall ending
      ensures AllStamped(Next(s, Recycle(at, grown, bin, ending))) <==>
              !(ending.RolledBack? && InBin(s, s.ns.children[at]))
    {
      StepStamped(s, Recycle(at, grown, bin, ending));
    }
    assert RolledBack.RolledBack?;
  }

  /** Whatever becomes of a recycling rename, it keeps the bin stamped exactly when
      the overwritten node has no other link in the bin and is not the renamed node
      itself, unless that one is stamped already. */
  lemma ReplaceSafe(s: Trash, from: Entry, to: Entry, grown: State, bin: Entry)
    requires Live(s) && AllStamped(s) && Legal(s, Replace(from, to, grown, bin, Moved, true))
    ensures (forall ending, commits :: AllStamped(Next(s, Replace(from, to, grown, bin, ending, commits)))) <==>
            !InBin(s, s.ns.children[to]) && (s.ns.children[from] != s.ns.children[to] || s.ns.children[to] in s.stamped)
  {
    forall ending, commits
      ensures AllStamped(Next(s, Replace(from, to, grown, bin, ending, commits))) <==>
              !Unstamps(s, Replace(from, to, grown, bin, ending, commits))
    {
      StepStamped(s, Replace(from, to, grown, bin, ending, commits));
    }
    assert Unstamps(s, Replace(from, to, grown, bin, RolledBack, true)) <==> InBin(s, s.ns.children[to]);
    assert Unstamps(s, Replace(from, to, grown, bin, Moved, true)) <==>
           s.ns.children[from] == s.ns.children[to] && s.ns.children[to] !in s.stamped;
  }

  // ---- both failures happen ----

  /** What create a; link a b leaves on a new share, and then the bin beside it. */
  const LINKED := State(0, map[0 := Directory, 1 := NonDirectory], map[Entry(0, "a") := 1, Entry(0, "b") := 1],
                        map[1 := 0], map[0 := 2, 1 := 2])

  const WITH_BIN := State(0, map[0 := Directory, 1 := NonDirectory, 2 := Directory],
                          map[Entry(0, "a") := 1, Entry(0, "b") := 1, Entry(0, "#recycle") := 2],
                          map[1 := 0, 2 := 0], map[0 := 3, 1 := 2, 2 := 2])

  lemma LinkedIsReached()
    ensures var c := Call(Create(0, "a", NonDirectory, 1), NamespaceTree.NO_FAULTS, true);
            var l := Call(Link(0, "b", 1), NamespaceTree.NO_FAULTS, true);
            Namespace.Next(Namespace.Next(NamespaceTree.NewShare(0), c), l) == LINKED
  {
  }

  lemma BinIsMade()
    ensures Namespace.Next(LINKED, Call(Create(0, "#recycle", Directory, 2), NamespaceTree.NO_FAULTS, true)) == WITH_BIN
  {
  }

  lemma BinKeepsLinks()
    ensures Kept(LINKED, WITH_BIN, {})
  {
  }

  /** Renaming a file over another link of itself: the link goes to the bin, and
      the row written back at the end has lost the stamp. */
  lemma RenameOverOwnLink()
    ensures var s := Trash(LINKED, {}, {});
            var ev := Replace(Entry(0, "a"), Entry(0, "b"), WITH_BIN, Entry(2, "b"), Moved, true);
            var t := Next(s, ev);
            Legal(s, ev) && Entry(2, "b") in t.placed && Entry(2, "b") in t.ns.children
            && t.ns.children[Entry(2, "b")] == 1 && 1 !in t.stamped
  {
    var s := Trash(LINKED, {}, {});
    BinKeepsLinks();
    var m := RenameState(WITH_BIN, Entry(0, "b"), Entry(2, "b"));
    LandOnFree(WITH_BIN, Entry(0, "b"), Entry(2, "b"), Entry(0, "a"));
    assert Entry(0, "b") !in m.children;
    assert CanRename(m, Entry(0, "a"), Entry(0, "b"));
    ReplaceStamps(s, Entry(0, "a"), Entry(0, "b"), WITH_BIN, Entry(2, "b"));
  }

  /** Recycling a and then b, where the second move fails: its rollback clears the
      stamp of the node that the first put in the bin. */
  lemma RollbackUnstampsBin()
    ensures var s := Trash(LINKED, {}, {});
            var first := Recycle(Entry(0, "a"), WITH_BIN, Entry(2, "a"), Moved);
            var m := Next(s, first);
            var second := Recycle(Entry(0, "b"), m.ns, Entry(2, "b"), RolledBack);
            var t := Next(m, second);
            && Legal(s, first) && Legal(m, second) && m.stamped == {1}
            && Entry(2, "a") in t.placed && Entry(2, "a") in t.ns.children
            && t.ns.children[Entry(2, "a")] == 1 && 1 !in t.stamped
  {
    BinKeepsLinks();
    LandOnFree(WITH_BIN, Entry(0, "a"), Entry(2, "a"), Entry(0, "b"));
    LandOnFree(WITH_BIN, Entry(0, "a"), Entry(2, "a"), Entry(2, "b"));
  }
}
