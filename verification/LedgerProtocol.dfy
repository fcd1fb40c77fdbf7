/** `record` and `write_ledger` as interleaved steps of any number of writers on one file system. */
module LedgerProtocol {
  import opened Bytes
  import opened Wrappers

  type Writer = nat

  /** Where a writer stands: loading, then the statements of write_ledger, then its finally block. */
  datatype Pc = Start | Loaded | Locked | Read | Writing | Dumped | Compared | Replaced
              | CleanTemp | CloseLock | UnlinkLock | Done | Stuck

  /** A writer's variables: version it loaded, new document, `before`, `temporary is not None`,
      `lock_fd is not None`, and whether an exception is under way. */
  datatype Local = Local(pc: Pc, loaded: nat, doc: Bytes, before: Bytes, temporary: bool, holds: bool, failed: bool)

  /** The directory: ledger file, lock file with its creator, temporary files; and all ledger versions. */
  datatype State = State(ledger: Bytes, lock: Option<Writer>, temps: map<Writer, Bytes>,
                         locals: map<Writer, Local>, history: seq<Bytes>)

  datatype Action = Load | OpenLock | OpenError | ReadBefore | CreateTemp | WriteByte | Sync | Compare | Replace
                  | ClearName | Fail | UnlinkTemp | Close | Unlink | CleanupFault

  /** A step of a writer, or an editor that ignores the lock. */
  datatype Event = By(w: Writer, a: Action) | Edit(bytes: Bytes)

  /** How writer w turns a loaded ledger into its new document. */
  type Update = (Writer, Bytes) -> Bytes

  predicate InBody(pc: Pc) {
    pc in {Locked, Read, Writing, Dumped, Compared, Replaced}
  }

  predicate InCleanup(pc: Pc) {
    pc in {CleanTemp, CloseLock, UnlinkLock}
  }

  predicate Enabled(s: State, e: Event) {
    match e
    case Edit(_) => true
    case By(w, a) =>
      w in s.locals &&
      var l := s.locals[w];
      match a
      case Load => l.pc == Start
      case OpenLock => l.pc == Loaded && s.lock.None?
      case OpenError => l.pc == Loaded
      case ReadBefore => l.pc == Locked
      case CreateTemp => l.pc == Read
      case WriteByte => l.pc == Writing && w in s.temps && |s.temps[w]| < |l.doc|
      case Sync => l.pc == Writing && w in s.temps && |s.temps[w]| == |l.doc|
      case Compare => l.pc == Dumped
      case Replace => l.pc == Compared && w in s.temps
      case ClearName => l.pc == Replaced
      case Fail => InBody(l.pc)
      case UnlinkTemp => l.pc == CleanTemp
      case Close => l.pc == CloseLock
      case Unlink => l.pc == UnlinkLock
      case CleanupFault => InCleanup(l.pc)
  }

  function Move(s: State, w: Writer, l: Local): State {
    s.(locals := s.locals[w := l])
  }

  function Install(s: State, bytes: Bytes): State {
    s.(ledger := bytes, history := s.history + [bytes])
  }

  function Apply(update: Update, s: State, e: Event): State
    requires Enabled(s, e) && s.history != []
  {
    match e
    case Edit(bytes) => Install(s, bytes)
    case By(w, a) =>
      var l := s.locals[w];
      match a
      case Load => Move(s, w, l.(pc := Loaded, loaded := |s.history| - 1, doc := update(w, s.ledger)))
      case OpenLock => Move(s.(lock := Some(w)), w, l.(pc := Locked, holds := true))
      case OpenError => Move(s, w, l.(pc := Done, failed := true))
      case ReadBefore => Move(s, w, l.(pc := Read, before := s.ledger))
      case CreateTemp => Move(s.(temps := s.temps[w := []]), w, l.(pc := Writing, temporary := true))
      case WriteByte => s.(temps := s.temps[w := l.doc[..|s.temps[w]| + 1]])
      case Sync => Move(s, w, l.(pc := Dumped))
      case Compare =>
        if s.ledger == l.before then Move(s, w, l.(pc := Compared)) else Move(s, w, l.(pc := CleanTemp, failed := true))
      case Replace => Move(Install(s, s.temps[w]).(temps := s.temps - {w}), w, l.(pc := Replaced))
      case ClearName => Move(s, w, l.(pc := CleanTemp, temporary := false))
      case Fail => Move(s, w, l.(pc := CleanTemp, failed := true))
      case UnlinkTemp =>
        Move(if l.temporary then s.(temps := s.temps - {w}) else s, w, l.(pc := CloseLock, temporary := false))
      case Close => Move(s, w, l.(pc := UnlinkLock))
      case Unlink => Move(s.(lock := None), w, l.(pc := Done, holds := false))
      case CleanupFault => Move(s, w, l.(pc := Stuck))
  }

  ghost predicate Initial(s: State) {
    && s.lock.None? && s.temps == map[] && s.history == [s.ledger]
    && forall w :: w in s.locals ==> s.locals[w] == Local(Start, 0, [], [], false, false, false)
  }

  // ---- Invariant ---------------------------------------------------------------------------

  /** What holds of one writer in every reachable state. */
  ghost predicate Consistent(update: Update, s: State, w: Writer)
    requires w in s.locals
  {
    var l := s.locals[w];
    && (l.holds <==> InBody(l.pc) || InCleanup(l.pc) || l.pc == Stuck)
    && (l.holds ==> s.lock == Some(w))
    && (w in s.temps ==> l.temporary)
    && (l.temporary ==> l.pc in {Writing, Dumped, Compared, Replaced, CleanTemp, Stuck})
    && (l.pc in {Writing, Dumped, Compared} ==> w in s.temps && s.temps[w] <= l.doc)
    && (l.pc in {Dumped, Compared} ==> s.temps[w] == l.doc)
    && (l.pc == Replaced ==> w !in s.temps)
    && (l.pc != Start ==> l.loaded < |s.history| && l.doc == update(w, s.history[l.loaded]))
  }

  ghost predicate Inv(update: Update, s: State) {
    && s.history != [] && s.history[|s.history| - 1] == s.ledger
    && s.temps.Keys <= s.locals.Keys
    && (s.lock.Some? ==> s.lock.value in s.locals && s.locals[s.lock.value].holds)
    && forall w :: w in s.locals ==> Consistent(update, s, w)
  }

  /** A step keeps its own writer consistent, whatever the others do. */
  lemma ActorConsistent(update: Update, s: State, e: Event)
    requires Enabled(s, e) && e.By? && Consistent(update, s, e.w)
    requires s.history != [] && s.history[|s.history| - 1] == s.ledger
    ensures Consistent(update, Apply(update, s, e), e.w)
  {}

  /** A step of one writer cannot disturb another: lock, temporary file and loaded version are its own. */
  lemma OthersConsistent(update: Update, s: State, e: Event, w: Writer)
    requires Inv(update, s) && Enabled(s, e) && w in s.locals && (e.By? ==> e.w != w)
    ensures w in Apply(update, s, e).locals && Apply(update, s, e).locals[w] == s.locals[w]
    ensures Consistent(update, Apply(update, s, e), w)
  {
    assert Consistent(update, s, w);
    if e.By? { assert Consistent(update, s, e.w); }
  }

  lemma DirectoryStep(update: Update, s: State, e: Event)
    requires Inv(update, s) && Enabled(s, e)
    ensures var next := Apply(update, s, e);
            && next.history != [] && next.history[|next.history| - 1] == next.ledger
            && next.temps.Keys <= next.locals.Keys
            && (next.lock.Some? ==> next.lock.value in next.locals && next.locals[next.lock.value].holds)
  {
    if e.By? { assert Consistent(update, s, e.w); }
  }

  lemma StepInv(update: Update, s: State, e: Event)
    requires Inv(update, s) && Enabled(s, e)
    ensures Inv(update, Apply(update, s, e))
  {
    var next := Apply(update, s, e);
    DirectoryStep(update, s, e);
    if e.By? { assert Consistent(update, s, e.w); ActorConsistent(update, s, e); }
    forall w | w in next.locals ensures Consistent(update, next, w) {
      if !(e.By? && e.w == w) { OthersConsistent(update, s, e, w); }
    }
  }

  // ---- Runs ----------------------------------------------------------------------------------

  ghost predicate Possible(update: Update, s: State, events: seq<Event>)
    requires Inv(update, s)
    decreases |events|
  {
    events == [] ||
    (Enabled(s, events[0]) &&
     (StepInv(update, s, events[0]); Possible(update, Apply(update, s, events[0]), events[1..])))
  }

  ghost function Run(update: Update, s: State, events: seq<Event>): (end: State)
    requires Inv(update, s) && Possible(update, s, events)
    ensures Inv(update, end)
    decreases |events|
  {
    if events == [] then s
    else StepInv(update, s, events[0]); Run(update, Apply(update, s, events[0]), events[1..])
  }

  /** At most one writer is between creating and unlinking the lock. */
  lemma MutualExclusion(update: Update, start: State, events: seq<Event>, v: Writer, w: Writer)
    requires Initial(start) && Possible(update, start, events)
    requires var s := Run(update, start, events);
             v in s.locals && w in s.locals && (InBody(s.locals[v].pc) || InCleanup(s.locals[v].pc))
             && (InBody(s.locals[w].pc) || InCleanup(s.locals[w].pc))
    ensures v == w
  {
    var s := Run(update, start, events);
    assert Consistent(update, s, v) && Consistent(update, s, w);
  }

  /** A finished writer, successful or not, has left no temporary file and no lock; only a fault in
      the cleanup itself keeps them, and then nobody else can enter. */
  lemma CleanExit(update: Update, start: State, events: seq<Event>, w: Writer)
    requires Initial(start) && Possible(update, start, events)
    requires w in Run(update, start, events).locals
    ensures var s := Run(update, start, events);
            && (s.locals[w].pc == Done ==> w !in s.temps && s.lock != Some(w))
            && (s.locals[w].pc == Stuck ==>
                  s.lock == Some(w) && forall v :: v in s.locals && v != w ==> !s.locals[v].holds)
  {
    var s := Run(update, start, events);
    assert Consistent(update, s, w);
    forall v | v in s.locals && v != w && s.locals[w].pc == Stuck ensures !s.locals[v].holds {
      assert Consistent(update, s, v);
    }
  }

  /** Only the creator of the lock unlinks it. */
  lemma UnlinksOwnLock(update: Update, s: State, w: Writer)
    requires Inv(update, s) && Enabled(s, By(w, Unlink))
    ensures s.lock == Some(w)
  {
    assert Consistent(update, s, w);
  }

  /** The ledger changes only when the lock holder replaces it by its complete document, computed
      from the version that writer loaded, or when an outsider edits it. */
  lemma LedgerSteps(update: Update, s: State, e: Event)
    requires Inv(update, s) && Enabled(s, e) && e.By?
    ensures var next := Apply(update, s, e);
            if e.a == Replace then
              && s.lock == Some(e.w) && s.locals[e.w].loaded < |s.history|
              && next.ledger == s.locals[e.w].doc == update(e.w, s.history[s.locals[e.w].loaded])
              && next.history == s.history + [next.ledger]
            else next.ledger == s.ledger && next.history == s.history
  {
    assert Consistent(update, s, e.w);
  }

  lemma {:induction false} HistoryGrows(update: Update, s: State, events: seq<Event>)
    requires Inv(update, s) && Possible(update, s, events)
    ensures s.history <= Run(update, s, events).history
    decreases |events|
  {
    if events != [] {
      StepInv(update, s, events[0]);
      HistoryGrows(update, Apply(update, s, events[0]), events[1..]);
    }
  }

  // ---- Runs without outsiders ------------------------------------------------------------------

  predicate Respectful(events: seq<Event>) {
    forall i :: 0 <= i < |events| ==> events[i].By?
  }

  /** The ledger a lock holder read is still there, and every later version is some writer's update
      of an earlier version. */
  ghost predicate Quiet(update: Update, s: State) {
    && (forall w :: w in s.locals && s.locals[w].pc in {Read, Writing, Dumped, Compared} ==>
          s.locals[w].before == s.ledger)
    && forall i :: 0 < i < |s.history| ==> Derived(update, s.history, i)
  }

  ghost predicate Derived(update: Update, history: seq<Bytes>, i: nat)
    requires i < |history|
  {
    exists w: Writer, j: nat :: j < i && history[i] == update(w, history[j])
  }

  lemma StepQuiet(update: Update, s: State, e: Event)
    requires Inv(update, s) && Quiet(update, s) && Enabled(s, e) && e.By?
    ensures Quiet(update, Apply(update, s, e))
  {
    var next := Apply(update, s, e);
    assert Consistent(update, s, e.w);
    forall w | w in next.locals && next.locals[w].pc in {Read, Writing, Dumped, Compared}
      ensures next.locals[w].before == next.ledger
    {
      if w != e.w { OthersConsistent(update, s, e, w); assert Consistent(update, s, w); }
    }
    LedgerSteps(update, s, e);
    forall i | 0 < i < |next.history| ensures Derived(update, next.history, i) {
      if i < |s.history| {
        assert Derived(update, s.history, i);
        var w: Writer, j: nat :| j < i && s.history[i] == update(w, s.history[j]);
        assert next.history[i] == update(w, next.history[j]);
      } else {
        assert next.history[i] == update(e.w, next.history[s.locals[e.w].loaded]);
      }
    }
  }

  lemma {:induction false} RunQuiet(update: Update, s: State, events: seq<Event>)
    requires Inv(update, s) && Quiet(update, s) && Possible(update, s, events) && Respectful(events)
    ensures Quiet(update, Run(update, s, events))
    decreases |events|
  {
    if events != [] {
      StepInv(update, s, events[0]);
      StepQuiet(update, s, events[0]);
      RunQuiet(update, Apply(update, s, events[0]), events[1..]);
    }
  }

  lemma QuietRecheck(update: Update, s: State, w: Writer)
    requires Inv(update, s) && Quiet(update, s) && w in s.locals && s.locals[w].pc == Dumped
    ensures Apply(update, s, By(w, Compare)).locals[w].pc == Compared
  {}

  lemma QuietLedger(update: Update, s: State, first: Bytes)
    requires Inv(update, s) && Quiet(update, s) && [first] <= s.history
    ensures s.ledger == first || exists w: Writer, j: nat :: j < |s.history| && s.ledger == update(w, s.history[j])
  {
    if |s.history| > 1 { assert Derived(update, s.history, |s.history| - 1); }
  }

  /** Among writers that respect the lock the recheck never fails, and the ledger always holds its
      first bytes or one complete document. */
  lemma RecheckNeverFails(update: Update, start: State, events: seq<Event>)
    requires Initial(start) && Possible(update, start, events) && Respectful(events)
    ensures var s := Run(update, start, events);
            && (forall w :: w in s.locals && s.locals[w].pc == Dumped ==>
                  Apply(update, s, By(w, Compare)).locals[w].pc == Compared)
            && (s.ledger == start.ledger ||
                exists w: Writer, j: nat :: j < |s.history| && s.ledger == update(w, s.history[j]))
  {
    HistoryGrows(update, start, events);
    RunQuiet(update, start, events);
    var s := Run(update, start, events);
    QuietLedger(update, s, start.ledger);
    forall w | w in s.locals && s.locals[w].pc == Dumped
      ensures Apply(update, s, By(w, Compare)).locals[w].pc == Compared
    {
      QuietRecheck(update, s, w);
    }
  }

  // ---- What the lock does not cover: the load before it ------------------------------------------

  lemma {:induction false} AndThen(update: Update, s: State, events: seq<Event>, e: Event)
    requires Inv(update, s) && Possible(update, s, events) && Enabled(Run(update, s, events), e)
    ensures Possible(update, s, events + [e])
    ensures Run(update, s, events + [e]) == Apply(update, Run(update, s, events), e)
    ensures Respectful(events) && e.By? ==> Respectful(events + [e])
    decreases |events|
  {
    var more := events + [e];
    if events == [] {
      StepInv(update, s, e);
      assert more[1..] == [];
    } else {
      StepInv(update, s, events[0]);
      AndThen(update, Apply(update, s, events[0]), events[1..], e);
      assert more[0] == events[0] && more[1..] == events[1..] + [e];
    }
  }

  /** Writing the rest of the document, byte by byte. */
  lemma {:induction false} WriteOut(update: Update, s: State, events: seq<Event>, w: Writer) returns (more: seq<Event>)
    requires Inv(update, s) && Possible(update, s, events)
    requires var t := Run(update, s, events); w in t.locals && t.locals[w].pc == Writing
    ensures Possible(update, s, more) && (Respectful(events) ==> Respectful(more))
    ensures var t, u := Run(update, s, events), Run(update, s, more);
            u == t.(temps := t.temps[w := t.locals[w].doc])
    decreases var t := Run(update, s, events);
              if w in t.temps && w in t.locals then |t.locals[w].doc| - |t.temps[w]| else 0
  {
    var t := Run(update, s, events);
    assert Consistent(update, t, w);
    if |t.temps[w]| == |t.locals[w].doc| {
      assert t.temps[w] == t.locals[w].doc;
      assert t.temps[w := t.locals[w].doc] == t.temps;
      more := events;
    } else {
      AndThen(update, s, events, By(w, WriteByte));
      more := WriteOut(update, s, events + [By(w, WriteByte)], w);
    }
  }

  /** Two more steps of one writer. */
  lemma TwoSteps(update: Update, s: State, events: seq<Event>, w: Writer, a: Action, b: Action)
    returns (more: seq<Event>)
    requires Inv(update, s) && Possible(update, s, events) && Enabled(Run(update, s, events), By(w, a))
    requires Enabled(Apply(update, Run(update, s, events), By(w, a)), By(w, b))
    ensures Possible(update, s, more) && (Respectful(events) ==> Respectful(more))
    ensures Apply(update, Run(update, s, events), By(w, a)).history != []
    ensures Run(update, s, more) == Apply(update, Apply(update, Run(update, s, events), By(w, a)), By(w, b))
  {
    AndThen(update, s, events, By(w, a));
    AndThen(update, s, events + [By(w, a)], By(w, b));
    more := events + [By(w, a)] + [By(w, b)];
  }

  lemma TakeLock(update: Update, s: State, events: seq<Event>, w: Writer) returns (more: seq<Event>)
    requires Inv(update, s) && Possible(update, s, events)
    requires var t := Run(update, s, events); w in t.locals && t.locals[w].pc == Loaded && t.lock.None?
    ensures Possible(update, s, more) && (Respectful(events) ==> Respectful(more))
    ensures var t, u := Run(update, s, events), Run(update, s, more);
            u == t.(lock := Some(w),
                    locals := t.locals[w := t.locals[w].(pc := Read, holds := true, before := t.ledger)])
  {
    more := TwoSteps(update, s, events, w, OpenLock, ReadBefore);
  }

  lemma Enter(update: Update, s: State, events: seq<Event>, w: Writer) returns (more: seq<Event>)
    requires Inv(update, s) && Possible(update, s, events)
    requires var t := Run(update, s, events); w in t.locals && t.locals[w].pc == Loaded && t.lock.None?
    ensures Possible(update, s, more) && (Respectful(events) ==> Respectful(more))
    ensures var t, u := Run(update, s, events), Run(update, s, more);
            u == t.(lock := Some(w), temps := t.temps[w := []],
                    locals := t.locals[w := t.locals[w].(pc := Writing, holds := true, temporary := true,
                                                         before := t.ledger)])
  {
    var e2 := TakeLock(update, s, events, w);
    AndThen(update, s, e2, By(w, CreateTemp));
    more := e2 + [By(w, CreateTemp)];
  }

  lemma Recheck(update: Update, s: State, events: seq<Event>, w: Writer) returns (more: seq<Event>)
    requires Inv(update, s) && Possible(update, s, events)
    requires var t := Run(update, s, events);
             && w in t.locals && t.locals[w].pc == Writing && w in t.temps && t.temps[w] == t.locals[w].doc
             && t.locals[w].before == t.ledger
    ensures Possible(update, s, more) && (Respectful(events) ==> Respectful(more))
    ensures var t, u := Run(update, s, events), Run(update, s, more);
            u == t.(locals := t.locals[w := t.locals[w].(pc := Compared)])
  {
    more := TwoSteps(update, s, events, w, Sync, Compare);
  }

  lemma Commit(update: Update, s: State, events: seq<Event>, w: Writer) returns (more: seq<Event>)
    requires Inv(update, s) && Possible(update, s, events)
    requires var t := Run(update, s, events);
             && w in t.locals && t.locals[w].pc == Writing && w in t.temps && t.temps[w] == t.locals[w].doc
             && t.locals[w].before == t.ledger
    ensures Possible(update, s, more) && (Respectful(events) ==> Respectful(more))
    ensures var t, u := Run(update, s, events), Run(update, s, more);
            u == t.(ledger := t.locals[w].doc, history := t.history + [t.locals[w].doc], temps := t.temps - {w},
                    locals := t.locals[w := t.locals[w].(pc := Replaced)])
  {
    var e2 := Recheck(update, s, events, w);
    AndThen(update, s, e2, By(w, Replace));
    more := e2 + [By(w, Replace)];
  }

  lemma DropName(update: Update, s: State, events: seq<Event>, w: Writer) returns (more: seq<Event>)
    requires Inv(update, s) && Possible(update, s, events)
    requires var t := Run(update, s, events); w in t.locals && t.locals[w].pc == Replaced
    ensures Possible(update, s, more) && (Respectful(events) ==> Respectful(more))
    ensures var t, u := Run(update, s, events), Run(update, s, more);
            u == t.(locals := t.locals[w := t.locals[w].(pc := CloseLock, temporary := false)])
  {
    more := TwoSteps(update, s, events, w, ClearName, UnlinkTemp);
  }

  lemma FinishUp(update: Update, s: State, events: seq<Event>, w: Writer) returns (more: seq<Event>)
    requires Inv(update, s) && Possible(update, s, events)
    requires var t := Run(update, s, events); w in t.locals && t.locals[w].pc == Replaced
    ensures Possible(update, s, more) && (Respectful(events) ==> Respectful(more))
    ensures var t, u := Run(update, s, events), Run(update, s, more);
            u == t.(lock := None, locals := t.locals[w := t.locals[w].(pc := Done, temporary := false, holds := false)])
  {
    var e2 := DropName(update, s, events, w);
    more := CloseAndUnlink(update, s, e2, w);
  }

  lemma CloseAndUnlink(update: Update, s: State, events: seq<Event>, w: Writer) returns (more: seq<Event>)
    requires Inv(update, s) && Possible(update, s, events)
    requires var t := Run(update, s, events); w in t.locals && t.locals[w].pc == CloseLock
    ensures Possible(update, s, more) && (Respectful(events) ==> Respectful(more))
    ensures var t, u := Run(update, s, events), Run(update, s, more);
            u == t.(lock := None, locals := t.locals[w := t.locals[w].(pc := Done, holds := false)])
  {
    more := TwoSteps(update, s, events, w, Close, Unlink);
  }

  /** A loaded writer that finds the lock free and is left alone commits its document and cleans up. */
  lemma SoloCommit(update: Update, s: State, events: seq<Event>, w: Writer) returns (more: seq<Event>)
    requires Inv(update, s) && Possible(update, s, events) && Respectful(events)
    requires var t := Run(update, s, events); w in t.locals && t.locals[w].pc == Loaded && t.lock.None?
    ensures Possible(update, s, more) && Respectful(more)
    ensures var t, u := Run(update, s, events), Run(update, s, more);
            && u.ledger == t.locals[w].doc && u.history == t.history + [u.ledger] && u.lock.None?
            && u.locals.Keys == t.locals.Keys && u.locals[w].pc == Done && u.locals[w].failed == t.locals[w].failed
            && forall v :: v in t.locals && v != w ==> u.locals[v] == t.locals[v]
  {
    var e1 := Enter(update, s, events, w);
    var e2 := WriteOut(update, s, e1, w);
    var e3 := Commit(update, s, e2, w);
    more := FinishUp(update, s, e3, w);
  }

  /** Two lock-respecting records can lose an update: when both load before either commits, the second
      commit overwrites the first with a document computed from the original ledger. */
  lemma LostUpdate(update: Update, start: State, v: Writer, w: Writer) returns (events: seq<Event>)
    requires Initial(start) && v in start.locals && w in start.locals && v != w
    ensures Possible(update, start, events) && Respectful(events)
    ensures var s := Run(update, start, events);
            && v in s.locals && s.locals[v].pc == Done && !s.locals[v].failed
            && w in s.locals && s.locals[w].pc == Done && !s.locals[w].failed
            && s.history == [start.ledger, update(v, start.ledger), update(w, start.ledger)]
            && s.ledger == update(w, start.ledger)
  {
    var e2 := BothLoad(update, start, v, w);
    var e3 := SoloCommit(update, start, e2, v);
    ghost var s3 := Run(update, start, e3);
    assert s3.locals[w] == LoadedBy(update, start, w) && s3.history == [start.ledger, update(v, start.ledger)];
    events := SoloCommit(update, start, e3, w);
  }

  function LoadedBy(update: Update, start: State, w: Writer): Local
    requires w in start.locals
  {
    start.locals[w].(pc := Loaded, doc := update(w, start.ledger))
  }

  lemma BothLoad(update: Update, start: State, v: Writer, w: Writer) returns (events: seq<Event>)
    requires Initial(start) && v in start.locals && w in start.locals && v != w
    ensures Possible(update, start, events) && Respectful(events)
    ensures Run(update, start, events)
         == start.(locals := start.locals[v := LoadedBy(update, start, v)][w := LoadedBy(update, start, w)])
  {
    AndThen(update, start, [], By(v, Load));
    AndThen(update, start, [] + [By(v, Load)], By(w, Load));
    events := [] + [By(v, Load)] + [By(w, Load)];
  }

  /** No update is lost at a commit whose writer loaded the version that is still current. */
  lemma CurrentLoadIsSerial(update: Update, s: State, w: Writer)
    requires Inv(update, s) && Enabled(s, By(w, Replace)) && s.locals[w].loaded == |s.history| - 1
    ensures Apply(update, s, By(w, Replace)).ledger == update(w, s.ledger)
  {
    LedgerSteps(update, s, By(w, Replace));
  }
}
