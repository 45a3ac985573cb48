/** What every call on a store or a transaction does to the engine, and what it reports of it. */
module HandleCalls {
  import opened Basics
  import opened HandleLifecycle

  // ---- a call returns as the call it was begun as ----

  /** The call a goroutine is making. */
  function Making(pc: Pc): Option<Call> {
    match pc
    case Idle => None
    case DbEnter(makes) => Some(OnDb(makes))
    case DbHeld(makes) => Some(OnDb(makes))
    case DbCalling(makes) => Some(OnDb(makes))
    case DbInside(makes) => Some(OnDb(makes))
    case DbLeave(makes, _) => Some(OnDb(makes))
    case CloseEnter => Some(Close)
    case CloseHeld => Some(Close)
    case CloseFreeing => Some(Close)
    case CloseInside => Some(Close)
    case CloseLeave(_) => Some(Close)
    case TxnEnter(x) => Some(UseTxn(x))
    case TxnHeld(x) => Some(UseTxn(x))
    case TxnOpen(x) => Some(UseTxn(x))
    case TxnCalling(x) => Some(UseTxn(x))
    case TxnInside(x) => Some(UseTxn(x))
    case TxnLeave(x, _) => Some(UseTxn(x))
    case ResolveEnter(kind, x) => Some(Resolve(kind, x))
    case ResolveHeld(kind, x) => Some(Resolve(kind, x))
    case ResolveOpen(kind, x) => Some(Resolve(kind, x))
    case ResolveCalling(kind, x) => Some(Resolve(kind, x))
    case ResolveInside(kind, x) => Some(Resolve(kind, x))
    case ResolveFreed(kind, x) => Some(Resolve(kind, x))
    case ResolveMarked(kind, x) => Some(Resolve(kind, x))
    case ResolveLeave(kind, x, _) => Some(Resolve(kind, x))
  }

  function OnDb(makes: bool): Call {
    if makes then NewTxn else UseDb
  }

  /** `t` goes on with the call it is making, or returns from that call. */
  ghost predicate GoesOn(s: System, t: Thread, s': System) {
    if Returns(s.At(t)) then
      && s'.At(t).Idle? && Making(s.At(t)) == Some(Ended(s.At(t)).call) && s'.log == s.log + [Ended(s.At(t))]
    else Making(s'.At(t)) == Making(s.At(t)) && s'.log == s.log
  }

  lemma ReaderGoesOn(s: System, t: Thread, id: TxnId, s': System)
    requires (s.At(t).DbEnter? || ReadsDb(s.At(t))) && StepDb(s, t, id) == Some(s')
    ensures GoesOn(s, t, s') && forall u: Thread :: u != t ==> s'.At(u) == s.At(u)
  {
  }

  lemma CloserGoesOn(s: System, t: Thread, id: TxnId, s': System)
    requires (s.At(t).CloseEnter? || WritesDb(s.At(t))) && StepDb(s, t, id) == Some(s')
    ensures GoesOn(s, t, s') && forall u: Thread :: u != t ==> s'.At(u) == s.At(u)
  {
  }

  lemma DbGoesOn(s: System, t: Thread, id: TxnId, s': System)
    requires !OnTxn(s.At(t)) && StepDb(s, t, id) == Some(s')
    ensures GoesOn(s, t, s') && !s.At(t).Idle? && forall u: Thread :: u != t ==> s'.At(u) == s.At(u)
  {
    hide StepDb, GoesOn;
    IdleIsStill(s, t, id);
    if s.At(t).DbEnter? || ReadsDb(s.At(t)) { ReaderGoesOn(s, t, id, s'); } else { CloserGoesOn(s, t, id, s'); }
  }

  lemma UserGoesOn(s: System, t: Thread, x: TxnId, s': System)
    requires x in s.txns && UsesTxn(s.At(t)) && s.At(t).x == x && StepTxn(s, t, x, s.txns[x]) == Some(s')
    ensures GoesOn(s, t, s') && forall u: Thread :: u != t ==> s'.At(u) == s.At(u)
  {
  }

  lemma ResolverGoesOn(s: System, t: Thread, x: TxnId, s': System)
    requires x in s.txns && BeforeCall(s.At(t)) && s.At(t).x == x && StepTxn(s, t, x, s.txns[x]) == Some(s')
    ensures GoesOn(s, t, s') && forall u: Thread :: u != t ==> s'.At(u) == s.At(u)
  {
  }

  lemma FreerGoesOn(s: System, t: Thread, x: TxnId, s': System)
    requires x in s.txns && OnTxn(s.At(t)) && !UsesTxn(s.At(t)) && !BeforeCall(s.At(t)) && s.At(t).x == x
    requires StepTxn(s, t, x, s.txns[x]) == Some(s')
    ensures GoesOn(s, t, s') && forall u: Thread :: u != t ==> s'.At(u) == s.At(u)
  {
  }

  lemma MovesOn(s: System, m: Move, s': System)
    requires Do(s, m) == Some(s')
    ensures forall u: Thread :: u != m.t ==> s'.At(u) == s.At(u)
    ensures if m.Begin? then
              s.At(m.t).Idle? && s'.At(m.t) == Entry(m.call) && Making(s'.At(m.t)) == Some(m.call) && Waits(s'.At(m.t))
            else !s.At(m.t).Idle? && GoesOn(s, m.t, s')
    ensures m.Begin? ==> s' == s.Goto(m.t, Entry(m.call))
  {
    hide StepDb, StepTxn, GoesOn;
    if m.Continue? {
      if UsesTxn(s.At(m.t)) { UserGoesOn(s, m.t, s.At(m.t).x, s'); }
      else if BeforeCall(s.At(m.t)) { ResolverGoesOn(s, m.t, s.At(m.t).x, s'); }
      else if OnTxn(s.At(m.t)) { FreerGoesOn(s, m.t, s.At(m.t).x, s'); }
      else { DbGoesOn(s, m.t, m.id, s'); }
    }
  }

  /** From the move that begins a call until the call has returned, at state `k` or not yet. */
  ghost predicate Spans(states: seq<System>, moves: seq<Move>, i: nat, k: nat, t: Thread, call: Call) {
    && IsRun(states, moves) && i < k < |states| && moves[i] == Begin(t, call)
    && forall l :: i < l < k ==> !states[l].At(t).Idle?
  }

  /** Whatever the others do, a goroutine makes the call it has begun and returns from that one. */
  lemma {:induction false} ReturnsItsCall(states: seq<System>, moves: seq<Move>, i: nat, k: nat, t: Thread, call: Call)
    requires Spans(states, moves, i, k, t, call)
    ensures if states[k].At(t).Idle? then
              exists o :: states[k].log == states[k - 1].log + [Event(call, o)]
            else Making(states[k].At(t)) == Some(call)
    decreases k
  {
    hide Do, Making, Returns, Ended;
    MovesOn(states[k - 1], moves[k - 1], states[k]);
    if k == i + 1 {
      NotIdle(call);
    } else {
      ReturnsItsCall(states, moves, i, k - 1, t, call);
      if moves[k - 1].t == t { EndsAs(states[k - 1], t, states[k]); }
    }
  }

  lemma NotIdle(call: Call)
    ensures !Entry(call).Idle?
  {
  }

  lemma EndsAs(s: System, t: Thread, s': System)
    requires GoesOn(s, t, s') && !s.At(t).Idle?
    ensures if s'.At(t).Idle? then
              exists o :: Making(s.At(t)).Some? && s'.log == s.log + [Event(Making(s.At(t)).value, o)]
            else Making(s'.At(t)) == Making(s.At(t))
  {
    if Returns(s.At(t)) { assert Ended(s.At(t)) == Event(Ended(s.At(t)).call, Ended(s.At(t)).outcome); }
  }

  // ---- behind a close ----

  /** Where a goroutine making `call` can be when it began on a closed store. */
  predicate Refused(pc: Pc, call: Call) {
    match call
    case UseDb => pc in {DbEnter(false), DbHeld(false), DbLeave(false, ErrClosed)}
    case NewTxn => pc in {DbEnter(true), DbHeld(true), DbLeave(true, ErrClosed)}
    case UseTxn(x) => pc in {TxnEnter(x), TxnHeld(x), TxnLeave(x, ErrClosed)}
    case Resolve(kind, x) =>
      && kind.Commit?
      && (pc in {ResolveEnter(kind, x), ResolveHeld(kind, x), ResolveOpen(kind, x)}
          || pc in {ResolveLeave(kind, x, ErrClosed), ResolveLeave(kind, x, ErrDiscarded)})
    case Close => false
  }

  lemma RefusedStays(s: System, m: Move, s': System, call: Call)
    requires Do(s, m) == Some(s') && m.Continue? && s.closed && Refused(s.At(m.t), call)
    ensures if Returns(s.At(m.t)) then s'.At(m.t).Idle? else Refused(s'.At(m.t), call)
  {
  }

  /** A call on the store or a transaction begun once the store is closed never gets to the engine. It
      returns ErrClosed; only a Commit of a resolved transaction is told ErrDiscarded instead. Discard
      alone goes on, to release the handle. */
  lemma {:induction false} RefusedBehindClose(states: seq<System>, moves: seq<Move>, i: nat, k: nat, t: Thread, call: Call)
    requires Spans(states, moves, i, k, t, call) && states[i].closed
    requires call.UseDb? || call.NewTxn? || call.UseTxn? || (call.Resolve? && call.kind.Commit?)
    ensures if states[k].At(t).Idle? then
              || states[k].log == states[k - 1].log + [Event(call, ErrClosed)]
              || (call.Resolve? && Consumers(states[k - 1].log, call.x) > 0
                  && states[k].log == states[k - 1].log + [Event(call, ErrDiscarded)])
            else Refused(states[k].At(t), call)
    decreases k
  {
    hide Do, Refused, Closers, Consumers;
    MovesOn(states[k - 1], moves[k - 1], states[k]);
    StaysClosed(states, moves, i, k - 1);
    if k == i + 1 {
      BeginsRefused(call);
    } else {
      RefusedBehindClose(states, moves, i, k - 1, t, call);
      if moves[k - 1].t == t {
        RefusedStays(states[k - 1], moves[k - 1], states[k], call);
        if Returns(states[k - 1].At(t)) { RefusedReturns(states, moves, k - 1, t, call); }
      }
    }
  }

  lemma BeginsRefused(call: Call)
    requires call.UseDb? || call.NewTxn? || call.UseTxn? || (call.Resolve? && call.kind.Commit?)
    ensures Refused(Entry(call), call) && !Entry(call).Idle?
  {
  }

  lemma RefusedReturns(states: seq<System>, moves: seq<Move>, k: nat, t: Thread, call: Call)
    requires IsRun(states, moves) && k < |states| && Returns(states[k].At(t)) && Refused(states[k].At(t), call)
    ensures Ended(states[k].At(t)) == Event(call, ErrClosed)
         || (call.Resolve? && Consumers(states[k].log, call.x) > 0 && Ended(states[k].At(t)) == Event(call, ErrDiscarded))
  {
    hide Consumers, Do, Closers;
    if OnTxn(states[k].At(t)) {
      RunsStaySafe(states, moves);
      assert Safe(states[k]);
      TxnReturnInOrder(states[k], t);
    }
  }

  lemma {:induction false} StaysClosed(states: seq<System>, moves: seq<Move>, i: nat, k: nat)
    requires IsRun(states, moves) && i <= k < |states| && states[i].closed
    ensures states[k].closed
    decreases k
  {
    hide Do;
    if i < k {
      StaysClosed(states, moves, i, k - 1);
      RefusesWhenClosed(states[k - 1], moves[k - 1], states[k]);
    }
  }

  /** Once the store is closed, no goroutine at all moves on into a Commit's call of the engine, or past the
      check of any other method. */
  lemma NothingEntersOnceClosed(s: System, m: Move, s': System, t: Thread)
    requires Do(s, m) == Some(s') && s.closed
    requires var pc := s'.At(t); pc.DbCalling? || pc.TxnOpen? || (pc.ResolveCalling? && pc.kind.Commit?)
    ensures s'.At(t) == s.At(t)
  {
    MovesOn(s, m, s');
  }

  // ---- what the engine has done and what is reported of it ----

  function Count(engine: seq<Call>, call: Call): nat {
    if engine == [] then 0
    else Count(engine[..|engine| - 1], call) + if engine[|engine| - 1] == call then 1 else 0
  }

  /** The outcome that says the engine has done what was asked. */
  predicate Performed(e: Event) {
    e.outcome == if e.call.Close? || e.call.Resolve? then Consumed else Done
  }

  /** How many calls have returned saying that the engine has done this. */
  function Reported(log: seq<Event>, call: Call): nat {
    if log == [] then 0
    else
      var e := log[|log| - 1];
      Reported(log[..|log| - 1], call) + if e.call == call && Performed(e) then 1 else 0
  }

  /** What the engine has done for a goroutine that has not returned yet. */
  function Unreported(pc: Pc): Option<Call> {
    match pc
    case ResolveFreed(kind, x) => Some(Resolve(kind, x))
    case ResolveMarked(kind, x) => Some(Resolve(kind, x))
    case _ => if Returns(pc) && Performed(Ended(pc)) then Some(Ended(pc).call) else None
  }

  function Bearers(s: System, call: Call): set<Thread> {
    set t | t in s.pcs && Unreported(s.pcs[t]) == Some(call)
  }

  predicate Within(pc: Pc) {
    pc.DbInside? || pc.CloseInside? || pc.TxnInside? || pc.ResolveInside?
  }

  /** The engine acts when a goroutine inside it comes back, and at no other time. */
  ghost predicate Acts(s: System, t: Thread, s': System) {
    if Within(s.At(t)) then
      && Making(s.At(t)).Some? && s'.engine == s.engine + [Making(s.At(t)).value]
      && Unreported(s.At(t)) == None && Unreported(s'.At(t)) == Making(s.At(t))
    else
      && s'.engine == s.engine
      && if Returns(s.At(t)) then Unreported(s'.At(t)) == None
         else Unreported(s'.At(t)) == Unreported(s.At(t))
  }

  lemma ReaderActs(s: System, t: Thread, id: TxnId, s': System)
    requires (s.At(t).DbEnter? || ReadsDb(s.At(t))) && StepDb(s, t, id) == Some(s')
    ensures Acts(s, t, s')
  {
  }

  lemma CloserActs(s: System, t: Thread, id: TxnId, s': System)
    requires !OnTxn(s.At(t)) && !s.At(t).DbEnter? && !ReadsDb(s.At(t)) && StepDb(s, t, id) == Some(s')
    ensures Acts(s, t, s')
  {
  }

  lemma UserActs(s: System, t: Thread, x: TxnId, s': System)
    requires x in s.txns && UsesTxn(s.At(t)) && s.At(t).x == x && StepTxn(s, t, x, s.txns[x]) == Some(s')
    ensures Acts(s, t, s')
  {
  }

  lemma ResolverActs(s: System, t: Thread, x: TxnId, s': System)
    requires x in s.txns && BeforeCall(s.At(t)) && s.At(t).x == x && StepTxn(s, t, x, s.txns[x]) == Some(s')
    ensures Acts(s, t, s')
  {
  }

  lemma FreerActs(s: System, t: Thread, x: TxnId, s': System)
    requires x in s.txns && OnTxn(s.At(t)) && !UsesTxn(s.At(t)) && !BeforeCall(s.At(t)) && s.At(t).x == x
    requires StepTxn(s, t, x, s.txns[x]) == Some(s')
    ensures Acts(s, t, s')
  {
  }

  lemma MoveActs(s: System, m: Move, s': System)
    requires Do(s, m) == Some(s')
    ensures Acts(s, m.t, s')
  {
    hide StepDb, StepTxn, Acts;
    if m.Begin? { BeginActs(s, m, s'); }
    else if UsesTxn(s.At(m.t)) { UserActs(s, m.t, s.At(m.t).x, s'); }
    else if BeforeCall(s.At(m.t)) { ResolverActs(s, m.t, s.At(m.t).x, s'); }
    else if OnTxn(s.At(m.t)) { FreerActs(s, m.t, s.At(m.t).x, s'); }
    else if s.At(m.t).DbEnter? || ReadsDb(s.At(m.t)) { ReaderActs(s, m.t, m.id, s'); }
    else { CloserActs(s, m.t, m.id, s'); }
  }

  lemma BeginActs(s: System, m: Move, s': System)
    requires Do(s, m) == Some(s') && m.Begin?
    ensures Acts(s, m.t, s')
  {
  }

  /** Every deed of the engine is reported by exactly one call, now or once that call returns. */
  ghost predicate Balanced(s: System, call: Call) {
    Count(s.engine, call) == Reported(s.log, call) + |Bearers(s, call)|
  }

  lemma BearersChange(s: System, s': System, t: Thread, call: Call)
    requires forall u: Thread :: u != t ==> s'.At(u) == s.At(u)
    ensures |Bearers(s', call)| + (if Unreported(s.At(t)) == Some(call) then 1 else 0)
         == |Bearers(s, call)| + (if Unreported(s'.At(t)) == Some(call) then 1 else 0)
  {
    hide Unreported, Bearers, System.At;
    forall u: Thread
      ensures u in Bearers(s, call) <==> Unreported(s.At(u)) == Some(call)
      ensures u in Bearers(s', call) <==> Unreported(s'.At(u)) == Some(call)
    {
      Bears(s, u, call);
      Bears(s', u, call);
    }
    OneChanges(Bearers(s, call), Bearers(s', call), t);
  }

  lemma Bears(s: System, u: Thread, call: Call)
    ensures u in Bearers(s, call) <==> Unreported(s.At(u)) == Some(call)
  {
  }

  lemma OneChanges(a: set<Thread>, b: set<Thread>, t: Thread)
    requires forall u :: u != t ==> (u in a <==> u in b)
    ensures |b| + (if t in a then 1 else 0) == |a| + (if t in b then 1 else 0)
  {
    var others := a - {t};
    assert b - {t} == others;
    assert a == if t in a then others + {t} else others;
    assert b == if t in b then others + {t} else others;
  }

  lemma CountMore(engine: seq<Call>, deed: Call, call: Call)
    ensures Count(engine + [deed], call) == Count(engine, call) + if deed == call then 1 else 0
  {
    assert (engine + [deed])[..|engine|] == engine;
  }

  lemma ReportedMore(log: seq<Event>, e: Event, call: Call)
    ensures Reported(log + [e], call) == Reported(log, call) + if e.call == call && Performed(e) then 1 else 0
  {
    assert (log + [e])[..|log|] == log;
  }

  lemma StepKeepsBalance(s: System, m: Move, s': System, call: Call)
    requires Do(s, m) == Some(s') && Balanced(s, call)
    ensures Balanced(s', call)
  {
    hide Do, Bearers, Making, Unreported, Count, Reported, Performed, Ended;
    var t := m.t;
    MovesOn(s, m, s');
    MoveActs(s, m, s');
    BearersChange(s, s', t, call);
    if Within(s.At(t)) {
      CountMore(s.engine, Making(s.At(t)).value, call);
      assert !Returns(s.At(t));
    } else if Returns(s.At(t)) {
      ReportedMore(s.log, Ended(s.At(t)), call);
      ReturnBears(s.At(t));
    }
  }

  lemma ReturnBears(pc: Pc)
    requires Returns(pc)
    ensures Unreported(pc) == if Performed(Ended(pc)) then Some(Ended(pc).call) else None
  {
  }

  /** In every interleaving: what the engine has done for each kind of call is what the calls of that kind
      that have returned say it did, and what it has done for those about to return. */
  lemma {:induction false} DeedsAreReported(states: seq<System>, moves: seq<Move>, i: nat, call: Call)
    requires IsRun(states, moves) && i < |states|
    ensures Balanced(states[i], call)
    decreases i
  {
    hide Do, Balanced;
    if i == 0 {
      NothingDone(call);
    } else {
      DeedsAreReported(states, moves, i - 1, call);
      StepKeepsBalance(states[i - 1], moves[i - 1], states[i], call);
    }
  }

  lemma NothingDone(call: Call)
    ensures Balanced(Initial, call)
  {
    assert Bearers(Initial, call) == {};
  }

  // ---- what the engine's deeds amount to ----

  /** A NewTxn coming back from the engine adds one transaction, under an id that was not in use: live, held
      by its struct, not resolved and locked by nobody. Nothing else adds or removes one. */
  lemma NewTxnAddsOne(s: System, m: Move, s': System)
    requires Do(s, m) == Some(s')
    ensures if m.Continue? && s.At(m.t) == DbInside(true) then
              && m.id !in s.txns && s'.txns == s.txns[m.id := Txn(RWLock({}, None), false, true, Handle(0))]
              && s'.At(m.t) == DbLeave(true, Done) && s'.engine == s.engine + [NewTxn]
            else s'.txns.Keys == s.txns.Keys && Count(s'.engine, NewTxn) == Count(s.engine, NewTxn)
  {
    hide StepDb, StepTxn, Count;
    MoveActs(s, m, s');
    if Within(s.At(m.t)) { CountMore(s.engine, Making(s.At(m.t)).value, NewTxn); }
    if m.Continue? {
      if UsesTxn(s.At(m.t)) { UserAddsNone(s, m.t, s.At(m.t).x, s'); }
      else if OnTxn(s.At(m.t)) { ResolverAddsNone(s, m.t, s.At(m.t).x, s'); }
      else { DbAddsOne(s, m.t, m.id, s'); }
    }
  }

  lemma DbAddsOne(s: System, t: Thread, id: TxnId, s': System)
    requires StepDb(s, t, id) == Some(s')
    ensures if s.At(t) == DbInside(true) then
              && id !in s.txns && s'.txns == s.txns[id := Txn(RWLock({}, None), false, true, Handle(0))]
              && s'.At(t) == DbLeave(true, Done) && s'.engine == s.engine + [NewTxn]
            else s'.txns == s.txns
  {
  }

  lemma UserAddsNone(s: System, t: Thread, x: TxnId, s': System)
    requires x in s.txns && UsesTxn(s.At(t)) && s.At(t).x == x && StepTxn(s, t, x, s.txns[x]) == Some(s')
    ensures s'.txns.Keys == s.txns.Keys
  {
  }

  lemma ResolverAddsNone(s: System, t: Thread, x: TxnId, s': System)
    requires x in s.txns && OnTxn(s.At(t)) && !UsesTxn(s.At(t)) && s.At(t).x == x
    requires StepTxn(s, t, x, s.txns[x]) == Some(s')
    ensures s'.txns.Keys == s.txns.Keys
  {
  }

  /** There are as many transactions as NewTxn calls that returned Done, and those about to. */
  lemma OneTxnPerNewTxn(states: seq<System>, moves: seq<Move>, i: nat)
    requires IsRun(states, moves) && i < |states|
    ensures |states[i].txns| == Count(states[i].engine, NewTxn)
    ensures |states[i].txns| == Reported(states[i].log, NewTxn) + |set t | t in states[i].pcs && states[i].pcs[t] == DbLeave(true, Done)|
  {
    hide IsRun, Count, Reported;
    DeedsAreReported(states, moves, i, NewTxn);
    TxnsAreCounted(states, moves, i);
    NewTxnBearers(states[i]);
  }

  lemma NewTxnBearers(s: System)
    ensures Bearers(s, NewTxn) == set t | t in s.pcs && s.pcs[t] == DbLeave(true, Done)
  {
  }

  lemma {:induction false} TxnsAreCounted(states: seq<System>, moves: seq<Move>, i: nat)
    requires IsRun(states, moves) && i < |states|
    ensures |states[i].txns| == Count(states[i].engine, NewTxn)
    decreases i
  {
    hide Do, Count;
    if i == 0 {
      CountNone(NewTxn);
    } else {
      TxnsAreCounted(states, moves, i - 1);
      TxnsCountOn(states[i - 1], moves[i - 1], states[i]);
    }
  }

  lemma TxnsCountOn(s: System, m: Move, s': System)
    requires Do(s, m) == Some(s') && |s.txns| == Count(s.engine, NewTxn)
    ensures |s'.txns| == Count(s'.engine, NewTxn)
  {
    hide Do, Count;
    NewTxnAddsOne(s, m, s');
    if s'.engine == s.engine + [NewTxn] { CountMore(s.engine, NewTxn, NewTxn); }
    KeysCount(s.txns);
    KeysCount(s'.txns);
  }

  lemma CountNone(call: Call)
    ensures Count([], call) == 0
  {
  }

  lemma KeysCount(txns: map<TxnId, Txn>)
    ensures |txns| == |txns.Keys|
  {
  }

  // ---- calls nobody gets in the way of ----

  /** The state after these moves, if they can all be made. */
  function Play(s: System, moves: seq<Move>): Option<System>
    decreases |moves|
  {
    if moves == [] then Some(s)
    else match Do(s, moves[0])
      case None => None
      case Some(next) => Play(next, moves[1..])
  }

  /** The same for `n` steps of one goroutine. */
  function Go(s: System, t: Thread, id: TxnId, n: nat): Option<System>
    decreases n
  {
    if n == 0 then Some(s)
    else match Do(s, Continue(t, id))
      case None => None
      case Some(next) => Go(next, t, id, n - 1)
  }

  /** A call and all the steps of it. */
  function Solo(t: Thread, call: Call, id: TxnId, n: nat): seq<Move> {
    [Begin(t, call)] + seq(n, i requires 0 <= i < n => Continue(t, id))
  }

  lemma {:induction false} SoloGoes(s: System, t: Thread, call: Call, id: TxnId, n: nat)
    requires Do(s, Begin(t, call)).Some?
    ensures Play(s, Solo(t, call, id, n)) == Go(Do(s, Begin(t, call)).value, t, id, n)
  {
    hide Do;
    var steps := seq(n, i requires 0 <= i < n => Continue(t, id));
    assert Solo(t, call, id, n)[1..] == steps;
    StepsGo(Do(s, Begin(t, call)).value, t, id, steps);
  }

  lemma {:induction false} StepsGo(s: System, t: Thread, id: TxnId, steps: seq<Move>)
    requires forall i :: 0 <= i < |steps| ==> steps[i] == Continue(t, id)
    ensures Play(s, steps) == Go(s, t, id, |steps|)
    decreases |steps|
  {
    hide Do;
    if steps != [] && Do(s, steps[0]).Some? { StepsGo(Do(s, steps[0]).value, t, id, steps[1..]); }
  }

  lemma {:induction false} GoFurther(s: System, t: Thread, id: TxnId, m: nat, n: nat, between: System)
    requires Go(s, t, id, m) == Some(between)
    ensures Go(s, t, id, m + n) == Go(between, t, id, n)
    decreases m
  {
    hide Do;
    if m > 0 { GoFurther(Do(s, Continue(t, id)).value, t, id, m - 1, n, between); }
  }

  /** `s` with `t` at `pc` inside a call on `x`, which has become `txn`. */
  function Inside(s: System, t: Thread, x: TxnId, txn: Txn, pc: Pc): System {
    s.With(x, txn).Goto(t, pc)
  }

  lemma InsideAgain(s: System, t: Thread, x: TxnId, txn: Txn, pc: Pc, txn': Txn, pc': Pc)
    ensures Inside(s, t, x, txn, pc).With(x, txn').Goto(t, pc') == Inside(s, t, x, txn', pc')
    ensures Inside(s, t, x, txn, pc).Goto(t, pc') == Inside(s, t, x, txn, pc')
  {
    assert s.txns[x := txn][x := txn'] == s.txns[x := txn'];
    assert s.pcs[t := pc][t := pc'] == s.pcs[t := pc'];
  }

  predicate Untouched(s: System, t: Thread, x: TxnId) {
    !s.misused && x in s.txns && s.txns[x] == Txn(Unlocked, false, true, Handle(0)) && s.At(t).Idle?
  }

  /** A live transaction locked by the goroutine resolving it. */
  function Mine(t: Thread): Txn {
    Txn(RWLock({}, Some(t)), false, true, Handle(0))
  }

  /** What a Commit or a Discard of an untouched transaction leaves behind. */
  function AfterResolving(s: System, t: Thread, x: TxnId, kind: Kind): System {
    Inside(s.Carry(Resolve(kind, x)), t, x, Txn(Unlocked, true, false, Handle(1)), Idle)
      .(log := s.log + [Event(Resolve(kind, x), Consumed)])
  }

  lemma ResolveLocks(s: System, t: Thread, x: TxnId, kind: Kind)
    requires Untouched(s, t, x)
    ensures Do(s, Begin(t, Resolve(kind, x))) == Some(Inside(s, t, x, s.txns[x], ResolveEnter(kind, x)))
    ensures Do(Inside(s, t, x, s.txns[x], ResolveEnter(kind, x)), Continue(t, 0))
         == Some(Inside(s, t, x, Mine(t), ResolveHeld(kind, x)))
  {
    assert s.txns[x := s.txns[x]] == s.txns;
    InsideAgain(s, t, x, s.txns[x], ResolveEnter(kind, x), Mine(t), ResolveHeld(kind, x));
  }

  lemma ResolveChecks(s: System, t: Thread, x: TxnId, kind: Kind)
    requires Untouched(s, t, x) && (kind.Commit? ==> !s.closed)
    ensures Go(Inside(s, t, x, Mine(t), ResolveHeld(kind, x)), t, 0, if kind.Commit? then 2 else 1)
         == Some(Inside(s, t, x, Mine(t), ResolveCalling(kind, x)))
  {
    if kind.Commit? {
      InsideAgain(s, t, x, Mine(t), ResolveHeld(kind, x), Mine(t), ResolveOpen(kind, x));
      InsideAgain(s, t, x, Mine(t), ResolveOpen(kind, x), Mine(t), ResolveCalling(kind, x));
      assert Go(Inside(s, t, x, Mine(t), ResolveOpen(kind, x)), t, 0, 1) == Some(Inside(s, t, x, Mine(t), ResolveCalling(kind, x)));
    } else {
      InsideAgain(s, t, x, Mine(t), ResolveHeld(kind, x), Mine(t), ResolveCalling(kind, x));
    }
  }

  lemma ResolveFrees(s: System, t: Thread, x: TxnId, kind: Kind)
    requires Untouched(s, t, x)
    ensures Do(Inside(s, t, x, Mine(t), ResolveCalling(kind, x)), Continue(t, 0))
         == Some(Inside(s, t, x, Mine(t), ResolveInside(kind, x)))
  {
    InsideAgain(s, t, x, Mine(t), ResolveCalling(kind, x), Mine(t), ResolveInside(kind, x));
  }

  lemma ResolveComesBack(s: System, t: Thread, x: TxnId, kind: Kind)
    requires Untouched(s, t, x)
    ensures Do(Inside(s, t, x, Mine(t), ResolveInside(kind, x)), Continue(t, 0))
         == Some(Inside(s.Carry(Resolve(kind, x)), t, x, Mine(t).(handle := Handle(1)), ResolveFreed(kind, x)))
  {
    InsideAgain(s, t, x, Mine(t), ResolveInside(kind, x), Mine(t).(handle := Handle(1)), ResolveFreed(kind, x));
  }

  lemma ResolveMarks(s: System, t: Thread, x: TxnId, kind: Kind)
    requires x in s.txns
    ensures var freed := Mine(t).(handle := Handle(1));
            Do(Inside(s, t, x, freed, ResolveFreed(kind, x)), Continue(t, 0))
              == Some(Inside(s, t, x, freed.(resolved := true), ResolveMarked(kind, x)))
  {
    var freed := Mine(t).(handle := Handle(1));
    InsideAgain(s, t, x, freed, ResolveFreed(kind, x), freed.(resolved := true), ResolveMarked(kind, x));
  }

  lemma ResolveLetsGo(s: System, t: Thread, x: TxnId, kind: Kind)
    requires x in s.txns
    ensures var marked := Mine(t).(handle := Handle(1)).(resolved := true);
            Do(Inside(s, t, x, marked, ResolveMarked(kind, x)), Continue(t, 0))
              == Some(Inside(s, t, x, marked.(held := false), ResolveLeave(kind, x, Consumed)))
  {
    var marked := Mine(t).(handle := Handle(1)).(resolved := true);
    InsideAgain(s, t, x, marked, ResolveMarked(kind, x), marked.(held := false), ResolveLeave(kind, x, Consumed));
  }

  lemma ResolveReturns(s: System, t: Thread, x: TxnId, kind: Kind)
    requires x in s.txns
    ensures var nil := Txn(RWLock({}, Some(t)), true, false, Handle(1));
            Do(Inside(s, t, x, nil, ResolveLeave(kind, x, Consumed)), Continue(t, 0))
              == Some(Inside(s, t, x, nil.(lk := Unlocked), Idle).(log := s.log + [Event(Resolve(kind, x), Consumed)]))
  {
    var nil := Txn(RWLock({}, Some(t)), true, false, Handle(1));
    InsideAgain(s, t, x, nil, ResolveLeave(kind, x, Consumed), nil.(lk := Unlocked), Idle);
  }

  lemma ResolveEnds(s: System, t: Thread, x: TxnId, kind: Kind)
    requires x in s.txns
    ensures Go(Inside(s, t, x, Mine(t).(handle := Handle(1)), ResolveFreed(kind, x)), t, 0, 3)
         == Some(Inside(s, t, x, Txn(Unlocked, true, false, Handle(1)), Idle)
                   .(log := s.log + [Event(Resolve(kind, x), Consumed)]))
  {
    hide Do, Inside;
    var nil := Txn(RWLock({}, Some(t)), true, false, Handle(1));
    ResolveMarks(s, t, x, kind);
    ResolveLetsGo(s, t, x, kind);
    ResolveReturns(s, t, x, kind);
    assert Go(Inside(s, t, x, nil, ResolveLeave(kind, x, Consumed)), t, 0, 1)
        == Do(Inside(s, t, x, nil, ResolveLeave(kind, x, Consumed)), Continue(t, 0));
  }

  /** With nobody in the way a Discard, store closed or not, and a Commit on an open store run to their end,
      free the handle and say so. */
  lemma ResolveRuns(s: System, t: Thread, x: TxnId, kind: Kind)
    requires Untouched(s, t, x) && (kind.Commit? ==> !s.closed)
    ensures Play(s, Solo(t, Resolve(kind, x), 0, if kind.Commit? then 8 else 7)) == Some(AfterResolving(s, t, x, kind))
  {
    hide Do, Go, Inside;
    var n := if kind.Commit? then 2 else 1;
    var entered, held, calling := Inside(s, t, x, s.txns[x], ResolveEnter(kind, x)),
      Inside(s, t, x, Mine(t), ResolveHeld(kind, x)), Inside(s, t, x, Mine(t), ResolveCalling(kind, x));
    var freed := Inside(s.Carry(Resolve(kind, x)), t, x, Mine(t).(handle := Handle(1)), ResolveFreed(kind, x));
    ResolveLocks(s, t, x, kind);
    SoloGoes(s, t, Resolve(kind, x), 0, 6 + n);
    OneStep(entered, t, held);
    GoFurther(entered, t, 0, 1, 5 + n, held);
    ResolveChecks(s, t, x, kind);
    GoFurther(held, t, 0, n, 5, calling);
    ResolveFrees(s, t, x, kind);
    ResolveComesBack(s, t, x, kind);
    TwoSteps(calling, t, Inside(s, t, x, Mine(t), ResolveInside(kind, x)), freed);
    GoFurther(calling, t, 0, 2, 3, freed);
    ResolveEnds(s.Carry(Resolve(kind, x)), t, x, kind);
  }

  lemma TwoSteps(s: System, t: Thread, between: System, next: System)
    requires Do(s, Continue(t, 0)) == Some(between) && Do(between, Continue(t, 0)) == Some(next)
    ensures Go(s, t, 0, 2) == Some(next)
  {
    hide Do;
    OneStep(between, t, next);
  }

  lemma OneStep(s: System, t: Thread, next: System)
    requires Do(s, Continue(t, 0)) == Some(next)
    ensures Go(s, t, 0, 1) == Some(next)
  {
    hide Do;
    assert Go(next, t, 0, 0) == Some(next);
  }

  lemma FitToResolve(states: seq<System>, moves: seq<Move>, i: nat, x: TxnId, t: Thread)
    requires IsRun(states, moves) && i < |states| && x in states[i].txns
    requires states[i].txns[x].lk == Unlocked && Consumers(states[i].log, x) == 0 && states[i].At(t).Idle?
    ensures Untouched(states[i], t, x)
  {
    RunsStaySafe(states, moves);
    LiveUntilConsumed(states, moves, i, x);
    assert Safe(states[i]) && TxnSafe(states[i], x);
  }

  /** From any reachable state a Discard nobody gets in the way of frees the handle, store closed or not. */
  lemma DiscardFrees(states: seq<System>, moves: seq<Move>, i: nat, x: TxnId, t: Thread)
    requires IsRun(states, moves) && i < |states| && x in states[i].txns
    requires states[i].txns[x].lk == Unlocked && Consumers(states[i].log, x) == 0 && states[i].At(t).Idle?
    ensures Play(states[i], Solo(t, Resolve(Discard, x), 0, 7)) == Some(AfterResolving(states[i], t, x, Discard))
  {
    hide Play, Solo;
    FitToResolve(states, moves, i, x, t);
    ResolveRuns(states[i], t, x, Discard);
  }

  /** So does a Commit, on an open store. */
  lemma CommitFrees(states: seq<System>, moves: seq<Move>, i: nat, x: TxnId, t: Thread)
    requires IsRun(states, moves) && i < |states| && x in states[i].txns && !states[i].closed
    requires states[i].txns[x].lk == Unlocked && Consumers(states[i].log, x) == 0 && states[i].At(t).Idle?
    ensures Play(states[i], Solo(t, Resolve(Commit, x), 0, 8)) == Some(AfterResolving(states[i], t, x, Commit))
  {
    hide Play, Solo;
    FitToResolve(states, moves, i, x, t);
    ResolveRuns(states[i], t, x, Commit);
  }

  // ---- a run with a transaction in it ----

  /** One goroutine alone, nothing else changed since the start. */
  function Alone(readers: set<Thread>, txns: map<TxnId, Txn>, pc: Pc, engine: seq<Call>, log: seq<Event>): System {
    System(RWLock(readers, None), false, Handle(0), txns, map[0 := pc], false, engine, log)
  }

  lemma AloneAgain(readers: set<Thread>, txns: map<TxnId, Txn>, pc: Pc, engine: seq<Call>, log: seq<Event>, pc': Pc)
    ensures Alone(readers, txns, pc, engine, log).Goto(0, pc') == Alone(readers, txns, pc', engine, log)
  {
    assert map[0 := pc][0 := pc'] == map[0 := pc'];
  }

  const Fresh: Txn := Txn(Unlocked, false, true, Handle(0))

  const Opened: System := Alone({}, map[0 := Fresh], Idle, [NewTxn], [Event(NewTxn, Done)])

  lemma NewTxnRuns()
    ensures Play(Initial, Solo(0, NewTxn, 0, 5)) == Some(Opened)
  {
    var entered, held, calling := Alone({}, map[], DbEnter(true), [], []), Alone({0}, map[], DbHeld(true), [], []),
      Alone({0}, map[], DbCalling(true), [], []);
    var within, leaving := Alone({0}, map[], DbInside(true), [], []), Alone({0}, map[0 := Fresh], DbLeave(true, Done), [NewTxn], []);
    assert Do(Initial, Begin(0, NewTxn)) == Some(entered);
    assert Do(entered, Continue(0, 0)) == Some(held) by {
      assert {} + {0} == {0};
      AloneAgain({0}, map[], DbEnter(true), [], [], DbHeld(true));
    }
    assert Do(held, Continue(0, 0)) == Some(calling) by { AloneAgain({0}, map[], DbHeld(true), [], [], DbCalling(true)); }
    assert Do(calling, Continue(0, 0)) == Some(within) by { AloneAgain({0}, map[], DbCalling(true), [], [], DbInside(true)); }
    assert Do(within, Continue(0, 0)) == Some(leaving) by {
      assert [] + [NewTxn] == [NewTxn];
      var none: map<TxnId, Txn> := map[];
      assert none[0 := Fresh] == map[0 := Fresh];
      AloneAgain({0}, map[0 := Fresh], DbInside(true), [NewTxn], [], DbLeave(true, Done));
    }
    assert Do(leaving, Continue(0, 0)) == Some(Opened) by {
      assert {0} - {0} == {};
      assert [] + [Event(NewTxn, Done)] == [Event(NewTxn, Done)];
      AloneAgain({}, map[0 := Fresh], DbLeave(true, Done), [NewTxn], [], Idle);
    }
    hide Do;
    SoloGoes(Initial, 0, NewTxn, 0, 5);
    OneStep(entered, 0, held);
    GoFurther(entered, 0, 0, 1, 4, held);
    OneStep(held, 0, calling);
    GoFurther(held, 0, 0, 1, 3, calling);
    OneStep(calling, 0, within);
    GoFurther(calling, 0, 0, 1, 2, within);
    OneStep(within, 0, leaving);
    GoFurther(within, 0, 0, 1, 1, leaving);
    OneStep(leaving, 0, Opened);
  }

  /** From the start, NewTxn makes a live transaction and Commit consumes it. */
  lemma CommitExample()
    ensures Play(Initial, Solo(0, NewTxn, 0, 5)) == Some(Opened) && Opened.txns[0].handle.Live()
    ensures Play(Opened, Solo(0, Resolve(Commit, 0), 0, 8)) == Some(AfterResolving(Opened, 0, 0, Commit))
    ensures AfterResolving(Opened, 0, 0, Commit).log == [Event(NewTxn, Done), Event(Resolve(Commit, 0), Consumed)]
    ensures AfterResolving(Opened, 0, 0, Commit).txns[0].handle.frees == 1
  {
    hide Play, Solo;
    NewTxnRuns();
    ResolveRuns(Opened, 0, 0, Commit);
  }

  /** Moves that can be played can be appended to a run. */
  lemma {:induction false} PlaysOn(states: seq<System>, moves: seq<Move>, more: seq<Move>, end: System)
    requires IsRun(states, moves) && Play(states[|moves|], more) == Some(end)
    ensures exists states' :: IsRun(states', moves + more) && states <= states' && states'[|moves + more|] == end
    decreases |more|
  {
    hide Do;
    if more == [] {
      assert moves + more == moves;
      assert IsRun(states, moves + more) && states <= states;
    } else {
      var next := Do(states[|moves|], more[0]).value;
      var states1, moves1 := states + [next], moves + [more[0]];
      assert IsRun(states1, moves1);
      PlaysOn(states1, moves1, more[1..], end);
      assert moves1 + more[1..] == moves + more;
      var states' :| IsRun(states', moves1 + more[1..]) && states1 <= states' && states'[|moves1 + more[1..]|] == end;
    }
  }

  /** So there is a run in which a live transaction is made and then committed. */
  lemma CommitIsReached()
    ensures exists states: seq<System>, moves: seq<Move> ::
              && IsRun(states, moves) && Opened in states
              && states[|moves|].log == [Event(NewTxn, Done), Event(Resolve(Commit, 0), Consumed)]
  {
    hide Play, Solo, Do;
    var make, commit := Solo(0, NewTxn, 0, 5), Solo(0, Resolve(Commit, 0), 0, 8);
    CommitExample();
    PlaysOn([Initial], [], make, Opened);
    var made :| IsRun(made, [] + make) && [Initial] <= made && made[|[] + make|] == Opened;
    PlaysOn(made, [] + make, commit, AfterResolving(Opened, 0, 0, Commit));
    var states :| IsRun(states, [] + make + commit) && made <= states
      && states[|[] + make + commit|] == AfterResolving(Opened, 0, 0, Commit);
    assert states[|[] + make|] == Opened;
  }
}
