/** Store and transaction handles under concurrent use (regolith.go): goroutines interleave at every
    lock operation and flag access, and between entering the engine and coming back from it. */
module HandleLifecycle {
  import opened Basics

  type Thread = nat
  type TxnId = nat

  datatype RWLock = RWLock(readers: set<Thread>, writer: Option<Thread>)

  const Unlocked: RWLock := RWLock({}, None)

  /** Engine memory behind a handle: live until it is first freed. */
  datatype Handle = Handle(frees: nat) {
    predicate Live() { frees == 0 }
  }

  /** `held` is whether the Go struct still points at the handle. */
  datatype Txn = Txn(lk: RWLock, resolved: bool, held: bool, handle: Handle)

  datatype Kind = Commit | Discard

  datatype Call = UseDb | NewTxn | Close | UseTxn(x: TxnId) | Resolve(kind: Kind, x: TxnId)

  datatype Outcome = Done | Consumed | NoOp | ErrClosed | ErrDiscarded

  /** Where a goroutine is inside the call it is making. */
  datatype Pc =
    | Idle
    // DB methods
    | DbEnter(makesTxn: bool) | DbHeld(makesTxn: bool) | DbCalling(makesTxn: bool)
    | DbInside(makesTxn: bool) | DbLeave(makesTxn: bool, outcome: Outcome)
    // DB.Close
    | CloseEnter | CloseHeld | CloseFreeing | CloseInside | CloseLeave(outcome: Outcome)
    // Txn methods
    | TxnEnter(x: TxnId) | TxnHeld(x: TxnId) | TxnOpen(x: TxnId) | TxnCalling(x: TxnId)
    | TxnInside(x: TxnId) | TxnLeave(x: TxnId, outcome: Outcome)
    // Txn.Commit and Txn.Discard
    | ResolveEnter(kind: Kind, x: TxnId) | ResolveHeld(kind: Kind, x: TxnId) | ResolveOpen(kind: Kind, x: TxnId)
    | ResolveCalling(kind: Kind, x: TxnId) | ResolveInside(kind: Kind, x: TxnId) | ResolveFreed(kind: Kind, x: TxnId)
    | ResolveMarked(kind: Kind, x: TxnId) | ResolveLeave(kind: Kind, x: TxnId, outcome: Outcome)

  /** A call that has returned. */
  datatype Event = Event(call: Call, outcome: Outcome)

  datatype System = System(
    closeLk: RWLock, closed: bool, store: Handle,
    txns: map<TxnId, Txn>, pcs: map<Thread, Pc>,
    misused: bool,          // a call was given a nil or freed handle, or lost its handle while inside
    engine: seq<Call>,      // what the engine has carried out, and for which call
    log: seq<Event>)
  {
    function At(t: Thread): Pc {
      if t in pcs then pcs[t] else Idle
    }

    function Goto(t: Thread, pc: Pc): System {
      this.(pcs := pcs[t := pc])
    }

    function With(x: TxnId, txn: Txn): System {
      this.(txns := txns[x := txn])
    }

    /** The engine has carried out its part of `call`. */
    function Carry(call: Call): System {
      this.(engine := engine + [call])
    }

    function Return(t: Thread, call: Call, outcome: Outcome): System {
      Goto(t, Idle).(log := log + [Event(call, outcome)])
    }
  }

  const Initial: System := System(Unlocked, false, Handle(0), map[], map[], false, [], [])

  /** What the scheduler picks: a call to begin, or a step of the call in progress. A step that makes
      a transaction gives it an unused id. */
  datatype Move = Begin(t: Thread, call: Call) | Continue(t: Thread, id: TxnId)

  function Entry(call: Call): Pc {
    match call
    case UseDb => DbEnter(false)
    case NewTxn => DbEnter(true)
    case Close => CloseEnter
    case UseTxn(x) => TxnEnter(x)
    case Resolve(kind, x) => ResolveEnter(kind, x)
  }

  function StepDb(s: System, t: Thread, id: TxnId): Option<System> {
    match s.At(t)
    case DbEnter(makes) =>
      if s.closeLk.writer.Some? then None
      else Some(s.(closeLk := s.closeLk.(readers := s.closeLk.readers + {t})).Goto(t, DbHeld(makes)))
    case DbHeld(makes) =>
      Some(s.Goto(t, if s.closed then DbLeave(makes, ErrClosed) else DbCalling(makes)))
    case DbCalling(makes) => Some(s.(misused := s.misused || !s.store.Live()).Goto(t, DbInside(makes)))
    case DbInside(makes) =>
      var used := s.(misused := s.misused || !s.store.Live()).Carry(if makes then NewTxn else UseDb);
      if makes then
        if id in s.txns then None
        else Some(used.With(id, Txn(Unlocked, false, true, Handle(0))).Goto(t, DbLeave(makes, Done)))
      else Some(used.Goto(t, DbLeave(makes, Done)))
    case DbLeave(makes, outcome) =>
      Some(s.(closeLk := s.closeLk.(readers := s.closeLk.readers - {t})).Return(t, if makes then NewTxn else UseDb, outcome))
    case CloseEnter =>
      if s.closeLk != Unlocked then None
      else Some(s.(closeLk := s.closeLk.(writer := Some(t))).Goto(t, CloseHeld))
    case CloseHeld =>
      Some(if s.closed then s.Goto(t, CloseLeave(NoOp)) else s.(closed := true).Goto(t, CloseFreeing))
    case CloseFreeing => Some(s.(misused := s.misused || !s.store.Live()).Goto(t, CloseInside))
    case CloseInside =>
      Some(s.(misused := s.misused || !s.store.Live(), store := Handle(s.store.frees + 1)).Carry(Close).Goto(t, CloseLeave(Consumed)))
    case CloseLeave(outcome) =>
      Some(s.(closeLk := s.closeLk.(writer := None)).Return(t, Close, outcome))
    case _ => None
  }

  /** A step of a transaction method on `x`, which is `txn`. */
  function StepTxn(s: System, t: Thread, x: TxnId, txn: Txn): Option<System> {
    match s.At(t)
    case TxnEnter(_) =>
      if txn.lk.writer.Some? then None
      else Some(s.With(x, txn.(lk := txn.lk.(readers := txn.lk.readers + {t}))).Goto(t, TxnHeld(x)))
    case TxnHeld(_) => Some(s.Goto(t, if s.closed then TxnLeave(x, ErrClosed) else TxnOpen(x)))
    case TxnOpen(_) => Some(s.Goto(t, if txn.resolved then TxnLeave(x, ErrDiscarded) else TxnCalling(x)))
    case TxnCalling(_) =>
      Some(s.(misused := s.misused || !txn.held || !txn.handle.Live()).Goto(t, TxnInside(x)))
    case TxnInside(_) =>
      Some(s.(misused := s.misused || !txn.held || !txn.handle.Live()).Carry(UseTxn(x)).Goto(t, TxnLeave(x, Done)))
    case TxnLeave(_, outcome) =>
      Some(s.With(x, txn.(lk := txn.lk.(readers := txn.lk.readers - {t}))).Return(t, UseTxn(x), outcome))
    case ResolveEnter(kind, _) =>
      if txn.lk != Unlocked then None
      else Some(s.With(x, txn.(lk := txn.lk.(writer := Some(t)))).Goto(t, ResolveHeld(kind, x)))
    case ResolveHeld(kind, _) =>
      Some(s.Goto(t,
        if txn.resolved then ResolveLeave(kind, x, if kind.Commit? then ErrDiscarded else NoOp)
        else if kind.Commit? then ResolveOpen(kind, x)
        else ResolveCalling(kind, x)))
    case ResolveOpen(kind, _) =>
      Some(s.Goto(t, if s.closed then ResolveLeave(kind, x, ErrClosed) else ResolveCalling(kind, x)))
    case ResolveCalling(kind, _) =>
      Some(s.(misused := s.misused || !txn.held || !txn.handle.Live()).Goto(t, ResolveInside(kind, x)))
    case ResolveInside(kind, _) =>
      Some(s.(misused := s.misused || !txn.held || !txn.handle.Live()).Carry(Resolve(kind, x))
            .With(x, txn.(handle := Handle(txn.handle.frees + 1))).Goto(t, ResolveFreed(kind, x)))
    case ResolveFreed(kind, _) =>
      Some(s.With(x, txn.(resolved := true)).Goto(t, ResolveMarked(kind, x)))
    case ResolveMarked(kind, _) =>
      Some(s.With(x, txn.(held := false)).Goto(t, ResolveLeave(kind, x, Consumed)))
    case ResolveLeave(kind, _, outcome) =>
      Some(s.With(x, txn.(lk := txn.lk.(writer := None))).Return(t, Resolve(kind, x), outcome))
    case _ => None
  }

  predicate OnTxn(pc: Pc) {
    !pc.Idle? && !pc.DbEnter? && !pc.DbHeld? && !pc.DbCalling? && !pc.DbInside? && !pc.DbLeave?
    && !pc.CloseEnter? && !pc.CloseHeld? && !pc.CloseFreeing? && !pc.CloseInside? && !pc.CloseLeave?
  }

  /** The state after a move, or none if the goroutine is blocked or the move makes no sense. */
  function Do(s: System, m: Move): Option<System> {
    match m
    case Begin(t, call) =>
      if !s.At(t).Idle? || ((call.UseTxn? || call.Resolve?) && call.x !in s.txns) then None
      else Some(s.Goto(t, Entry(call)))
    case Continue(t, id) =>
      var pc := s.At(t);
      if OnTxn(pc) then
        if pc.x in s.txns then StepTxn(s, t, pc.x, s.txns[pc.x]) else None
      else StepDb(s, t, id)
  }

  // ---- what every interleaving keeps ----

  predicate ReadsDb(pc: Pc) { pc.DbHeld? || pc.DbCalling? || pc.DbInside? || pc.DbLeave? }

  predicate WritesDb(pc: Pc) { pc.CloseHeld? || pc.CloseFreeing? || pc.CloseInside? || pc.CloseLeave? }

  predicate ReadsTxn(pc: Pc, x: TxnId) {
    (pc.TxnHeld? || pc.TxnOpen? || pc.TxnCalling? || pc.TxnInside? || pc.TxnLeave?) && pc.x == x
  }

  predicate WritesTxn(pc: Pc, x: TxnId) {
    && (|| pc.ResolveHeld? || pc.ResolveOpen? || pc.ResolveCalling? || pc.ResolveInside?
        || pc.ResolveFreed? || pc.ResolveMarked? || pc.ResolveLeave?)
    && pc.x == x
  }

  /** A lock is held by exactly the goroutines inside its sections, and a writer excludes everyone. */
  ghost predicate StoreLocked(s: System) {
    && (forall t: Thread :: t in s.closeLk.readers <==> ReadsDb(s.At(t)))
    && (forall t: Thread :: s.closeLk.writer == Some(t) <==> WritesDb(s.At(t)))
    && (s.closeLk.writer.Some? ==> s.closeLk.readers == {})
  }

  ghost predicate TxnLocked(s: System, x: TxnId)
    requires x in s.txns
  {
    var lk := s.txns[x].lk;
    && (forall t: Thread :: t in lk.readers <==> ReadsTxn(s.At(t), x))
    && (forall t: Thread :: lk.writer == Some(t) <==> WritesTxn(s.At(t), x))
    && (lk.writer.Some? ==> lk.readers == {})
  }

  /** The goroutine resolving `x` has freed its handle and not returned yet. */
  predicate PastFree(pc: Pc) {
    pc.ResolveFreed? || pc.ResolveMarked? || (pc.ResolveLeave? && pc.outcome == Consumed)
  }

  function InFlight(s: System, x: TxnId): nat
    requires x in s.txns
  {
    if s.txns[x].lk.writer.Some? && PastFree(s.At(s.txns[x].lk.writer.value)) then 1 else 0
  }

  /** Commits and discards of `x` that returned having consumed its handle. */
  function Consumers(log: seq<Event>, x: TxnId): nat {
    if log == [] then 0
    else
      var e := log[|log| - 1];
      Consumers(log[..|log| - 1], x)
        + if e.call.Resolve? && e.call.x == x && e.outcome == Consumed then 1 else 0
  }

  function Closers(log: seq<Event>): nat {
    if log == [] then 0
    else
      var e := log[|log| - 1];
      Closers(log[..|log| - 1]) + if e.call.Close? && e.outcome == Consumed then 1 else 0
  }

  ghost predicate StoreSafe(s: System) {
    StoreLocked(s) && StoreCounted(s)
  }

  /** Close has set the flag and not freed the store yet. */
  predicate Freeing(pc: Pc) { pc.CloseFreeing? || pc.CloseInside? }

  ghost predicate StoreCounted(s: System) {
    && (forall t: Thread :: s.At(t).DbCalling? || s.At(t).DbInside? ==> !s.closed)
    && (forall t: Thread :: s.At(t).DbLeave? ==> s.At(t).outcome == if s.closed then ErrClosed else Done)
    && (forall t: Thread :: s.At(t).CloseLeave? ==> s.closed && s.At(t).outcome in {Consumed, NoOp})
    && (if s.closeLk.writer.Some? && Freeing(s.At(s.closeLk.writer.value)) then s.closed && s.store.frees == 0
        else s.store.frees == if s.closed then 1 else 0)
    && Closers(s.log) + (if s.closeLk.writer.Some? && s.At(s.closeLk.writer.value) == CloseLeave(Consumed) then 1 else 0)
       == s.store.frees
    && (forall e :: e in s.log && e.call.Close? ==> s.closed && s.store.frees == 1)
  }

  /** What a Commit or a Discard reports fits what became of the transaction: only a Commit is ever
      refused for a closed store, and every other outcome means the transaction is resolved. */
  predicate Truthful(kind: Kind, outcome: Outcome, resolved: bool) {
    match outcome
    case Consumed => resolved
    case ErrClosed => kind.Commit?
    case ErrDiscarded => kind.Commit? && resolved
    case NoOp => kind.Discard? && resolved
    case Done => false
  }

  /** What any other call on a transaction reports. */
  predicate Used(outcome: Outcome, resolved: bool) {
    outcome == ErrClosed || outcome == if resolved then ErrDiscarded else Done
  }

  ghost predicate TxnSafe(s: System, x: TxnId)
    requires x in s.txns
  {
    TxnLocked(s, x) && TxnCounted(s, x)
  }

  ghost predicate TxnCounted(s: System, x: TxnId)
    requires x in s.txns
  {
    var txn := s.txns[x];
    && (forall t: Thread :: s.At(t) == TxnCalling(x) || s.At(t) == TxnInside(x) ==> !txn.resolved)
    && (forall t: Thread :: s.At(t).TxnLeave? && s.At(t).x == x ==> Used(s.At(t).outcome, txn.resolved))
    && (match txn.lk.writer
        case None => txn.resolved == !txn.held && txn.handle.frees == if txn.resolved then 1 else 0
        case Some(t) =>
          match s.At(t)
          case ResolveOpen(kind, _) => kind.Commit? && !txn.resolved && txn.held && txn.handle.frees == 0
          case ResolveCalling(_, _) => !txn.resolved && txn.held && txn.handle.frees == 0
          case ResolveInside(_, _) => !txn.resolved && txn.held && txn.handle.frees == 0
          case ResolveFreed(_, _) => !txn.resolved && txn.held && txn.handle.frees == 1
          case ResolveMarked(_, _) => txn.resolved && txn.held && txn.handle.frees == 1
          case ResolveLeave(kind, _, outcome) =>
            && txn.resolved == !txn.held && (txn.handle.frees == if txn.resolved then 1 else 0)
            && (txn.resolved <==> outcome != ErrClosed)
            && Truthful(kind, outcome, txn.resolved)
          case _ => txn.resolved == !txn.held && txn.handle.frees == if txn.resolved then 1 else 0)
    && Consumers(s.log, x) + InFlight(s, x) == txn.handle.frees
    && (forall e :: e in s.log && e.call.Resolve? && e.call.x == x ==> Truthful(e.call.kind, e.outcome, txn.resolved))
  }

  /** Nothing names a transaction that does not exist. */
  ghost predicate Known(s: System) {
    && (forall t: Thread :: OnTxn(s.At(t)) ==> s.At(t).x in s.txns)
    && (forall e :: e in s.log && e.call.Resolve? ==> e.call.x in s.txns)
  }

  ghost predicate Safe(s: System) {
    && !s.misused && Known(s) && StoreSafe(s)
    && forall x :: x in s.txns ==> TxnSafe(s, x)
  }

  lemma ReturnCounts(log: seq<Event>, e: Event, x: TxnId)
    ensures Consumers(log + [e], x) ==
              Consumers(log, x) + if e.call.Resolve? && e.call.x == x && e.outcome == Consumed then 1 else 0
    ensures Closers(log + [e]) == Closers(log) + if e.call.Close? && e.outcome == Consumed then 1 else 0
  {
    assert (log + [e])[..|log|] == log;
  }

  lemma {:induction false} NoConsumers(log: seq<Event>, x: TxnId)
    requires forall e :: e in log && e.call.Resolve? ==> e.call.x != x
    ensures Consumers(log, x) == 0
  {
    if log != [] { NoConsumers(log[..|log| - 1], x); }
  }

  lemma InitialIsSafe()
    ensures Safe(Initial)
  {
  }

  /** `t` alone has moved, and has returned from a call if it added to the log. */
  ghost predicate Moved(s: System, s': System, t: Thread) {
    && (forall u: Thread :: u != t ==> s'.At(u) == s.At(u))
    && (s'.log == s.log || exists e :: s'.log == s.log + [e])
  }

  // ---- the store ----

  /** A move outside the store's sections leaves the store safe. */
  lemma StoreUntouched(s: System, s': System, t: Thread)
    requires StoreSafe(s) && Moved(s, s', t)
    requires s'.closeLk == s.closeLk && s'.closed == s.closed && s'.store == s.store
    requires !ReadsDb(s.At(t)) && !WritesDb(s.At(t)) && !ReadsDb(s'.At(t)) && !WritesDb(s'.At(t))
    requires s'.log == s.log || exists e :: s'.log == s.log + [e] && !e.call.Close?
    ensures StoreSafe(s')
  {
    if s'.log != s.log {
      var e :| s'.log == s.log + [e] && !e.call.Close?;
      ReturnCounts(s.log, e, 0);
    }
  }

  /** Taking, keeping or giving up the read side of the store's lock. */
  lemma ReaderMoves(s: System, s': System, t: Thread)
    requires StoreLocked(s) && (forall u: Thread :: u != t ==> s'.At(u) == s.At(u))
    requires !WritesDb(s.At(t)) && !WritesDb(s'.At(t)) && s'.closeLk.writer == s.closeLk.writer
    requires ReadsDb(s'.At(t)) && !ReadsDb(s.At(t)) ==> s.closeLk.writer == None
    requires s'.closeLk.readers == if ReadsDb(s'.At(t)) then s.closeLk.readers + {t} else s.closeLk.readers - {t}
    ensures StoreLocked(s')
  {
  }

  lemma ReaderKeepsLock(s: System, t: Thread, id: TxnId, s': System)
    requires StoreLocked(s) && StepDb(s, t, id) == Some(s') && (s.At(t).DbEnter? || ReadsDb(s.At(t)))
    ensures StoreLocked(s')
    ensures forall u: Thread :: u != t ==> s'.At(u) == s.At(u)
  {
    hide StoreLocked, StepDb;
    assert ReadsDb(s.At(t)) ==> t in s.closeLk.readers by { StoreSection(s, t); }
    if s.At(t).DbEnter? || s.At(t).DbLeave? { ReaderLocks(s, t, id, s'); } else { ReaderHoldsOn(s, t, id, s'); }
    ReaderMoves(s, s', t);
  }

  lemma ReaderLocks(s: System, t: Thread, id: TxnId, s': System)
    requires StepDb(s, t, id) == Some(s') && (s.At(t).DbEnter? || s.At(t).DbLeave?)
    ensures !WritesDb(s'.At(t)) && (ReadsDb(s'.At(t)) <==> s.At(t).DbEnter?)
    ensures s.At(t).DbEnter? ==> s.closeLk.writer == None && s'.closeLk == RWLock(s.closeLk.readers + {t}, None)
    ensures s.At(t).DbLeave? ==> s'.closeLk == s.closeLk.(readers := s.closeLk.readers - {t})
    ensures forall u: Thread :: u != t ==> s'.At(u) == s.At(u)
  {
  }

  lemma ReaderHoldsOn(s: System, t: Thread, id: TxnId, s': System)
    requires StepDb(s, t, id) == Some(s') && ReadsDb(s.At(t)) && !s.At(t).DbLeave?
    ensures ReadsDb(s'.At(t)) && s'.closeLk == s.closeLk && s'.log == s.log
    ensures forall u: Thread :: u != t ==> s'.At(u) == s.At(u)
  {
  }

  /** Taking, keeping or giving up the write side. */
  lemma CloserMoves(s: System, s': System, t: Thread)
    requires StoreLocked(s) && (forall u: Thread :: u != t ==> s'.At(u) == s.At(u))
    requires !ReadsDb(s.At(t)) && !ReadsDb(s'.At(t))
    requires if WritesDb(s.At(t)) then s'.closeLk == s.closeLk.(writer := if WritesDb(s'.At(t)) then Some(t) else None)
             else WritesDb(s'.At(t)) && s.closeLk == Unlocked && s'.closeLk == RWLock({}, Some(t))
    ensures StoreLocked(s')
  {
  }

  lemma CloserKeepsLock(s: System, t: Thread, id: TxnId, s': System)
    requires StoreLocked(s) && StepDb(s, t, id) == Some(s') && (s.At(t).CloseEnter? || WritesDb(s.At(t)))
    ensures StoreLocked(s')
    ensures forall u: Thread :: u != t ==> s'.At(u) == s.At(u)
  {
    hide StoreLocked;
    StoreSection(s, t);
    CloserMoves(s, s', t);
  }

  lemma StoreSection(s: System, t: Thread)
    requires StoreLocked(s)
    ensures s.closeLk.writer == Some(t) <==> WritesDb(s.At(t))
    ensures ReadsDb(s.At(t)) ==> s.closeLk.writer == None && t in s.closeLk.readers
    ensures s.closeLk.writer.Some? ==> forall u: Thread :: !ReadsDb(s.At(u))
  {
  }

  lemma ReaderKeepsStore(s: System, t: Thread, id: TxnId, s': System)
    requires StoreSafe(s) && StepDb(s, t, id) == Some(s') && (s.At(t).DbEnter? || ReadsDb(s.At(t)))
    ensures StoreSafe(s') && Moved(s, s', t)
    ensures s.misused == s'.misused
  {
    hide StoreSafe, StepDb, Moved;
    if s.At(t).DbLeave? { ReaderReturns(s, t, id, s'); } else { ReaderProceeds(s, t, id, s'); }
  }

  lemma ReaderReturns(s: System, t: Thread, id: TxnId, s': System)
    requires StoreSafe(s) && StepDb(s, t, id) == Some(s') && s.At(t).DbLeave?
    ensures StoreSafe(s') && Moved(s, s', t)
    ensures s.misused == s'.misused
  {
    hide Closers, StoreLocked;
    ReaderKeepsLock(s, t, id, s');
    StoreSection(s, t);
    StoreSection(s', t);
    var e := s'.log[|s.log|];
    assert s'.log == s.log + [e];
    ReturnCounts(s.log, e, 0);
  }

  lemma ReaderProceeds(s: System, t: Thread, id: TxnId, s': System)
    requires StoreSafe(s) && StepDb(s, t, id) == Some(s') && (s.At(t).DbEnter? || ReadsDb(s.At(t))) && !s.At(t).DbLeave?
    ensures StoreSafe(s') && Moved(s, s', t)
    ensures s.misused == s'.misused
  {
    hide Closers, StoreLocked;
    ReaderKeepsLock(s, t, id, s');
    StoreSection(s, t);
    StoreSection(s', t);
  }

  lemma CloserKeepsStore(s: System, t: Thread, id: TxnId, s': System)
    requires StoreSafe(s) && StepDb(s, t, id) == Some(s') && (s.At(t).CloseEnter? || WritesDb(s.At(t)))
    ensures StoreSafe(s') && Moved(s, s', t)
    ensures s.misused == s'.misused
  {
    hide Closers, StoreLocked;
    CloserKeepsLock(s, t, id, s');
    StoreSection(s, t);
    StoreSection(s', t);
    if s'.log != s.log {
      var e := s'.log[|s.log|];
      assert s'.log == s.log + [e];
      ReturnCounts(s.log, e, 0);
    }
  }

  // ---- one transaction ----

  /** A move outside the sections of `x` leaves it safe. */
  lemma TxnUntouched(s: System, s': System, t: Thread, x: TxnId)
    requires x in s.txns && TxnSafe(s, x) && Moved(s, s', t)
    requires x in s'.txns && s'.txns[x] == s.txns[x]
    requires !ReadsTxn(s.At(t), x) && !WritesTxn(s.At(t), x) && !ReadsTxn(s'.At(t), x) && !WritesTxn(s'.At(t), x)
    requires s'.log == s.log || exists e :: s'.log == s.log + [e] && (e.call.Resolve? ==> e.call.x != x)
    ensures TxnSafe(s', x)
  {
    hide Consumers, TxnLocked;
    if s.txns[x].lk.writer.Some? { TxnSection(s, s.txns[x].lk.writer.value, x); }
    LockUntouched(s, s', t, x);
    if s'.log != s.log {
      var e :| s'.log == s.log + [e] && (e.call.Resolve? ==> e.call.x != x);
      ReturnCounts(s.log, e, x);
    }
  }

  lemma LockUntouched(s: System, s': System, t: Thread, x: TxnId)
    requires x in s.txns && TxnLocked(s, x) && Moved(s, s', t)
    requires x in s'.txns && s'.txns[x] == s.txns[x]
    requires !ReadsTxn(s.At(t), x) && !WritesTxn(s.At(t), x) && !ReadsTxn(s'.At(t), x) && !WritesTxn(s'.At(t), x)
    ensures TxnLocked(s', x)
  {
  }

  predicate UsesTxn(pc: Pc) {
    pc.TxnEnter? || pc.TxnHeld? || pc.TxnOpen? || pc.TxnCalling? || pc.TxnInside? || pc.TxnLeave?
  }

  /** Taking, keeping or giving up the read side of `x`'s lock. */
  lemma UserMoves(s: System, s': System, t: Thread, x: TxnId)
    requires x in s.txns && x in s'.txns && TxnLocked(s, x)
    requires forall u: Thread :: u != t ==> s'.At(u) == s.At(u)
    requires !WritesTxn(s.At(t), x) && !WritesTxn(s'.At(t), x) && s'.txns[x].lk.writer == s.txns[x].lk.writer
    requires ReadsTxn(s'.At(t), x) && !ReadsTxn(s.At(t), x) ==> s.txns[x].lk.writer == None
    requires s'.txns[x].lk.readers ==
               if ReadsTxn(s'.At(t), x) then s.txns[x].lk.readers + {t} else s.txns[x].lk.readers - {t}
    ensures TxnLocked(s', x)
  {
  }

  lemma UserKeepsLock(s: System, t: Thread, x: TxnId, s': System)
    requires x in s.txns && TxnLocked(s, x) && UsesTxn(s.At(t)) && s.At(t).x == x
    requires StepTxn(s, t, x, s.txns[x]) == Some(s')
    ensures x in s'.txns && TxnLocked(s', x)
    ensures forall u: Thread :: u != t ==> s'.At(u) == s.At(u)
  {
    hide TxnLocked;
    assert ReadsTxn(s.At(t), x) ==> t in s.txns[x].lk.readers by { TxnSection(s, t, x); }
    UserMoves(s, s', t, x);
  }

  /** Taking, keeping or giving up the write side of `x`'s lock. */
  lemma WriterMoves(s: System, s': System, t: Thread, x: TxnId)
    requires x in s.txns && x in s'.txns && TxnLocked(s, x)
    requires forall u: Thread :: u != t ==> s'.At(u) == s.At(u)
    requires !ReadsTxn(s.At(t), x) && !ReadsTxn(s'.At(t), x)
    requires if WritesTxn(s.At(t), x) then s'.txns[x].lk == s.txns[x].lk.(writer := if WritesTxn(s'.At(t), x) then Some(t) else None)
             else WritesTxn(s'.At(t), x) && s.txns[x].lk == Unlocked && s'.txns[x].lk == RWLock({}, Some(t))
    ensures TxnLocked(s', x)
  {
  }

  lemma ResolverKeepsLock(s: System, t: Thread, x: TxnId, s': System)
    requires x in s.txns && TxnLocked(s, x) && OnTxn(s.At(t)) && !UsesTxn(s.At(t)) && s.At(t).x == x
    requires StepTxn(s, t, x, s.txns[x]) == Some(s')
    ensures x in s'.txns && TxnLocked(s', x)
    ensures forall u: Thread :: u != t ==> s'.At(u) == s.At(u)
  {
    hide TxnLocked, StepTxn;
    TxnSection(s, t, x);
    if s.At(t).ResolveEnter? || s.At(t).ResolveLeave? {
      ResolverLocks(s, t, x, s');
    } else {
      ResolverHoldsOn(s, t, x, s');
    }
    WriterMoves(s, s', t, x);
  }

  lemma ResolverLocks(s: System, t: Thread, x: TxnId, s': System)
    requires x in s.txns && (s.At(t).ResolveEnter? || s.At(t).ResolveLeave?) && s.At(t).x == x
    requires StepTxn(s, t, x, s.txns[x]) == Some(s')
    ensures x in s'.txns && !ReadsTxn(s'.At(t), x)
    ensures s.At(t).ResolveEnter? ==> WritesTxn(s'.At(t), x) && s.txns[x].lk == Unlocked && s'.txns[x].lk == RWLock({}, Some(t))
    ensures s.At(t).ResolveLeave? ==> !WritesTxn(s'.At(t), x) && s'.txns[x].lk == s.txns[x].lk.(writer := None)
    ensures forall u: Thread :: u != t ==> s'.At(u) == s.At(u)
  {
  }

  lemma ResolverHoldsOn(s: System, t: Thread, x: TxnId, s': System)
    requires x in s.txns && WritesTxn(s.At(t), x) && !s.At(t).ResolveLeave?
    requires StepTxn(s, t, x, s.txns[x]) == Some(s')
    ensures x in s'.txns && WritesTxn(s'.At(t), x) && s'.txns[x].lk == s.txns[x].lk
    ensures forall u: Thread :: u != t ==> s'.At(u) == s.At(u)
  {
  }

  lemma TxnSection(s: System, t: Thread, x: TxnId)
    requires x in s.txns && TxnLocked(s, x)
    ensures s.txns[x].lk.writer == Some(t) <==> WritesTxn(s.At(t), x)
    ensures ReadsTxn(s.At(t), x) ==> s.txns[x].lk.writer == None && t in s.txns[x].lk.readers
    ensures s.txns[x].lk.writer.Some? ==> forall u: Thread :: !ReadsTxn(s.At(u), x)
  {
  }

  lemma UserProceeds(s: System, t: Thread, x: TxnId, s': System)
    requires x in s.txns && TxnSafe(s, x) && UsesTxn(s.At(t)) && !s.At(t).TxnLeave? && s.At(t).x == x
    requires StepTxn(s, t, x, s.txns[x]) == Some(s')
    ensures x in s'.txns && TxnSafe(s', x) && Moved(s, s', t)
    ensures s.misused == s'.misused
  {
    hide Consumers, TxnLocked;
    UserKeepsLock(s, t, x, s');
    TxnSection(s, t, x);
    TxnSection(s', t, x);
  }

  lemma UserReturns(s: System, t: Thread, x: TxnId, s': System)
    requires x in s.txns && TxnSafe(s, x) && s.At(t).TxnLeave? && s.At(t).x == x
    requires StepTxn(s, t, x, s.txns[x]) == Some(s')
    ensures x in s'.txns && TxnSafe(s', x) && Moved(s, s', t)
    ensures s.misused == s'.misused
  {
    hide Consumers, TxnLocked;
    UserKeepsLock(s, t, x, s');
    TxnSection(s, t, x);
    TxnSection(s', t, x);
    ReturnCounts(s.log, Event(UseTxn(x), s.At(t).outcome), x);
  }

  lemma ResolverProceeds(s: System, t: Thread, x: TxnId, s': System)
    requires x in s.txns && TxnSafe(s, x) && OnTxn(s.At(t)) && s.At(t).x == x
    requires !UsesTxn(s.At(t)) && !s.At(t).ResolveLeave?
    requires StepTxn(s, t, x, s.txns[x]) == Some(s')
    ensures x in s'.txns && TxnSafe(s', x) && Moved(s, s', t)
    ensures s.misused == s'.misused
  {
    hide Consumers, TxnLocked;
    ResolverKeepsLock(s, t, x, s');
    TxnSection(s, t, x);
    TxnSection(s', t, x);
  }

  lemma ResolverReturns(s: System, t: Thread, x: TxnId, s': System)
    requires x in s.txns && TxnSafe(s, x) && s.At(t).ResolveLeave? && s.At(t).x == x
    requires StepTxn(s, t, x, s.txns[x]) == Some(s')
    ensures x in s'.txns && TxnSafe(s', x) && Moved(s, s', t)
    ensures s.misused == s'.misused
  {
    hide Consumers, TxnLocked;
    ResolverKeepsLock(s, t, x, s');
    TxnSection(s, t, x);
    TxnSection(s', t, x);
    ReturnCounts(s.log, Event(Resolve(s.At(t).kind, x), s.At(t).outcome), x);
  }

  lemma StepTxnKeepsTxn(s: System, t: Thread, x: TxnId, s': System)
    requires x in s.txns && TxnSafe(s, x) && OnTxn(s.At(t)) && s.At(t).x == x
    requires StepTxn(s, t, x, s.txns[x]) == Some(s')
    ensures x in s'.txns && TxnSafe(s', x) && Moved(s, s', t)
    ensures s.misused == s'.misused
  {
    hide TxnSafe, StepTxn;
    if s.At(t).TxnLeave? { UserReturns(s, t, x, s'); }
    else if UsesTxn(s.At(t)) { UserProceeds(s, t, x, s'); }
    else if s.At(t).ResolveLeave? { ResolverReturns(s, t, x, s'); }
    else { ResolverProceeds(s, t, x, s'); }
  }

  // ---- the whole system ----

  lemma NewTxnIsSafe(s: System, s': System, x: TxnId, t: Thread)
    requires Known(s) && x !in s.txns && x in s'.txns && s'.txns[x] == Txn(Unlocked, false, true, Handle(0))
    requires s'.log == s.log && !OnTxn(s.At(t)) && !OnTxn(s'.At(t))
    requires forall u: Thread :: u != t ==> s'.At(u) == s.At(u)
    ensures TxnSafe(s', x)
  {
    NoConsumers(s'.log, x);
  }

  lemma StaysKnown(s: System, s': System, t: Thread)
    requires Known(s) && Moved(s, s', t) && s.txns.Keys <= s'.txns.Keys
    requires OnTxn(s'.At(t)) ==> s'.At(t).x in s'.txns
    requires s'.log == s.log || exists e :: s'.log == s.log + [e] && (e.call.Resolve? ==> e.call.x in s'.txns)
    ensures Known(s')
  {
  }

  /** Every move keeps every transaction and the store safe. */
  lemma StepKeepsSafe(s: System, m: Move, s': System)
    requires Safe(s) && Do(s, m) == Some(s')
    ensures Safe(s')
  {
    hide TxnSafe, StoreSafe, StepTxn, StepDb, Known;
    match m
    case Begin(t, call) =>
      StaysKnown(s, s', t);
      StoreUntouched(s, s', t);
      forall x | x in s'.txns
        ensures TxnSafe(s', x)
      {
        TxnUntouched(s, s', t, x);
      }
    case Continue(t, id) =>
      if OnTxn(s.At(t)) {
        TxnMoveKeepsSafe(s, t, s');
      } else {
        DbMoveKeepsSafe(s, t, id, s');
      }
  }

  lemma TxnMoveKeepsSafe(s: System, t: Thread, s': System)
    requires Safe(s) && OnTxn(s.At(t)) && s.At(t).x in s.txns
    requires StepTxn(s, t, s.At(t).x, s.txns[s.At(t).x]) == Some(s')
    ensures StoreSafe(s') && !s'.misused && Known(s')
    ensures forall x :: x in s'.txns ==> TxnSafe(s', x)
  {
    hide TxnSafe, StoreSafe, Known, StepTxn;
    var y := s.At(t).x;
    StepTxnKeepsTxn(s, t, y, s');
    TxnMoveStaysInside(s, t, y, s');
    StaysKnown(s, s', t);
    StoreUntouched(s, s', t);
    forall x | x in s'.txns
      ensures TxnSafe(s', x)
    {
      if x != y { TxnUntouched(s, s', t, x); }
    }
  }

  /** A step of a method on `y` touches `y` and nothing else. */
  ghost predicate StaysInside(s: System, t: Thread, y: TxnId, s': System) {
    && s'.closeLk == s.closeLk && s'.closed == s.closed && s'.store == s.store
    && s'.txns.Keys == s.txns.Keys && (forall x :: x in s.txns && x != y ==> s'.txns[x] == s.txns[x])
    && (s'.At(t).Idle? || (OnTxn(s'.At(t)) && s'.At(t).x == y))
    && (s'.log == s.log || exists e :: s'.log == s.log + [e] && !e.call.Close? && (e.call.Resolve? ==> e.call.x == y))
  }

  lemma UserStaysInside(s: System, t: Thread, y: TxnId, s': System)
    requires y in s.txns && UsesTxn(s.At(t)) && !s.At(t).TxnLeave? && s.At(t).x == y
    requires StepTxn(s, t, y, s.txns[y]) == Some(s')
    ensures StaysInside(s, t, y, s')
  {
  }

  /** The goroutine resolving `x` has not called the engine yet. */
  predicate BeforeCall(pc: Pc) {
    pc.ResolveEnter? || pc.ResolveHeld? || pc.ResolveOpen?
  }

  lemma ResolverStaysInside(s: System, t: Thread, y: TxnId, s': System)
    requires y in s.txns && BeforeCall(s.At(t)) && s.At(t).x == y
    requires StepTxn(s, t, y, s.txns[y]) == Some(s')
    ensures StaysInside(s, t, y, s')
  {
  }

  lemma FreerStaysInside(s: System, t: Thread, y: TxnId, s': System)
    requires y in s.txns && (s.At(t).ResolveCalling? || s.At(t).ResolveInside?) && s.At(t).x == y
    requires StepTxn(s, t, y, s.txns[y]) == Some(s')
    ensures StaysInside(s, t, y, s')
  {
  }

  lemma MarkerStaysInside(s: System, t: Thread, y: TxnId, s': System)
    requires y in s.txns && (s.At(t).ResolveFreed? || s.At(t).ResolveMarked?) && s.At(t).x == y
    requires StepTxn(s, t, y, s.txns[y]) == Some(s')
    ensures StaysInside(s, t, y, s')
  {
  }

  lemma ReturnStaysInside(s: System, t: Thread, y: TxnId, s': System)
    requires y in s.txns && (s.At(t).TxnLeave? || s.At(t).ResolveLeave?) && s.At(t).x == y
    requires StepTxn(s, t, y, s.txns[y]) == Some(s')
    ensures StaysInside(s, t, y, s')
  {
    assert s'.log == s.log + [s'.log[|s.log|]];
  }

  lemma TxnMoveStaysInside(s: System, t: Thread, y: TxnId, s': System)
    requires y in s.txns && OnTxn(s.At(t)) && s.At(t).x == y && StepTxn(s, t, y, s.txns[y]) == Some(s')
    ensures StaysInside(s, t, y, s')
  {
    hide StepTxn, StaysInside;
    if s.At(t).TxnLeave? || s.At(t).ResolveLeave? { ReturnStaysInside(s, t, y, s'); }
    else if UsesTxn(s.At(t)) { UserStaysInside(s, t, y, s'); }
    else if BeforeCall(s.At(t)) { ResolverStaysInside(s, t, y, s'); }
    else if s.At(t).ResolveCalling? || s.At(t).ResolveInside? { FreerStaysInside(s, t, y, s'); }
    else { MarkerStaysInside(s, t, y, s'); }
  }

  /** A step of a method on the store adds at most one transaction, a new one, and changes none. */
  ghost predicate StaysOutside(s: System, t: Thread, s': System) {
    && !OnTxn(s'.At(t)) && s.txns.Keys <= s'.txns.Keys
    && (forall x :: x in s.txns ==> s'.txns[x] == s.txns[x])
    && (forall x :: x in s'.txns && x !in s.txns ==> s'.txns[x] == Txn(Unlocked, false, true, Handle(0)) && s'.log == s.log)
    && (s'.log == s.log || exists e :: s'.log == s.log + [e] && !e.call.Resolve?)
  }

  lemma ReaderStaysOutside(s: System, t: Thread, id: TxnId, s': System)
    requires (s.At(t).DbEnter? || ReadsDb(s.At(t))) && !s.At(t).DbLeave? && StepDb(s, t, id) == Some(s')
    ensures StaysOutside(s, t, s')
  {
  }

  lemma CloserStaysOutside(s: System, t: Thread, id: TxnId, s': System)
    requires (s.At(t).CloseEnter? || WritesDb(s.At(t))) && !s.At(t).CloseLeave? && StepDb(s, t, id) == Some(s')
    ensures StaysOutside(s, t, s')
  {
  }

  lemma ReturnStaysOutside(s: System, t: Thread, id: TxnId, s': System)
    requires (s.At(t).DbLeave? || s.At(t).CloseLeave?) && StepDb(s, t, id) == Some(s')
    ensures StaysOutside(s, t, s')
  {
    assert s'.log == s.log + [s'.log[|s.log|]];
  }

  lemma DbMoveKeepsSafe(s: System, t: Thread, id: TxnId, s': System)
    requires Safe(s) && !OnTxn(s.At(t)) && StepDb(s, t, id) == Some(s')
    ensures StoreSafe(s') && !s'.misused && Known(s')
    ensures forall x :: x in s'.txns ==> TxnSafe(s', x)
  {
    hide TxnSafe, StoreSafe, Known, StepDb, StaysOutside;
    assert !s.At(t).Idle? by { IdleIsStill(s, t, id); }
    if s.At(t).DbLeave? || s.At(t).CloseLeave? { ReturnStaysOutside(s, t, id, s'); }
    if s.At(t).DbEnter? || ReadsDb(s.At(t)) {
      ReaderKeepsStore(s, t, id, s');
      if !s.At(t).DbLeave? { ReaderStaysOutside(s, t, id, s'); }
    } else {
      CloserKeepsStore(s, t, id, s');
      if !s.At(t).CloseLeave? { CloserStaysOutside(s, t, id, s'); }
    }
    OutsideKeepsTxns(s, t, s');
  }

  lemma IdleIsStill(s: System, t: Thread, id: TxnId)
    ensures s.At(t).Idle? ==> StepDb(s, t, id) == None
  {
  }

  lemma OutsideKeepsTxns(s: System, t: Thread, s': System)
    requires Known(s) && (forall x :: x in s.txns ==> TxnSafe(s, x))
    requires !OnTxn(s.At(t)) && StaysOutside(s, t, s') && Moved(s, s', t)
    ensures Known(s') && forall x :: x in s'.txns ==> TxnSafe(s', x)
  {
    hide TxnSafe, Known;
    StaysKnown(s, s', t);
    forall x | x in s'.txns
      ensures TxnSafe(s', x)
    {
      if x in s.txns { TxnUntouched(s, s', t, x); } else { NewTxnIsSafe(s, s', x, t); }
    }
  }

  // ---- every run ----

  /** Successive states of a run from the initial one, each move enabled when it is made. */
  ghost predicate IsRun(states: seq<System>, moves: seq<Move>) {
    && |states| == |moves| + 1 && states[0] == Initial
    && forall i :: 0 <= i < |moves| ==> Do(states[i], moves[i]) == Some(states[i + 1])
  }

  lemma {:induction false} RunsStaySafe(states: seq<System>, moves: seq<Move>)
    requires IsRun(states, moves)
    ensures forall i :: 0 <= i < |states| ==> Safe(states[i])
  {
    hide Safe, Do;
    if moves == [] {
      InitialIsSafe();
    } else {
      var n := |moves| - 1;
      RunsStaySafe(states[..n + 1], moves[..n]);
      assert Safe(states[..n + 1][n]);
      StepKeepsSafe(states[n], moves[n], states[n + 1]);
      forall i | 0 <= i < |states|
        ensures Safe(states[i])
      {
        if i <= n { assert states[..n + 1][i] == states[i]; }
      }
    }
  }

  /** In every interleaving, no call reaches a nil or freed handle, each transaction handle is freed at
      most once, and at most one returned Commit or Discard consumed it. The store handle is likewise
      freed at most once, by at most one Close. */
  lemma HandlesFreedOnce(states: seq<System>, moves: seq<Move>, i: nat)
    requires IsRun(states, moves) && i < |states|
    ensures var s := states[i];
            && !s.misused && s.store.frees <= 1 && Closers(s.log) <= 1
            && forall x :: x in s.txns ==> s.txns[x].handle.frees <= 1 && Consumers(s.log, x) <= 1
  {
    RunsStaySafe(states, moves);
    assert Safe(states[i]);
    forall x | x in states[i].txns
      ensures states[i].txns[x].handle.frees <= 1 && Consumers(states[i].log, x) <= 1
    {
      assert TxnSafe(states[i], x);
    }
  }

  /** While a goroutine is inside the engine, the handle it was called with is live: whatever the others
      do, nothing frees it before the call comes back, and a call that frees it does so only then. */
  lemma LiveInsideCalls(states: seq<System>, moves: seq<Move>, i: nat, t: Thread)
    requires IsRun(states, moves) && i < |states|
    ensures var s := states[i];
            && (s.At(t).DbInside? || s.At(t).CloseInside? ==> s.store.Live())
            && (s.At(t).TxnInside? || s.At(t).ResolveInside? ==>
                  s.At(t).x in s.txns && s.txns[s.At(t).x].held && s.txns[s.At(t).x].handle.Live())
  {
    RunsStaySafe(states, moves);
    var s := states[i];
    assert Safe(s);
    if s.At(t).DbInside? || s.At(t).CloseInside? { StoreSection(s, t); }
    if s.At(t).TxnInside? || s.At(t).ResolveInside? {
      assert TxnSafe(s, s.At(t).x);
      TxnSection(s, t, s.At(t).x);
    }
  }

  /** Once a Discard has returned, the handle has been freed, exactly once, whoever freed it; once a
      Close has returned, so has the store's. */
  lemma DiscardAndCloseRelease(states: seq<System>, moves: seq<Move>, i: nat, x: TxnId)
    requires IsRun(states, moves) && i < |states|
    ensures var s := states[i];
            && ((exists e :: e in s.log && e.call == Resolve(Discard, x)) ==> x in s.txns && s.txns[x].handle.frees == 1)
            && ((exists e :: e in s.log && e.call == Close) ==> s.closed && s.store.frees == 1)
  {
    RunsStaySafe(states, moves);
    assert Safe(states[i]);
    if e :| e in states[i].log && e.call == Resolve(Discard, x) {
      assert TxnSafe(states[i], x);
    }
  }

  /** What a Commit or a Discard returned fits what has become of the transaction: only a Commit is refused
      ErrClosed, and every other outcome means that the handle has been freed. */
  lemma OutcomesAreTruthful(states: seq<System>, moves: seq<Move>, i: nat, e: Event)
    requires IsRun(states, moves) && i < |states| && e in states[i].log && e.call.Resolve?
    ensures e.call.x in states[i].txns && Truthful(e.call.kind, e.outcome, states[i].txns[e.call.x].resolved)
    ensures e.outcome != ErrClosed ==> states[i].txns[e.call.x].handle.frees == 1
  {
    RunsStaySafe(states, moves);
    assert Safe(states[i]);
    assert TxnSafe(states[i], e.call.x);
  }

  // ---- the order of what is returned ----

  /** A call that returns this after the calls `before` have returned. The store's methods are refused
      exactly behind the Close that closed it, which is the first; a transaction's are told that it is
      resolved exactly behind the Commit or Discard that consumed it, unless the store refuses them first. */
  predicate InOrder(before: seq<Event>, e: Event) {
    match e.call
    case UseDb => e.outcome == if Closers(before) > 0 then ErrClosed else Done
    case NewTxn => e.outcome == if Closers(before) > 0 then ErrClosed else Done
    case Close => e.outcome == if Closers(before) > 0 then NoOp else Consumed
    case UseTxn(x) => e.outcome == ErrClosed || e.outcome == if Consumers(before, x) > 0 then ErrDiscarded else Done
    case Resolve(kind, x) =>
      if Consumers(before, x) > 0 then e.outcome == if kind.Commit? then ErrDiscarded else NoOp
      else e.outcome == Consumed || (kind.Commit? && e.outcome == ErrClosed)
  }

  ghost predicate LogInOrder(log: seq<Event>) {
    forall k :: 0 <= k < |log| ==> InOrder(log[..k], log[k])
  }

  predicate Returns(pc: Pc) {
    pc.DbLeave? || pc.CloseLeave? || pc.TxnLeave? || pc.ResolveLeave?
  }

  /** What a goroutine about to return will have returned. */
  function Ended(pc: Pc): Event
    requires Returns(pc)
  {
    match pc
    case DbLeave(makes, outcome) => Event(if makes then NewTxn else UseDb, outcome)
    case CloseLeave(outcome) => Event(Close, outcome)
    case TxnLeave(x, outcome) => Event(UseTxn(x), outcome)
    case ResolveLeave(kind, x, outcome) => Event(Resolve(kind, x), outcome)
  }

  lemma DbReturnInOrder(s: System, t: Thread)
    requires StoreSafe(s) && (s.At(t).DbLeave? || s.At(t).CloseLeave?)
    ensures InOrder(s.log, Ended(s.At(t)))
  {
    hide Closers, StoreLocked;
    StoreSection(s, t);
  }

  lemma TxnReturnInOrder(s: System, t: Thread)
    requires s.At(t).TxnLeave? || s.At(t).ResolveLeave?
    requires s.At(t).x in s.txns && TxnSafe(s, s.At(t).x)
    ensures InOrder(s.log, Ended(s.At(t)))
  {
    hide Consumers, TxnLocked;
    TxnSection(s, t, s.At(t).x);
  }

  lemma LogGrows(s: System, m: Move, s': System)
    requires Do(s, m) == Some(s')
    ensures if m.Continue? && Returns(s.At(m.t)) then s'.log == s.log + [Ended(s.At(m.t))] else s'.log == s.log
  {
  }

  lemma StepKeepsOrder(s: System, m: Move, s': System)
    requires Safe(s) && Do(s, m) == Some(s') && LogInOrder(s.log)
    ensures LogInOrder(s'.log)
  {
    hide StoreSafe, TxnSafe, Do, InOrder;
    LogGrows(s, m, s');
    if m.Continue? && Returns(s.At(m.t)) {
      if OnTxn(s.At(m.t)) { TxnReturnInOrder(s, m.t); } else { DbReturnInOrder(s, m.t); }
      forall k | 0 <= k < |s'.log|
        ensures InOrder(s'.log[..k], s'.log[k])
      {
        assert s'.log[..k] == s.log[..k];
        assert s.log[..|s.log|] == s.log;
      }
    }
  }

  /** In every interleaving, calls return in an order that could have been that of calls made one after
      the other. */
  lemma {:induction false} OutcomesInOrder(states: seq<System>, moves: seq<Move>, i: nat)
    requires IsRun(states, moves) && i < |states|
    ensures LogInOrder(states[i].log)
  {
    hide Do, LogInOrder, Safe;
    if i == 0 {
      NothingReturned();
    } else {
      OutcomesInOrder(states, moves, i - 1);
      RunsStaySafe(states, moves);
      StepKeepsOrder(states[i - 1], moves[i - 1], states[i]);
    }
  }

  lemma NothingReturned()
    ensures LogInOrder(Initial.log)
  {
  }

  /** ErrClosed is never returned before the store is closed. */
  ghost predicate RefusedWhenClosed(s: System) {
    && (forall t: Thread :: Returns(s.At(t)) && s.At(t).outcome == ErrClosed ==> s.closed)
    && (forall e :: e in s.log && e.outcome == ErrClosed ==> s.closed)
  }

  lemma StepKeepsRefusals(s: System, m: Move, s': System)
    requires RefusedWhenClosed(s) && Do(s, m) == Some(s')
    ensures RefusedWhenClosed(s')
  {
    hide Do;
    LogGrows(s, m, s');
    RefusesWhenClosed(s, m, s');
  }

  /** `t` has moved, and is about to return ErrClosed only if the store is closed. */
  ghost predicate RefusesFairly(s: System, t: Thread, s': System) {
    && (s.closed ==> s'.closed)
    && (forall u: Thread :: u != t ==> s'.At(u) == s.At(u))
    && (Returns(s'.At(t)) && s'.At(t).outcome == ErrClosed ==> s'.closed)
  }

  lemma RefusesWhenClosed(s: System, m: Move, s': System)
    requires Do(s, m) == Some(s')
    ensures RefusesFairly(s, m.t, s')
  {
    hide StepDb, StepTxn;
    if m.Continue? {
      var t, pc := m.t, s.At(m.t);
      hide RefusesFairly;
      if UsesTxn(pc) { UserRefusesFairly(s, t, pc.x, s'); }
      else if !OnTxn(pc) { DbRefusesFairly(s, t, m.id, s'); }
      else if BeforeCall(pc) { ResolverRefusesFairly(s, t, pc.x, s'); }
      else { FreerRefusesFairly(s, t, pc.x, s'); }
    }
  }

  lemma DbRefusesFairly(s: System, t: Thread, id: TxnId, s': System)
    requires !OnTxn(s.At(t)) && StepDb(s, t, id) == Some(s')
    ensures RefusesFairly(s, t, s')
  {
  }

  lemma UserRefusesFairly(s: System, t: Thread, x: TxnId, s': System)
    requires x in s.txns && UsesTxn(s.At(t)) && StepTxn(s, t, x, s.txns[x]) == Some(s')
    ensures RefusesFairly(s, t, s')
  {
  }

  lemma ResolverRefusesFairly(s: System, t: Thread, x: TxnId, s': System)
    requires x in s.txns && BeforeCall(s.At(t)) && StepTxn(s, t, x, s.txns[x]) == Some(s')
    ensures RefusesFairly(s, t, s')
  {
  }

  lemma FreerRefusesFairly(s: System, t: Thread, x: TxnId, s': System)
    requires x in s.txns && OnTxn(s.At(t)) && !UsesTxn(s.At(t)) && !BeforeCall(s.At(t))
    requires StepTxn(s, t, x, s.txns[x]) == Some(s')
    ensures RefusesFairly(s, t, s')
  {
  }

  lemma {:induction false} RefusedOnlyWhenClosed(states: seq<System>, moves: seq<Move>, i: nat)
    requires IsRun(states, moves) && i < |states|
    ensures RefusedWhenClosed(states[i])
  {
    hide Do;
    if i > 0 {
      RefusedOnlyWhenClosed(states, moves, i - 1);
      StepKeepsRefusals(states[i - 1], moves[i - 1], states[i]);
    }
  }

  // ---- nobody waits for ever ----

  predicate Waits(pc: Pc) {
    pc.DbEnter? || pc.CloseEnter? || pc.TxnEnter? || pc.ResolveEnter?
  }

  ghost predicate CanMove(s: System, t: Thread) {
    exists id :: Do(s, Continue(t, id)).Some?
  }

  lemma {:induction false} UnusedId(ids: set<TxnId>) returns (id: TxnId)
    ensures id !in ids && forall x :: x in ids ==> x < id
  {
    if ids == {} { return 0; }
    var x :| x in ids;
    var rest := UnusedId(ids - {x});
    id := if x < rest then rest else x + 1;
    assert forall y :: y in ids ==> y == x || y in ids - {x};
  }

  /** Past its lock, a goroutine is never held up. */
  lemma HolderMoves(s: System, t: Thread)
    requires Known(s) && !s.At(t).Idle? && !Waits(s.At(t))
    ensures CanMove(s, t)
  {
    var id := UnusedId(s.txns.Keys);
    assert Do(s, Continue(t, id)).Some?;
  }

  /** A goroutine waiting for a lock waits for one that holds it. */
  lemma WaiterMoves(s: System, t: Thread) returns (u: Thread)
    requires Safe(s) && Waits(s.At(t))
    ensures CanMove(s, u) && (u == t || (!s.At(u).Idle? && !Waits(s.At(u))))
  {
    hide Closers, Consumers;
    if Do(s, Continue(t, 0)).Some? { return t; }
    if OnTxn(s.At(t)) {
      var x := s.At(t).x;
      assert TxnSafe(s, x);
      var lk := s.txns[x].lk;
      if lk.writer.Some? { u := lk.writer.value; } else { u :| u in lk.readers; }
    } else {
      var lk := s.closeLk;
      if lk.writer.Some? { u := lk.writer.value; } else { u :| u in lk.readers; }
    }
    HolderMoves(s, u);
  }

  /** No deadlock: as long as any call is under way, some goroutine can take a step. */
  lemma NoDeadlock(states: seq<System>, moves: seq<Move>, i: nat, t: Thread)
    requires IsRun(states, moves) && i < |states| && !states[i].At(t).Idle?
    ensures exists u :: CanMove(states[i], u)
  {
    hide CanMove;
    RunsStaySafe(states, moves);
    assert Safe(states[i]);
    if Waits(states[i].At(t)) {
      var u := WaiterMoves(states[i], t);
    } else {
      HolderMoves(states[i], t);
    }
  }

  /** A handle stays live exactly as long as no call has consumed it: a Commit refused with ErrClosed,
      or with anything else, leaves it for a Discard to release. */
  lemma LiveUntilConsumed(states: seq<System>, moves: seq<Move>, i: nat, x: TxnId)
    requires IsRun(states, moves) && i < |states| && x in states[i].txns
    requires states[i].txns[x].lk.writer == None
    ensures var s := states[i];
            && (s.txns[x].handle.Live() <==> Consumers(s.log, x) == 0)
            && (s.txns[x].handle.Live() <==> !s.txns[x].resolved && s.txns[x].held)
  {
    RunsStaySafe(states, moves);
    assert TxnSafe(states[i], x);
  }
}
