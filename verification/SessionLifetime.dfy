/** The life of native session handles under any interleaving of callers, including callers running on
    a session's own worker thread (`services/rdp-core/src/ffi.rs`, `services/rdp-core/src/runtime.rs`).

    One step is one critical section: a registry access, a session-state access, or one access to the
    worker slot. `drdp_session_start` holds the state lock while it spawns, so its two halves are two
    steps with the lock held in between. */
module SessionLifetime {
  import opened Words

  type Token = nat
  type Thread = nat

  datatype Phase = Created | Running | Destroyed

  datatype Worker =
    | NoWorker
    | Alive(thread: Thread)
    | Finished(thread: Thread, panicked: bool)

  /** `slot`: the join handle is in the runtime's worker slot. `locked`: the state lock is held. */
  datatype Session = Session(phase: Phase, locked: bool, worker: Worker, slot: bool, stop: bool)

  /** Where a thread is inside an exported function; a thread not recorded is outside all of them. */
  datatype Call =
    | StartFound(token: Token)
    | StartSpawned(token: Token)
    | DisconnectFound(token: Token)
    | DestroyFound(token: Token)
    | DestroyChecked(token: Token)
    | DestroyRemoved(token: Token)
    | DestroyStopping(token: Token)
    | JoinTook(token: Token)

  /** `done` records the tokens for which a destroy has returned success. */
  datatype State = State(next: Token, registry: set<Token>, sessions: map<Token, Session>,
                         calls: map<Thread, Call>, done: set<Token>)

  const START := State(1, {}, map[], map[], {})

  datatype Code = Success | InvalidHandle | AlreadyStarted | Internal | CallbackThread

  datatype Return = Return(thread: Thread, token: Token, code: Code)

  datatype Event =
    | Create
    | StartLookup(thread: Thread, token: Token)
    | StartSpawn(thread: Thread, spawned: Option<Thread>)
    | StartStore(thread: Thread)
    | DisconnectLookup(thread: Thread, token: Token)
    | DisconnectSignal(thread: Thread)
    | DestroyLookup(thread: Thread, token: Token)
    | DestroyCheck(thread: Thread)
    | DestroyRemove(thread: Thread)
    | DestroyReplace(thread: Thread)
    | JoinTake(thread: Thread)
    | JoinWait(thread: Thread)
    | WorkerEnds(token: Token, panicked: bool)

  function WorkerIs(w: Worker, thread: Thread): bool {
    !w.NoWorker? && w.thread == thread
  }

  /** A thread can call when it is outside every call and is not a worker that has finished. */
  ghost predicate CanCall(s: State, thread: Thread) {
    && thread !in s.calls
    && forall t :: t in s.sessions && WorkerIs(s.sessions[t].worker, thread) ==> s.sessions[t].worker.Alive?
  }

  function Enter(s: State, thread: Thread, c: Call): State {
    s.(calls := s.calls[thread := c])
  }

  function Leave(s: State, thread: Thread): State {
    s.(calls := s.calls - {thread})
  }

  function SetSession(s: State, token: Token, x: Session): State {
    s.(sessions := s.sessions[token := x])
  }

  /** The next state, and what an exported function returned if it returned. An event that is not
      enabled changes nothing. */
  ghost function Step(s: State, e: Event): (State, Option<Return>)
    requires Known(s)
  {
    match e
    case Create =>
      (s.(next := s.next + 1, registry := s.registry + {s.next},
          sessions := s.sessions[s.next := Session(Created, false, NoWorker, false, false)]), None)

    case StartLookup(th, t) =>
      if !CanCall(s, th) then (s, None)
      else if t !in s.registry then (s, Some(Return(th, t, InvalidHandle)))
      else (Enter(s, th, StartFound(t)), None)
    case StartSpawn(th, spawned) =>
      if th !in s.calls || !s.calls[th].StartFound? then (s, None)
      else
        var t := s.calls[th].token;
        var x := s.sessions[t];
        if x.locked then (s, None)
        else if x.phase == Running then (Leave(s, th), Some(Return(th, t, AlreadyStarted)))
        else if x.phase == Destroyed then (Leave(s, th), Some(Return(th, t, InvalidHandle)))
        else if spawned.None? then (Leave(s, th), Some(Return(th, t, Internal)))
        else if spawned.value in s.calls then (s, None)
        else (Enter(SetSession(s, t, x.(locked := true, worker := Alive(spawned.value))), th, StartSpawned(t)), None)
    case StartStore(th) =>
      if th !in s.calls || !s.calls[th].StartSpawned? then (s, None)
      else
        var t := s.calls[th].token;
        (Leave(SetSession(s, t, s.sessions[t].(phase := Running, slot := true, locked := false)), th), Some(Return(th, t, Success)))

    case DisconnectLookup(th, t) =>
      if !CanCall(s, th) then (s, None)
      else if t !in s.registry then (s, Some(Return(th, t, InvalidHandle)))
      else (Enter(s, th, DisconnectFound(t)), None)
    case DisconnectSignal(th) =>
      if th !in s.calls || !s.calls[th].DisconnectFound? then (s, None)
      else
        var t := s.calls[th].token;
        var x := s.sessions[t];
        if x.locked then (s, None)
        else (Leave(SetSession(s, t, if x.phase == Running then x.(stop := true) else x), th), Some(Return(th, t, Success)))

    case DestroyLookup(th, t) =>
      if !CanCall(s, th) then (s, None)
      else if t !in s.registry then (s, Some(Return(th, t, InvalidHandle)))
      else (Enter(s, th, DestroyFound(t)), None)
    case DestroyCheck(th) =>
      if th !in s.calls || !s.calls[th].DestroyFound? then (s, None)
      else
        var t := s.calls[th].token;
        var x := s.sessions[t];
        if x.locked then (s, None)
        else if x.phase == Running && x.slot && WorkerIs(x.worker, th) then
          (Leave(SetSession(s, t, x.(stop := true)), th), Some(Return(th, t, CallbackThread)))
        else (Enter(s, th, DestroyChecked(t)), None)
    case DestroyRemove(th) =>
      if th !in s.calls || !s.calls[th].DestroyChecked? then (s, None)
      else
        var t := s.calls[th].token;
        if t !in s.registry then (Leave(s, th), Some(Return(th, t, InvalidHandle)))
        else (Enter(s.(registry := s.registry - {t}), th, DestroyRemoved(t)), None)
    case DestroyReplace(th) =>
      if th !in s.calls || !s.calls[th].DestroyRemoved? then (s, None)
      else
        var t := s.calls[th].token;
        var x := s.sessions[t];
        if x.locked then (s, None)
        else if x.phase == Running then (Enter(SetSession(s, t, x.(phase := Destroyed, stop := true)), th, DestroyStopping(t)), None)
        else (Succeed(Leave(SetSession(s, t, x.(phase := Destroyed)), th), t), Some(Return(th, t, Success)))
    case JoinTake(th) =>
      if th !in s.calls || !s.calls[th].DestroyStopping? then (s, None)
      else
        var t := s.calls[th].token;
        if !s.sessions[t].slot then (Succeed(Leave(s, th), t), Some(Return(th, t, Success)))
        else (Enter(SetSession(s, t, s.sessions[t].(slot := false)), th, JoinTook(t)), None)
    case JoinWait(th) =>
      if th !in s.calls || !s.calls[th].JoinTook? then (s, None)
      else
        var t := s.calls[th].token;
        var x := s.sessions[t];
        if WorkerIs(x.worker, th) then
          (Leave(SetSession(s, t, x.(slot := true)), th), Some(Return(th, t, CallbackThread)))
        else if !x.worker.Finished? then (s, None)
        else if x.worker.panicked then (Leave(s, th), Some(Return(th, t, CallbackThread)))
        else (Succeed(Leave(s, th), t), Some(Return(th, t, Success)))

    case WorkerEnds(t, panicked) =>
      if t in s.sessions && s.sessions[t].worker.Alive? && s.sessions[t].worker.thread !in s.calls then
        (SetSession(s, t, s.sessions[t].(worker := Finished(s.sessions[t].worker.thread, panicked))), None)
      else (s, None)
  }

  function Succeed(s: State, t: Token): State {
    s.(done := s.done + {t})
  }

  // ---------------------------------------------------------------- the invariant

  predicate PastRemoval(c: Call, t: Token) {
    c.token == t && (c.DestroyRemoved? || c.DestroyStopping? || c.JoinTook?)
  }

  /** Some destroy of `t` has removed the token and has not returned. */
  ghost predicate DestroyInFlight(s: State, t: Token) {
    exists th :: th in s.calls && PastRemoval(s.calls[th], t)
  }

  ghost predicate Known(s: State) {
    && (forall t :: t in s.registry ==> t in s.sessions)
    && (forall th :: th in s.calls ==> s.calls[th].token in s.sessions)
  }

  ghost predicate SessionOk(s: State, t: Token)
    requires t in s.sessions
  {
    var x := s.sessions[t];
    && t < s.next
    && (x.phase == Created ==> !x.slot && (x.locked <==> !x.worker.NoWorker?))
    && (x.phase == Created && x.locked ==> exists th :: th in s.calls && s.calls[th] == StartSpawned(t))
    && (x.phase == Running ==> !x.locked && x.slot && !x.worker.NoWorker?)
    && (x.phase == Destroyed ==> !x.locked && t !in s.registry)
    && (t !in s.registry ==> DestroyInFlight(s, t) || (x.phase == Destroyed && !x.worker.Alive?))
    && (t in s.done ==> x.phase == Destroyed && !x.worker.Alive?)
  }

  ghost predicate CallOk(s: State, th: Thread)
    requires Known(s) && th in s.calls
  {
    var c := s.calls[th];
    var x := s.sessions[c.token];
    && (WorkerIs(x.worker, th) ==> x.worker.Alive?)
    && (c.StartSpawned? ==> x.phase == Created && x.locked)
    && (c.DestroyChecked? && WorkerIs(x.worker, th) ==> x.phase == Destroyed)
    && (c.DestroyRemoved? ==> x.phase != Destroyed)
    && (c.DestroyStopping? ==> x.phase == Destroyed && x.slot && !x.worker.NoWorker?)
    && (c.JoinTook? ==> x.phase == Destroyed && !x.slot && !x.worker.NoWorker?)
    && (PastRemoval(c, c.token) ==> c.token !in s.registry && !WorkerIs(x.worker, th))
  }

  ghost predicate Exclusive(s: State) {
    && (forall a, b :: a in s.calls && b in s.calls && PastRemoval(s.calls[a], s.calls[b].token) && PastRemoval(s.calls[b], s.calls[a].token) ==> a == b)
    && (forall a, b :: a in s.calls && b in s.calls && s.calls[a].StartSpawned? && s.calls[a] == s.calls[b] ==> a == b)
  }

  ghost predicate Inv(s: State) {
    && Known(s)
    && (forall t :: t in s.sessions ==> SessionOk(s, t))
    && (forall t :: t in s.done ==> t in s.sessions)
    && (forall th :: th in s.calls ==> CallOk(s, th))
    && Exclusive(s)
  }

  /** Thread `th`, inside a call about token `t` or outside every call, moves to `to`; session `t` becomes
      `x`; the token may leave the registry, and may be recorded as destroyed. */
  ghost function Moved(s: State, th: Thread, to: Option<Call>, t: Token, x: Session, unregister: bool, finish: bool): State {
    s.(calls := if to.Some? then s.calls[th := to.value] else s.calls - {th},
       sessions := s.sessions[t := x],
       registry := if unregister then s.registry - {t} else s.registry,
       done := if finish then s.done + {t} else s.done)
  }

  /** The obligations of such a move that concern its own token. */
  ghost predicate MoveOk(s: State, th: Thread, to: Option<Call>, t: Token, x: Session, unregister: bool, finish: bool)
    requires Inv(s)
  {
    var s' := Moved(s, th, to, t, x, unregister, finish);
    && t in s.sessions
    && (th in s.calls ==> s.calls[th].token == t)
    && (to.Some? ==> to.value.token == t)
    && (to.Some? && PastRemoval(to.value, t) ==> (th in s.calls && PastRemoval(s.calls[th], t)) || t in s.registry)
    && (to.Some? && to.value.StartSpawned? ==> !s.sessions[t].locked)
    && Known(s') && SessionOk(s', t)
    && (forall other :: other in s'.calls && s'.calls[other].token == t ==> CallOk(s', other))
  }

  lemma OtherSessionKeeps(s: State, th: Thread, to: Option<Call>, t: Token, x: Session, unregister: bool, finish: bool, u: Token)
    requires Known(s) && u in s.sessions && u != t && SessionOk(s, u)
    requires th in s.calls ==> s.calls[th].token == t
    ensures SessionOk(Moved(s, th, to, t, x, unregister, finish), u)
  {
    var s' := Moved(s, th, to, t, x, unregister, finish);
    if s.sessions[u].phase == Created && s.sessions[u].locked {
      var a :| a in s.calls && s.calls[a] == StartSpawned(u);
      assert s'.calls[a] == StartSpawned(u);
    }
    if DestroyInFlight(s, u) {
      var a :| a in s.calls && PastRemoval(s.calls[a], u);
      assert a in s'.calls && PastRemoval(s'.calls[a], u);
    }
  }

  lemma MoveExclusive(s: State, th: Thread, to: Option<Call>, t: Token, x: Session, unregister: bool, finish: bool)
    requires Inv(s) && MoveOk(s, th, to, t, x, unregister, finish)
    ensures Exclusive(Moved(s, th, to, t, x, unregister, finish))
  {
    var s' := Moved(s, th, to, t, x, unregister, finish);
    forall a, b | a in s'.calls && b in s'.calls && PastRemoval(s'.calls[a], s'.calls[b].token) && PastRemoval(s'.calls[b], s'.calls[a].token)
      ensures a == b
    {
      if a != th { assert CallOk(s, a); }
      if b != th { assert CallOk(s, b); }
    }
    forall a, b | a in s'.calls && b in s'.calls && s'.calls[a].StartSpawned? && s'.calls[a] == s'.calls[b]
      ensures a == b
    {
      if a != th { assert CallOk(s, a); }
      if b != th { assert CallOk(s, b); }
    }
  }

  lemma MoveKeeps(s: State, th: Thread, to: Option<Call>, t: Token, x: Session, unregister: bool, finish: bool)
    requires Inv(s) && MoveOk(s, th, to, t, x, unregister, finish)
    ensures Inv(Moved(s, th, to, t, x, unregister, finish))
  {
    var s' := Moved(s, th, to, t, x, unregister, finish);
    forall u | u in s'.sessions ensures SessionOk(s', u) {
      if u != t {
        OtherSessionKeeps(s, th, to, t, x, unregister, finish, u);
      }
    }
    forall other | other in s'.calls ensures CallOk(s', other) {
      if other != th {
        assert CallOk(s, other);
      }
    }
    MoveExclusive(s, th, to, t, x, unregister, finish);
  }

  /** What session `t` owes to the positions of other threads survives a move of `th`. */
  lemma OthersStay(s: State, th: Thread, to: Option<Call>, t: Token, x: Session, unregister: bool, finish: bool)
    requires Inv(s) && t in s.sessions
    requires th in s.calls ==> !PastRemoval(s.calls[th], t) && s.calls[th] != StartSpawned(t)
    ensures var s' := Moved(s, th, to, t, x, unregister, finish);
            && (DestroyInFlight(s, t) ==> DestroyInFlight(s', t))
            && (s.sessions[t].phase == Created && s.sessions[t].locked ==> exists a :: a in s'.calls && s'.calls[a] == StartSpawned(t))
  {
    var s' := Moved(s, th, to, t, x, unregister, finish);
    assert SessionOk(s, t);
    if DestroyInFlight(s, t) {
      var a :| a in s.calls && PastRemoval(s.calls[a], t);
      assert a in s'.calls && PastRemoval(s'.calls[a], t);
    }
    if s.sessions[t].phase == Created && s.sessions[t].locked {
      var a :| a in s.calls && s.calls[a] == StartSpawned(t);
      assert a in s'.calls && s'.calls[a] == StartSpawned(t);
    }
  }

  // ---------------------------------------------------------------- every step keeps it

  lemma CreateKeeps(s: State)
    requires Inv(s)
    ensures Inv(Step(s, Create).0)
  {
    var s' := Step(s, Create).0;
    forall u | u in s'.sessions ensures SessionOk(s', u) {
      if u != s.next {
        assert SessionOk(s, u);
        if DestroyInFlight(s, u) {
          var a :| a in s.calls && PastRemoval(s.calls[a], u);
          assert DestroyInFlight(s', u);
        }
      }
    }
    forall th | th in s'.calls ensures CallOk(s', th) {
      assert CallOk(s, th);
    }
  }

  lemma LookupKeeps(s: State, th: Thread, c: Call)
    requires Inv(s) && CanCall(s, th) && c.token in s.registry
    requires c.StartFound? || c.DisconnectFound? || c.DestroyFound?
    ensures Inv(Enter(s, th, c))
  {
    var t := c.token;
    var x := s.sessions[t];
    OthersStay(s, th, Some(c), t, x, false, false);
    var s' := Moved(s, th, Some(c), t, x, false, false);
    assert s' == Enter(s, th, c) by { assert s.sessions[t := x] == s.sessions; }
    forall other | other in s'.calls && s'.calls[other].token == t ensures CallOk(s', other) {
      assert other != th ==> CallOk(s, other);
    }
    MoveKeeps(s, th, Some(c), t, x, false, false);
  }

  /** A move that leaves the session's phase, lock and worker slot alone. */
  lemma QuietMoveKeeps(s: State, th: Thread, to: Option<Call>, stop: bool)
    requires Inv(s) && th in s.calls
    requires !PastRemoval(s.calls[th], s.calls[th].token) && !s.calls[th].StartSpawned?
    requires to.None? || (to == Some(DestroyChecked(s.calls[th].token))
             && (WorkerIs(s.sessions[s.calls[th].token].worker, th) ==> s.sessions[s.calls[th].token].phase == Destroyed))
    ensures var t := s.calls[th].token; Inv(Moved(s, th, to, t, s.sessions[t].(stop := stop), false, false))
  {
    var t := s.calls[th].token;
    var x := s.sessions[t].(stop := stop);
    assert SessionOk(s, t);
    OthersStay(s, th, to, t, x, false, false);
    var s' := Moved(s, th, to, t, x, false, false);
    forall other | other in s'.calls && s'.calls[other].token == t ensures CallOk(s', other) {
      assert CallOk(s, other);
    }
    MoveKeeps(s, th, to, t, x, false, false);
  }

  lemma StartSpawnKeeps(s: State, th: Thread, w: Thread)
    requires Inv(s) && th in s.calls && s.calls[th].StartFound? && w !in s.calls
    requires var x := s.sessions[s.calls[th].token]; x.phase == Created && !x.locked
    ensures var t := s.calls[th].token;
            Inv(Moved(s, th, Some(StartSpawned(t)), t, s.sessions[t].(locked := true, worker := Alive(w)), false, false))
  {
    var t := s.calls[th].token;
    var x := s.sessions[t].(locked := true, worker := Alive(w));
    assert SessionOk(s, t);
    var to := Some(StartSpawned(t));
    OthersStay(s, th, to, t, x, false, false);
    var s' := Moved(s, th, to, t, x, false, false);
    assert s'.calls[th] == StartSpawned(t);
    forall other | other in s'.calls && s'.calls[other].token == t ensures CallOk(s', other) {
      assert CallOk(s, other);
    }
    MoveKeeps(s, th, to, t, x, false, false);
  }

  lemma StartStoreKeeps(s: State, th: Thread)
    requires Inv(s) && th in s.calls && s.calls[th].StartSpawned?
    ensures var t := s.calls[th].token;
            Inv(Moved(s, th, None, t, s.sessions[t].(phase := Running, slot := true, locked := false), false, false))
  {
    var t := s.calls[th].token;
    var x := s.sessions[t].(phase := Running, slot := true, locked := false);
    assert SessionOk(s, t) && CallOk(s, th);
    var s' := Moved(s, th, None, t, x, false, false);
    if DestroyInFlight(s, t) {
      var a :| a in s.calls && PastRemoval(s.calls[a], t);
      assert a in s'.calls && PastRemoval(s'.calls[a], t);
    }
    forall other | other in s'.calls && s'.calls[other].token == t ensures CallOk(s', other) {
      assert CallOk(s, other);
    }
    MoveKeeps(s, th, None, t, x, false, false);
  }

  lemma DestroyRemoveKeeps(s: State, th: Thread)
    requires Inv(s) && th in s.calls && s.calls[th].DestroyChecked? && s.calls[th].token in s.registry
    ensures var t := s.calls[th].token; Inv(Moved(s, th, Some(DestroyRemoved(t)), t, s.sessions[t], true, false))
  {
    var t := s.calls[th].token;
    var x, to := s.sessions[t], Some(DestroyRemoved(t));
    assert SessionOk(s, t) && CallOk(s, th);
    OthersStay(s, th, to, t, x, true, false);
    var s' := Moved(s, th, to, t, x, true, false);
    assert DestroyInFlight(s', t) by { assert PastRemoval(s'.calls[th], t); }
    forall other | other in s'.calls && s'.calls[other].token == t ensures CallOk(s', other) {
      assert CallOk(s, other);
    }
    MoveKeeps(s, th, to, t, x, true, false);
  }

  /** The move of a destroy that is past the removal: no other thread is, for the same token. */
  lemma PastRemovalMoveKeeps(s: State, th: Thread, to: Option<Call>, x: Session, finish: bool)
    requires Inv(s) && th in s.calls && PastRemoval(s.calls[th], s.calls[th].token)
    requires var t := s.calls[th].token;
             && var was := s.sessions[t];
             && !was.locked && x.phase == Destroyed && !x.locked && x.worker == was.worker
             && (was.phase == Destroyed || to.None? || to.value.DestroyStopping?) && (finish ==> to.None?)
             && match to
                case None => !x.worker.Alive?
                case Some(c) => c.token == t && !x.worker.NoWorker? && ((c.DestroyStopping? && x.slot) || (c.JoinTook? && !x.slot))
    ensures var t := s.calls[th].token; Inv(Moved(s, th, to, t, x, false, finish))
  {
    var t := s.calls[th].token;
    assert SessionOk(s, t) && CallOk(s, th);
    var s' := Moved(s, th, to, t, x, false, finish);
    if to.Some? {
      assert DestroyInFlight(s', t) by { assert PastRemoval(s'.calls[th], t); }
    }
    forall other | other in s'.calls && s'.calls[other].token == t ensures CallOk(s', other) {
      assert CallOk(s, other);
      if other != th {
        assert !PastRemoval(s.calls[other], t);
      }
    }
    MoveKeeps(s, th, to, t, x, false, finish);
  }

  lemma WorkerEndsKeeps(s: State, t: Token, panicked: bool)
    requires Inv(s) && t in s.sessions && s.sessions[t].worker.Alive? && s.sessions[t].worker.thread !in s.calls
    ensures Inv(SetSession(s, t, s.sessions[t].(worker := Finished(s.sessions[t].worker.thread, panicked))))
  {
    var w := s.sessions[t].worker.thread;
    var x := s.sessions[t].(worker := Finished(w, panicked));
    assert SessionOk(s, t);
    OthersStay(s, w, None, t, x, false, false);
    var s' := Moved(s, w, None, t, x, false, false);
    assert s' == SetSession(s, t, x) by { assert s.calls - {w} == s.calls; }
    forall other | other in s'.calls && s'.calls[other].token == t ensures CallOk(s', other) {
      assert CallOk(s, other);
    }
    MoveKeeps(s, w, None, t, x, false, false);
  }

  lemma SameSession(s: State, t: Token)
    requires t in s.sessions
    ensures s.sessions[t := s.sessions[t]] == s.sessions
  {
  }

  lemma StartKeeps(s: State, e: Event)
    requires Inv(s) && (e.StartSpawn? || e.StartStore? || e.DisconnectSignal?)
    ensures Inv(Step(s, e).0)
  {
    var th := e.thread;
    var s' := Step(s, e).0;
    if s' != s {
      var t := s.calls[th].token;
      SameSession(s, t);
      match e {
        case StartSpawn(_, spawned) =>
          if s'.calls == s.calls - {th} {
            QuietMoveKeeps(s, th, None, s.sessions[t].stop);
          } else {
            StartSpawnKeeps(s, th, spawned.value);
          }
        case StartStore(_) => StartStoreKeeps(s, th);
        case DisconnectSignal(_) => QuietMoveKeeps(s, th, None, s'.sessions[t].stop);
        case _ =>
      }
    }
  }

  lemma DestroyKeeps(s: State, e: Event)
    requires Inv(s) && (e.DestroyCheck? || e.DestroyRemove?)
    ensures Inv(Step(s, e).0)
  {
    var th := e.thread;
    var s' := Step(s, e).0;
    if s' != s {
      var t := s.calls[th].token;
      SameSession(s, t);
      assert SessionOk(s, t);
      if e.DestroyCheck? {
        QuietMoveKeeps(s, th, if th in s'.calls then Some(DestroyChecked(t)) else None, s'.sessions[t].stop);
      } else if t in s.registry {
        DestroyRemoveKeeps(s, th);
      } else {
        QuietMoveKeeps(s, th, None, s.sessions[t].stop);
      }
    }
  }

  lemma JoinKeeps(s: State, e: Event)
    requires Inv(s) && (e.DestroyReplace? || e.JoinTake? || e.JoinWait?)
    ensures Inv(Step(s, e).0)
  {
    var th := e.thread;
    var s' := Step(s, e).0;
    if s' != s {
      var t := s.calls[th].token;
      SameSession(s, t);
      assert SessionOk(s, t) && CallOk(s, th);
      PastRemovalMoveKeeps(s, th, if th in s'.calls then Some(s'.calls[th]) else None, s'.sessions[t], s'.done != s.done);
      if s'.done != s.done {
        assert s'.done == s.done + {t};
      }
    }
  }

  /** The invariant survives every step of every thread. */
  lemma StepKeeps(s: State, e: Event)
    requires Inv(s)
    ensures Inv(Step(s, e).0)
  {
    match e {
      case Create => CreateKeeps(s);
      case WorkerEnds(t, panicked) =>
        if t in s.sessions && s.sessions[t].worker.Alive? && s.sessions[t].worker.thread !in s.calls {
          WorkerEndsKeeps(s, t, panicked);
        }
      case StartLookup(th, t) => if CanCall(s, th) && t in s.registry { LookupKeeps(s, th, StartFound(t)); }
      case DisconnectLookup(th, t) => if CanCall(s, th) && t in s.registry { LookupKeeps(s, th, DisconnectFound(t)); }
      case DestroyLookup(th, t) => if CanCall(s, th) && t in s.registry { LookupKeeps(s, th, DestroyFound(t)); }
      case StartSpawn(_, _) => StartKeeps(s, e);
      case StartStore(_) => StartKeeps(s, e);
      case DisconnectSignal(_) => StartKeeps(s, e);
      case DestroyCheck(_) => DestroyKeeps(s, e);
      case DestroyRemove(_) => DestroyKeeps(s, e);
      case _ => JoinKeeps(s, e);
    }
  }

  // ---------------------------------------------------------------- runs

  ghost function Run(s: State, events: seq<Event>): (r: State)
    requires Inv(s)
    ensures Inv(r)
    decreases |events|
  {
    if events == [] then s
    else
      StepKeeps(s, events[0]);
      Run(Step(s, events[0]).0, events[1..])
  }

  lemma DoneKept(s: State, e: Event, t: Token)
    requires Known(s) && t in s.done
    ensures t in Step(s, e).0.done
  {
  }

  /** Success is for ever: a token whose destroy has returned success stays recorded. */
  lemma {:induction false} DoneStays(s: State, events: seq<Event>, t: Token)
    requires Inv(s) && t in s.done
    ensures t in Run(s, events).done
    decreases |events|
  {
    if events != [] {
      StepKeeps(s, events[0]);
      DoneKept(s, events[0], t);
      DoneStays(Step(s, events[0]).0, events[1..], t);
    }
  }

  /** The state after a run from the start. */
  ghost function FromStart(events: seq<Event>): (s: State)
    ensures Inv(s)
  {
    Run(START, events)
  }

  /** The state after one more step. */
  ghost function Then(s: State, e: Event): (n: State)
    requires Inv(s)
    ensures Inv(n)
  {
    StepKeeps(s, e);
    Step(s, e).0
  }

  /** Once a destroy returned success, whatever anyone does afterwards no worker of that token runs and
      none ever starts. */
  lemma DestroyedForEver(before: seq<Event>, e: Event, after: seq<Event>)
    ensures var was := FromStart(before);
            var returned := Step(was, e).1;
            returned.Some? && returned.value.code == Success && !e.StartStore? && !e.DisconnectSignal? ==>
              var t := returned.value.token;
              var end := Run(Then(was, e), after);
              && t in end.sessions && end.sessions[t].phase == Destroyed && !end.sessions[t].worker.Alive?
              && t !in end.registry
  {
    var was := FromStart(before);
    var s, returned := Then(was, e), Step(was, e).1;
    if returned.Some? && returned.value.code == Success && !e.StartStore? && !e.DisconnectSignal? {
      var t := returned.value.token;
      assert t in s.done;
      DoneStays(s, after, t);
      var end := Run(s, after);
      assert SessionOk(end, t);
    }
  }

  /** The thread is destroying a running session from that session's own live worker. */
  ghost predicate OnOwnWorker(s: State, th: Thread)
    requires Known(s)
  {
    && th in s.calls && s.calls[th].DestroyFound?
    && var x := s.sessions[s.calls[th].token];
       !x.locked && x.phase == Running && x.worker == Alive(th)
  }

  /** The thread has taken the join handle of a worker that has ended by panicking. */
  ghost predicate JoinedPanicked(s: State, th: Thread)
    requires Known(s)
  {
    && th in s.calls && s.calls[th].JoinTook?
    && var x := s.sessions[s.calls[th].token];
       x.worker.Finished? && x.worker.panicked
  }

  /** `CallbackThread` is answered in exactly two cases: destroy runs on the live worker's own thread, and
      then changes nothing but the stop flag, so a later destroy can still find the token; or the worker
      has ended by panicking, and then the token is gone. The self-join inside `join` is never reached. */
  lemma CallbackThreadMeans(before: seq<Event>, e: Event)
    ensures var s := FromStart(before);
            var (s', returned) := Step(s, e);
            && (returned.Some? && returned.value.code == CallbackThread <==>
                  (e.DestroyCheck? && OnOwnWorker(s, e.thread)) || (e.JoinWait? && JoinedPanicked(s, e.thread)))
            && (e.DestroyCheck? && OnOwnWorker(s, e.thread) ==>
                  var t := s.calls[e.thread].token;
                  s'.registry == s.registry && s'.sessions == s.sessions[t := s.sessions[t].(stop := true)])
            && (e.JoinWait? && JoinedPanicked(s, e.thread) ==> s'.registry == s.registry && s.calls[e.thread].token !in s.registry)
  {
    var s := FromStart(before);
    if (e.DestroyCheck? || e.JoinWait?) && e.thread in s.calls {
      assert CallOk(s, e.thread);
      assert SessionOk(s, s.calls[e.thread].token);
    }
  }

  /** A destroy that has joined the worker answers on any thread: success exactly when the worker did not
      panic, and it is never the worker itself that gets there. */
  lemma OtherThreadsSucceed(before: seq<Event>, th: Thread)
    ensures var s := FromStart(before);
            var returned := Step(s, JoinWait(th)).1;
            returned.Some? ==>
              && th in s.calls
              && var t := s.calls[th].token;
                 && s.sessions[t].worker.Finished? && !WorkerIs(s.sessions[t].worker, th)
                 && returned == Some(Return(th, t, if s.sessions[t].worker.panicked then CallbackThread else Success))
  {
    var s := FromStart(before);
    if th in s.calls {
      assert CallOk(s, th);
    }
  }

  // ---------------------------------------------------------------- what InvalidHandle does not mean

  /** While a worker lives, its token is gone from the registry exactly when another destroy is between
      removing the token and returning; exactly then a destroy is told `InvalidHandle`, at its lookup or at
      its removal. */
  lemma InvalidHandleMeans(before: seq<Event>, t: Token, th: Thread)
    ensures var s := FromStart(before);
            t in s.sessions && s.sessions[t].worker.Alive? ==>
              && (t !in s.registry <==> DestroyInFlight(s, t))
              && (CanCall(s, th) ==>
                    (Step(s, DestroyLookup(th, t)).1 == Some(Return(th, t, InvalidHandle)) <==> DestroyInFlight(s, t)))
              && (th in s.calls && s.calls[th] == DestroyChecked(t) ==>
                    (Step(s, DestroyRemove(th)).1 == Some(Return(th, t, InvalidHandle)) <==> DestroyInFlight(s, t)))
  {
    var s := FromStart(before);
    if t in s.sessions && s.sessions[t].worker.Alive? {
      assert SessionOk(s, t);
      if DestroyInFlight(s, t) {
        var a :| a in s.calls && PastRemoval(s.calls[a], t);
        assert CallOk(s, a);
      }
    }
  }

  ghost predicate Reached(s: State) {
    exists events :: FromStart(events) == s
  }

  lemma {:induction false} RunThen(s: State, events: seq<Event>, e: Event)
    requires Inv(s)
    ensures Run(s, events + [e]) == Step(Run(s, events), e).0
    decreases |events|
  {
    if events == [] {
      StepKeeps(s, e);
      assert Run(Step(s, e).0, []) == Step(s, e).0;
      assert ([e])[1..] == [];
    } else {
      StepKeeps(s, events[0]);
      assert (events + [e])[1..] == events[1..] + [e];
      RunThen(Step(s, events[0]).0, events[1..], e);
    }
  }

  lemma ReachedThen(s: State, e: Event, s': State)
    requires Reached(s) && Known(s) && Step(s, e).0 == s'
    ensures Reached(s')
  {
    var events :| FromStart(events) == s;
    RunThen(START, events, e);
    assert FromStart(events + [e]) == s';
  }

  /** Session 1 running on worker thread 9, with thread 1 at `calls`. */
  function Witness(registry: set<Token>, calls: map<Thread, Call>): State {
    State(2, registry, map[1 := Session(Running, false, Alive(9), true, false)], calls, {})
  }

  const WITNESS_CREATED := State(2, {1}, map[1 := Session(Created, false, NoWorker, false, false)], map[], {})

  lemma WitnessCreated()
    ensures Reached(WITNESS_CREATED.(calls := map[1 := StartFound(1)]))
  {
    assert FromStart([]) == START;
    ReachedThen(START, Create, WITNESS_CREATED);
    ReachedThen(WITNESS_CREATED, StartLookup(1, 1), WITNESS_CREATED.(calls := map[1 := StartFound(1)]));
  }

  lemma WitnessStarted()
    ensures Reached(Witness({1}, map[]))
  {
    WitnessCreated();
    var spawned := WITNESS_CREATED.(sessions := map[1 := Session(Created, true, Alive(9), false, false)], calls := map[1 := StartSpawned(1)]);
    ReachedThen(WITNESS_CREATED.(calls := map[1 := StartFound(1)]), StartSpawn(1, Some(9)), spawned);
    ReachedThen(spawned, StartStore(1), Witness({1}, map[]));
  }

  lemma WitnessChecked()
    ensures Reached(Witness({1}, map[1 := DestroyChecked(1)]))
  {
    WitnessStarted();
    ReachedThen(Witness({1}, map[]), DestroyLookup(1, 1), Witness({1}, map[1 := DestroyFound(1)]));
    ReachedThen(Witness({1}, map[1 := DestroyFound(1)]), DestroyCheck(1), Witness({1}, map[1 := DestroyChecked(1)]));
  }

  /** The case is real: while one thread is destroying, a second destroy is told `InvalidHandle` and the
      worker is still running. */
  lemma InvalidHandleWithLiveWorker()
    ensures exists s :: (Reached(s) && Known(s) && 1 in s.sessions && s.sessions[1].worker == Alive(9)
                         && Step(s, DestroyLookup(2, 1)).1 == Some(Return(2, 1, InvalidHandle)))
  {
    WitnessChecked();
    var s := Witness({}, map[1 := DestroyRemoved(1)]);
    ReachedThen(Witness({1}, map[1 := DestroyChecked(1)]), DestroyRemove(1), s);
    assert CanCall(s, 2);
    assert Reached(s) && Known(s) && 1 in s.sessions && s.sessions[1].worker == Alive(9);
    assert Step(s, DestroyLookup(2, 1)).1 == Some(Return(2, 1, InvalidHandle));
  }

  /** Session 1 whose worker, thread 9, has panicked, with thread 1 at `calls`. */
  function Panicked(registry: set<Token>, phase: Phase, slot: bool, stop: bool, calls: map<Thread, Call>): State {
    State(2, registry, map[1 := Session(phase, false, Finished(9, true), slot, stop)], calls, {})
  }

  lemma PanickedFound()
    ensures Reached(Panicked({1}, Running, true, false, map[1 := DestroyFound(1)]))
  {
    WitnessStarted();
    var p := Panicked({1}, Running, true, false, map[]);
    ReachedThen(Witness({1}, map[]), WorkerEnds(1, true), p);
    ReachedThen(p, DestroyLookup(1, 1), Panicked({1}, Running, true, false, map[1 := DestroyFound(1)]));
  }

  lemma PanickedChecked()
    ensures Reached(Panicked({1}, Running, true, false, map[1 := DestroyChecked(1)]))
  {
    PanickedFound();
    var p := Panicked({1}, Running, true, false, map[1 := DestroyFound(1)]);
    ReachedThen(p, DestroyCheck(1), Panicked({1}, Running, true, false, map[1 := DestroyChecked(1)]));
  }

  lemma PanickedRemoved()
    ensures Reached(Panicked({}, Running, true, false, map[1 := DestroyRemoved(1)]))
  {
    PanickedChecked();
    var p := Panicked({1}, Running, true, false, map[1 := DestroyChecked(1)]);
    ReachedThen(p, DestroyRemove(1), Panicked({}, Running, true, false, map[1 := DestroyRemoved(1)]));
  }

  lemma PanickedStopping()
    ensures Reached(Panicked({}, Destroyed, true, true, map[1 := DestroyStopping(1)]))
  {
    PanickedRemoved();
    var p := Panicked({}, Running, true, false, map[1 := DestroyRemoved(1)]);
    ReachedThen(p, DestroyReplace(1), Panicked({}, Destroyed, true, true, map[1 := DestroyStopping(1)]));
  }

  lemma PanickedJoining()
    ensures Reached(Panicked({}, Destroyed, false, true, map[1 := JoinTook(1)]))
  {
    PanickedStopping();
    var p := Panicked({}, Destroyed, true, true, map[1 := DestroyStopping(1)]);
    ReachedThen(p, JoinTake(1), Panicked({}, Destroyed, false, true, map[1 := JoinTook(1)]));
  }

  /** The other case is real too: a destroy on a thread that is no worker is answered `CallbackThread`,
      because the worker panicked; the token is gone, so no later destroy can succeed. */
  lemma CallbackThreadAfterPanic()
    ensures exists s :: (Reached(s) && Known(s) && 1 in s.sessions && s.sessions[1].worker == Finished(9, true) && 1 !in s.registry
                         && Step(s, JoinWait(1)).1 == Some(Return(1, 1, CallbackThread)))
  {
    PanickedJoining();
    var s := Panicked({}, Destroyed, false, true, map[1 := JoinTook(1)]);
    assert Reached(s) && Known(s);
    assert Step(s, JoinWait(1)).1 == Some(Return(1, 1, CallbackThread));
  }
}
