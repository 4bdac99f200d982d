/** The teardown of a session entry, which calls destroy, retries it on another thread when told it ran on
    the worker's callback thread, and releases the callback context
    (`packages/react-native-remote-desktop/ios/RemoteDesktopSessionManager.swift`), running beside any
    other use of the native library. The teardown is the only destroyer of its own handle. */
module Teardown {
  import opened Words
  import opened SessionLifetime

  const RETRY_LIMIT := 5

  datatype Progress =
    | Due(attempt: nat)
    | Calling(attempt: nat, thread: Thread)
    | Released   // the callback context has been released
    | Leaked     // given up: the context is kept for ever

  datatype System = System(core: State, token: Token, progress: Progress)

  datatype Move =
    | Attempt(thread: Thread)  // the teardown enters destroy on this thread
    | Core(event: Event)       // any step of the native library, the teardown's own call included

  predicate IsDestroy(c: Call) {
    c.DestroyFound? || c.DestroyChecked? || c.DestroyRemoved? || c.DestroyStopping? || c.JoinTook?
  }

  predicate InDestroy(s: State, th: Thread, t: Token) {
    th in s.calls && s.calls[th].token == t && IsDestroy(s.calls[th])
  }

  function AfterReturn(attempt: nat, code: Code): Progress {
    if code != CallbackThread then Released
    else if attempt < RETRY_LIMIT then Due(attempt + 1)
    else Leaked
  }

  ghost function Next(y: System, m: Move): System
    requires Inv(y.core)
  {
    match m
    case Attempt(th) =>
      if !y.progress.Due? || !CanCall(y.core, th) then y
      else
        var (core, returned) := Step(y.core, DestroyLookup(th, y.token));
        System(core, y.token, if returned.Some? then AfterReturn(y.progress.attempt, returned.value.code) else Calling(y.progress.attempt, th))
    case Core(e) =>
      if e.DestroyLookup? && e.token == y.token then y
      else
        var (core, returned) := Step(y.core, e);
        System(core, y.token,
               if y.progress.Calling? && returned.Some? && returned.value.thread == y.progress.thread && returned.value.token == y.token
               then AfterReturn(y.progress.attempt, returned.value.code) else y.progress)
  }

  /** The session is destroyed and its worker is not running; neither can change again. */
  ghost predicate Gone(s: State, t: Token) {
    t in s.sessions && s.sessions[t].phase == Destroyed && !s.sessions[t].worker.Alive?
  }

  lemma GoneStays(s: State, e: Event, t: Token)
    requires Inv(s) && Gone(s, t)
    ensures Gone(Step(s, e).0, t)
  {
    assert SessionOk(s, t);
    if e.StartStore? && e.thread in s.calls {
      assert CallOk(s, e.thread);
    }
  }

  /** Every destroy call on the token belongs to the teardown, and nothing is released while the worker runs. */
  ghost predicate Safe(y: System) {
    && Inv(y.core)
    && y.token in y.core.sessions
    && (forall th :: InDestroy(y.core, th, y.token) ==> y.progress.Calling? && y.progress.thread == th)
    && (y.progress.Calling? ==> InDestroy(y.core, y.progress.thread, y.token))
    && (y.progress.Due? ==> y.progress.attempt <= RETRY_LIMIT)
    && (y.progress.Calling? ==> y.progress.attempt <= RETRY_LIMIT)
    && (y.progress == Released ==> Gone(y.core, y.token))
  }

  /** With no destroy past the removal, an unregistered token belongs to a session that is gone. */
  lemma UnregisteredIsGone(s: State, t: Token)
    requires Inv(s) && t in s.sessions && t !in s.registry
    requires forall th :: InDestroy(s, th, t) ==> !PastRemoval(s.calls[th], t)
    ensures Gone(s, t)
  {
    assert SessionOk(s, t);
    assert forall th :: th in s.calls && PastRemoval(s.calls[th], t) ==> InDestroy(s, th, t);
  }

  lemma AttemptKeeps(y: System, th: Thread)
    requires Safe(y)
    ensures Safe(Next(y, Attempt(th)))
  {
    var z := Next(y, Attempt(th));
    if y.progress.Due? && CanCall(y.core, th) {
      if y.token !in y.core.registry {
        UnregisteredIsGone(y.core, y.token);
      } else {
        StepKeeps(y.core, DestroyLookup(th, y.token));
        assert z.core == Enter(y.core, th, DestroyFound(y.token));
        forall other | InDestroy(z.core, other, y.token) ensures other == th {
          assert other != th ==> InDestroy(y.core, other, y.token);
        }
      }
    }
  }

  /** A step moves no thread but its own. */
  lemma OthersUnmoved(s: State, e: Event, th: Thread)
    requires Inv(s) && (e.Create? || e.WorkerEnds? || e.thread != th)
    ensures var s' := Step(s, e).0; (th in s'.calls <==> th in s.calls) && (th in s.calls ==> s'.calls[th] == s.calls[th])
  {
  }

  /** Only a lookup takes a thread into a destroy. */
  lemma EnteringDestroy(s: State, e: Event, t: Token)
    requires Inv(s) && !e.Create? && !e.WorkerEnds? && !(e.DestroyLookup? && e.token == t)
    requires InDestroy(Step(s, e).0, e.thread, t)
    ensures InDestroy(s, e.thread, t)
  {
  }

  lemma DestroyersAfter(s: State, e: Event, th: Thread, t: Token)
    requires Inv(s) && !(e.DestroyLookup? && e.token == t)
    ensures InDestroy(Step(s, e).0, th, t) ==> InDestroy(s, th, t)
    ensures InDestroy(s, th, t) && (e.Create? || e.WorkerEnds? || e.thread != th) ==> InDestroy(Step(s, e).0, th, t)
  {
    if e.Create? || e.WorkerEnds? || e.thread != th {
      OthersUnmoved(s, e, th);
    } else if InDestroy(Step(s, e).0, th, t) {
      EnteringDestroy(s, e, t);
    }
  }

  /** What a step returns, it returns to its own thread. */
  lemma OthersReturn(s: State, e: Event)
    requires Inv(s)
    ensures var r := Step(s, e).1; r.Some? ==> !e.Create? && !e.WorkerEnds? && r.value.thread == e.thread
  {
  }

  lemma SessionsStay(s: State, e: Event, t: Token)
    requires Inv(s) && t in s.sessions
    ensures t in Step(s, e).0.sessions
  {
  }

  /** A step of some call other than the teardown's: no thread enters a destroy of the teardown's token. */
  lemma OtherStepKeeps(y: System, e: Event)
    requires Safe(y) && !(e.DestroyLookup? && e.token == y.token)
    requires y.progress.Calling? ==> e.Create? || e.WorkerEnds? || e.thread != y.progress.thread
    ensures Safe(Next(y, Core(e)))
  {
    var z := Next(y, Core(e));
    StepKeeps(y.core, e);
    forall th ensures InDestroy(z.core, th, y.token) ==> InDestroy(y.core, th, y.token) {
      DestroyersAfter(y.core, e, th, y.token);
    }
    if y.progress.Calling? {
      DestroyersAfter(y.core, e, y.progress.thread, y.token);
    }
    if y.progress == Released {
      GoneStays(y.core, e, y.token);
    }
    OthersReturn(y.core, e);
    SessionsStay(y.core, e, y.token);
    assert z == System(Step(y.core, e).0, y.token, y.progress);
  }

  /** A step of the teardown's own call. */
  lemma OwnStepKeeps(y: System, e: Event)
    requires Safe(y) && y.progress.Calling?
    requires !e.Create? && !e.WorkerEnds? && e.thread == y.progress.thread
    requires e.DestroyCheck? || e.DestroyRemove? || e.DestroyReplace? || e.JoinTake? || e.JoinWait?
    ensures Safe(Next(y, Core(e)))
  {
    var s, t, th := y.core, y.token, y.progress.thread;
    var (s', returned) := Step(s, e);
    StepKeeps(s, e);
    forall other | InDestroy(s', other, t) ensures other == th {
      DestroyersAfter(s, e, other, t);
    }
    OwnStepOutcome(s, e, th, t);
  }

  /** The teardown's call goes on, or returns; unless it is told to retry, the session is then gone. */
  lemma OwnStepOutcome(s: State, e: Event, th: Thread, t: Token)
    requires Inv(s) && InDestroy(s, th, t)
    requires forall other :: InDestroy(s, other, t) ==> other == th
    requires e.DestroyCheck? || e.DestroyRemove? || e.DestroyReplace? || e.JoinTake? || e.JoinWait?
    requires e.thread == th
    ensures var (s', returned) := Step(s, e);
            && t in s'.sessions
            && (returned.None? ==> InDestroy(s', th, t))
            && (returned.Some? ==> !InDestroy(s', th, t) && returned.value.thread == th && returned.value.token == t)
            && (returned.Some? && returned.value.code != CallbackThread ==> Gone(s', t))
  {
    var (s', returned) := Step(s, e);
    StepKeeps(s, e);
    assert CallOk(s, th) && SessionOk(s, t);
    if returned.Some? && returned.value.code != CallbackThread {
      if e.DestroyRemove? {
        UnregisteredIsGone(s, t);
      } else {
        assert SessionOk(s', t);
      }
    }
  }

  /** An event the teardown's thread cannot take while it is inside destroy. */
  lemma BlockedStep(y: System, e: Event)
    requires Safe(y) && y.progress.Calling?
    requires e.StartLookup? || e.StartSpawn? || e.StartStore? || e.DisconnectLookup? || e.DisconnectSignal? || e.DestroyLookup?
    requires e.thread == y.progress.thread
    ensures Step(y.core, e) == (y.core, None)
  {
  }

  lemma NextKeeps(y: System, m: Move)
    requires Safe(y)
    ensures Safe(Next(y, m))
  {
    match m {
      case Attempt(th) => AttemptKeeps(y, th);
      case Core(e) =>
        if e.DestroyLookup? && e.token == y.token {
        } else if y.progress.Calling? && !e.Create? && !e.WorkerEnds? && e.thread == y.progress.thread {
          if e.DestroyCheck? || e.DestroyRemove? || e.DestroyReplace? || e.JoinTake? || e.JoinWait? {
            OwnStepKeeps(y, e);
          } else {
            BlockedStep(y, e);
          }
        } else {
          OtherStepKeeps(y, e);
        }
    }
  }

  ghost function Runs(y: System, moves: seq<Move>): (z: System)
    requires Safe(y)
    ensures Safe(z)
    decreases |moves|
  {
    if moves == [] then y
    else
      NextKeeps(y, moves[0]);
      Runs(Next(y, moves[0]), moves[1..])
  }

  /** The teardown can begin in any reachable state of the library in which nobody is destroying the
      entry's handle. */
  lemma MayBegin(core: State, token: Token)
    requires Inv(core) && token in core.sessions
    requires forall th :: !InDestroy(core, th, token)
    ensures Safe(System(core, token, Due(0)))
  {
  }

  /** From any such state: whenever the teardown has released the callback context, the worker is not
      running and never will be. */
  lemma ReleasedOnlyWhenGone(core: State, token: Token, moves: seq<Move>, later: seq<Move>)
    requires Safe(System(core, token, Due(0)))
    ensures var y := Runs(System(core, token, Due(0)), moves);
            y.progress == Released ==>
              Gone(y.core, token) && Runs(y, later).progress == Released && Gone(Runs(y, later).core, token)
  {
    var y := Runs(System(core, token, Due(0)), moves);
    TokenStays(System(core, token, Due(0)), moves);
    if y.progress == Released {
      ReleasedStays(y, later);
    }
  }

  lemma {:induction false} TokenStays(y: System, moves: seq<Move>)
    requires Safe(y)
    ensures Runs(y, moves).token == y.token
    decreases |moves|
  {
    if moves != [] {
      NextKeeps(y, moves[0]);
      TokenStays(Next(y, moves[0]), moves[1..]);
    }
  }

  lemma {:induction false} ReleasedStays(y: System, moves: seq<Move>)
    requires Safe(y) && y.progress == Released
    ensures Runs(y, moves).progress == Released && Runs(y, moves).token == y.token
    decreases |moves|
  {
    if moves != [] {
      NextKeeps(y, moves[0]);
      ReleasedStays(Next(y, moves[0]), moves[1..]);
    }
  }
}
