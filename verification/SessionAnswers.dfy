/** What the answers of start and disconnect mean over whole runs, and that a stop that was asked for stays
    asked for (`services/rdp-core/src/ffi.rs`, `services/rdp-core/src/runtime.rs`). */
module SessionAnswers {
  import opened Words
  import opened SessionLifetime

  function Rank(p: Phase): nat {
    match p
    case Created => 0
    case Running => 1
    case Destroyed => 2
  }

  /** A session is created, then running, then destroyed, and never goes back; nor is its stop flag ever
      taken back. */
  lemma Forward(s: State, e: Event, t: Token)
    requires Inv(s) && t in s.sessions
    ensures var s' := Step(s, e).0;
            && t in s'.sessions && Rank(s.sessions[t].phase) <= Rank(s'.sessions[t].phase)
            && (s.sessions[t].stop ==> s'.sessions[t].stop)
  {
    assert SessionOk(s, t);
    if e.StartStore? && e.thread in s.calls {
      assert CallOk(s, e.thread);
    }
  }

  lemma {:induction false} ForwardAll(s: State, events: seq<Event>, t: Token)
    requires Inv(s) && t in s.sessions
    ensures var s' := Run(s, events);
            && t in s'.sessions && Rank(s.sessions[t].phase) <= Rank(s'.sessions[t].phase)
            && (s.sessions[t].stop ==> s'.sessions[t].stop)
    decreases |events|
  {
    if events != [] {
      StepKeeps(s, events[0]);
      Forward(s, events[0], t);
      ForwardAll(Step(s, events[0]).0, events[1..], t);
    }
  }

  // ---------------------------------------------------------------- start

  /** Of all the starts of a handle in a run, from any threads, at most one succeeds. */
  lemma StartsOnce(before: seq<Event>, first: Thread, between: seq<Event>, again: Thread)
    ensures var was := FromStart(before);
            var one := Step(was, StartStore(first)).1;
            var two := Step(Run(Then(was, StartStore(first)), between), StartStore(again)).1;
            one.Some? && two.Some? ==> one.value.token != two.value.token
  {
    var was := FromStart(before);
    var started := Then(was, StartStore(first));
    var later := Run(started, between);
    if Step(was, StartStore(first)).1.Some? && Step(later, StartStore(again)).1.Some? {
      ForwardAll(started, between, was.calls[first].token);
      assert CallOk(later, again);
    }
  }

  /** What start answers once it has found the session: that it was started before exactly when its worker was
      started and no destroy has come that far; that the handle is invalid exactly when one has; and a failed
      start leaves the session as it was, never started, so that another can succeed. */
  lemma StartAnswers(before: seq<Event>, th: Thread, spawned: Option<Thread>)
    ensures var s := FromStart(before);
            var (s', returned) := Step(s, StartSpawn(th, spawned));
            returned.Some? ==>
              && th in s.calls
              && var t := s.calls[th].token;
              && var x := s.sessions[t];
                 && s'.sessions == s.sessions && s'.registry == s.registry
                 && (returned.value.code == AlreadyStarted <==> x.phase == Running)
                 && (returned.value.code == AlreadyStarted ==> !x.worker.NoWorker?)
                 && (returned.value.code == InvalidHandle <==> x.phase == Destroyed)
                 && (returned.value.code == InvalidHandle ==> t !in s.registry)
                 && (returned.value.code == Internal <==> x.phase == Created)
                 && (returned.value.code == Internal ==> x.worker.NoWorker? && spawned.None?)
                 && returned.value.code in {AlreadyStarted, InvalidHandle, Internal}
  {
    var s := FromStart(before);
    if th in s.calls {
      assert SessionOk(s, s.calls[th].token);
    }
  }

  /** Only a handle that is not in the registry is refused at once, by start and by disconnect alike. */
  lemma UnknownHandles(before: seq<Event>, th: Thread, t: Token)
    ensures var s := FromStart(before);
            CanCall(s, th) ==>
              && (Step(s, StartLookup(th, t)).1 == if t in s.registry then None else Some(Return(th, t, InvalidHandle)))
              && (Step(s, DisconnectLookup(th, t)).1 == if t in s.registry then None else Some(Return(th, t, InvalidHandle)))
  {
  }

  // ---------------------------------------------------------------- stop

  /** A disconnect that found the session running has asked the worker to stop, for ever. */
  lemma DisconnectStays(before: seq<Event>, th: Thread, after: seq<Event>)
    ensures var s := FromStart(before);
            var returned := Step(s, DisconnectSignal(th)).1;
            returned.Some? ==>
              && returned.value.code == Success && th in s.calls
              && var t := s.calls[th].token;
                 s.sessions[t].phase == Running ==>
                   var later := Run(Then(s, DisconnectSignal(th)), after);
                   t in later.sessions && later.sessions[t].stop
  {
    var s := FromStart(before);
    if Step(s, DisconnectSignal(th)).1.Some? {
      ForwardAll(Then(s, DisconnectSignal(th)), after, s.calls[th].token);
    }
  }

  /** Whoever waits for a worker has asked it to stop before. */
  ghost predicate StopAsked(s: State)
    requires Known(s)
  {
    forall th :: th in s.calls && (s.calls[th].DestroyStopping? || s.calls[th].JoinTook?) ==> s.sessions[s.calls[th].token].stop
  }

  lemma StopAskedKept(s: State, e: Event)
    requires Inv(s) && StopAsked(s)
    ensures Inv(Step(s, e).0) && StopAsked(Step(s, e).0)
  {
    StepKeeps(s, e);
    var s' := Step(s, e).0;
    forall th | th in s'.calls && (s'.calls[th].DestroyStopping? || s'.calls[th].JoinTook?)
      ensures s'.sessions[s'.calls[th].token].stop
    {
      Waiting(s, e, th);
      if th in s.calls && s.calls[th].token == s'.calls[th].token {
        Forward(s, e, s.calls[th].token);
      }
    }
  }

  lemma Waiting(s: State, e: Event, th: Thread)
    requires Inv(s)
    requires var s' := Step(s, e).0; th in s'.calls && (s'.calls[th].DestroyStopping? || s'.calls[th].JoinTook?)
    ensures th in s.calls && s.calls[th].token == Step(s, e).0.calls[th].token
    ensures s.calls[th].DestroyStopping? || s.calls[th].JoinTook? || Step(s, e).0.sessions[s.calls[th].token].stop
  {
  }

  lemma {:induction false} RunAsks(s: State, events: seq<Event>)
    requires Inv(s) && StopAsked(s)
    ensures StopAsked(Run(s, events))
    decreases |events|
  {
    if events != [] {
      StopAskedKept(s, events[0]);
      RunAsks(Step(s, events[0]).0, events[1..]);
    }
  }

  /** In every run, a destroy that waits for the worker has asked it to stop. */
  lemma WaitsOnlyAfterStop(events: seq<Event>, th: Thread)
    ensures var s := FromStart(events);
            th in s.calls && (s.calls[th].DestroyStopping? || s.calls[th].JoinTook?) ==> s.sessions[s.calls[th].token].stop
  {
    assert StopAsked(START);
    RunAsks(START, events);
  }
}
