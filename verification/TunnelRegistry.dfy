/** Opening, closing and sweeping loopback tunnels from any number of threads
    (`services/ssh-core/mobile/rdtunnel.go`): the registry, the read-write gate, and the tunnels of
    `TunnelBridges` running underneath. */
module TunnelRegistry {
  import opened Words
  import opened TunnelBridges

  type Thread = nat
  type Id = nat
  type Key = nat

  /** On whose behalf a tunnel is being closed. */
  datatype From = Handle | CloseCall | FailedOpen | Sweep(rest: set<Key>)

  /** Where a thread is inside the engine. `runner`: it is the one that runs the once-body. */
  datatype Call =
    | OpenDialling(id: Id)
    | OpenDialled(id: Id, remote: Remote)
    | OpenBuilt(id: Id, key: Key)
    | OpenRegistered(key: Key)
    | CloseLocked(id: Id)
    | ClosingTunnel(key: Key, runner: bool, from: From)
    | SweepLocked
    | Sweeping(rest: set<Key>)

  /** `handles` and `done` are history: the tunnels whose open returned their handle, and those for which a `Close` returned. */
  datatype State = State(next: Key, registry: map<Id, Key>, tunnels: map<Key, Tunnel>, calls: map<Thread, Call>,
                         handles: set<Key>, done: set<Key>)

  const START := State(0, map[], map[], map[], {}, {})

  datatype EngineEvent =
    | OpenLock(thread: Thread, id: Id)
    | OpenDial(thread: Thread, remote: Option<Remote>)
    | OpenListen(thread: Thread, ok: bool)
    | OpenRegister(thread: Thread)
    | OpenStart(thread: Thread)
    | OpenDirect(thread: Thread, id: Id)
    | CloseLock(thread: Thread, id: Id)
    | CloseRemove(thread: Thread)
    | HandleClose(thread: Thread, key: Key)
    | CloseOnce(thread: Thread)
    | CloseWait(thread: Thread)
    | SweepLock(thread: Thread)
    | SweepTake(thread: Thread)
    | SweepNext(thread: Thread, key: Key)
    | SweepReturn(thread: Thread)
    | InTunnel(key: Key, event: Event)

  predicate Writes(c: Call) {
    c.SweepLocked? || c.Sweeping? || (c.ClosingTunnel? && c.from.Sweep?)
  }

  /** The thread holds the gate, for reading or for writing. Only a `Close` on the handle runs without it. */
  predicate HoldsGate(c: Call) {
    !(c.ClosingTunnel? && c.from.Handle?)
  }

  predicate CanRead(s: State) {
    forall th :: th in s.calls ==> !Writes(s.calls[th])
  }

  predicate CanWrite(s: State) {
    forall th :: th in s.calls ==> !HoldsGate(s.calls[th])
  }

  function Goes(s: State, th: Thread, c: Call): State {
    s.(calls := s.calls[th := c])
  }

  function Leaves(s: State, th: Thread): State {
    s.(calls := s.calls - {th})
  }

  function PutTunnel(s: State, k: Key, t: Tunnel): State {
    s.(tunnels := s.tunnels[k := t])
  }

  function Added(s: State, t: Tunnel): State {
    s.(next := s.next + 1, tunnels := s.tunnels[s.next := t])
  }

  /** A step of a thread that is outside the engine; an event that is not enabled changes nothing. */
  function Enter(s: State, e: EngineEvent): State {
    match e
    case OpenLock(th, id) => if CanRead(s) then Goes(s, th, OpenDialling(id)) else s
    case OpenDirect(_, id) =>
      if !CanRead(s) || id in s.registry then s
      else Added(s, DIRECT).(registry := s.registry[id := s.next], handles := s.handles + {s.next})
    case CloseLock(th, id) => if CanRead(s) then Goes(s, th, CloseLocked(id)) else s
    case HandleClose(th, k) => if k in s.handles then Goes(s, th, ClosingTunnel(k, false, Handle)) else s
    case SweepLock(th) => if CanWrite(s) then Goes(s, th, SweepLocked) else s
    case _ => s
  }

  /** A step of a thread that is at `c`. */
  function Advance(s: State, th: Thread, c: Call, e: EngineEvent): State
    requires Refers(s, c)
  {
    match (c, e)
    case (OpenDialling(id), OpenDial(_, remote)) =>
      if remote.None? then Leaves(s, th) else Goes(s, th, OpenDialled(id, remote.value))
    case (OpenDialled(id, r), OpenListen(_, ok)) =>
      if ok then Goes(Added(s, Opened(r)), th, OpenBuilt(id, s.next)) else Leaves(s, th)
    case (OpenBuilt(id, k), OpenRegister(_)) =>
      if id in s.registry then Goes(s, th, ClosingTunnel(k, false, FailedOpen))
      else Goes(s, th, OpenRegistered(k)).(registry := s.registry[id := k])
    case (OpenRegistered(k), OpenStart(_)) =>
      Leaves(PutTunnel(s, k, StartLoop(s.tunnels[k])), th).(handles := s.handles + {k})
    case (CloseLocked(id), CloseRemove(_)) =>
      if id !in s.registry then Leaves(s, th)
      else Goes(s, th, ClosingTunnel(s.registry[id], false, CloseCall)).(registry := s.registry - {id})
    case (ClosingTunnel(k, runner, from), CloseOnce(_)) =>
      var t := s.tunnels[k];
      if runner || t.gate.once.Fresh? then Goes(PutTunnel(s, k, CloseStep(t)), th, ClosingTunnel(k, true, from)) else s
    case (ClosingTunnel(k, runner, from), CloseWait(_)) =>
      var t := s.tunnels[k];
      if !t.gate.once.Finished? || t.work.wg != 0 then s
      else (if from.Sweep? then Goes(s, th, Sweeping(from.rest)) else Leaves(s, th)).(done := s.done + {k})
    case (SweepLocked, SweepTake(_)) => Goes(s, th, Sweeping(s.registry.Values)).(registry := map[])
    case (Sweeping(rest), SweepNext(_, k)) =>
      if k in rest then Goes(s, th, ClosingTunnel(k, false, Sweep(rest - {k}))) else s
    case (Sweeping(rest), SweepReturn(_)) => if rest == {} then Leaves(s, th) else s
    case _ => s
  }

  function Next(s: State, e: EngineEvent): State
    requires WellReferred(s)
  {
    if e.InTunnel? then
      if e.key in s.tunnels then PutTunnel(s, e.key, Step(s.tunnels[e.key], e.event)) else s
    else if e.thread in s.calls then Advance(s, e.thread, s.calls[e.thread], e)
    else Enter(s, e)
  }

  // ---------------------------------------------------------------- what every step keeps

  predicate Mentions(c: Call, k: Key) {
    || ((c.OpenBuilt? || c.OpenRegistered? || c.ClosingTunnel?) && c.key == k)
    || (c.Sweeping? && k in c.rest)
    || (c.ClosingTunnel? && c.from.Sweep? && k in c.from.rest)
  }

  ghost predicate AllRefer(s: State, c: Call) {
    forall k :: Mentions(c, k) ==> k in s.tunnels
  }

  /** The tunnel a call is about exists. */
  predicate Refers(s: State, c: Call) {
    (c.OpenBuilt? || c.OpenRegistered? || c.ClosingTunnel?) ==> c.key in s.tunnels
  }

  predicate WellReferred(s: State) {
    forall th :: th in s.calls ==> Refers(s, s.calls[th])
  }

  ghost predicate KeysKnown(s: State) {
    && (forall k :: k in s.tunnels ==> k < s.next)
    && (forall id :: id in s.registry ==> s.registry[id] in s.tunnels)
    && (forall k :: k in s.handles || k in s.done ==> k in s.tunnels)
  }

  ghost predicate Referred(s: State) {
    KeysKnown(s) && forall th :: th in s.calls ==> AllRefer(s, s.calls[th])
  }

  ghost predicate TunnelsKept(tunnels: map<Key, Tunnel>, done: set<Key>) {
    && (forall k :: k in tunnels ==> TunnelBridges.Inv(tunnels[k]))
    && (forall k :: k in done && k in tunnels ==> Quiet(tunnels[k]))
  }

  /** While one thread sweeps, no other holds the gate, and the registry it emptied stays empty. */
  ghost predicate Exclusive(s: State) {
    && (forall a, b :: a in s.calls && b in s.calls && a != b && Writes(s.calls[a]) ==> !HoldsGate(s.calls[b]))
    && (forall a :: a in s.calls && Writes(s.calls[a]) && !s.calls[a].SweepLocked? ==> s.registry == map[])
  }

  predicate Opens(c: Call, k: Key) {
    (c.OpenBuilt? || c.OpenRegistered?) && c.key == k
  }

  /** A tunnel being opened is opened by one thread. */
  ghost predicate OneOpener(calls: map<Thread, Call>) {
    forall a, b, k :: a in calls && b in calls && Opens(calls[a], k) && Opens(calls[b], k) ==> a == b
  }

  /** The loop of a tunnel being opened has not started. */
  ghost predicate NotYetStarted(calls: map<Thread, Call>, tunnels: map<Key, Tunnel>) {
    forall a, k :: a in calls && Opens(calls[a], k) && k in tunnels ==> tunnels[k].work.loop.NotStarted?
  }

  /** A thread that holds the gate has the tunnel in hand, before it is registered or after it was removed. */
  predicate Keeps(c: Call, k: Key) {
    HoldsGate(c) && Mentions(c, k) && !c.OpenRegistered?
  }

  ghost predicate Accounted(s: State, k: Key) {
    || k in s.registry.Values
    || k in s.done
    || exists th :: th in s.calls && Keeps(s.calls[th], k)
  }

  ghost predicate AllAccounted(s: State) {
    forall k :: k in s.tunnels ==> Accounted(s, k)
  }

  ghost predicate Inv(s: State) {
    && Referred(s)
    && TunnelsKept(s.tunnels, s.done)
    && Exclusive(s)
    && OneOpener(s.calls) && NotYetStarted(s.calls, s.tunnels)
    && AllAccounted(s)
  }

  lemma InvRefers(s: State)
    requires Referred(s)
    ensures WellReferred(s)
  {
    forall th | th in s.calls ensures Refers(s, s.calls[th]) {
      var c := s.calls[th];
      assert AllRefer(s, c);
      if c.OpenBuilt? || c.OpenRegistered? || c.ClosingTunnel? {
        assert Mentions(c, c.key);
      }
    }
  }

  lemma NewTunnels(r: Remote)
    ensures TunnelBridges.Inv(Opened(r)) && TunnelBridges.Inv(DIRECT)
  {
  }

  lemma StartInv()
    ensures Inv(START)
  {
  }

  // The parts of the invariant, as one step by a thread or by a tunnel keeps them.

  lemma EnterKeepsKeys(s: State, e: EngineEvent)
    requires KeysKnown(s)
    ensures KeysKnown(Enter(s, e))
    ensures forall k :: k in s.tunnels ==> k in Enter(s, e).tunnels
  {
  }

  lemma AdvanceKeepsKeys(s: State, th: Thread, e: EngineEvent)
    requires KeysKnown(s) && th in s.calls && Refers(s, s.calls[th])
    ensures KeysKnown(Advance(s, th, s.calls[th], e))
    ensures forall k :: k in s.tunnels ==> k in Advance(s, th, s.calls[th], e).tunnels
  {
  }

  lemma NextKeepsKeys(s: State, e: EngineEvent)
    requires KeysKnown(s) && WellReferred(s)
    ensures KeysKnown(Next(s, e))
    ensures forall k :: k in s.tunnels ==> k in Next(s, e).tunnels
  {
    if !e.InTunnel? {
      if e.thread in s.calls {
        AdvanceKeepsKeys(s, e.thread, e);
      } else {
        EnterKeepsKeys(s, e);
      }
    }
  }

  /** What a thread that enters brings, and what one inside goes on to: no tunnel that is not known. */
  lemma NewCallRefers(s: State, e: EngineEvent, th: Thread)
    requires KeysKnown(s) && WellReferred(s) && th in Next(s, e).calls
    requires th in s.calls ==> AllRefer(s, s.calls[th])
    ensures AllRefer(Next(s, e), Next(s, e).calls[th])
  {
    NextKeepsKeys(s, e);
  }

  lemma NextKeepsReferred(s: State, e: EngineEvent)
    requires Referred(s) && WellReferred(s)
    ensures Referred(Next(s, e))
  {
    NextKeepsKeys(s, e);
    forall th | th in Next(s, e).calls ensures AllRefer(Next(s, e), Next(s, e).calls[th]) {
      NewCallRefers(s, e, th);
    }
  }

  lemma EnterTouches(s: State, e: EngineEvent)
    ensures var n := Enter(s, e);
            n.done == s.done && (n.tunnels == s.tunnels || n.tunnels == s.tunnels[s.next := DIRECT])
  {
  }

  lemma NextKeepsTunnels(s: State, e: EngineEvent)
    requires TunnelsKept(s.tunnels, s.done) && NotYetStarted(s.calls, s.tunnels) && Referred(s) && WellReferred(s)
    ensures TunnelsKept(Next(s, e).tunnels, Next(s, e).done)
  {
    if e.InTunnel? {
      if e.key in s.tunnels {
        PutKeepsTunnels(s, e.key, Step(s.tunnels[e.key], e.event), e.event);
      }
    } else if e.thread in s.calls {
      AdvanceKeepsTunnels(s, e.thread, e);
    } else {
      NewTunnels(0);
      AddKeepsTunnels(s, DIRECT);
      EnterTouches(s, e);
    }
  }

  /** What one step of a thread does to the tunnels. */
  lemma AdvanceTouches(s: State, th: Thread, e: EngineEvent)
    requires th in s.calls && Refers(s, s.calls[th])
    ensures var c, n := s.calls[th], Advance(s, th, s.calls[th], e);
            || (n.tunnels == s.tunnels && n.done == s.done)
            || (c.OpenDialled? && n.tunnels == s.tunnels[s.next := Opened(c.remote)] && n.done == s.done)
            || (c.OpenRegistered? && n.tunnels == s.tunnels[c.key := StartLoop(s.tunnels[c.key])] && n.done == s.done)
            || (c.ClosingTunnel? && n.tunnels == s.tunnels[c.key := CloseStep(s.tunnels[c.key])] && n.done == s.done)
            || (c.ClosingTunnel? && n.tunnels == s.tunnels && n.done == s.done + {c.key}
                && s.tunnels[c.key].gate.once.Finished? && s.tunnels[c.key].work.wg == 0)
  {
  }

  lemma AdvanceKeepsTunnels(s: State, th: Thread, e: EngineEvent)
    requires TunnelsKept(s.tunnels, s.done) && NotYetStarted(s.calls, s.tunnels) && Referred(s)
    requires th in s.calls && Refers(s, s.calls[th])
    ensures TunnelsKept(Advance(s, th, s.calls[th], e).tunnels, Advance(s, th, s.calls[th], e).done)
  {
    var c := s.calls[th];
    AdvanceTouches(s, th, e);
    if c.OpenDialled? {
      NewTunnels(c.remote);
      AddKeepsTunnels(s, Opened(c.remote));
    } else if c.OpenRegistered? {
      assert Opens(c, c.key);
      PutKeepsTunnels(s, c.key, StartLoop(s.tunnels[c.key]), InLoop(Count));
    } else if c.ClosingTunnel? {
      PutKeepsTunnels(s, c.key, CloseStep(s.tunnels[c.key]), InLoop(Count));
      WaitKeepsTunnels(s, c.key);
    }
  }

  lemma AddKeepsTunnels(s: State, t: Tunnel)
    requires TunnelsKept(s.tunnels, s.done) && Referred(s) && TunnelBridges.Inv(t)
    ensures TunnelsKept(s.tunnels[s.next := t], s.done)
  {
  }

  lemma WaitKeepsTunnels(s: State, k: Key)
    requires TunnelsKept(s.tunnels, s.done) && k in s.tunnels
    ensures s.tunnels[k].gate.once.Finished? && s.tunnels[k].work.wg == 0 ==> TunnelsKept(s.tunnels, s.done + {k})
  {
    if s.tunnels[k].gate.once.Finished? && s.tunnels[k].work.wg == 0 {
      WaitedMeansQuiet(s.tunnels[k]);
    }
  }

  /** A tunnel one step on keeps what it kept. */
  lemma SteppedKeeps(was: Tunnel, t: Tunnel, e: Event)
    requires TunnelBridges.Inv(was)
    requires t == Step(was, e) || t == CloseStep(was) || (was.work.loop.NotStarted? && t == StartLoop(was))
    ensures TunnelBridges.Inv(t) && (Quiet(was) ==> Quiet(t))
  {
    TunnelBridges.StepKeeps(was, e);
    CloseStepKeeps(was);
    if was.work.loop.NotStarted? {
      StartKeeps(was);
    }
    if Quiet(was) {
      QuietMeansClosed(was);
    }
  }

  lemma PutKeepsTunnels(s: State, k: Key, t: Tunnel, e: Event)
    requires TunnelsKept(s.tunnels, s.done) && k in s.tunnels
    requires t == Step(s.tunnels[k], e) || t == CloseStep(s.tunnels[k]) || (s.tunnels[k].work.loop.NotStarted? && t == StartLoop(s.tunnels[k]))
    ensures TunnelsKept(s.tunnels[k := t], s.done)
  {
    SteppedKeeps(s.tunnels[k], t, e);
  }

  /** A thread inside the engine only ever gives the gate up. */
  lemma AdvanceGivesUp(s: State, th: Thread, e: EngineEvent)
    requires th in s.calls && Refers(s, s.calls[th])
    ensures var n := Advance(s, th, s.calls[th], e);
            && (forall b :: b in n.calls ==> b in s.calls && (b != th ==> n.calls[b] == s.calls[b]))
            && (th in n.calls && Writes(n.calls[th]) ==> Writes(s.calls[th]))
            && (th in n.calls && HoldsGate(n.calls[th]) ==> HoldsGate(s.calls[th]))
            && (s.registry == map[] && n.registry != map[] ==> s.calls[th].OpenBuilt?)
            && (th in n.calls && Writes(n.calls[th]) && !n.calls[th].SweepLocked? ==> !s.calls[th].SweepLocked? || n.registry == map[])
            && (th in n.calls && Writes(n.calls[th]) ==> n.registry == s.registry || n.registry == map[])
  {
  }

  lemma EnterKeepsExclusive(s: State, e: EngineEvent)
    requires Exclusive(s) && !e.InTunnel? && e.thread !in s.calls
    ensures Exclusive(Enter(s, e))
  {
  }

  lemma AdvanceKeepsExclusive(s: State, th: Thread, e: EngineEvent)
    requires Exclusive(s) && th in s.calls && Refers(s, s.calls[th])
    ensures Exclusive(Advance(s, th, s.calls[th], e))
  {
    AdvanceGivesUp(s, th, e);
  }

  lemma NextKeepsExclusive(s: State, e: EngineEvent)
    requires Exclusive(s) && WellReferred(s)
    ensures Exclusive(Next(s, e))
  {
    if !e.InTunnel? {
      if e.thread in s.calls {
        AdvanceKeepsExclusive(s, e.thread, e);
      } else {
        EnterKeepsExclusive(s, e);
      }
    }
  }

  lemma StepLeavesLoop(t: Tunnel, e: Event)
    ensures t.work.loop.NotStarted? ==> Step(t, e).work.loop.NotStarted? && CloseStep(t).work.loop.NotStarted?
  {
  }

  lemma NextKeepsOneOpener(s: State, e: EngineEvent)
    requires Referred(s) && OneOpener(s.calls) && WellReferred(s)
    ensures OneOpener(Next(s, e).calls)
  {
    OpenersAreOld(s);
    if !e.InTunnel? && e.thread in s.calls {
      AdvanceOpens(s, e.thread, e);
    }
  }

  lemma OpenersAreOld(s: State)
    requires Referred(s)
    ensures forall th, k: Key :: th in s.calls && Opens(s.calls[th], k) ==> k in s.tunnels && k < s.next
  {
    forall th, k: Key | th in s.calls && Opens(s.calls[th], k) ensures k in s.tunnels && k < s.next {
      assert AllRefer(s, s.calls[th]) && Mentions(s.calls[th], k);
    }
  }

  lemma NextKeepsNotYetStarted(s: State, e: EngineEvent)
    requires Referred(s) && OneOpener(s.calls) && WellReferred(s) && NotYetStarted(s.calls, s.tunnels)
    ensures NotYetStarted(Next(s, e).calls, Next(s, e).tunnels)
  {
    OpenersAreOld(s);
    if e.InTunnel? {
      if e.key in s.tunnels {
        StepLeavesLoop(s.tunnels[e.key], e.event);
      }
    } else if e.thread in s.calls {
      AdvanceKeepsNotYetStarted(s, e.thread, e);
    }
  }

  lemma AdvanceKeepsNotYetStarted(s: State, th: Thread, e: EngineEvent)
    requires KeysKnown(s) && OneOpener(s.calls) && NotYetStarted(s.calls, s.tunnels)
    requires th in s.calls && Refers(s, s.calls[th])
    requires forall a, k: Key :: a in s.calls && Opens(s.calls[a], k) ==> k in s.tunnels && k < s.next
    ensures NotYetStarted(Advance(s, th, s.calls[th], e).calls, Advance(s, th, s.calls[th], e).tunnels)
  {
    AdvanceTouches(s, th, e);
    AdvanceOpens(s, th, e);
    var c := s.calls[th];
    if c.ClosingTunnel? {
      StepLeavesLoop(s.tunnels[c.key], InLoop(Count));
    } else if c.OpenRegistered? {
      assert Opens(c, c.key);
    }
  }

  /** What one step of a thread does to the threads that are opening. */
  lemma AdvanceOpens(s: State, th: Thread, e: EngineEvent)
    requires th in s.calls && Refers(s, s.calls[th])
    ensures var c, n := s.calls[th], Advance(s, th, s.calls[th], e);
            && (forall b :: b in n.calls && b != th ==> b in s.calls && n.calls[b] == s.calls[b])
            && (forall k :: th in n.calls && Opens(n.calls[th], k) ==> Opens(c, k) || (c.OpenDialled? && k == s.next))
            && (n.tunnels != s.tunnels && c.OpenRegistered? ==> th !in n.calls)
  {
  }

  lemma NextKeepsAccounted(s: State, e: EngineEvent)
    requires Referred(s) && AllAccounted(s) && WellReferred(s)
    ensures AllAccounted(Next(s, e))
  {
    var n := Next(s, e);
    forall k | k in n.tunnels ensures Accounted(n, k) {
      if k !in s.tunnels {
        NewIsAccounted(s, e, k);
      } else if !e.InTunnel? && e.thread in s.calls {
        assert Accounted(s, k);
        AdvanceKeepsAccounted(s, e.thread, e, k);
      } else {
        assert Accounted(s, k);
        EnterKeepsAccounted(s, e, k);
      }
    }
  }

  lemma NewIsAccounted(s: State, e: EngineEvent, k: Key)
    requires WellReferred(s) && k !in s.tunnels && k in Next(s, e).tunnels
    ensures Accounted(Next(s, e), k)
  {
    var n := Next(s, e);
    if e.OpenDirect? {
      assert n.registry[e.id] == k;
    } else {
      assert Keeps(n.calls[e.thread], k);
    }
  }

  lemma EnterKeepsAccounted(s: State, e: EngineEvent, k: Key)
    requires WellReferred(s) && Accounted(s, k)
    requires e.InTunnel? || e.thread !in s.calls
    ensures Accounted(Next(s, e), k)
  {
    var n := Next(s, e);
    if k in s.registry.Values {
      var id :| id in s.registry && s.registry[id] == k;
      assert id in n.registry && n.registry[id] == k;
    } else if k !in s.done {
      var w :| w in s.calls && Keeps(s.calls[w], k);
      assert w in n.calls && n.calls[w] == s.calls[w];
    }
  }

  lemma AdvanceKeepsAccounted(s: State, th: Thread, e: EngineEvent, k: Key)
    requires WellReferred(s) && Accounted(s, k) && th in s.calls
    ensures Accounted(Advance(s, th, s.calls[th], e), k)
  {
    var n := Advance(s, th, s.calls[th], e);
    if k in s.done {
    } else if k in s.registry.Values {
      var id :| id in s.registry && s.registry[id] == k;
      if id in n.registry {
        assert n.registry[id] == k;
      } else {
        assert th in n.calls && Keeps(n.calls[th], k);
      }
    } else {
      var w :| w in s.calls && Keeps(s.calls[w], k);
      if w != th {
        assert w in n.calls && n.calls[w] == s.calls[w];
      } else if th in n.calls && Keeps(n.calls[th], k) {
      } else if s.calls[th].OpenBuilt? {
        assert n.registry[s.calls[th].id] == k;
      } else {
        assert k in n.done;
      }
    }
  }

  lemma NextKeeps(s: State, e: EngineEvent)
    requires Inv(s)
    ensures WellReferred(s) && Inv(Next(s, e))
  {
    InvRefers(s);
    NextKeepsReferred(s, e);
    NextKeepsTunnels(s, e);
    NextKeepsExclusive(s, e);
    NextKeepsOneOpener(s, e);
    NextKeepsNotYetStarted(s, e);
    NextKeepsAccounted(s, e);
  }

  // ---------------------------------------------------------------- whole runs

  /** The state after a run of events. */
  ghost function Run(s: State, events: seq<EngineEvent>): (r: State)
    requires Inv(s)
    ensures Inv(r)
    decreases |events|
  {
    if events == [] then s
    else
      NextKeeps(s, events[0]);
      Run(Next(s, events[0]), events[1..])
  }

  ghost function FromStart(events: seq<EngineEvent>): (s: State)
    ensures Inv(s)
  {
    StartInv();
    Run(START, events)
  }

  /** Once a `Close` of the tunnel has returned, all it ever accepted or dialled is closed. */
  ghost predicate Shut(s: State, k: Key) {
    && k in s.done && k in s.tunnels
    && s.tunnels[k].work.bridges == map[]
    && s.tunnels[k].ends.locals == {} && s.tunnels[k].ends.remotes == {}
    && !s.tunnels[k].gate.listener && s.tunnels[k].gate.ready.None?
  }

  lemma DoneIsShut(s: State, k: Key)
    requires Inv(s) && k in s.done
    ensures Shut(s, k)
  {
    QuietMeansClosed(s.tunnels[k]);
  }

  lemma DoneStays(s: State, e: EngineEvent, k: Key)
    requires WellReferred(s) && k in s.done
    ensures k in Next(s, e).done
  {
  }

  lemma {:induction false} RunKeepsDone(s: State, events: seq<EngineEvent>, k: Key)
    requires Inv(s) && k in s.done
    ensures k in Run(s, events).done
    decreases |events|
  {
    if events != [] {
      NextKeeps(s, events[0]);
      DoneStays(s, events[0], k);
      RunKeepsDone(Next(s, events[0]), events[1..], k);
    }
  }

  /** In every run: once a `Close` of a tunnel has returned, every connection it accepted or dialled is
      closed, and whatever happens later, no bridge of that tunnel begins. */
  lemma ClosedForGood(events: seq<EngineEvent>, later: seq<EngineEvent>, k: Key)
    requires k in FromStart(events).done
    ensures Shut(FromStart(events), k)
    ensures Shut(Run(FromStart(events), later), k)
  {
    DoneIsShut(FromStart(events), k);
    RunKeepsDone(FromStart(events), later, k);
    DoneIsShut(Run(FromStart(events), later), k);
  }

  lemma SweptAll(s: State, th: Thread)
    requires Inv(s) && th in s.calls && s.calls[th] == Sweeping({})
    ensures forall k :: k in s.tunnels ==> k in s.done
    ensures forall b :: b in s.calls && b != th ==> !HoldsGate(s.calls[b])
  {
    assert Writes(s.calls[th]);
    forall k | k in s.tunnels ensures k in s.done {
      assert Accounted(s, k);
    }
  }

  /** In every run: when the sweep is about to return, it has missed no tunnel. Every tunnel that was ever
      made is shut, and no thread is in the middle of opening one. */
  lemma SweepMissesNothing(events: seq<EngineEvent>, th: Thread, k: Key, b: Thread)
    requires th in FromStart(events).calls && FromStart(events).calls[th] == Sweeping({})
    ensures k in FromStart(events).tunnels ==> Shut(FromStart(events), k)
    ensures b in FromStart(events).calls && b != th ==> FromStart(events).calls[b].ClosingTunnel?
  {
    SweptAll(FromStart(events), th);
    if k in FromStart(events).tunnels {
      DoneIsShut(FromStart(events), k);
    }
  }

  lemma AtMostFour(s: State, k: Key)
    requires Inv(s) && k in s.tunnels
    ensures |s.tunnels[k].work.bridges| <= MAX_CONNS
  {
  }

  /** In every run: at most four bridges of a tunnel are active. */
  lemma BridgesLimited(events: seq<EngineEvent>, k: Key)
    requires k in FromStart(events).tunnels
    ensures |FromStart(events).tunnels[k].work.bridges| <= MAX_CONNS
  {
    AtMostFour(FromStart(events), k);
  }

  /** The connection went to the bridge of `a`. */
  ghost predicate WentTo(s: State, k: Key, r: Remote, a: Local) {
    k in s.tunnels && r in s.tunnels[k].ends.served && s.tunnels[k].ends.served[r] == a
  }

  ghost predicate Copies(s: State, k: Key, r: Remote, a: Local) {
    k in s.tunnels && a in s.tunnels[k].work.bridges && s.tunnels[k].work.bridges[a] == Copying(r)
  }

  lemma CopierIsServed(s: State, k: Key, r: Remote, a: Local)
    requires Inv(s) && Copies(s, k, r, a)
    ensures WentTo(s, k, r, a)
  {
    assert ServedToHolder(s.tunnels[k].work.bridges, s.tunnels[k].ends.served);
  }

  lemma NextServedOnce(s: State, e: EngineEvent, k: Key, r: Remote, a: Local)
    requires WellReferred(s) && WentTo(s, k, r, a) && TunnelBridges.Inv(s.tunnels[k]) && k < s.next
    ensures WentTo(Next(s, e), k, r, a)
  {
    if e.InTunnel? {
      ServedOnce(s.tunnels[k], e.event, r);
    } else if e.thread in s.calls {
      AdvanceTouches(s, e.thread, e);
    }
  }

  lemma {:induction false} RunServedOnce(s: State, events: seq<EngineEvent>, k: Key, r: Remote, a: Local)
    requires Inv(s) && WentTo(s, k, r, a)
    ensures WentTo(Run(s, events), k, r, a)
    decreases |events|
  {
    if events != [] {
      NextKeeps(s, events[0]);
      NextServedOnce(s, events[0], k, r, a);
      RunServedOnce(Next(s, events[0]), events[1..], k, r, a);
    }
  }

  /** In every run: a connection, the pre-dialled one included, goes to one bridge only. A bridge that holds
      it at any later time is the one that held it before, and it is never ready to be taken again. */
  lemma OneBridgePerConnection(events: seq<EngineEvent>, later: seq<EngineEvent>, k: Key, r: Remote, a: Local, b: Local)
    requires Copies(FromStart(events), k, r, a)
    ensures Copies(Run(FromStart(events), later), k, r, b) ==> a == b
    ensures k in Run(FromStart(events), later).tunnels
    ensures Run(FromStart(events), later).tunnels[k].gate.ready != Some(r)
  {
    var s := FromStart(events);
    CopierIsServed(s, k, r, a);
    RunServedOnce(s, later, k, r, a);
    TunnelBridges.ServedIsNotReady(Run(s, later).tunnels[k], r);
    if Copies(Run(s, later), k, r, b) {
      CopierIsServed(Run(s, later), k, r, b);
    }
  }
}
