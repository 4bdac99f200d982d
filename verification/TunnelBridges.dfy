/** One loopback tunnel (`services/ssh-core/mobile/rdtunnel.go`): its accept loop, its bridges and the
    stages of `Close`, one step per access to something the goroutines share. */
module TunnelBridges {
  import opened Words

  /** An accepted local connection; its bridge goroutine goes by the same number. */
  type Local = nat

  /** A connection dialled to the target. */
  type Remote = nat

  const MAX_CONNS := 4

  datatype Loop =
    | NotStarted
    | Accepting
    | Got(local: Local)
    | Numbered(local: Local, number: int)
    | Refusing(local: Local)
    | Stopped

  datatype Bridge =
    | Authenticating
    | Authenticated
    | Dialling
    | Copying(remote: Remote)
    | Leaving
    | Left

  /** How far the body of `closeOnce` has come. */
  datatype Once =
    | Fresh
    | Cancelling
    | ClosingListener
    | TakingReady
    | ClosingReady(taken: Option<Remote>)
    | Finished

  /** What `Close` shuts, in the order of its stages. */
  datatype Gate = Gate(direct: bool, closed: bool, cancelled: bool, listener: bool, ready: Option<Remote>, once: Once)

  /** The goroutines: `bridges` are those counted in `connCount`, `ending` those that have left the count
      but not yet the wait group. */
  datatype Work = Work(loop: Loop, bridges: map<Local, Bridge>, ending: set<Local>, connCount: int, wg: int)

  /** The connections: `locals` and `remotes` are those that are open; the rest is history, every local
      accepted, every remote dialled, and the bridge each remote went to. */
  datatype Ends = Ends(locals: set<Local>, seen: set<Local>, remotes: set<Remote>, dialled: set<Remote>, served: map<Remote, Local>)

  datatype Tunnel = Tunnel(gate: Gate, work: Work, ends: Ends)

  const IDLE := Work(NotStarted, map[], {}, 0, 0)

  /** A tunnel as `OpenRDTunnel` builds it around its first connection. */
  function Opened(r: Remote): Tunnel {
    Tunnel(Gate(false, false, false, true, Some(r), Fresh), IDLE, Ends({}, {}, {r}, {r}, map[]))
  }

  /** A descriptor without a listener, as `OpenRDTunnelDirect` builds it. */
  const DIRECT := Tunnel(Gate(true, false, false, false, None, Fresh), IDLE, Ends({}, {}, {}, {}, map[]))

  /** Steps of the accept loop. */
  datatype LoopEvent =
    | Accepted(local: Local)
    | AcceptFailed
    | Count
    | Admit
    | Refuse

  /** Steps of one bridge goroutine and of the watcher beside it. */
  datatype BridgeEvent =
    | Authenticate(ok: bool)
    | TakeReady
    | Dial(dialled: Option<Remote>)
    | Watch
    | StopCopying
    | CloseLocal
    | Uncount
    | Finish

  datatype Event = InLoop(step: LoopEvent) | InBridge(local: Local, move: BridgeEvent)

  /** A step of the accept loop; an event that is not enabled changes nothing. */
  function LoopStep(t: Tunnel, e: LoopEvent): Tunnel {
    var w := t.work;
    match (w.loop, e)
    case (Accepting, Accepted(l)) =>
      if t.gate.listener && l !in t.ends.seen then
        t.(work := w.(loop := Got(l)), ends := t.ends.(locals := t.ends.locals + {l}, seen := t.ends.seen + {l}))
      else t
    case (Accepting, AcceptFailed) =>
      if t.gate.closed || t.gate.cancelled then t.(work := w.(loop := Stopped, wg := w.wg - 1)) else t
    case (Got(l), Count) => t.(work := w.(connCount := w.connCount + 1, loop := Numbered(l, w.connCount + 1)))
    case (Numbered(l, n), Admit) =>
      if n > MAX_CONNS then t.(work := w.(connCount := w.connCount - 1, loop := Refusing(l)))
      else t.(work := w.(wg := w.wg + 1, bridges := w.bridges[l := Authenticating], loop := Accepting))
    case (Refusing(l), Refuse) =>
      t.(work := w.(loop := Accepting), ends := t.ends.(locals := t.ends.locals - {l}))
    case _ => t
  }

  function Moved(t: Tunnel, l: Local, b: Bridge): Tunnel {
    t.(work := t.work.(bridges := t.work.bridges[l := b]))
  }

  /** The bridge of `l` goes on with this remote connection. */
  function Served(ends: Ends, r: Remote, l: Local): Ends {
    ends.(served := ends.served[r := l])
  }

  /** A step of the bridge of `l` while its goroutine is at `b`. A dial may succeed although the tunnel's
      context has been cancelled; the watcher closes both ends once it has been. */
  function BridgeStep(t: Tunnel, l: Local, b: Bridge, e: BridgeEvent): Tunnel {
    var ends := t.ends;
    match (b, e)
    case (Authenticating, Authenticate(ok)) => Moved(t, l, if ok then Authenticated else Leaving)
    case (Authenticated, TakeReady) =>
      if t.gate.ready.None? then Moved(t, l, Dialling)
      else
        var r := t.gate.ready.value;
        Moved(t, l, Copying(r)).(gate := t.gate.(ready := None), ends := Served(ends, r, l))
    case (Dialling, Dial(None)) => Moved(t, l, Leaving)
    case (Dialling, Dial(Some(r))) =>
      if r in ends.dialled then t
      else Moved(t, l, Copying(r)).(ends := Served(ends, r, l).(remotes := ends.remotes + {r}, dialled := ends.dialled + {r}))
    case (Copying(r), Watch) =>
      if t.gate.cancelled then t.(ends := ends.(locals := ends.locals - {l}, remotes := ends.remotes - {r})) else t
    case (Copying(r), StopCopying) => Moved(t, l, Leaving).(ends := ends.(remotes := ends.remotes - {r}))
    case (Leaving, CloseLocal) => Moved(t, l, Left).(ends := ends.(locals := ends.locals - {l}))
    case (Left, Uncount) => t.(work := Uncounted(t.work, l))
    case _ => t
  }

  function Uncounted(w: Work, l: Local): Work {
    w.(connCount := w.connCount - 1, bridges := w.bridges - {l}, ending := w.ending + {l})
  }

  function Finished(w: Work, l: Local): Work {
    if l in w.ending then w.(wg := w.wg - 1, ending := w.ending - {l}) else w
  }

  function Step(t: Tunnel, e: Event): Tunnel {
    match e
    case InLoop(step) => LoopStep(t, step)
    case InBridge(l, move) =>
      if move.Finish? then t.(work := Finished(t.work, l))
      else if l in t.work.bridges then BridgeStep(t, l, t.work.bridges[l], move)
      else t
  }

  /** The next stage of `Close` for the caller that runs the once-body. */
  function CloseStep(t: Tunnel): Tunnel {
    var g := t.gate;
    match g.once
    case Fresh => t.(gate := g.(closed := true, once := Cancelling))
    case Cancelling => t.(gate := g.(cancelled := !g.direct || g.cancelled, once := ClosingListener))
    case ClosingListener => t.(gate := g.(listener := false, once := TakingReady))
    case TakingReady => t.(gate := g.(ready := None, once := ClosingReady(g.ready)))
    case ClosingReady(taken) =>
      t.(gate := g.(once := Once.Finished),
         ends := if taken.Some? then t.ends.(remotes := t.ends.remotes - {taken.value}) else t.ends)
    case Finished => t
  }

  /** `wg.Add(1)` and the start of the accept loop. */
  function StartLoop(t: Tunnel): Tunnel {
    t.(work := t.work.(wg := t.work.wg + 1, loop := Accepting))
  }

  // ---------------------------------------------------------------- what every step keeps

  predicate Holding(loop: Loop, l: Local) {
    (loop.Got? || loop.Numbered? || loop.Refusing?) && loop.local == l
  }

  function Running(loop: Loop): int {
    if loop.NotStarted? || loop.Stopped? then 0 else 1
  }

  /** The two counters are exact, and the limit holds. */
  predicate Counted(w: Work) {
    && w.connCount == |w.bridges| + (if w.loop.Numbered? then 1 else 0)
    && w.wg == |w.bridges| + |w.ending| + Running(w.loop)
    && |w.bridges| <= MAX_CONNS
    && (w.loop.Numbered? ==> w.connCount <= w.loop.number)
  }

  /** No connection is in two hands: of the loop, of a bridge, of a bridge that has ended. */
  ghost predicate Apart(w: Work, seen: set<Local>) {
    && (forall l :: l in w.bridges ==> l in seen && l !in w.ending && !Holding(w.loop, l))
    && (forall l :: l in w.ending ==> l in seen && !Holding(w.loop, l))
    && (forall l :: Holding(w.loop, l) ==> l in seen)
  }

  /** Every local connection that is open is held by the loop, or by a bridge that has yet to close it. */
  ghost predicate LocalsHeld(w: Work, locals: set<Local>) {
    forall l :: l in locals ==> Holding(w.loop, l) || (l in w.bridges && !w.bridges[l].Left?)
  }

  /** The remote waits to be handed out, or waits to be closed by `Close`. */
  predicate Unserved(g: Gate, r: Remote) {
    g.ready == Some(r) || g.once == ClosingReady(Some(r))
  }

  /** A bridge holds only a remote that went to it. */
  ghost predicate ServedToHolder(bridges: map<Local, Bridge>, served: map<Remote, Local>) {
    forall l :: l in bridges && bridges[l].Copying? ==> bridges[l].remote in served && served[bridges[l].remote] == l
  }

  predicate Held(bridges: map<Local, Bridge>, served: map<Remote, Local>, r: Remote) {
    r in served && served[r] in bridges && bridges[served[r]] == Copying(r)
  }

  /** Every remote that is open is unserved or held by the bridge it went to. */
  ghost predicate RemotesHeld(g: Gate, bridges: map<Local, Bridge>, ends: Ends) {
    forall r :: r in ends.remotes ==> Unserved(g, r) || Held(bridges, ends.served, r)
  }

  ghost predicate NotYetServed(g: Gate, ends: Ends) {
    && (forall r :: r in ends.served ==> r in ends.dialled)
    && (forall r :: Unserved(g, r) ==> r in ends.dialled && r !in ends.served)
  }

  /** Each stage of `Close` has had its effect. */
  predicate Closing(g: Gate) {
    && (!g.once.Fresh? ==> g.closed)
    && (!g.once.Fresh? && !g.once.Cancelling? ==> g.cancelled || g.direct)
    && (g.once.TakingReady? || g.once.ClosingReady? || g.once.Finished? ==> !g.listener)
    && (g.once.ClosingReady? || g.once.Finished? ==> g.ready.None?)
  }

  ghost predicate LocalSide(t: Tunnel) {
    Counted(t.work) && Apart(t.work, t.ends.seen) && LocalsHeld(t.work, t.ends.locals)
  }

  ghost predicate RemoteSide(t: Tunnel) {
    && NotYetServed(t.gate, t.ends)
    && ServedToHolder(t.work.bridges, t.ends.served)
    && RemotesHeld(t.gate, t.work.bridges, t.ends)
  }

  ghost predicate Inv(t: Tunnel) {
    LocalSide(t) && RemoteSide(t) && Closing(t.gate)
  }

  lemma PutCard(m: map<Local, Bridge>, l: Local, b: Bridge)
    ensures |m[l := b]| == |m| + if l in m then 0 else 1
  {
    assert m[l := b].Keys == m.Keys + {l};
    assert |m[l := b]| == |m[l := b].Keys| && |m| == |m.Keys|;
  }

  lemma RemoveCard(m: map<Local, Bridge>, l: Local)
    requires l in m
    ensures |m - {l}| == |m| - 1
  {
    assert (m - {l}).Keys == m.Keys - {l};
    assert |m - {l}| == |(m - {l}).Keys| && |m| == |m.Keys|;
  }

  lemma LoopStepKeeps(t: Tunnel, e: LoopEvent)
    requires Inv(t)
    ensures Inv(LoopStep(t, e))
  {
    if e.Admit? && t.work.loop.Numbered? {
      PutCard(t.work.bridges, t.work.loop.local, Authenticating);
    }
  }

  /** Moving a bridge on changes no count. */
  lemma MoveKeepsCounts(w: Work, l: Local, b: Bridge)
    requires Counted(w) && l in w.bridges
    ensures Counted(w.(bridges := w.bridges[l := b]))
    ensures l !in w.ending ==> Counted(Uncounted(w, l))
  {
    PutCard(w.bridges, l, b);
    RemoveCard(w.bridges, l);
  }

  lemma BridgeStepKeepsCounts(t: Tunnel, l: Local, e: BridgeEvent)
    requires Counted(t.work) && Apart(t.work, t.ends.seen) && l in t.work.bridges
    ensures Counted(BridgeStep(t, l, t.work.bridges[l], e).work)
  {
    var after := BridgeStep(t, l, t.work.bridges[l], e);
    MoveKeepsCounts(t.work, l, if l in after.work.bridges then after.work.bridges[l] else Left);
  }

  lemma BridgeStepKeepsLocals(t: Tunnel, l: Local, e: BridgeEvent)
    requires LocalSide(t) && l in t.work.bridges
    ensures Apart(BridgeStep(t, l, t.work.bridges[l], e).work, BridgeStep(t, l, t.work.bridges[l], e).ends.seen)
    ensures LocalsHeld(BridgeStep(t, l, t.work.bridges[l], e).work, BridgeStep(t, l, t.work.bridges[l], e).ends.locals)
  {
  }

  lemma BridgeStepKeepsRemotes(t: Tunnel, l: Local, e: BridgeEvent)
    requires RemoteSide(t) && Closing(t.gate) && l in t.work.bridges
    ensures RemoteSide(BridgeStep(t, l, t.work.bridges[l], e))
    ensures Closing(BridgeStep(t, l, t.work.bridges[l], e).gate)
  {
  }

  lemma StepKeeps(t: Tunnel, e: Event)
    requires Inv(t)
    ensures Inv(Step(t, e))
  {
    match e {
      case InLoop(step) => LoopStepKeeps(t, step);
      case InBridge(l, move) =>
        if !move.Finish? && l in t.work.bridges {
          BridgeStepKeepsCounts(t, l, move);
          BridgeStepKeepsLocals(t, l, move);
          BridgeStepKeepsRemotes(t, l, move);
        }
    }
  }

  lemma CloseStepKeeps(t: Tunnel)
    requires Inv(t)
    ensures Inv(CloseStep(t))
  {
  }

  lemma StartKeeps(t: Tunnel)
    requires Inv(t) && t.work.loop.NotStarted?
    ensures Inv(StartLoop(t))
  {
  }

  // ---------------------------------------------------------------- a remote goes to one bridge

  /** A connection that went to one bridge is never handed to another. */
  lemma ServedOnce(t: Tunnel, e: Event, r: Remote)
    requires Inv(t) && r in t.ends.served
    ensures r in Step(t, e).ends.served && Step(t, e).ends.served[r] == t.ends.served[r]
  {
  }

  lemma ServedIsNotReady(t: Tunnel, r: Remote)
    requires Inv(t)
    ensures r in t.ends.served ==> t.gate.ready != Some(r)
  {
    if t.gate.ready == Some(r) {
      assert Unserved(t.gate, r);
    }
  }

  // ---------------------------------------------------------------- closed for good

  /** Nothing runs that could still use a connection, and nothing can start: the once-body is through and
      the loop, if it ever runs again, can only fail to accept. */
  predicate Quiet(t: Tunnel) {
    && t.gate.once.Finished?
    && t.work.bridges == map[]
    && (t.work.loop.NotStarted? || t.work.loop.Accepting? || t.work.loop.Stopped?)
  }

  /** What `Close` waits for, and what it then knows. */
  lemma WaitedMeansQuiet(t: Tunnel)
    requires Inv(t) && t.gate.once.Finished? && t.work.wg == 0
    ensures Quiet(t)
  {
    assert |t.work.bridges| == 0 && Running(t.work.loop) == 0;
  }

  /** A quiet tunnel has no open connection on either side and stays quiet, whatever step follows. */
  lemma QuietMeansClosed(t: Tunnel)
    requires Inv(t) && Quiet(t)
    ensures t.ends.locals == {} && t.ends.remotes == {} && !t.gate.listener && t.gate.ready.None?
    ensures t.gate.cancelled || t.gate.direct
    ensures forall e :: Quiet(Step(t, e))
    ensures Quiet(CloseStep(t))
    ensures t.work.loop.NotStarted? ==> Quiet(StartLoop(t))
  {
    assert forall r :: r !in t.ends.remotes;
    assert forall l :: l !in t.ends.locals;
  }
}
