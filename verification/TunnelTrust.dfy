/** Who gets through a tunnel (`services/ssh-core/mobile/rdtunnel.go`): only connections that authenticated,
    the first of them on the connection dialled in advance, and none beyond the limit. */
module TunnelTrust {
  import opened Words
  import opened TunnelBridges
  import R = TunnelRegistry

  // ---------------------------------------------------------------- only the authenticated

  /** The local connection is past authentication, or something remote has ever been handed to it. */
  ghost predicate Trusted(t: Tunnel, l: Local) {
    || (l in t.work.bridges && (t.work.bridges[l].Authenticated? || t.work.bridges[l].Dialling? || t.work.bridges[l].Copying?))
    || exists r :: r in t.ends.served && t.ends.served[r] == l
  }

  lemma TrustedByStep(t: Tunnel, e: Event, l: Local)
    requires Trusted(Step(t, e), l) && !Trusted(t, l)
    ensures e == InBridge(l, Authenticate(true))
  {
  }

  ghost predicate TrustedIn(s: R.State, k: R.Key, l: Local) {
    k in s.tunnels && Trusted(s.tunnels[k], l)
  }

  lemma TrustedByNext(s: R.State, e: R.EngineEvent, k: R.Key, l: Local)
    requires R.WellReferred(s) && TrustedIn(R.Next(s, e), k, l) && !TrustedIn(s, k, l)
    ensures e == R.InTunnel(k, InBridge(l, Authenticate(true)))
  {
    if e.InTunnel? && e.key == k && k in s.tunnels {
      TrustedByStep(s.tunnels[k], e.event, l);
    }
  }

  lemma {:induction false} TrustedByRun(s: R.State, events: seq<R.EngineEvent>, k: R.Key, l: Local)
    requires R.Inv(s) && TrustedIn(R.Run(s, events), k, l) && !TrustedIn(s, k, l)
    ensures R.InTunnel(k, InBridge(l, Authenticate(true))) in events
    decreases |events|
  {
    if events != [] {
      R.NextKeeps(s, events[0]);
      if TrustedIn(R.Next(s, events[0]), k, l) {
        TrustedByNext(s, events[0], k, l);
      } else {
        TrustedByRun(R.Next(s, events[0]), events[1..], k, l);
      }
    }
  }

  /** In every run: a connection gets past authentication, and anything remote is handed to it, only if its
      authentication succeeded in that run. */
  lemma OnlyAuthenticated(events: seq<R.EngineEvent>, k: R.Key, l: Local)
    requires TrustedIn(R.FromStart(events), k, l)
    ensures R.InTunnel(k, InBridge(l, Authenticate(true))) in events
  {
    R.StartInv();
    TrustedByRun(R.START, events, k, l);
  }

  // ---------------------------------------------------------------- the connection dialled in advance

  /** As long as the connection dialled in advance waits, it is the only one and nothing has been handed out. */
  ghost predicate ReadyFirst(t: Tunnel) {
    t.gate.ready.Some? ==>
      && t.ends.dialled == {t.gate.ready.value} && t.ends.served == map[]
      && forall l :: l in t.work.bridges ==> !t.work.bridges[l].Dialling? && !t.work.bridges[l].Copying?
  }

  lemma ReadyFirstKept(t: Tunnel, e: Event)
    requires ReadyFirst(t)
    ensures ReadyFirst(Step(t, e)) && ReadyFirst(CloseStep(t)) && ReadyFirst(StartLoop(t))
  {
  }

  lemma NextReadyFirst(s: R.State, e: R.EngineEvent, k: R.Key)
    requires R.WellReferred(s) && (forall j :: j in s.tunnels ==> ReadyFirst(s.tunnels[j])) && k in R.Next(s, e).tunnels
    ensures ReadyFirst(R.Next(s, e).tunnels[k])
  {
    if k in s.tunnels {
      ReadyFirstKept(s.tunnels[k], if e.InTunnel? then e.event else InLoop(Count));
    }
    if !e.InTunnel? && e.thread in s.calls {
      R.AdvanceTouches(s, e.thread, e);
    }
  }

  lemma {:induction false} RunReadyFirst(s: R.State, events: seq<R.EngineEvent>)
    requires R.Inv(s) && forall k :: k in s.tunnels ==> ReadyFirst(s.tunnels[k])
    ensures forall k :: k in R.Run(s, events).tunnels ==> ReadyFirst(R.Run(s, events).tunnels[k])
    decreases |events|
  {
    if events != [] {
      R.NextKeeps(s, events[0]);
      forall k | k in R.Next(s, events[0]).tunnels ensures ReadyFirst(R.Next(s, events[0]).tunnels[k]) {
        NextReadyFirst(s, events[0], k);
      }
      RunReadyFirst(R.Next(s, events[0]), events[1..]);
    }
  }

  /** In every run: nothing more is dialled, and no bridge copies, before the connection dialled in advance
      has been handed to a bridge or taken by `Close`. */
  lemma ReadyIsUsedFirst(events: seq<R.EngineEvent>, k: R.Key)
    requires k in R.FromStart(events).tunnels
    ensures ReadyFirst(R.FromStart(events).tunnels[k])
  {
    R.StartInv();
    RunReadyFirst(R.START, events);
  }

  /** The first bridge past authentication takes it, once. */
  lemma ReadyIsTaken(t: Tunnel, l: Local, r: Remote)
    requires l in t.work.bridges && t.work.bridges[l] == Authenticated && t.gate.ready == Some(r)
    ensures var after := Step(t, InBridge(l, TakeReady));
            after.work.bridges[l] == Copying(r) && after.gate.ready == None && r in after.ends.served && after.ends.served[r] == l
  {
  }

  // ---------------------------------------------------------------- the limit, and the end

  /** A connection that is accepted is counted and bridged exactly when fewer than four bridges are active;
      otherwise it is closed and leaves no trace in the count. */
  lemma AdmittedIff(t: Tunnel, l: Local)
    requires Inv(t) && t.work.loop == Got(l)
    ensures var decided := Step(Step(t, InLoop(Count)), InLoop(Admit));
            if |t.work.bridges| < 4 then
              decided.work.loop == Accepting && decided.work.bridges == t.work.bridges[l := Authenticating]
              && decided.work.connCount == t.work.connCount + 1
            else
              && decided.work.loop == Refusing(l) && decided.work.bridges == t.work.bridges && decided.work.connCount == t.work.connCount
              && Step(decided, InLoop(Refuse)).work.loop == Accepting && l !in Step(decided, InLoop(Refuse)).ends.locals
  {
  }

  /** Once the tunnel's context is cancelled, the watcher of a bridge closes both its ends. */
  lemma CancelCloses(t: Tunnel, l: Local, r: Remote)
    requires t.gate.cancelled && l in t.work.bridges && t.work.bridges[l] == Copying(r)
    ensures var after := Step(t, InBridge(l, Watch)); l !in after.ends.locals && r !in after.ends.remotes
  {
  }
}
