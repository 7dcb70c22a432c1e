/**
 The upgrade ladder of pkg/client/directupgrade.go: one tick of the loop, and
 what runs of ticks keep about its candidates, its keepalives and its pacing.
 */
module Ladder {
  import opened Common
  import opened Transport

  const WS_SENTINEL := "ws:relay"

  datatype Timing = Timing(initialDelay: nat, retryInterval: nat, healthCheckInterval: nat)

  /**
   What the world answers during one tick: the UDP-relay attempt (a candidate
   or "", and whether the relay has no such tier), the direct attempt (or ""),
   the health of the current path, whether an endpoint could be set, and the
   scheduler's view of the relay path.
   */
  datatype Tick = Tick(now: int, relay: string, unavailable: bool, direct: string,
                       healthy: bool, seated: bool, relayHealthy: bool)

  /**
   `running` holds the keepalives that were started and not stopped, and
   `fallbacks` the endpoints the loop fell back to; `lastTry` is when the
   loop last tried the direct path from the UDP-relay rung.
   */
  datatype Loop = Loop(state: State, relayCandidate: string, directCandidate: string,
                       relayStop: Option<nat>, started: nat, running: set<nat>,
                       nextDirectAttempt: Option<int>, wait: nat,
                       published: Option<State>, fallbacks: seq<string>, lastTry: Option<int>)

  function Start(timing: Timing): Loop {
    Loop(WSSRelay, "", "", None, 0, {}, None, timing.initialDelay, None, [], None)
  }

  function Enter(l: Loop, state: State): Loop {
    l.(state := state, published := Some(state))
  }

  function StopKeepalive(l: Loop): Loop {
    if l.relayStop.None? then l
    else l.(running := l.running - {l.relayStop.value}, relayStop := None)
  }

  function OnWSSRelay(l: Loop, timing: Timing, t: Tick): Loop {
    var l := l.(relayCandidate := t.relay);
    if t.relay != "" then
      Enter(l, Next(l.state, UDPRelayEstablished, false))
        .(relayStop := Some(l.started), running := l.running + {l.started}, started := l.started + 1,
          nextDirectAttempt := None, wait := timing.healthCheckInterval)
    else if !t.unavailable then l.(wait := timing.retryInterval)
    else
      var l := l.(directCandidate := t.direct);
      if t.direct != "" then
        Enter(l, Next(l.state, DirectEstablished, false)).(wait := timing.healthCheckInterval)
      else l.(wait := timing.retryInterval)
  }

  function OnUDPRelay(l: Loop, timing: Timing, multipath: bool, t: Tick): Loop {
    if !t.healthy then
      if !multipath && !t.seated then l.(wait := timing.healthCheckInterval)
      else
        StopKeepalive(Enter(l, Next(l.state, UDPRelayLost, false)))
          .(relayCandidate := "", wait := timing.retryInterval,
            fallbacks := if multipath then l.fallbacks else l.fallbacks + [WS_SENTINEL])
    else if l.nextDirectAttempt.Some? && l.nextDirectAttempt.value > t.now then
      l.(wait := timing.healthCheckInterval)
    else
      var l := l.(nextDirectAttempt := Some(t.now + timing.retryInterval), lastTry := Some(t.now),
                  directCandidate := t.direct, wait := timing.healthCheckInterval);
      if t.direct != "" then Enter(l, Next(l.state, DirectEstablished, true)) else l
  }

  function OnDirect(l: Loop, timing: Timing, multipath: bool, t: Tick): Loop {
    if t.healthy then l.(wait := timing.healthCheckInterval)
    else
      var next := Next(l.state, DirectLost, l.relayCandidate != "" && (multipath ==> t.relayHealthy));
      if !multipath && !t.seated then l.(wait := timing.healthCheckInterval)
      else
        Enter(l, next)
          .(directCandidate := "", nextDirectAttempt := Some(t.now + timing.retryInterval),
            wait := timing.healthCheckInterval,
            fallbacks := if multipath then l.fallbacks
                         else l.fallbacks + [if next == UDPRelay then l.relayCandidate else WS_SENTINEL])
  }

  function Advance(l: Loop, timing: Timing, multipath: bool, t: Tick): Loop {
    match l.state
    case WSSRelay => OnWSSRelay(l, timing, t)
    case UDPRelay => OnUDPRelay(l, timing, multipath, t)
    case Direct => OnDirect(l, timing, multipath, t)
    case DirectViaRelayReflector => OnDirect(l, timing, multipath, t)
    case Stopped => l
    case WSSFallback => l
  }

  function Run(timing: Timing, multipath: bool, ticks: seq<Tick>): Loop
    decreases |ticks|
  {
    if ticks == [] then Start(timing)
    else Advance(Run(timing, multipath, ticks[..|ticks| - 1]), timing, multipath, ticks[|ticks| - 1])
  }

  // ---------------------------------------------------------------------
  // The loop
  // ---------------------------------------------------------------------

  class UpgradeLoop {
    const timing: Timing
    const multipath: bool
    var state: State
    var relayCandidate: string
    var directCandidate: string
    var relayStop: Option<nat>
    var started: nat
    var running: set<nat>
    var nextDirectAttempt: Option<int>
    var wait: nat
    var published: Option<State>
    var fallbacks: seq<string>
    ghost var lastTry: Option<int>

    ghost function View(): Loop
      reads this
    {
      Loop(state, relayCandidate, directCandidate, relayStop, started, running,
           nextDirectAttempt, wait, published, fallbacks, lastTry)
    }

    constructor (timing: Timing, multipath: bool)
      ensures this.timing == timing && this.multipath == multipath && View() == Start(timing)
    {
      this.timing, this.multipath := timing, multipath;
      state, relayCandidate, directCandidate := WSSRelay, "", "";
      relayStop, started, running := None, 0, {};
      nextDirectAttempt, wait := None, timing.initialDelay;
      published, fallbacks, lastTry := None, [], None;
    }

    /** stopRelayKeepalive, which is also all that leaving the loop does. */
    method StopRelayKeepalive()
      modifies this
      ensures View() == StopKeepalive(old(View()))
    {
      if relayStop.Some? {
        running := running - {relayStop.value};
        relayStop := None;
      }
    }

    method Transition(next: State)
      modifies this`state, this`published
      ensures View() == Enter(old(View()), next)
    {
      state := next;
      published := Some(next);
    }

    method OnTick(t: Tick)
      modifies this
      ensures View() == Advance(old(View()), timing, multipath, t)
    {
      match state {
        case WSSRelay => TickWSSRelay(t);
        case UDPRelay => TickUDPRelay(t);
        case Direct => TickDirect(t);
        case DirectViaRelayReflector => TickDirect(t);
        case _ =>
      }
    }

    method TickWSSRelay(t: Tick)
      modifies this
      ensures View() == OnWSSRelay(old(View()), timing, t)
    {
      relayCandidate := t.relay;
      if relayCandidate != "" {
        relayStop := Some(started);
        running := running + {started};
        started := started + 1;
        Transition(Next(state, UDPRelayEstablished, false));
        nextDirectAttempt := None;
        wait := timing.healthCheckInterval;
        return;
      }
      if !t.unavailable {
        wait := timing.retryInterval;
        return;
      }
      directCandidate := t.direct;
      if directCandidate != "" {
        Transition(Next(state, DirectEstablished, false));
        wait := timing.healthCheckInterval;
        return;
      }
      wait := timing.retryInterval;
    }

    method TickUDPRelay(t: Tick)
      modifies this
      ensures View() == OnUDPRelay(old(View()), timing, multipath, t)
    {
      if !t.healthy {
        if !multipath {
          if !t.seated {
            wait := timing.healthCheckInterval;
            return;
          }
          fallbacks := fallbacks + [WS_SENTINEL];
        }
        Transition(Next(state, UDPRelayLost, false));
        StopRelayKeepalive();
        relayCandidate := "";
        wait := timing.retryInterval;
        return;
      }
      if nextDirectAttempt.Some? && nextDirectAttempt.value > t.now {
        wait := timing.healthCheckInterval;
        return;
      }
      nextDirectAttempt := Some(t.now + timing.retryInterval);
      lastTry := Some(t.now);
      directCandidate := t.direct;
      if directCandidate != "" {
        Transition(Next(state, DirectEstablished, true));
      }
      wait := timing.healthCheckInterval;
    }

    method TickDirect(t: Tick)
      modifies this
      ensures View() == OnDirect(old(View()), timing, multipath, t)
    {
      if t.healthy {
        wait := timing.healthCheckInterval;
        return;
      }
      var next;
      if multipath {
        next := Next(state, DirectLost, relayCandidate != "" && t.relayHealthy);
      } else {
        next := Next(state, DirectLost, relayCandidate != "");
        var fallback := WS_SENTINEL;
        if next == UDPRelay {
          fallback := relayCandidate;
        }
        if !t.seated {
          wait := timing.healthCheckInterval;
          return;
        }
        fallbacks := fallbacks + [fallback];
      }
      Transition(next);
      directCandidate := "";
      nextDirectAttempt := Some(t.now + timing.retryInterval);
      wait := timing.healthCheckInterval;
    }
  }

  // ---------------------------------------------------------------------
  // What runs keep
  // ---------------------------------------------------------------------

  /** One keepalive runs exactly while there is a relay candidate, and each rung has its own candidates. */
  ghost predicate Good(l: Loop) {
    && l.running == (if l.relayStop.Some? then {l.relayStop.value} else {})
    && (l.relayStop.Some? <==> l.relayCandidate != "")
    && (l.relayStop.Some? ==> l.relayStop.value < l.started)
    && l.state in {WSSRelay, UDPRelay, DirectViaRelayReflector}
    && (l.state == WSSRelay ==> l.relayCandidate == "")
    && (l.state == UDPRelay ==> l.relayCandidate != "")
    && (l.state == DirectViaRelayReflector <==> l.directCandidate != "")
    && (l.published == Some(l.state) || (l.published == None && l.state == WSSRelay))
  }

  /** A tick that loses the direct path of a multipath session while its relay path is down too. */
  predicate Strands(l: Loop, multipath: bool, t: Tick) {
    multipath && l.state in {Direct, DirectViaRelayReflector} && !t.healthy && l.relayCandidate != "" && !t.relayHealthy
  }

  /** The ladder's invariant survives a tick exactly when the tick does not strand a keepalive. */
  lemma TickKeepsGoodExactly(l: Loop, timing: Timing, multipath: bool, t: Tick)
    requires Good(l)
    ensures Good(Advance(l, timing, multipath, t)) <==> !Strands(l, multipath, t)
  {
    var n := Advance(l, timing, multipath, t);
    if Strands(l, multipath, t) {
      assert n.state == WSSRelay && n.relayCandidate != "";
    }
  }

  /** Every single-path run keeps it, and leaving the loop stops the one keepalive there may be. */
  lemma {:induction false} SinglePathRunsAreGood(timing: Timing, ticks: seq<Tick>)
    ensures Good(Run(timing, false, ticks))
    ensures StopKeepalive(Run(timing, false, ticks)).running == {}
    decreases |ticks|
  {
    if ticks != [] {
      var before := ticks[..|ticks| - 1];
      SinglePathRunsAreGood(timing, before);
      TickKeepsGoodExactly(Run(timing, false, before), timing, false, ticks[|ticks| - 1]);
    }
  }

  /** Where a single-path session goes when it loses the direct path, and what it does when it cannot go there. */
  lemma DirectLossStepsToWarmRelay(timing: Timing, ticks: seq<Tick>, t: Tick)
    requires Run(timing, false, ticks).state == DirectViaRelayReflector && !t.healthy
    ensures var l, n := Run(timing, false, ticks), Run(timing, false, ticks + [t]);
            if !t.seated then n == l.(wait := timing.healthCheckInterval)
            else
              && (n.state == UDPRelay <==> l.running != {})
              && (n.state == WSSRelay <==> l.running == {})
              && n.fallbacks == l.fallbacks + [if l.running != {} then l.relayCandidate else WS_SENTINEL]
              && n.running == l.running && n.directCandidate == ""
  {
    SinglePathRunsAreGood(timing, ticks);
    assert (ticks + [t])[..|ticks + [t]| - 1] == ticks;
  }

  // ---------------------------------------------------------------------
  // Keepalives in any run
  // ---------------------------------------------------------------------

  /** How many ticks of a run stranded a keepalive. */
  function Stranded(timing: Timing, multipath: bool, ticks: seq<Tick>): nat
    decreases |ticks|
  {
    if ticks == [] then 0
    else
      var before, t := ticks[..|ticks| - 1], ticks[|ticks| - 1];
      Stranded(timing, multipath, before) + (if Strands(Run(timing, multipath, before), multipath, t) then 1 else 0)
  }

  /** The keepalives nothing can stop any more. */
  function Orphans(l: Loop): set<nat> {
    if l.relayStop.Some? then l.running - {l.relayStop.value} else l.running
  }

  /** The keepalive at hand will be forgotten by the next relay upgrade. */
  predicate Dangling(l: Loop) {
    l.relayStop.Some? && (l.state == WSSRelay || l.relayCandidate == "")
  }

  ghost predicate Accounted(l: Loop, stranded: nat) {
    && l.state in {WSSRelay, UDPRelay, DirectViaRelayReflector}
    && (forall k <- l.running :: k < l.started)
    && (l.relayStop.Some? ==> l.relayStop.value in l.running)
    && (l.state == UDPRelay ==> l.relayStop.Some? && l.relayCandidate != "")
    && (l.state == DirectViaRelayReflector && l.relayCandidate != "" ==> l.relayStop.Some?)
    && |Orphans(l)| + (if Dangling(l) then 1 else 0) <= stranded
  }

  lemma RelayTickAccounted(l: Loop, timing: Timing, t: Tick, stranded: nat)
    requires Accounted(l, stranded) && l.state == WSSRelay
    ensures Accounted(OnWSSRelay(l, timing, t), stranded)
  {
    var n := OnWSSRelay(l, timing, t);
    if t.relay != "" {
      assert Orphans(n) == l.running;
      if l.relayStop.Some? {
        assert l.running == Orphans(l) + {l.relayStop.value};
      }
    } else {
      assert Orphans(n) == Orphans(l);
    }
  }

  lemma UDPTickAccounted(l: Loop, timing: Timing, multipath: bool, t: Tick, stranded: nat)
    requires Accounted(l, stranded) && l.state == UDPRelay
    ensures Accounted(OnUDPRelay(l, timing, multipath, t), stranded)
  {
    assert Orphans(OnUDPRelay(l, timing, multipath, t)) == Orphans(l);
  }

  lemma DirectTickAccounted(l: Loop, timing: Timing, multipath: bool, t: Tick, stranded: nat)
    requires Accounted(l, stranded) && l.state == DirectViaRelayReflector
    ensures Accounted(OnDirect(l, timing, multipath, t), stranded + if Strands(l, multipath, t) then 1 else 0)
  {
    assert Orphans(OnDirect(l, timing, multipath, t)) == Orphans(l);
  }

  lemma TickAccounted(l: Loop, timing: Timing, multipath: bool, t: Tick, stranded: nat)
    requires Accounted(l, stranded)
    ensures Accounted(Advance(l, timing, multipath, t), stranded + if Strands(l, multipath, t) then 1 else 0)
  {
    match l.state {
      case WSSRelay => RelayTickAccounted(l, timing, t, stranded);
      case UDPRelay => UDPTickAccounted(l, timing, multipath, t, stranded);
      case DirectViaRelayReflector => DirectTickAccounted(l, timing, multipath, t, stranded);
      case Direct =>
      case Stopped =>
      case WSSFallback =>
    }
  }

  lemma {:induction false} RunAccounted(timing: Timing, multipath: bool, ticks: seq<Tick>)
    ensures Accounted(Run(timing, multipath, ticks), Stranded(timing, multipath, ticks))
    decreases |ticks|
  {
    if ticks != [] {
      var before := ticks[..|ticks| - 1];
      RunAccounted(timing, multipath, before);
      TickAccounted(Run(timing, multipath, before), timing, multipath, ticks[|ticks| - 1],
                    Stranded(timing, multipath, before));
    }
  }

  /** In any run at most one keepalive runs besides one per stranding tick, and only those outlive the loop. */
  lemma KeepalivesAreBounded(timing: Timing, multipath: bool, ticks: seq<Tick>)
    ensures var l := Run(timing, multipath, ticks);
            && |l.running| <= 1 + Stranded(timing, multipath, ticks)
            && |StopKeepalive(l).running| <= Stranded(timing, multipath, ticks)
  {
    RunAccounted(timing, multipath, ticks);
    var l := Run(timing, multipath, ticks);
    if l.relayStop.Some? {
      assert l.running == Orphans(l) + {l.relayStop.value};
    }
  }

  /** The bound is met: a multipath session that strands a keepalive keeps it after the loop has ended. */
  lemma StrandedKeepaliveOutlivesTheLoop(timing: Timing, relay: string, direct: string)
    requires relay != "" && direct != ""
    ensures var up := Tick(0, relay, false, direct, true, true, true);
            var lost := Tick(0, relay, false, direct, false, true, false);
            var l := Run(timing, true, [up, up, lost, up]);
            l.running == {0, 1} && StopKeepalive(l).running == {0}
  {
    var up := Tick(0, relay, false, direct, true, true, true);
    var lost := Tick(0, relay, false, direct, false, true, false);
    var l0 := Start(timing);
    var l1, l2 := Advance(l0, timing, true, up), Advance(Advance(l0, timing, true, up), timing, true, up);
    var l3 := Advance(l2, timing, true, lost);
    assert Run(timing, true, []) == l0;
    assert [up][..0] == [] && [up, up][..1] == [up] && [up, up, lost][..2] == [up, up];
    assert [up, up, lost, up][..3] == [up, up, lost];
    assert Run(timing, true, [up]) == l1;
    assert Run(timing, true, [up, up]) == l2;
    assert Run(timing, true, [up, up, lost]) == l3;
  }

  // ---------------------------------------------------------------------
  // Pacing
  // ---------------------------------------------------------------------

  /** Each tick comes no earlier than the wait the one before it asked for. */
  ghost predicate Timely(timing: Timing, multipath: bool, ticks: seq<Tick>)
    decreases |ticks|
  {
    |ticks| <= 1 ||
    (var before := ticks[..|ticks| - 1];
     Timely(timing, multipath, before)
     && ticks[|ticks| - 1].now >= before[|before| - 1].now + Run(timing, multipath, before).wait)
  }

  /** The direct path is tried from the UDP-relay rung at this tick. */
  predicate Tries(l: Loop, t: Tick) {
    l.state == UDPRelay && t.healthy && !(l.nextDirectAttempt.Some? && l.nextDirectAttempt.value > t.now)
  }

  /** If t tries the direct path, the last try was at least a retry interval ago. */
  ghost predicate Spaced(timing: Timing, multipath: bool, ticks: seq<Tick>, t: Tick) {
    var l := Run(timing, multipath, ticks);
    Tries(l, t) && l.lastTry.Some? ==> t.now >= l.lastTry.value + timing.retryInterval
  }

  /** Between ticks, `last` being the latest: the next try from here cannot come too early. */
  ghost predicate Paced(l: Loop, timing: Timing, last: int) {
    && (l.state == UDPRelay ==> l.relayCandidate != "" && l.wait == timing.healthCheckInterval)
    && (l.state == DirectViaRelayReflector ==> l.wait == timing.healthCheckInterval)
    && l.state in {WSSRelay, UDPRelay, DirectViaRelayReflector}
    && (l.lastTry.Some? ==>
          var due := l.lastTry.value + timing.retryInterval;
          && l.lastTry.value <= last
          && (l.state == WSSRelay ==> last + l.wait + timing.healthCheckInterval >= due)
          && (l.state == UDPRelay ==>
                last + l.wait >= due || (l.nextDirectAttempt.Some? && l.nextDirectAttempt.value >= due))
          && (l.state == DirectViaRelayReflector && l.relayCandidate == "" ==> last + l.wait >= due))
  }

  /** What keeps tries apart: no keepalive is stranded, or a round of climbing takes a retry interval anyway. */
  predicate Unhurried(l: Loop, timing: Timing, multipath: bool, t: Tick) {
    !Strands(l, multipath, t) || timing.retryInterval <= 3 * timing.healthCheckInterval
  }

  lemma TickPaced(l: Loop, timing: Timing, multipath: bool, last: int, t: Tick)
    requires Paced(l, timing, last) && t.now >= last + l.wait && Unhurried(l, timing, multipath, t)
    ensures Paced(Advance(l, timing, multipath, t), timing, t.now)
    ensures Tries(l, t) && l.lastTry.Some? ==> t.now >= l.lastTry.value + timing.retryInterval
  {
  }

  lemma {:induction false} RunPaced(timing: Timing, multipath: bool, ticks: seq<Tick>)
    requires ticks != [] && Timely(timing, multipath, ticks)
    requires Stranded(timing, multipath, ticks) == 0 || timing.retryInterval <= 3 * timing.healthCheckInterval
    ensures Paced(Run(timing, multipath, ticks), timing, ticks[|ticks| - 1].now)
    decreases |ticks|
  {
    var before, t := ticks[..|ticks| - 1], ticks[|ticks| - 1];
    if before == [] {
      assert Run(timing, multipath, before) == Start(timing);
    } else {
      RunPaced(timing, multipath, before);
      TickPaced(Run(timing, multipath, before), timing, multipath, before[|before| - 1].now, t);
    }
  }

  /**
   Tries of the direct path from the UDP-relay rung are a retry interval
   apart, across any climbs and falls, in every run that strands no keepalive.
   */
  lemma DirectAttemptsArePaced(timing: Timing, multipath: bool, ticks: seq<Tick>, t: Tick)
    requires Timely(timing, multipath, ticks + [t])
    requires Stranded(timing, multipath, ticks) == 0 || timing.retryInterval <= 3 * timing.healthCheckInterval
    ensures Spaced(timing, multipath, ticks, t)
    ensures Tries(Run(timing, multipath, ticks), t) ==> Run(timing, multipath, ticks + [t]).lastTry == Some(t.now)
  {
    assert (ticks + [t])[..|ticks + [t]| - 1] == ticks;
    var l := Run(timing, multipath, ticks);
    if ticks != [] {
      RunPaced(timing, multipath, ticks);
      if Tries(l, t) && l.lastTry.Some? {
        assert l.wait == timing.healthCheckInterval;
      }
    }
  }

  lemma {:induction false} SinglePathStrandsNothing(timing: Timing, ticks: seq<Tick>)
    ensures Stranded(timing, false, ticks) == 0
    decreases |ticks|
  {
    if ticks != [] {
      SinglePathStrandsNothing(timing, ticks[..|ticks| - 1]);
    }
  }

  /** Every timely run of this configuration is paced. */
  ghost predicate AlwaysPaced(timing: Timing, multipath: bool) {
    forall ticks: seq<Tick>, t: Tick :: Timely(timing, multipath, ticks + [t]) ==> Spaced(timing, multipath, ticks, t)
  }

  /** Up, a try that succeeds, the loss of everything, and up again: as fast as the waits allow. */
  function Hurry(h: int): seq<Tick> {
    [Tick(0, "relay", false, "direct", true, true, true)]
    + [Tick(h, "relay", false, "direct", true, true, true)]
    + [Tick(2 * h, "relay", false, "direct", false, true, false)]
    + [Tick(3 * h, "relay", false, "direct", true, true, true)]
  }

  lemma RunSnoc(timing: Timing, multipath: bool, ticks: seq<Tick>, t: Tick)
    ensures Run(timing, multipath, ticks + [t]) == Advance(Run(timing, multipath, ticks), timing, multipath, t)
    ensures Timely(timing, multipath, ticks + [t]) <==>
              ticks == [] || (Timely(timing, multipath, ticks)
                              && t.now >= ticks[|ticks| - 1].now + Run(timing, multipath, ticks).wait)
  {
    assert (ticks + [t])[..|ticks + [t]| - 1] == ticks;
  }

  /** With stranding, the tries of this run are only three health checks apart. */
  lemma HurriedRun(timing: Timing)
    ensures var h := timing.healthCheckInterval;
            var t := Tick(4 * h, "relay", false, "direct", true, true, true);
            && Timely(timing, true, Hurry(h) + [t])
            && Tries(Run(timing, true, Hurry(h)), t)
            && Run(timing, true, Hurry(h)).lastTry == Some(h)
  {
    var h := timing.healthCheckInterval;
    RunOfNone(timing);
    hide Run, Timely;
    var up, try := Tick(0, "relay", false, "direct", true, true, true),
                   Tick(h, "relay", false, "direct", true, true, true);
    var lost, back := Tick(2 * h, "relay", false, "direct", false, true, false),
                      Tick(3 * h, "relay", false, "direct", true, true, true);
    var none: seq<Tick> := [];
    RunSnoc(timing, true, none, up);
    assert none + [up] == [up];
    RunSnoc(timing, true, [up], try);
    RunSnoc(timing, true, [up] + [try], lost);
    RunSnoc(timing, true, [up] + [try] + [lost], back);
    RunSnoc(timing, true, Hurry(h), Tick(4 * h, "relay", false, "direct", true, true, true));
  }

  lemma RunOfNone(timing: Timing)
    ensures Run(timing, true, []) == Start(timing)
  {
  }

  /**
   Over all runs the tries are paced exactly when the session is single-path
   or three health checks last a retry interval.
   */
  lemma AlwaysPacedExactly(timing: Timing, multipath: bool)
    ensures AlwaysPaced(timing, multipath) <==>
              !multipath || timing.retryInterval <= 3 * timing.healthCheckInterval
  {
    var h := timing.healthCheckInterval;
    if !multipath || timing.retryInterval <= 3 * h {
      forall ticks: seq<Tick>, t: Tick | Timely(timing, multipath, ticks + [t])
        ensures Spaced(timing, multipath, ticks, t)
      {
        if !multipath {
          SinglePathStrandsNothing(timing, ticks);
        }
        DirectAttemptsArePaced(timing, multipath, ticks, t);
      }
    } else {
      var t := Tick(4 * h, "relay", false, "direct", true, true, true);
      HurriedRun(timing);
      assert !Spaced(timing, true, Hurry(h), t);
    }
  }

  // ---------------------------------------------------------------------
  // Where each tick leads
  // ---------------------------------------------------------------------

  lemma {:induction false} UnstrandedRunsAreGood(timing: Timing, multipath: bool, ticks: seq<Tick>)
    requires Stranded(timing, multipath, ticks) == 0
    ensures Good(Run(timing, multipath, ticks))
    decreases |ticks|
  {
    if ticks != [] {
      var before := ticks[..|ticks| - 1];
      UnstrandedRunsAreGood(timing, multipath, before);
      TickKeepsGoodExactly(Run(timing, multipath, before), timing, multipath, ticks[|ticks| - 1]);
    }
  }

  /** The path just checked is given up: it failed, and in a single-path session the endpoint could be moved off it. */
  predicate GivenUp(multipath: bool, t: Tick) {
    !t.healthy && (multipath || t.seated)
  }

  /**
   From the WebSocket rung a session climbs to the UDP relay whenever one is
   established, and straight to a direct path only where the relay has no
   such tier; the new rung's candidate is the one established.
   */
  lemma ClimbsWhenOffered(timing: Timing, multipath: bool, ticks: seq<Tick>, t: Tick)
    requires Stranded(timing, multipath, ticks) == 0 && Run(timing, multipath, ticks).state == WSSRelay
    ensures var l, n := Run(timing, multipath, ticks), Run(timing, multipath, ticks + [t]);
            && (n.state == UDPRelay <==> t.relay != "")
            && (n.state == DirectViaRelayReflector <==> t.relay == "" && t.unavailable && t.direct != "")
            && n.relayCandidate == t.relay && |n.running| == (if t.relay != "" then 1 else 0)
            && n.directCandidate == (if n.state == DirectViaRelayReflector then t.direct else "")
            && n.wait == (if n.state == WSSRelay then timing.retryInterval else timing.healthCheckInterval)
            && (n.state == UDPRelay ==> n.nextDirectAttempt == None) && n.fallbacks == l.fallbacks
  {
    hide Run, Stranded, Timely;
    UnstrandedRunsAreGood(timing, multipath, ticks);
    RunSnoc(timing, multipath, ticks, t);
    ClimbCounts(Run(timing, multipath, ticks), timing, t);
  }

  lemma ClimbCounts(l: Loop, timing: Timing, t: Tick)
    requires Good(l) && l.state == WSSRelay
    ensures |OnWSSRelay(l, timing, t).running| == if t.relay != "" then 1 else 0
  {
    assert l.running == {};
    if t.relay != "" {
      assert OnWSSRelay(l, timing, t).running == {l.started};
    }
  }

  /**
   From the UDP relay a session falls back to the WebSocket, and its keepalive
   stops, when the path is given up; it goes direct when a try that is due
   succeeds; otherwise it stays with its candidate and its keepalive.
   */
  lemma RelayRungPolicy(timing: Timing, multipath: bool, ticks: seq<Tick>, t: Tick)
    requires Stranded(timing, multipath, ticks) == 0 && Run(timing, multipath, ticks).state == UDPRelay
    ensures var l, n := Run(timing, multipath, ticks), Run(timing, multipath, ticks + [t]);
            && (n.state == WSSRelay <==> GivenUp(multipath, t))
            && (n.state == DirectViaRelayReflector <==> Tries(l, t) && t.direct != "")
            && (if GivenUp(multipath, t) then n.relayCandidate == "" && n.running == {}
                else n.relayCandidate == l.relayCandidate && n.running == l.running)
            && n.fallbacks == (if GivenUp(multipath, t) && !multipath then l.fallbacks + ["ws:relay"] else l.fallbacks)
            && n.directCandidate == (if n.state == DirectViaRelayReflector then t.direct else "")
            && n.wait == (if n.state == WSSRelay then timing.retryInterval else timing.healthCheckInterval)
            && n.nextDirectAttempt == (if Tries(l, t) then Some(t.now + timing.retryInterval) else l.nextDirectAttempt)
  {
    hide Run, Stranded, Timely;
    UnstrandedRunsAreGood(timing, multipath, ticks);
    RunSnoc(timing, multipath, ticks, t);
  }

  /** From a direct path a session steps down exactly when it is given up, to the relay if that is warm and well. */
  lemma DirectRungPolicy(timing: Timing, multipath: bool, ticks: seq<Tick>, t: Tick)
    requires Stranded(timing, multipath, ticks) == 0
    requires Run(timing, multipath, ticks).state == DirectViaRelayReflector
    ensures var l, n := Run(timing, multipath, ticks), Run(timing, multipath, ticks + [t]);
            && (n.state == DirectViaRelayReflector <==> !GivenUp(multipath, t))
            && (n.state == UDPRelay <==>
                  GivenUp(multipath, t) && l.relayCandidate != "" && (multipath ==> t.relayHealthy))
            && n.relayCandidate == l.relayCandidate && n.running == l.running
            && n.directCandidate == (if GivenUp(multipath, t) then "" else l.directCandidate)
            && n.wait == timing.healthCheckInterval
            && n.nextDirectAttempt == (if GivenUp(multipath, t) then Some(t.now + timing.retryInterval)
                                       else l.nextDirectAttempt)
  {
    hide Run, Stranded, Timely;
    UnstrandedRunsAreGood(timing, multipath, ticks);
    RunSnoc(timing, multipath, ticks, t);
  }
}
