/** The route policy of pkg/client/transportstate.go. */
module Transport {

  /** The route a client's data plane takes. */
  datatype State = Stopped | Direct | DirectViaRelayReflector | WSSFallback | WSSRelay | UDPRelay

  datatype Event = UDPRelayEstablished | DirectEstablished | UDPRelayLost | DirectLost | ControlReconnected | Shutdown

  /** The published form of a route. */
  datatype ConnectionTransport =
    | Unknown
    | UDPDirect
    | WSSFallbackTransport
    | WSSRelayTransport
    | UDPRelayTransport
    | UDPRelayReflector

  function Initial(useWS: bool, udp: string): State {
    if !useWS then Direct else if udp != "" then WSSFallback else WSSRelay
  }

  function Next(current: State, event: Event, relayAvailable: bool): State {
    match event
    case Shutdown => Stopped
    case ControlReconnected => current
    case UDPRelayEstablished => if current == WSSRelay then UDPRelay else current
    case DirectEstablished => if current == WSSRelay || current == UDPRelay then DirectViaRelayReflector else current
    case UDPRelayLost => if current == UDPRelay then WSSRelay else current
    case DirectLost =>
      if current == Direct || current == DirectViaRelayReflector then
        if relayAvailable then UDPRelay else WSSRelay
      else current
  }

  function Publish(s: State): ConnectionTransport {
    match s
    case Direct => UDPDirect
    case DirectViaRelayReflector => UDPRelayReflector
    case WSSFallback => WSSFallbackTransport
    case WSSRelay => WSSRelayTransport
    case UDPRelay => UDPRelayTransport
    case Stopped => Unknown
  }

  function FromConnection(t: ConnectionTransport): State {
    match t
    case UDPDirect => Direct
    case UDPRelayReflector => DirectViaRelayReflector
    case WSSFallbackTransport => WSSFallback
    case WSSRelayTransport => WSSRelay
    case UDPRelayTransport => UDPRelay
    case Unknown => Stopped
  }

  /** A session starts on the direct path, on a fallback from it, or on the relay, and nowhere else. */
  lemma InitialRoute(useWS: bool, udp: string)
    ensures Initial(useWS, udp) == Direct <==> !useWS
    ensures Initial(useWS, udp) == WSSFallback <==> useWS && udp != ""
    ensures Initial(useWS, udp) == WSSRelay <==> useWS && udp == ""
  {
  }

  /** An event, with whether a relay was available when it happened. */
  datatype Step = Step(event: Event, relayAvailable: bool)

  function Run(from: State, steps: seq<Step>): State
    decreases |steps|
  {
    if steps == [] then from
    else Next(Run(from, steps[..|steps| - 1]), steps[|steps| - 1].event, steps[|steps| - 1].relayAvailable)
  }

  lemma {:induction false} RunConcat(from: State, a: seq<Step>, b: seq<Step>)
    ensures Run(from, a + b) == Run(Run(from, a), b)
    decreases |b|
  {
    if b == [] {
      assert a + b == a;
    } else {
      RunConcat(from, a, b[..|b| - 1]);
      assert (a + b)[..|a + b| - 1] == a + b[..|b| - 1];
    }
  }

  /** A reconnect anywhere in a run, read back from the published value, leaves the route it would have had. */
  lemma ReconnectKeepsRoute(from: State, a: seq<Step>, relayAvailable: bool, b: seq<Step>)
    ensures Run(from, a + [Step(ControlReconnected, relayAvailable)] + b) == Run(from, a + b)
    ensures FromConnection(Publish(Run(from, a))) == Run(from, a)
  {
    var r := [Step(ControlReconnected, relayAvailable)];
    RunConcat(from, a + r, b);
    RunConcat(from, a, r);
    RunConcat(from, a, b);
    assert Run(Run(from, a), r) == Run(from, a) by {
      assert r[..0] == [];
    }
  }

  /** Shutting down is final, and nothing else stops a running route. */
  lemma {:induction false} StoppedExactlyAfterShutdown(from: State, steps: seq<Step>)
    requires from != Stopped
    ensures Run(from, steps) == Stopped <==> exists i :: 0 <= i < |steps| && steps[i].event == Shutdown
    decreases |steps|
  {
    if steps != [] {
      StoppedExactlyAfterShutdown(from, steps[..|steps| - 1]);
    }
  }

  /** A session that has a direct UDP address to fall back from never climbs the ladder. */
  lemma {:induction false} FallbackNeverClimbs(steps: seq<Step>)
    ensures Run(WSSFallback, steps) in {WSSFallback, Stopped}
    decreases |steps|
  {
    if steps != [] {
      FallbackNeverClimbs(steps[..|steps| - 1]);
    }
  }
}
