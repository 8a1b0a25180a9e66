/** Automatic node ports (cmd/macker/ports.go). */
module Ports {
  import opened Text
  import opened Network

  newtype uint32 = n: int | 0 <= n < 0x1_0000_0000

  const AUTO_NODE_PORT_MIN: uint16 := 30000
  const AUTO_NODE_PORT_MAX: uint16 := 32767
  const SPAN: uint32 := 2768

  /** What asking about one port answers: it can be used, it cannot, or the question itself failed. */
  datatype Probe = Free | Busy | Broken

  datatype AllocationError = Exhausted | ProbeFailed

  predicate InRange(port: uint16) {
    AUTO_NODE_PORT_MIN <= port <= AUTO_NODE_PORT_MAX
  }

  /** The port tried at `offset` of a scan from `start`; every step of the arithmetic stays within its width. */
  function Candidate(start: uint16, offset: uint32): (port: uint16)
    requires offset < SPAN
    ensures InRange(port)
  {
    AUTO_NODE_PORT_MIN + ((start as uint32 + offset) % SPAN) as uint16
  }

  /** The offset at which a scan from `start` comes to `port`. */
  function OffsetOf(start: uint16, port: uint16): (offset: uint32)
    requires InRange(port)
    ensures offset < SPAN
  {
    ((port - AUTO_NODE_PORT_MIN) as uint32 + SPAN - start as uint32 % SPAN) % SPAN
  }

  /** From any start, the scan visits every port from 30000 to 32767, and each only once. */
  lemma ScanVisitsEachPortOnce(start: uint16, port: uint16, offset: uint32)
    requires offset < SPAN
    ensures InRange(port) <==> 30000 <= port <= 32767
    ensures InRange(port) ==> Candidate(start, OffsetOf(start, port)) == port
    ensures InRange(port) && Candidate(start, offset) == port ==> offset == OffsetOf(start, port)
  {
    if InRange(port) { OffsetIsTheOne(start, port, offset); }
  }

  /** It begins somewhere in the range, goes up by one, and on from 30000 after 32767. */
  lemma ScanGoesRound(start: uint16, offset: uint32)
    requires offset < SPAN
    ensures Candidate(start, 0) as int == 30000 + start as int % 2768
    ensures offset + 1 < SPAN ==>
              Candidate(start, offset + 1)
              == if Candidate(start, offset) == 32767 then 30000 else Candidate(start, offset) + 1
  {
    if offset + 1 < SPAN { NextRemainder(start as int + offset as int); }
  }

  lemma NextRemainder(n: nat)
    ensures (n + 1) % 2768 == if n % 2768 == 2767 then 0 else n % 2768 + 1
  {
  }

  lemma OffsetIsTheOne(start: uint16, port: uint16, offset: uint32)
    requires InRange(port) && offset < SPAN
    ensures Candidate(start, OffsetOf(start, port)) == port
    ensures Candidate(start, offset) == port ==> offset == OffsetOf(start, port)
  {
    var s, d, n := start as int, port as int - 30000, 2768;
    assert start as uint32 % SPAN == (s % n) as uint32;
    var k := (d + n - s % n) % n;
    assert OffsetOf(start, port) as int == k;
    ModShift(s, d, n);
    if Candidate(start, offset) == port {
      assert (s + offset as int) % n == d;
      ModUnshift(s, offset as int, n);
    }
  }

  lemma ModShift(s: int, d: int, n: int)
    requires n == 2768 && 0 <= d < n && 0 <= s
    ensures (s + (d + n - s % n) % n) % n == d
  {
  }

  lemma ModUnshift(s: int, k: int, n: int)
    requires n == 2768 && 0 <= k < n && 0 <= s
    ensures ((s + k) % n + n - s % n) % n == k
  {
  }

  /** portMappingUsesNodePort. */
  method UsesNodePort(ports: seq<PortMapping>, nodePort: uint16, protocol: string) returns (used: bool)
    ensures used <==> Reserved(ports, nodePort, protocol)
  {
    var i := 0;
    while i < |ports|
      invariant 0 <= i <= |ports|
      invariant !Reserved(ports[..i], nodePort, protocol)
    {
      if ports[i].nodePort == nodePort && ports[i].protocol == protocol { return true; }
      assert ports[..i + 1] == ports[..i] + [ports[i]];
      i := i + 1;
    }
    assert ports[..i] == ports;
    used := false;
  }

  predicate Reserved(ports: seq<PortMapping>, nodePort: uint16, protocol: string) {
    exists i :: 0 <= i < |ports| && ports[i].nodePort == nodePort && ports[i].protocol == protocol
  }

  predicate Taken(reserved: seq<PortMapping>, protocol: string, probe: uint16 -> Probe, port: uint16) {
    Reserved(reserved, port, protocol) || probe(port) == Busy
  }

  /** Every port of the range is taken. */
  ghost predicate NoneLeft(reserved: seq<PortMapping>, protocol: string, probe: uint16 -> Probe) {
    forall port :: InRange(port) ==> Taken(reserved, protocol, probe, port)
  }

  /** `port` is what a scan from `start` stops at: nothing before it was untaken. */
  ghost predicate FirstUntaken(start: uint16, reserved: seq<PortMapping>, protocol: string, probe: uint16 -> Probe,
        port: uint16) {
    && InRange(port) && !Taken(reserved, protocol, probe, port)
    && forall k :: 0 <= k < OffsetOf(start, port) ==> Taken(reserved, protocol, probe, Candidate(start, k))
  }

  /** allocateNodePort, for any random start. A probe that fails on an unreserved port ends the scan. */
  method AllocateNodePort(start: uint16, reserved: seq<PortMapping>, protocol: string, probe: uint16 -> Probe)
    returns (r: Result<uint16, AllocationError>)
    ensures r.Ok? ==> FirstUntaken(start, reserved, protocol, probe, r.value) && probe(r.value) == Free
    ensures r == Err(ProbeFailed) ==>
              exists port :: FirstUntaken(start, reserved, protocol, probe, port) && probe(port) == Broken
    ensures r == Err(Exhausted) <==> NoneLeft(reserved, protocol, probe)
  {
    var offset: uint32 := 0;
    while offset < SPAN
      invariant 0 <= offset <= SPAN
      invariant forall k :: 0 <= k < offset ==> Taken(reserved, protocol, probe, Candidate(start, k))
    {
      var candidate := Candidate(start, offset);
      ScanVisitsEachPortOnce(start, candidate, offset);
      var used := UsesNodePort(reserved, candidate, protocol);
      if !used {
        if probe(candidate) == Broken {
          assert FirstUntaken(start, reserved, protocol, probe, candidate);
          return Err(ProbeFailed);
        }
        if probe(candidate) == Free { return Ok(candidate); }
      }
      offset := offset + 1;
    }
    forall port | InRange(port)
      ensures Taken(reserved, protocol, probe, port)
    {
      ScanVisitsEachPortOnce(start, port, 0);
    }
    r := Err(Exhausted);
  }

  /** The mapping as resolved: an explicit port is kept, an automatic one was free when it was probed and is not used
      by an earlier mapping of the same protocol. */
  ghost predicate ResolvedAs(before: PortMapping, after: PortMapping, earlier: seq<PortMapping>,
        probe: uint16 -> Probe) {
    && after.hostPort == before.hostPort && after.protocol == before.protocol
    && (before.nodePort != 0 ==> after == before)
    && (before.nodePort == 0 ==>
          InRange(after.nodePort) && probe(after.nodePort) == Free
            && !Reserved(earlier, after.nodePort, after.protocol))
  }

  /** resolveNodePorts, in place. `probes(i)` is the host as the i-th mapping finds it. */
  method ResolveNodePorts(ports: array<PortMapping>, probes: nat -> (uint16 -> Probe))
      returns (error: Option<AllocationError>)
    modifies ports
    ensures error.None? ==>
              forall i :: 0 <= i < ports.Length ==> ResolvedAs(old(ports[i]), ports[i], ports[..i], probes(i))
    ensures error.None? ==>
              forall i, j ::
                0 <= i < j < ports.Length && old(ports[j].nodePort) == 0 && ports[i].protocol == ports[j].protocol ==>
                  ports[i].nodePort != ports[j].nodePort
    ensures error.Some? ==> exists k :: StoppedAt(old(ports[..]), ports[..], k, probes, error.value)
  {
    var index := 0;
    while index < ports.Length
      invariant 0 <= index <= ports.Length
      invariant forall i :: 0 <= i < index ==> ResolvedAs(old(ports[i]), ports[i], ports[..i], probes(i))
      invariant forall i :: index <= i < ports.Length ==> ports[i] == old(ports[i])
    {
      if ports[index].nodePort == 0 {
        var start: uint16 :| true;
        var r := AllocateNodePort(start, ports[..index], ports[index].protocol, probes(index));
        if r.Err? {
          assert StoppedAt(old(ports[..]), ports[..], index, probes, r.error);
          return Some(r.error);
        }
        ghost var before := ports[..];
        ports[index] := ports[index].(nodePort := r.value);
        assert forall i :: 0 <= i <= index ==> ports[..i] == before[..i];
      }
      index := index + 1;
    }
    error := None;
    forall i, j | 0 <= i < j < ports.Length && old(ports[j].nodePort) == 0 && ports[i].protocol == ports[j].protocol
      ensures ports[i].nodePort != ports[j].nodePort
    {
      UnreservedDiffers(ports[..j], i, ports[j]);
    }
  }

  /** Resolution gave up at the k-th mapping, which stays automatic, as do all after it. */
  ghost predicate StoppedAt(before: seq<PortMapping>, after: seq<PortMapping>, k: nat, probes: nat -> (uint16 -> Probe),
                            error: AllocationError) {
    && k < |before| == |after| && before[k].nodePort == 0
    && (forall i :: 0 <= i < k ==> ResolvedAs(before[i], after[i], after[..i], probes(i)))
    && (forall i :: k <= i < |before| ==> after[i] == before[i])
    && (error == Exhausted <==> NoneLeft(after[..k], before[k].protocol, probes(k)))
  }

  lemma UnreservedDiffers(earlier: seq<PortMapping>, i: nat, port: PortMapping)
    requires i < |earlier| && !Reserved(earlier, port.nodePort, port.protocol) && earlier[i].protocol == port.protocol
    ensures earlier[i].nodePort != port.nodePort
  {
  }
}
