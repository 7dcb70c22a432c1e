/**
 The receive wrapper of pkg/ipfamily/bind.go: a batch of packets in the
 caller's buffers is filtered in place by address family.
 */
module PacketFilter {
  import opened Common

  datatype Address = NoAddress | V4(bytes: Bytes) | V6(bytes: Bytes, zone: string)

  datatype Endpoint = Endpoint(ip: Address, port: nat)

  datatype Packet = Packet(data: Bytes, ep: Endpoint)

  const MAPPED_PREFIX: Bytes := [0, 0, 0, 0, 0, 0, 0, 0, 0, 0, 0xff, 0xff]

  /** netip.Addr.Unmap: an IPv4-mapped IPv6 address is its IPv4 address. */
  function Unmap(a: Address): Address {
    if a.V6? && |a.bytes| == 16 && a.bytes[..12] == MAPPED_PREFIX then V4(a.bytes[12..]) else a
  }

  predicate Matches(is6: bool, a: Address) {
    Unmap(a).V6? == is6
  }

  /** The packets that are kept. */
  function Matching(is6: bool, packets: seq<Packet>): (m: seq<Packet>)
    ensures |m| <= |packets|
  {
    if packets == [] then []
    else
      var last := packets[|packets| - 1];
      Matching(is6, packets[..|packets| - 1]) + if Matches(is6, last.ep.ip) then [last] else []
  }

  // ---------------------------------------------------------------------
  // One batch
  // ---------------------------------------------------------------------

  ghost predicate Distinct(bufs: array<array<byte>>)
    reads bufs
  {
    forall i, j :: 0 <= i < j < bufs.Length ==> bufs[i] != bufs[j]
  }

  ghost function Buffers(bufs: array<array<byte>>): set<object>
    reads bufs
  {
    set i | 0 <= i < bufs.Length :: bufs[i]
  }

  function Min(a: nat, b: nat): nat {
    if a < b then a else b
  }

  /** Slot k holds the packet, cut to the slot's buffer. */
  ghost predicate Slot(bufs: array<array<byte>>, sizes: array<nat>, eps: array<Endpoint>, k: nat, p: Packet)
    requires k < bufs.Length && k < sizes.Length && k < eps.Length
    reads bufs, bufs[k], sizes, eps
  {
    && sizes[k] == Min(|p.data|, bufs[k].Length)
    && bufs[k][..sizes[k]] == p.data[..sizes[k]]
    && eps[k] == p.ep
  }

  ghost predicate Holds(bufs: array<array<byte>>, sizes: array<nat>, eps: array<Endpoint>, packets: seq<Packet>)
    requires |packets| <= bufs.Length && |packets| <= sizes.Length && |packets| <= eps.Length
    reads bufs, Buffers(bufs), sizes, eps
  {
    forall k :: 0 <= k < |packets| ==> Slot(bufs, sizes, eps, k, packets[k])
  }

  /** No packet is longer than the buffer it was read into. */
  ghost predicate FitsItsBuffer(bufs: array<array<byte>>, packets: seq<Packet>)
    reads bufs
  {
    |packets| <= bufs.Length && forall k :: 0 <= k < |packets| ==> |packets[k].data| <= bufs[k].Length
  }

  /** Go's copy. */
  method Copy(dst: array<byte>, src: array<byte>, len: nat) returns (n: nat)
    requires dst != src && len <= src.Length
    modifies dst
    ensures n == Min(len, dst.Length)
    ensures dst[..n] == src[..n]
    ensures forall j :: n <= j < dst.Length ==> dst[j] == old(dst[j])
  {
    n := Min(len, dst.Length);
    forall j | 0 <= j < n {
      dst[j] := src[j];
    }
  }

  /** Moves the packet in slot i down to slot `out`, bytes and all. */
  method Move(bufs: array<array<byte>>, sizes: array<nat>, eps: array<Endpoint>, out: nat, i: nat, ghost p: Packet)
    requires out < i < bufs.Length && i < sizes.Length && i < eps.Length
    requires Distinct(bufs) && |p.data| <= bufs[i].Length && Slot(bufs, sizes, eps, i, p)
    modifies sizes, eps, bufs[out]
    ensures Slot(bufs, sizes, eps, out, p)
    ensures forall k: nat, q :: k != out && k < bufs.Length && k < sizes.Length && k < eps.Length ==>
              old(Slot(bufs, sizes, eps, k, q)) ==> Slot(bufs, sizes, eps, k, q)
    ensures forall sizes0, eps0, bytes0 ::
              old(Above(bufs, sizes, eps, out, sizes0, eps0, bytes0))
              ==> Above(bufs, sizes, eps, out + 1, sizes0, eps0, bytes0)
  {
    sizes[out] := Copy(bufs[out], bufs[i], sizes[i]);
    eps[out] := eps[i];
  }

  /** The loop over one batch. */
  method Compact(bufs: array<array<byte>>, sizes: array<nat>, eps: array<Endpoint>, is6: bool,
                 ghost packets: seq<Packet>, n: nat)
    returns (out: nat)
    requires n == |packets| <= bufs.Length && n <= sizes.Length && n <= eps.Length
    requires Distinct(bufs) && FitsItsBuffer(bufs, packets) && Holds(bufs, sizes, eps, packets)
    modifies sizes, eps, Buffers(bufs)
    ensures out == |Matching(is6, packets)|
    ensures Holds(bufs, sizes, eps, Matching(is6, packets))
    ensures bufs[..] == old(bufs[..])
    ensures Above(bufs, sizes, eps, out, old(sizes[..]), old(eps[..]), old(Contents(bufs)))
  {
    hide Min, Matches, Matching, Slot, Above, Contents;
    NoneMatch(is6);
    assert packets[..0] == [];
    AboveAtFirst(bufs, sizes, eps);
    ghost var sizes0, eps0, bytes0 := sizes[..], eps[..], Contents(bufs);
    out := 0;
    for i := 0 to n
      invariant out == |Matching(is6, packets[..i])| <= i
      invariant Holds(bufs, sizes, eps, Matching(is6, packets[..i]))
      invariant forall k :: i <= k < n ==> Slot(bufs, sizes, eps, k, packets[k])
      invariant Above(bufs, sizes, eps, out, sizes0, eps0, bytes0)
    {
      ghost var kept := Matching(is6, packets[..i]);
      MatchingStep(is6, packets, i);
      assert Slot(bufs, sizes, eps, i, packets[i]);
      SlotEndpoint(bufs, sizes, eps, i, packets[i]);
      if !Matches(is6, eps[i].ip) {
        continue;
      }
      if out != i {
        Move(bufs, sizes, eps, out, i, packets[i]);
      } else {
        AboveUp(bufs, sizes, eps, out, sizes0, eps0, bytes0);
      }
      out := out + 1;
    }
    assert packets[..n] == packets;
  }

  lemma NoneMatch(is6: bool)
    ensures Matching(is6, []) == []
  {
  }

  lemma SlotEndpoint(bufs: array<array<byte>>, sizes: array<nat>, eps: array<Endpoint>, k: nat, p: Packet)
    requires k < bufs.Length && k < sizes.Length && k < eps.Length && Slot(bufs, sizes, eps, k, p)
    ensures eps[k] == p.ep
  {
  }

  lemma AboveAtFirst(bufs: array<array<byte>>, sizes: array<nat>, eps: array<Endpoint>)
    ensures Above(bufs, sizes, eps, 0, sizes[..], eps[..], Contents(bufs))
  {
  }

  lemma AboveUp(bufs: array<array<byte>>, sizes: array<nat>, eps: array<Endpoint>, out: nat,
                sizes0: seq<nat>, eps0: seq<Endpoint>, bytes0: seq<Bytes>)
    requires Above(bufs, sizes, eps, out, sizes0, eps0, bytes0)
    ensures Above(bufs, sizes, eps, out + 1, sizes0, eps0, bytes0)
  {
  }

  lemma MatchingStep(is6: bool, packets: seq<Packet>, i: nat)
    requires i < |packets|
    ensures Matching(is6, packets[..i + 1])
         == Matching(is6, packets[..i]) + if Matches(is6, packets[i].ep.ip) then [packets[i]] else []
  {
    assert packets[..i + 1][..i] == packets[..i];
  }

  ghost function Contents(bufs: array<array<byte>>): seq<Bytes>
    reads bufs, Buffers(bufs)
    ensures |Contents(bufs)| == bufs.Length
    ensures forall k :: 0 <= k < bufs.Length ==> Contents(bufs)[k] == bufs[k][..]
  {
    ContentsFrom(bufs, 0)
  }

  ghost function ContentsFrom(bufs: array<array<byte>>, i: nat): (c: seq<Bytes>)
    requires i <= bufs.Length
    reads bufs, Buffers(bufs)
    ensures |c| == bufs.Length - i
    ensures forall k :: i <= k < bufs.Length ==> c[k - i] == bufs[k][..]
    decreases bufs.Length - i
  {
    if i == bufs.Length then [] else [bufs[i][..]] + ContentsFrom(bufs, i + 1)
  }

  /** The slots from `out` on are as they were. */
  ghost predicate Above(bufs: array<array<byte>>, sizes: array<nat>, eps: array<Endpoint>, out: nat,
                        sizes0: seq<nat>, eps0: seq<Endpoint>, bytes0: seq<Bytes>)
    reads bufs, Buffers(bufs), sizes, eps
  {
    && |sizes0| == sizes.Length && |eps0| == eps.Length && |bytes0| == bufs.Length
    && (forall k :: out <= k < sizes.Length ==> sizes[k] == sizes0[k])
    && (forall k :: out <= k < eps.Length ==> eps[k] == eps0[k])
    && (forall k :: out <= k < bufs.Length ==> bufs[k][..] == bytes0[k])
  }

  // ---------------------------------------------------------------------
  // The retry loop
  // ---------------------------------------------------------------------

  datatype Batch = Delivered(packets: seq<Packet>) | Broken(n: int, error: string)

  /** The wrapped receive function, with what it will return; once that is used up it is closed. */
  class Source {
    const batches: seq<Batch>
    var next: nat

    constructor (batches: seq<Batch>)
      ensures this.batches == batches && next == 0
    {
      this.batches, next := batches, 0;
    }

    method Read(bufs: array<array<byte>>, sizes: array<nat>, eps: array<Endpoint>)
      returns (n: int, error: Option<string>)
      requires next <= |batches| && Distinct(bufs) && Deliverable(bufs, sizes, eps, batches)
      modifies this, sizes, eps, Buffers(bufs)
      ensures old(next) <= next <= |batches|
      ensures Result(old(next), n, error)
      ensures bufs[..] == old(bufs[..])
      ensures error.None? ==>
                && next == old(next) + 1
                && batches[next - 1].Delivered? && n == |batches[next - 1].packets|
                && Holds(bufs, sizes, eps, batches[next - 1].packets)
    {
      if next == |batches| {
        return 0, Some("closed");
      }
      var b := batches[next];
      next := next + 1;
      match b {
        case Broken(k, e) => return k, Some(e);
        case Delivered(packets) =>
          hide Slot;
          for i := 0 to |packets|
            invariant next == old(next) + 1 && bufs[..] == old(bufs[..])
            invariant Distinct(bufs) && FitsItsBuffer(bufs, packets)
            invariant forall k :: 0 <= k < i ==> Slot(bufs, sizes, eps, k, packets[k])
          {
            Put(bufs, sizes, eps, i, packets[i]);
          }
          return |packets|, None;
      }
    }

    /** What a read at this point of the source reports. */
    ghost predicate Result(at: nat, n: int, error: Option<string>) {
      if at >= |batches| then n == 0 && error == Some("closed")
      else match batches[at]
           case Broken(k, e) => n == k && error == Some(e)
           case Delivered(packets) => n == |packets| && error == None
    }
  }

  ghost predicate Deliverable(bufs: array<array<byte>>, sizes: array<nat>, eps: array<Endpoint>, batches: seq<Batch>)
    reads bufs
  {
    forall b <- batches :: b.Delivered? ==>
      FitsItsBuffer(bufs, b.packets) && |b.packets| <= sizes.Length && |b.packets| <= eps.Length
  }

  /** Writes a packet into its slot. */
  method Put(bufs: array<array<byte>>, sizes: array<nat>, eps: array<Endpoint>, k: nat, p: Packet)
    requires k < bufs.Length && k < sizes.Length && k < eps.Length
    requires Distinct(bufs) && |p.data| <= bufs[k].Length
    modifies sizes, eps, bufs[k]
    ensures Slot(bufs, sizes, eps, k, p)
    ensures forall j: nat, q :: j != k && j < bufs.Length && j < sizes.Length && j < eps.Length ==>
              old(Slot(bufs, sizes, eps, j, q)) ==> Slot(bufs, sizes, eps, j, q)
  {
    var buf := bufs[k];
    forall j | 0 <= j < |p.data| {
      buf[j] := p.data[j];
    }
    sizes[k] := |p.data|;
    eps[k] := p.ep;
  }

  /** The first batch from `at` on that ends the retry loop: one with a packet to keep, or an error. */
  function Decisive(is6: bool, batches: seq<Batch>, at: nat): (i: nat)
    requires at <= |batches|
    ensures at <= i <= |batches|
    ensures forall k :: at <= k < i ==> batches[k].Delivered? && Matching(is6, batches[k].packets) == []
    ensures i < |batches| ==> batches[i].Broken? || Matching(is6, batches[i].packets) != []
    decreases |batches| - at
  {
    if at == |batches| || batches[at].Broken? || Matching(is6, batches[at].packets) != [] then at
    else Decisive(is6, batches, at + 1)
  }

  /** wrapReceive. */
  method Receive(source: Source, is6: bool, bufs: array<array<byte>>, sizes: array<nat>, eps: array<Endpoint>)
    returns (n: int, error: Option<string>)
    requires source.next <= |source.batches| && Distinct(bufs) && Deliverable(bufs, sizes, eps, source.batches)
    modifies source, sizes, eps, Buffers(bufs)
    ensures bufs[..] == old(bufs[..])
    ensures var at := Decisive(is6, source.batches, old(source.next));
            if error.None? then
              && at < |source.batches| && source.next == at + 1 && source.batches[at].Delivered?
              && n == |Matching(is6, source.batches[at].packets)| > 0
              && Holds(bufs, sizes, eps, Matching(is6, source.batches[at].packets))
            else source.Result(at, n, error)
  {
    hide Slot, Matching, Matches, Above, Contents;
    while true
      invariant old(source.next) <= source.next <= |source.batches|
      invariant Decisive(is6, source.batches, source.next) == Decisive(is6, source.batches, old(source.next))
      invariant bufs[..] == old(bufs[..])
      invariant Distinct(bufs) && Deliverable(bufs, sizes, eps, source.batches)
      decreases |source.batches| - source.next
    {
      var at := source.next;
      n, error := source.Read(bufs, sizes, eps);
      if error.Some? {
        return;
      }
      ghost var packets := source.batches[at].packets;
      var out := Compact(bufs, sizes, eps, is6, packets, n);
      if out > 0 {
        return out, None;
      }
    }
  }

  // ---------------------------------------------------------------------
  // What a caller is given
  // ---------------------------------------------------------------------

  /** Where in the batch the k-th kept packet was. */
  ghost function Origin(is6: bool, packets: seq<Packet>, k: nat): (i: nat)
    requires k < |Matching(is6, packets)|
    ensures i < |packets| && Matches(is6, packets[i].ep.ip) && Matching(is6, packets)[k] == packets[i]
    decreases |packets|
  {
    var front := packets[..|packets| - 1];
    if k < |Matching(is6, front)| then Origin(is6, front, k) else |packets| - 1
  }

  lemma {:induction false} OriginsIncrease(is6: bool, packets: seq<Packet>, j: nat, k: nat)
    requires j < k < |Matching(is6, packets)|
    ensures Origin(is6, packets, j) < Origin(is6, packets, k)
    decreases |packets|
  {
    hide Matches;
    var front := packets[..|packets| - 1];
    if k < |Matching(is6, front)| {
      OriginsIncrease(is6, front, j, k);
    }
  }

  /** Packet i of the batch is among those kept. */
  ghost predicate IsKept(is6: bool, packets: seq<Packet>, i: nat) {
    exists k :: 0 <= k < |Matching(is6, packets)| && Origin(is6, packets, k) == i
  }

  lemma {:induction false} EveryMatchIsKept(is6: bool, packets: seq<Packet>, i: nat) returns (k: nat)
    requires i < |packets| && Matches(is6, packets[i].ep.ip)
    ensures k < |Matching(is6, packets)| && Origin(is6, packets, k) == i
    decreases |packets|
  {
    hide Matches;
    var n := |packets| - 1;
    k := |Matching(is6, packets[..n])|;
    if i < n {
      k := EveryMatchIsKept(is6, packets[..n], i);
    }
  }

  /** Matching is a stable filter: in order, and missing nothing of the family. */
  lemma MatchingIsStable(is6: bool, packets: seq<Packet>)
    ensures forall j, k :: 0 <= j < k < |Matching(is6, packets)| ==> Origin(is6, packets, j) < Origin(is6, packets, k)
    ensures forall i :: 0 <= i < |packets| ==> (Matches(is6, packets[i].ep.ip) <==> IsKept(is6, packets, i))
  {
    forall j, k | 0 <= j < k < |Matching(is6, packets)|
      ensures Origin(is6, packets, j) < Origin(is6, packets, k)
    {
      OriginsIncrease(is6, packets, j, k);
    }
    forall i | 0 <= i < |packets|
      ensures Matches(is6, packets[i].ep.ip) <==> IsKept(is6, packets, i)
    {
      KeptIffMatching(is6, packets, i);
    }
  }

  lemma KeptIffMatching(is6: bool, packets: seq<Packet>, i: nat)
    requires i < |packets|
    ensures Matches(is6, packets[i].ep.ip) <==> IsKept(is6, packets, i)
  {
    hide Matches;
    if Matches(is6, packets[i].ep.ip) {
      var k := EveryMatchIsKept(is6, packets, i);
    }
  }

  /** When every packet fits every earlier buffer, the slots hold exactly the kept packets. */
  lemma NothingIsCut(bufs: array<array<byte>>, sizes: array<nat>, eps: array<Endpoint>, is6: bool, packets: seq<Packet>)
    requires |packets| <= bufs.Length && |packets| <= sizes.Length && |packets| <= eps.Length
    requires forall i, k :: 0 <= k <= i < |packets| ==> |packets[i].data| <= bufs[k].Length
    requires Holds(bufs, sizes, eps, Matching(is6, packets))
    ensures forall k :: 0 <= k < |Matching(is6, packets)| ==>
              var p := packets[Origin(is6, packets, k)];
              bufs[k][..sizes[k]] == p.data && sizes[k] == |p.data| && eps[k] == p.ep
  {
    hide Matching, Matches;
    forall k | 0 <= k < |Matching(is6, packets)|
      ensures var p := packets[Origin(is6, packets, k)];
              bufs[k][..sizes[k]] == p.data && sizes[k] == |p.data| && eps[k] == p.ep
    {
      var i := Origin(is6, packets, k);
      OriginAbove(is6, packets, k);
      assert Slot(bufs, sizes, eps, k, Matching(is6, packets)[k]);
      assert |packets[i].data| <= bufs[k].Length;
    }
  }

  lemma {:induction false} OriginAbove(is6: bool, packets: seq<Packet>, k: nat)
    requires k < |Matching(is6, packets)|
    ensures k <= Origin(is6, packets, k)
    decreases k
  {
    if k > 0 {
      OriginsIncrease(is6, packets, k - 1, k);
      OriginAbove(is6, packets, k - 1);
    }
  }

  // ---------------------------------------------------------------------
  // Which packets match
  // ---------------------------------------------------------------------

  /** ::ffff:0:0/96, the IPv4-mapped addresses. */
  predicate Mapped(a: Address) {
    && a.V6? && |a.bytes| == 16
    && (forall i :: 0 <= i < 10 ==> a.bytes[i] == 0) && a.bytes[10] == 0xff && a.bytes[11] == 0xff
  }

  /** An IPv6-only bind takes exactly the IPv6 addresses that are not mapped, an IPv4-only bind all the others. */
  lemma FamilyTest(a: Address)
    ensures Matches(true, a) <==> a.V6? && !Mapped(a)
    ensures Matches(false, a) <==> !a.V6? || Mapped(a)
  {
    if a.V6? && |a.bytes| == 16 {
      assert a.bytes[..12] == MAPPED_PREFIX <==> forall i :: 0 <= i < 12 ==> a.bytes[i] == MAPPED_PREFIX[i];
    }
  }

  /** Between them the two families take every packet of a batch once. */
  lemma {:induction false} FamiliesShareTheBatch(packets: seq<Packet>)
    ensures |Matching(true, packets)| + |Matching(false, packets)| == |packets|
  {
    if packets != [] {
      FamiliesShareTheBatch(packets[..|packets| - 1]);
      FamilyTest(packets[|packets| - 1].ep.ip);
    }
  }
}
