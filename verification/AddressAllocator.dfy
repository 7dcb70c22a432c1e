/** allocateIP of pkg/server/dataplane.go: a cyclic scan cut off by counting. */
module AddressAllocator {
  import opened Common

  function Pow2(k: nat): (r: nat)
    ensures r > 0
  {
    if k == 0 then 1 else 2 * Pow2(k - 1)
  }

  lemma {:induction false} Pow2Add(a: nat, b: nat)
    ensures Pow2(a + b) == Pow2(a) * Pow2(b)
  {
    if a > 0 {
      Pow2Add(a - 1, b);
    }
  }

  // ---------------------------------------------------------------------
  // netip.Addr and netip.Prefix
  // ---------------------------------------------------------------------

  datatype Family = V4 | V6 {
    function Width(): nat {
      if V4? then 32 else 128
    }
  }

  datatype Addr = Invalid | Addr(family: Family, n: nat)

  /** The next address of the family; the zero Addr after the last one. */
  function NextAddr(a: Addr): Addr {
    match a
    case Invalid => Invalid
    case Addr(f, n) => if n + 1 < Pow2(f.Width()) then Addr(f, n + 1) else Invalid
  }

  datatype Prefix = Prefix(family: Family, n: nat, bits: nat)

  ghost predicate WellFormed(p: Prefix) {
    p.bits <= p.family.Width() && p.n < Pow2(p.family.Width())
  }

  function Size(p: Prefix): (r: nat)
    requires p.bits <= p.family.Width()
    ensures r > 0
  {
    Pow2(p.family.Width() - p.bits)
  }

  function Masked(p: Prefix): Prefix
    requires p.bits <= p.family.Width()
  {
    Division(p.n, Size(p));
    p.(n := p.n - p.n % Size(p))
  }

  /** Same family and the same leading bits. */
  predicate Contains(p: Prefix, a: Addr)
    requires p.bits <= p.family.Width()
  {
    a.Addr? && a.family == p.family && a.n / Size(p) == p.n / Size(p)
  }

  /** A masked prefix holds `Size` consecutive addresses, all of them in the family. */
  lemma MaskedRange(p: Prefix)
    requires WellFormed(p)
    ensures var m := Masked(p);
            && m.n % Size(m) == 0 && m.n + Size(m) <= Pow2(p.family.Width())
            && forall a: Addr :: Contains(m, a) <==> a.Addr? && a.family == p.family && m.n <= a.n < m.n + Size(m)
  {
    var m, size, width := Masked(p), Size(p), p.family.Width();
    Pow2Add(width - p.bits, p.bits);
    var q := p.n / size;
    Division(p.n, size);
    MultipleBelow(size, q, p.n, Pow2(p.bits));
    forall a: Addr
      ensures Contains(m, a) <==> a.Addr? && a.family == p.family && m.n <= a.n < m.n + size
    {
      QuotientRange(m.n, size, q);
      if a.Addr? {
        QuotientRange(a.n, size, q);
      }
    }
  }

  lemma Division(n: nat, size: nat)
    requires size > 0
    ensures n - n % size == size * (n / size) >= 0
  {
    MulLe(size, 0, n / size);
  }

  lemma MulLe(a: nat, b: int, c: int)
    requires b <= c
    ensures a * b <= a * c
  {
  }

  lemma MultipleBelow(size: nat, q: nat, n: nat, k: nat)
    requires size > 0 && q == n / size && n < size * k
    ensures size * q % size == 0 && size * q + size <= size * k
  {
    QuotientRange(n, size, q);
    if q >= k {
      MulLe(size, k, q);
    }
    assert size * q + size == size * (q + 1) <= size * k;
    QuotientRange(size * q, size, q);
  }

  lemma QuotientRange(n: nat, size: nat, q: nat)
    requires size > 0
    ensures n / size == q <==> size * q <= n < size * q + size
  {
    var d := n / size;
    assert n == size * d + n % size;
    if d < q {
      MulLe(size, d + 1, q);
    } else if d > q {
      MulLe(size, q + 1, d);
    }
  }

  // ---------------------------------------------------------------------
  // The broadcast address, by setting host bits one at a time
  // ---------------------------------------------------------------------

  function As4(n: nat): seq<byte>
    requires n < 0x1_0000_0000
  {
    [n / 0x100_0000, n / 0x1_0000 % 256, n / 0x100 % 256, n % 256]
  }

  function From4(b: seq<byte>): nat
    requires |b| == 4
  {
    b[0] as int * 0x100_0000 + b[1] as int * 0x1_0000 + b[2] as int * 0x100 + b[3] as int
  }

  lemma From4As4(n: nat)
    requires n < 0x1_0000_0000
    ensures From4(As4(n)) == n
  {
    var q0, q1, q2 := n / 0x100, n / 0x1_0000, n / 0x100_0000;
    assert n == 0x100 * q0 + n % 0x100;
    assert q0 / 0x100 == q1 && q0 == 0x100 * q1 + q0 % 0x100;
    assert q1 / 0x100 == q2 && q1 == 0x100 * q2 + q1 % 0x100;
  }

  /** What byte j of an address weighs. */
  function Weight(j: nat): nat
    requires j < 4
  {
    if j == 0 then 0x100_0000 else if j == 1 then 0x1_0000 else if j == 2 then 0x100 else 1
  }

  lemma WeightIsPow2(j: nat)
    requires j < 4
    ensures Weight(j) == Pow2(8 * (3 - j)) && Pow2(8) == 256 && Pow2(32) == 0x1_0000_0000
  {
    assert Pow2(8) == 256;
    Pow2Add(8, 8);
    Pow2Add(16, 8);
    Pow2Add(16, 16);
  }

  /** x | c on a byte, for c a power of two below 256. */
  function OrBit(x: nat, c: nat): nat
    requires c > 0
  {
    if x / c % 2 == 1 then x else x + c
  }

  lemma DivideOut(n: nat, c: nat, k: nat)
    requires c > 0 && k > 0 && n % (c * k) == 0
    ensures n % k == 0 && n / k % c == 0
  {
    var q := n / (c * k);
    assert n == c * k * q;
    assert n == k * (c * q);
    QuotientRange(n, k, c * q);
    assert n == k * (n / k) + n % k;
    QuotientRange(c * q, c, q);
    assert c * q == c * (c * q / c) + c * q % c;
  }

  /** A set bit of a byte stays a byte. */
  lemma OrBitRoom(x: nat, c: nat, m: nat)
    requires c > 0 && 2 * c * m == 256 && x < 256
    ensures OrBit(x, c) < 256
  {
    if x / c % 2 != 1 {
      var q := x / c / 2;
      assert x / c == 2 * q;
      QuotientRange(x, c, 2 * q);
      if q >= m {
        MulLe(2 * c, m, q);
      } else {
        MulLe(2 * c, q + 1, m);
      }
    }
  }

  lemma AddKeepsMultiple(x: nat, c: nat)
    requires c > 0 && x % c == 0
    ensures (x + c) % c == 0
  {
    QuotientRange(x + c, c, x / c + 1);
    assert x == c * (x / c) + x % c;
    assert c * (x / c + 1) == c * (x / c) + c;
    assert x + c == c * ((x + c) / c) + (x + c) % c;
  }

  lemma LowByte(m: nat, c: nat, k: nat)
    requires c > 0 && c * k == 256 && m % c == 0
    ensures m % 256 % c == 0
  {
    var a := m / 256;
    assert m == 256 * a + m % 256;
    assert m == c * (m / c) + m % c;
    assert 256 * a == c * (k * a);
    assert m % 256 == c * (m / c - k * a);
    if m / c - k * a <= -1 {
      MulLe(c, m / c - k * a, -1);
    }
    QuotientRange(m % 256, c, m / c - k * a);
    assert m % 256 == c * (m % 256 / c) + m % 256 % c;
  }

  /** Host bits from position `bit` on are clear. */
  ghost predicate HostBitsClear(b: seq<byte>, bit: nat)
    requires |b| == 4
  {
    && (forall k :: 0 <= k < 4 && 8 * k >= bit ==> b[k] == 0)
    && (bit < 32 ==> b[bit / 8] as int % Pow2(8 - bit % 8) == 0)
  }

  lemma MaskedBytes(n: nat, bits: nat)
    requires bits <= 32 && n < 0x1_0000_0000 && n % Pow2(32 - bits) == 0
    ensures HostBitsClear(As4(n), bits)
  {
    hide Pow2;
    var j, r := bits / 8, bits % 8;
    if j < 4 {
      WeightIsPow2(j);
      assert 32 - bits == 8 - r + 8 * (3 - j);
      Pow2Add(8 - r, 8 * (3 - j));
      Pow2Add(8 - r, r);
      DivideOut(n, Pow2(8 - r), Weight(j));
      LowByte(n / Weight(j), Pow2(8 - r), Pow2(r));
      ByteOf(n, j);
      BytesAbove(n, j);
    }
  }

  lemma ByteOf(n: nat, j: nat)
    requires j < 4 && n < 0x1_0000_0000
    ensures As4(n)[j] as int == n / Weight(j) % 256
  {
  }

  lemma {:induction false} BytesAbove(n: nat, j: nat)
    requires j < 4 && n < 0x1_0000_0000 && n % Weight(j) == 0
    ensures forall k :: j < k < 4 ==> As4(n)[k] == 0
    decreases 4 - j
  {
    hide As4;
    if j < 3 {
      DivideOut(n, 256, Weight(j + 1));
      ByteOf(n, j + 1);
      BytesAbove(n, j + 1);
    }
  }

  lemma ReplaceByte(b: seq<byte>, j: nat, v: byte)
    requires |b| == 4 && j < 4
    ensures From4(b[j := v]) == From4(b) + (v as int - b[j] as int) * Weight(j)
  {
  }

  /** One turn of the loop: the first host bit is clear, so setting it adds its weight. */
  lemma SetBit(b: seq<byte>, bit: nat)
    requires |b| == 4 && bit < 32 && HostBitsClear(b, bit)
    ensures var c := Pow2(7 - bit % 8);
            && OrBit(b[bit / 8], c) < 256
            && From4(b[bit / 8 := OrBit(b[bit / 8], c)]) == From4(b) + Pow2(31 - bit)
            && HostBitsClear(b[bit / 8 := OrBit(b[bit / 8], c)], bit + 1)
  {
    hide Pow2, From4;
    var j, r := bit / 8, bit % 8;
    var c := Pow2(7 - r);
    WeightIsPow2(j);
    Pow2Add(7 - r, 8 * (3 - j));
    assert 31 - bit == 7 - r + 8 * (3 - j);
    Pow2Add(1, 7 - r);
    Pow2One();
    Pow2Add(8 - r, r);
    OrBitRoom(b[j], c, Pow2(r));
    DivideOut(b[j], 2, c);
    AddKeepsMultiple(b[j], c);
    ReplaceByte(b, j, b[j] as int + c);
  }

  lemma Pow2One()
    ensures Pow2(1) == 2 && Pow2(0) == 1
  {
  }

  /** The IPv4 loop that turns a masked base into the prefix's last address. */
  method LastAddress(base: nat, bits: nat) returns (last: seq<byte>)
    requires bits <= 32 && base < 0x1_0000_0000 && base % Pow2(32 - bits) == 0
    ensures |last| == 4 && From4(last) == base + Pow2(32 - bits) - 1
  {
    hide From4, HostBitsClear;
    last := As4(base);
    From4As4(base);
    MaskedBytes(base, bits);
    for bit := bits to 32
      invariant |last| == 4 && HostBitsClear(last, bit)
      invariant From4(last) == base + Pow2(32 - bits) - Pow2(32 - bit)
    {
      SetBit(last, bit);
      last := last[bit / 8 := OrBit(last[bit / 8], Pow2(7 - bit % 8))];
    }
  }

  // ---------------------------------------------------------------------
  // The scan
  // ---------------------------------------------------------------------

  /** The k-th candidate of a scan that starts `start` addresses into the prefix. */
  ghost function Candidate(p: Prefix, start: nat, k: nat): Addr
    requires p.bits <= p.family.Width() && start < Size(p)
  {
    var at := start + k;
    Addr(p.family, p.n + if at < Size(p) then at else if at - Size(p) < Size(p) then at - Size(p) else 0)
  }

  /** The first m candidates are m different addresses. */
  lemma {:induction false} CandidatesAreDistinct(p: Prefix, start: nat, m: nat, s: set<Addr>)
    requires p.bits <= p.family.Width() && start < Size(p) && m <= Size(p)
    requires forall k :: 0 <= k < m ==> Candidate(p, start, k) in s
    ensures |s| >= m
    decreases m
  {
    if m > 0 {
      var last := Candidate(p, start, m - 1);
      forall k | 0 <= k < m - 1 ensures Candidate(p, start, k) in s - {last} {
        assert Candidate(p, start, k) in s;
      }
      CandidatesAreDistinct(p, start, m - 1, s - {last});
    }
  }

  /** A full turn of candidates is the whole prefix. */
  lemma CandidatesCover(p: Prefix, start: nat, s: set<Addr>, a: Addr)
    requires WellFormed(p) && p == Masked(p) && start < Size(p)
    requires forall k :: 0 <= k < Size(p) ==> Candidate(p, start, k) in s
    requires Contains(p, a)
    ensures a in s
  {
    MaskedRange(p);
    var off := a.n - p.n;
    var k := if off >= start then off - start else off - start + Size(p);
    assert Candidate(p, start, k) == a;
  }

  function Start(p: Prefix, cursor: Addr): Addr
    requires p.bits <= p.family.Width()
  {
    if cursor.Invalid? || !Contains(p, cursor) then Addr(p.family, p.n) else cursor
  }

  /** The cursor moves from one candidate to the next, wrapping at either end of the prefix or the family. */
  lemma Advance(p: Prefix, start: nat, k: nat, cursor: Addr)
    requires WellFormed(p) && p == Masked(p) && start < Size(p)
    requires k < Size(p) && Start(p, cursor) == Candidate(p, start, k)
    ensures Contains(p, Candidate(p, start, k))
    ensures k + 1 < Size(p) ==> Start(p, NextAddr(Start(p, cursor))) == Candidate(p, start, k + 1)
  {
    MaskedRange(p);
  }

  /** When every try hit a used address, counting leaves only one explanation. */
  lemma ScanFailed(p: Prefix, start: nat, used: set<Addr>)
    requires WellFormed(p) && p == Masked(p) && start < Size(p)
    requires forall k :: 0 <= k <= |used| && k < Size(p) ==> Candidate(p, start, k) in used
    ensures forall a :: Contains(p, a) ==> a in used
  {
    if |used| + 1 <= Size(p) {
      CandidatesAreDistinct(p, start, |used| + 1, used);
    }
    forall a | Contains(p, a) ensures a in used {
      CandidatesCover(p, start, used, a);
    }
  }

  class Allocator {
    /** The cursor; any value, even one outside the prefix, is a legal start. */
    var nextIP: Addr

    constructor ()
      ensures nextIP == Invalid
    {
      nextIP := Invalid;
    }

    /**
     `prefix` is None when the configured CIDR does not parse; `taken` are the
     addresses of configured peers and live sessions that do.
     */
    method AllocateIP(prefix: Option<Prefix>, serverIP: Addr, taken: seq<Addr>) returns (r: Option<Addr>)
      requires prefix.Some? ==> WellFormed(prefix.value)
      modifies this
      ensures prefix.None? ==> r.None? && nextIP == old(nextIP)
      ensures prefix.Some? ==>
                var p := Masked(prefix.value);
                var used := Reserved(p, serverIP, taken);
                && (r.Some? ==> Contains(p, r.value) && r.value !in used && nextIP == NextAddr(r.value))
                && (r.None? <==> forall a :: Contains(p, a) ==> a in used)
                && (r.Some? ==> NextInTurn(p, Start(p, old(nextIP)).n - p.n, used, r.value))
    {
      if prefix.None? {
        return None;
      }
      hide Pow2, Contains, Masked, Reserved;
      var p := Masked(prefix.value);
      MaskedTwice(prefix.value);
      var used := Used(p, serverIP, taken);
      r := Scan(p, used);
    }

    method Used(p: Prefix, serverIP: Addr, taken: seq<Addr>) returns (used: set<Addr>)
      requires WellFormed(p) && p == Masked(p)
      ensures used == Reserved(p, serverIP, taken)
    {
      hide Pow2, From4, Contains;
      used := {Addr(p.family, p.n), NextAddr(Addr(p.family, p.n)), serverIP} + (set a | a in taken);
      if p.family == V4 {
        WeightIsPow2(0);
        MaskedRange(p);
        var last := LastAddress(p.n, p.bits);
        used := used + {Addr(V4, From4(last))};
      }
    }

    /** |used|+1 tries from wherever the cursor stands. */
    method Scan(p: Prefix, used: set<Addr>) returns (r: Option<Addr>)
      requires WellFormed(p) && p == Masked(p)
      modifies this
      ensures r.Some? ==> Contains(p, r.value) && r.value !in used && nextIP == NextAddr(r.value)
      ensures r.None? <==> forall a :: Contains(p, a) ==> a in used
      ensures StartsInside(p, old(nextIP))
      ensures r.Some? ==> NextInTurn(p, Start(p, old(nextIP)).n - p.n, used, r.value)
    {
      hide Pow2, Contains;
      StartInside(p, nextIP);
      ghost var start := Start(p, nextIP).n - p.n;
      var tries := 0;
      while tries <= |used|
        invariant tries <= |used| + 1
        invariant forall k :: 0 <= k < tries && k < Size(p) ==> Candidate(p, start, k) in used
        invariant tries < Size(p) ==> Start(p, nextIP) == Candidate(p, start, tries)
      {
        var ip := Start(p, nextIP);
        StartInside(p, nextIP);
        if tries < Size(p) {
          Advance(p, start, tries, nextIP);
        }
        nextIP := NextAddr(ip);
        if ip !in used {
          if tries >= Size(p) {
            CandidatesCover(p, start, used, ip);
          }
          TurnOf(p, start, used, tries);
          return Some(ip);
        }
        tries := tries + 1;
      }
      ScanFailed(p, start, used);
      return None;
    }
  }

  /** a is the first address outside `used` from the start on, going round the prefix. */
  ghost predicate NextInTurn(p: Prefix, start: int, used: set<Addr>, a: Addr)
    requires p.bits <= p.family.Width()
  {
    0 <= start < Size(p) && a !in used
    && exists k: nat :: a == Candidate(p, start, k) && forall j :: 0 <= j < k ==> Candidate(p, start, j) in used
  }

  lemma TurnOf(p: Prefix, start: nat, used: set<Addr>, k: nat)
    requires p.bits <= p.family.Width() && start < Size(p) && Candidate(p, start, k) !in used
    requires forall j :: 0 <= j < k ==> Candidate(p, start, j) in used
    ensures NextInTurn(p, start, used, Candidate(p, start, k))
  {
  }

  ghost predicate StartsInside(p: Prefix, cursor: Addr)
    requires p.bits <= p.family.Width()
  {
    Start(p, cursor).Addr? && 0 <= Start(p, cursor).n - p.n < Size(p)
  }

  /** Reserved inside the prefix are its first two addresses, the server's, the taken ones and, for IPv4, the last. */
  lemma ReservedMeans(p: Prefix, serverIP: Addr, taken: seq<Addr>, a: Addr)
    requires WellFormed(p) && p == Masked(p) && Contains(p, a)
    ensures a in Reserved(p, serverIP, taken) <==>
              || a.n == p.n || a.n == p.n + 1 || a == serverIP || a in taken
              || (p.family == V4 && a.n == p.n + Size(p) - 1)
  {
    hide Pow2;
    MaskedRange(p);
  }

  /** The masked prefix is the one around the configured address. */
  lemma MaskedHolds(p: Prefix)
    requires WellFormed(p)
    ensures Contains(Masked(p), Addr(p.family, p.n)) && Masked(p).bits == p.bits
  {
    hide Pow2, Contains;
    MaskedRange(p);
    Division(p.n, Size(p));
  }

  lemma StartInside(p: Prefix, cursor: Addr)
    requires WellFormed(p) && p == Masked(p)
    ensures var a := Start(p, cursor);
            Contains(p, a) && a.family == p.family && p.n <= a.n < p.n + Size(p)
            && a == Candidate(p, a.n - p.n, 0)
  {
    MaskedRange(p);
  }

  /** Network address, its successor, the server, every peer and session, and the IPv4 broadcast address. */
  ghost function Reserved(p: Prefix, serverIP: Addr, taken: seq<Addr>): set<Addr>
    requires p.bits <= p.family.Width()
  {
    var base := Addr(p.family, p.n);
    {base, NextAddr(base), serverIP} + Elements(taken)
    + if p.family == V4 then {Addr(V4, p.n + Size(p) - 1)} else {}
  }

  lemma MaskedTwice(p: Prefix)
    requires WellFormed(p)
    ensures WellFormed(Masked(p)) && Masked(Masked(p)) == Masked(p)
  {
    MaskedRange(p);
  }
}
