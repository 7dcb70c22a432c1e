/**
 The converse of reading what was written: whatever the ClientHello reader
 accepts has the shape of a hello, record by record and field by field, and
 the name it returns is the one that stands there.
 */
module ClientHelloSound {
  import opened Common
  import opened ClientHello

  // ---------------------------------------------------------------------
  // Names, without case and without the final dot
  // ---------------------------------------------------------------------

  predicate Ascii(s: Bytes) {
    forall b <- s :: b < 0x80
  }

  /** Equal but for the case of A to Z. */
  predicate EqualFold(s: Bytes, t: Bytes) {
    |s| == |t| && forall i :: 0 <= i < |s| ==>
      || s[i] == t[i]
      || (0x41 <= s[i] <= 0x5A && t[i] == s[i] + 32)
      || (0x41 <= t[i] <= 0x5A && s[i] == t[i] + 32)
  }

  function WithoutDot(s: Bytes): Bytes {
    if s != [] && s[|s| - 1] == 0x2E then s[..|s| - 1] else s
  }

  /** Two ASCII names are the same to the relay exactly if they differ at most in case and in one final dot. */
  lemma NormalizeFolds(s: Bytes, t: Bytes, lower: Bytes -> Bytes)
    requires Ascii(s) && Ascii(t)
    ensures Normalize(s, lower) == Normalize(t, lower) <==> EqualFold(WithoutDot(s), WithoutDot(t))
    ensures EqualFold(Normalize(s, lower), WithoutDot(s))
    ensures forall b <- Normalize(s, lower) :: !(0x41 <= b <= 0x5A)
  {
    NormalizeAt(s, lower);
    NormalizeAt(t, lower);
    var n, m := Normalize(s, lower), Normalize(t, lower);
    if EqualFold(WithoutDot(s), WithoutDot(t)) {
      assert forall i :: 0 <= i < |n| ==> n[i] == m[i];
    }
  }

  lemma NormalizeAt(s: Bytes, lower: Bytes -> Bytes)
    requires Ascii(s)
    ensures |Normalize(s, lower)| == |WithoutDot(s)|
    ensures forall i :: 0 <= i < |WithoutDot(s)| ==>
              Normalize(s, lower)[i] == if 0x41 <= s[i] <= 0x5A then s[i] + 32 else s[i]
  {
    var low := seq(|s|, i requires 0 <= i < |s| => LowerAscii(s[i]));
    if s != [] {
      assert low[|s| - 1] == LowerAscii(s[|s| - 1]);
    }
  }

  // ---------------------------------------------------------------------
  // The server_name extension
  // ---------------------------------------------------------------------

  /** A host entry and what follows it, or the end of the list. */
  function HostEntry(host: Option<Bytes>, tail: Bytes): Bytes
    requires host.Some? ==> |host.value| < 0x1_0000
  {
    if host.None? then [] else [0] + (W16(|host.value|) + (host.value + tail))
  }

  function NameOf(host: Option<Bytes>, lower: Bytes -> Bytes): Bytes {
    if host.None? then [] else Normalize(host.value, lower)
  }

  lemma U16Writes(b: Bytes)
    requires |b| >= 2
    ensures U16(b) < 0x1_0000 && b[..2] == W16(U16(b))
  {
  }

  /** Entries of other types, fully there, and then the first host entry, if any. */
  lemma {:induction false} NamesSound(b: Bytes, lower: Bytes -> Bytes)
    returns (skipped: seq<HostName>, host: Option<Bytes>, tail: Bytes)
    requires ReadNames(b, lower).Found?
    ensures NamesFit(skipped) && (forall h <- skipped :: h.typ != 0) && (host.Some? ==> |host.value| < 0x1_0000)
    ensures b == WriteNames(skipped) + HostEntry(host, tail) && ReadNames(b, lower).sni == NameOf(host, lower)
    decreases |b|
  {
    hide Normalize;
    if b == [] {
      skipped, host, tail := [], None, [];
    } else {
      var n := U16(b[1..3]);
      U16Writes(b[1..3]);
      assert b[1..3][..2] == b[1..3];
      if b[0] == 0 {
        skipped, host, tail := [], Some(b[3..3 + n]), b[3 + n..];
        EntrySplits(b, n);
      } else {
        var more;
        more, host, tail := NamesSound(b[3 + n..], lower);
        var h := HostName(b[0], b[3..3 + n]);
        skipped := [h] + more;
        assert skipped[1..] == more;
        EntrySplits(b, n);
        EntryJoins(b, h, n, more, HostEntry(host, tail));
      }
    }
  }

  lemma EntrySplits(b: Bytes, n: nat)
    requires |b| >= 3 + n && n < 0x1_0000 && b[1..3] == W16(n)
    ensures b == [b[0]] + (W16(n) + (b[3..3 + n] + b[3 + n..]))
  {
    assert b == [b[0]] + (b[1..3] + (b[3..3 + n] + b[3 + n..]));
  }

  lemma EntryJoins(b: Bytes, h: HostName, n: nat, more: seq<HostName>, rest: Bytes)
    requires n == |h.name| < 0x1_0000 && NamesFit([h] + more) && NamesFit(more)
    requires b == [h.typ] + (W16(n) + (h.name + (WriteNames(more) + rest)))
    ensures b == WriteNames([h] + more) + rest
  {
    assert ([h] + more)[1..] == more;
    assert WriteNames([h] + more) == [h.typ] + W16(n) + h.name + WriteNames(more);
  }

  /** The list has its length in front, and nothing after it is looked at. */
  ghost predicate ServerNameData(data: Bytes, skipped: seq<HostName>, host: Option<Bytes>, tail: Bytes, after: Bytes)
    requires NamesFit(skipped) && (host.Some? ==> |host.value| < 0x1_0000)
  {
    var list := WriteNames(skipped) + HostEntry(host, tail);
    && |list| < 0x1_0000 && data == W16(|list|) + (list + after)
    && forall h <- skipped :: h.typ != 0
  }

  lemma ServerNameSound(data: Bytes, lower: Bytes -> Bytes)
    returns (skipped: seq<HostName>, host: Option<Bytes>, tail: Bytes, after: Bytes)
    requires ReadServerName(data, lower).Found?
    ensures NamesFit(skipped) && (host.Some? ==> |host.value| < 0x1_0000)
    ensures ServerNameData(data, skipped, host, tail, after)
    ensures ReadServerName(data, lower).sni == NameOf(host, lower)
  {
    hide Normalize;
    var n := U16(data);
    U16Writes(data);
    skipped, host, tail := NamesSound(data[2..2 + n], lower);
    after := data[2 + n..];
    Splits(data, 2, n);
  }

  lemma Splits(b: Bytes, k: nat, n: nat)
    requires k + n <= |b|
    ensures b == b[..k] + (b[k..k + n] + b[k + n..])
  {
  }

  // ---------------------------------------------------------------------
  // Extensions and the hello
  // ---------------------------------------------------------------------

  /** The first server_name extension and what follows it, or the end of the block. */
  function SniEntry(data: Option<Bytes>, tail: Bytes): Bytes
    requires data.Some? ==> |data.value| < 0x1_0000
  {
    if data.None? then [] else [0, 0] + (W16(|data.value|) + (data.value + tail))
  }

  ghost predicate CarriesName(data: Option<Bytes>, sni: Bytes, lower: Bytes -> Bytes) {
    if data.None? then sni == []
    else exists skipped: seq<HostName>, host: Option<Bytes>, tail: Bytes, after: Bytes ::
           && NamesFit(skipped) && (host.Some? ==> |host.value| < 0x1_0000)
           && ServerNameData(data.value, skipped, host, tail, after) && sni == NameOf(host, lower)
  }

  lemma {:induction false} ExtensionsSound(b: Bytes, lower: Bytes -> Bytes)
    returns (others: seq<Extension>, data: Option<Bytes>, tail: Bytes)
    requires ReadExtensions(b, lower).Found?
    ensures AllFit(others) && (forall e <- others :: e.Other?) && (data.Some? ==> |data.value| < 0x1_0000)
    ensures b == WriteExtensions(others) + SniEntry(data, tail)
    ensures CarriesName(data, ReadExtensions(b, lower).sni, lower)
    decreases |b|
  {
    hide Normalize, ReadServerName, CarriesName;
    if b == [] {
      others, data, tail := [], None, [];
      assert CarriesName(data, [], lower) by { NoName(lower); }
    } else {
      var typ, n := U16(b), U16(b[2..]);
      U16Writes(b);
      U16Writes(b[2..]);
      HeaderSplits(b, typ, n);
      if typ == 0 {
        others, data, tail := [], Some(b[4..4 + n]), b[4 + n..];
        var skipped, host, rest, after := ServerNameSound(b[4..4 + n], lower);
        NameCarried(b[4..4 + n], skipped, host, rest, after, lower);
        assert W16(0) == [0, 0];
      } else {
        var more;
        more, data, tail := ExtensionsSound(b[4 + n..], lower);
        var e := Other(typ, b[4..4 + n]);
        others := [e] + more;
        assert others[1..] == more;
        ExtensionJoins(b, e, more, SniEntry(data, tail));
      }
    }
  }

  lemma NoName(lower: Bytes -> Bytes)
    ensures CarriesName(None, [], lower)
  {
  }

  lemma NameCarried(data: Bytes, skipped: seq<HostName>, host: Option<Bytes>, tail: Bytes, after: Bytes,
                    lower: Bytes -> Bytes)
    requires NamesFit(skipped) && (host.Some? ==> |host.value| < 0x1_0000)
    requires ServerNameData(data, skipped, host, tail, after)
    ensures CarriesName(Some(data), NameOf(host, lower), lower)
  {
    hide ServerNameData, Normalize;
  }

  lemma HeaderSplits(b: Bytes, typ: nat, n: nat)
    requires |b| >= 4 + n && typ < 0x1_0000 && n < 0x1_0000 && b[..2] == W16(typ) && b[2..][..2] == W16(n)
    ensures b == W16(typ) + (W16(n) + (b[4..4 + n] + b[4 + n..]))
  {
    assert b[2..][..2] == b[2..4];
    assert b == b[..2] + (b[2..4] + (b[4..4 + n] + b[4 + n..]));
  }

  lemma ExtensionJoins(b: Bytes, e: Extension, more: seq<Extension>, rest: Bytes)
    requires e.Other? && ExtensionFits(e) && AllFit(more) && AllFit([e] + more)
    requires b == W16(e.typ) + (W16(|e.data|) + (e.data + (WriteExtensions(more) + rest)))
    ensures b == WriteExtensions([e] + more) + rest
  {
    assert ([e] + more)[1..] == more;
    assert WriteExtensions([e] + more) == W16(e.typ) + W16(|e.data|) + e.data + WriteExtensions(more);
  }

  /** The extension block: absent, or its length and the extensions, and nothing after it is looked at. */
  ghost predicate BlockCarries(b: Bytes, sni: Bytes, lower: Bytes -> Bytes) {
    || (b == [] && sni == [])
    || exists others: seq<Extension>, data: Option<Bytes>, tail: Bytes, after: Bytes ::
         && AllFit(others) && (forall e <- others :: e.Other?) && (data.Some? ==> |data.value| < 0x1_0000)
         && ExtensionBlock(b, WriteExtensions(others) + SniEntry(data, tail), after) && CarriesName(data, sni, lower)
  }

  predicate ExtensionBlock(b: Bytes, extensions: Bytes, after: Bytes) {
    |extensions| < 0x1_0000 && b == W16(|extensions|) + (extensions + after)
  }

  lemma BlockSound(b: Bytes, lower: Bytes -> Bytes)
    requires ReadExtensionBlock(b, lower).Found?
    ensures BlockCarries(b, ReadExtensionBlock(b, lower).sni, lower)
  {
    hide Normalize, CarriesName, ReadExtensions, WriteExtensions, SniEntry, AllFit;
    if b != [] {
      var n := U16(b);
      U16Writes(b);
      var others, data, tail := ExtensionsSound(b[2..2 + n], lower);
      Splits(b, 2, n);
      assert ExtensionBlock(b, WriteExtensions(others) + SniEntry(data, tail), b[2 + n..]);
    }
  }

  /** Version and random, then session id, cipher suites and compression methods with their lengths, then the block. */
  ghost predicate HelloCarries(b: Bytes, sni: Bytes, lower: Bytes -> Bytes) {
    exists fixed: Bytes, sessionId: Bytes, ciphers: Bytes, compression: Bytes, block: Bytes ::
      HelloFields(b, fixed, sessionId, ciphers, compression, block) && BlockCarries(block, sni, lower)
  }

  predicate HelloFields(b: Bytes, fixed: Bytes, sessionId: Bytes, ciphers: Bytes, compression: Bytes, block: Bytes) {
    && |fixed| == 34 && |sessionId| < 0x100 && |ciphers| < 0x1_0000 && |compression| < 0x100
    && b == fixed + ([|sessionId|] + (sessionId
              + (W16(|ciphers|) + (ciphers + ([|compression|] + (compression + block))))))
  }

  lemma SkipOneSound(b: Bytes) returns (field: Bytes)
    requires Skip(b, 1).Some?
    ensures |field| < 0x100 && b == [|field|] + (field + Skip(b, 1).value)
  {
    assert b[..1] == [b[0]] && b[..1][..0] == [];
    assert BigEndian(b[..1]) == b[0] as int;
    field := b[1..1 + b[0] as int];
    Splits(b, 1, b[0] as int);
  }

  lemma SkipTwoSound(b: Bytes) returns (field: Bytes)
    requires Skip(b, 2).Some?
    ensures |field| < 0x1_0000 && b == W16(|field|) + (field + Skip(b, 2).value)
  {
    assert b[..2][..1] == [b[0]] && b[..1][..0] == [] && BigEndian([b[0]]) == b[0] as int by {
      assert [b[0]][..0] == [];
    }
    assert BigEndian(b[..2]) == U16(b);
    U16Writes(b);
    field := b[2..2 + U16(b)];
    Splits(b, 2, U16(b));
  }

  lemma HelloSound(b: Bytes, lower: Bytes -> Bytes)
    requires ReadHello(b, lower).Found?
    ensures HelloCarries(b, ReadHello(b, lower).sni, lower)
  {
    hide Normalize, ReadExtensionBlock, BlockCarries, Skip, W16;
    var s := Skip(b[34..], 1);
    var sessionId := SkipOneSound(b[34..]);
    var ciphers := SkipTwoSound(s.value);
    var c := Skip(s.value, 2);
    var compression := SkipOneSound(c.value);
    var m := Skip(c.value, 1);
    BlockSound(m.value, lower);
    assert b == b[..34] + b[34..];
    assert HelloFields(b, b[..34], sessionId, ciphers, compression, m.value);
  }

  // ---------------------------------------------------------------------
  // Records
  // ---------------------------------------------------------------------

  /** The message begins with a client hello of its own length. */
  ghost predicate MessageCarries(msg: Bytes, size: nat, sni: Bytes, lower: Bytes -> Bytes) {
    && size < 0x100_0000 && |msg| >= 4 + size && msg[0] == 1 && msg[1..4] == W24(size)
    && HelloCarries(msg[4..4 + size], sni, lower)
  }

  lemma MessageSound(msg: Bytes, lower: Bytes -> Bytes) returns (size: nat)
    requires ReadMessage(msg, lower).Some? && ReadMessage(msg, lower).value.Found?
    ensures MessageCarries(msg, size, ReadMessage(msg, lower).value.sni, lower)
  {
    hide ReadHello, HelloCarries, BigEndian, W24;
    W24Reads(msg[1..4]);
    size := BigEndian(msg[1..4]);
    HelloSound(msg[4..4 + size], lower);
  }

  lemma W24Reads(b: Bytes)
    requires |b| == 3
    ensures BigEndian(b) < 0x100_0000 && W24(BigEndian(b)) == b
  {
    BigEndian3(b);
    Digits(b[0] as int, b[1] as int, b[2] as int);
  }

  lemma Digits(x: nat, y: nat, z: nat)
    requires x < 256 && y < 256 && z < 256
    ensures var n := x * 0x1_0000 + y * 0x100 + z;
            n < 0x100_0000 && n / 0x1_0000 == x && n / 0x100 % 256 == y && n % 256 == z
  {
    var n := x * 0x1_0000 + y * 0x100 + z;
    assert n / 0x100 == x * 256 + y;
  }

  /** A message still incomplete: its header is not there, or fewer bytes than its own length. */
  lemma IncompleteSound(msg: Bytes, more: Bytes, size: nat, sni: Bytes, lower: Bytes -> Bytes)
    requires ReadMessage(msg, lower).None? && MessageCarries(msg + more, size, sni, lower)
    ensures |msg| < 4 + size
  {
    hide HelloCarries, ReadHello;
    if |msg| >= 4 {
      assert (msg + more)[1..4] == msg[1..4];
      BigEndian3(msg[1..4]);
    }
  }

  /** Whole handshake records, of which only the last completes the message that carries the name. */
  ghost predicate RecordsCarry(raw: Bytes, rs: seq<Record>, before: Bytes, size: nat, sni: Bytes,
                               lower: Bytes -> Bytes)
  {
    && rs != [] && RecordsFit(rs) && raw == WriteRecords(rs)
    && (forall r <- rs :: WriteRecord(r)[0] == 0x16)
    && MessageCarries(before + Payload(rs), size, sni, lower)
    && |before + Payload(rs[..|rs| - 1])| < 4 + size
  }

  lemma RecordSplits(rest: Bytes) returns (r: Record)
    requires |rest| >= 5 && rest[0] == 0x16 && |rest| >= 5 + U16(rest[3..])
    ensures |r.payload| == U16(rest[3..]) < 0x1_0000 && r.payload == rest[5..5 + U16(rest[3..])]
    ensures WriteRecord(r) == rest[..5 + U16(rest[3..])] && WriteRecord(r)[0] == 0x16
  {
    var n := U16(rest[3..]);
    U16Writes(rest[3..]);
    assert rest[3..][..2] == rest[3..5];
    r := Record(rest[1], rest[2], rest[5..5 + n]);
    assert rest[..5 + n] == [rest[0], rest[1], rest[2]] + rest[3..5] + rest[5..5 + n];
  }

  lemma {:induction false} RecordsSound(rest: Bytes, raw: Bytes, msg: Bytes, records: nat, lower: Bytes -> Bytes)
    returns (rs: seq<Record>, size: nat)
    requires PeekFrom(rest, raw, msg, records, lower).Peeked? && ReadMessage(msg, lower).None? && records <= 4
    ensures var p := PeekFrom(rest, raw, msg, records, lower);
            && RecordsFit(rs) && records + |rs| <= 4 && |p.raw| <= 16384
            && p.raw == raw + WriteRecords(rs) && rest == WriteRecords(rs) + p.unread
            && RecordsCarry(WriteRecords(rs), rs, msg, size, p.sni, lower)
    decreases 5 - records
  {
    hide ReadMessage, MessageCarries, RecordsCarry, WriteRecord, WriteRecords, PeekFrom, U16;
    PeekStep(rest, raw, msg, records, lower);
    var p := PeekFrom(rest, raw, msg, records, lower);
    var r := RecordSplits(rest);
    var n := U16(rest[3..]);
    var msg', rest' := msg + r.payload, rest[5 + n..];
    Splits(rest, 0, 5 + n);
    match ReadMessage(msg', lower) {
      case Some(name) =>
        rs := [r];
        OneRecordWrites(r);
        size := MessageSound(msg', lower);
        LastCarries(r, msg, size, p.sni, lower);
      case None =>
        var more;
        more, size := RecordsSound(rest', raw + WriteRecord(r), msg', records + 1, lower);
        rs := [r] + more;
        EarlierCarries(r, more, msg, size, p.sni, lower);
        Associates(raw, WriteRecord(r), WriteRecords(more));
        Associates(WriteRecord(r), WriteRecords(more), p.unread);
    }
  }

  lemma Associates(a: Bytes, b: Bytes, c: Bytes)
    ensures (a + b) + c == a + (b + c)
  {
  }

  /** One turn of the reader, when it will accept. */
  lemma PeekStep(rest: Bytes, raw: Bytes, msg: Bytes, records: nat, lower: Bytes -> Bytes)
    requires PeekFrom(rest, raw, msg, records, lower).Peeked?
    ensures |rest| >= 5 && rest[0] == 0x16 && records < 4
    ensures var n := U16(rest[3..]);
            && |rest| >= 5 + n && |raw| + 5 + n <= 16384
            && var msg' := msg + rest[5..5 + n];
            var p := PeekFrom(rest, raw, msg, records, lower);
            match ReadMessage(msg', lower)
            case Some(Found(sni)) => p == Peeked(sni, raw + rest[..5 + n], rest[5 + n..])
            case Some(Bad(_)) => false
            case None => p == PeekFrom(rest[5 + n..], raw + rest[..5 + n], msg', records + 1, lower)
  {
    hide ReadMessage, U16;
  }

  lemma LastCarries(r: Record, msg: Bytes, size: nat, sni: Bytes, lower: Bytes -> Bytes)
    requires |r.payload| < 0x1_0000 && WriteRecord(r)[0] == 0x16
    requires ReadMessage(msg, lower).None? && MessageCarries(msg + r.payload, size, sni, lower)
    ensures RecordsFit([r]) && RecordsCarry(WriteRecords([r]), [r], msg, size, sni, lower)
  {
    hide MessageCarries, WriteRecord, WriteRecords, ReadMessage;
    OneRecordWrites(r);
    IncompleteSound(msg, r.payload, size, sni, lower);
    assert msg + [] == msg;
  }

  lemma EarlierCarries(r: Record, more: seq<Record>, msg: Bytes, size: nat, sni: Bytes, lower: Bytes -> Bytes)
    requires |r.payload| < 0x1_0000 && WriteRecord(r)[0] == 0x16 && RecordsFit(more)
    requires RecordsCarry(WriteRecords(more), more, msg + r.payload, size, sni, lower)
    ensures RecordsFit([r] + more) && WriteRecords([r] + more) == WriteRecord(r) + WriteRecords(more)
    ensures RecordsCarry(WriteRecords([r] + more), [r] + more, msg, size, sni, lower)
  {
    hide MessageCarries, WriteRecord, WriteRecords, Payload;
    RecordsJoin(r, more, msg);
  }

  lemma OneRecordWrites(r: Record)
    requires |r.payload| < 0x1_0000
    ensures RecordsFit([r]) && WriteRecords([r]) == WriteRecord(r) && Payload([r]) == r.payload && Payload([]) == []
    ensures [r][..0] == []
  {
    hide WriteRecord;
    assert [r][1..] == [];
  }

  lemma RecordsJoin(r: Record, more: seq<Record>, msg: Bytes)
    requires |r.payload| < 0x1_0000 && RecordsFit(more) && more != []
    ensures RecordsFit([r] + more) && WriteRecords([r] + more) == WriteRecord(r) + WriteRecords(more)
    ensures msg + Payload([r] + more) == msg + r.payload + Payload(more)
    ensures var rs := [r] + more; msg + Payload(rs[..|rs| - 1]) == msg + r.payload + Payload(more[..|more| - 1])
  {
    hide WriteRecord;
    var rs := [r] + more;
    assert rs[1..] == more;
    var init := rs[..|rs| - 1];
    assert init == [r] + more[..|more| - 1] && init[1..] == more[..|more| - 1];
    assert msg + (r.payload + Payload(more)) == msg + r.payload + Payload(more);
    assert msg + (r.payload + Payload(more[..|more| - 1])) == msg + r.payload + Payload(more[..|more| - 1]);
  }

  /**
   Whatever the reader accepts is at most four handshake records of at most
   16384 bytes, taken whole, whose payloads make up a client hello only with
   the last of them; the name it returns is the first host name of that
   hello's first server_name extension, or empty.
   */
  lemma AcceptedHellosAreHellos(stream: Bytes, lower: Bytes -> Bytes)
    requires PeekFrom(stream, [], [], 0, lower).Peeked?
    ensures var p := PeekFrom(stream, [], [], 0, lower);
            && stream == p.raw + p.unread && |p.raw| <= 16384
            && exists rs: seq<Record>, size: nat :: |rs| <= 4 && RecordsCarry(p.raw, rs, [], size, p.sni, lower)
  {
    hide RecordsCarry, PeekFrom, WriteRecords;
    var rs, size := RecordsSound(stream, [], [], 0, lower);
    assert [] + WriteRecords(rs) == WriteRecords(rs);
  }
}
