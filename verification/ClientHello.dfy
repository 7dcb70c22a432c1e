/**
 The ClientHello reader of pkg/relay/sni.go (sections 4.1.2, 4.2 and 5.1 of
 RFC 8446, section 3 of RFC 6066), and proof that it undoes serialisation
 however the message is cut into records.
 */
module ClientHello {
  import opened Common

  const MAX_RECORDS := 4
  const MAX_BYTES := 16 * 1024
  const RECORD_HANDSHAKE: byte := 0x16
  const HANDSHAKE_CLIENT: byte := 0x01
  const EXTENSION_SERVER_NAME := 0
  const NAME_TYPE_HOST: byte := 0

  datatype Error =
    | ReadingHeader | NotHandshake | TooManyRecords | TooManyBytes | ReadingPayload | NotClientHello
    | HelloTooShort | BadSessionId | BadCipherSuites | BadCompression | ExtensionsTruncated
    | ExtensionHeaderTruncated | ExtensionBodyTruncated | ServerNameTruncated | NameEntryTruncated

  datatype Name = Found(sni: Bytes) | Bad(error: Error)
  /** The name and the bytes taken for replay; `unread` is what the stream still holds. */
  datatype Peeked = Peeked(sni: Bytes, raw: Bytes, unread: Bytes) | Refused(error: Error)

  // ---------------------------------------------------------------------
  // Normalisation
  // ---------------------------------------------------------------------

  function LowerAscii(b: byte): byte {
    if 0x41 <= b <= 0x5A then b + 0x20 else b
  }

  /** `unicodeLower` is strings.ToLower beyond ASCII. */
  function Normalize(s: Bytes, unicodeLower: Bytes -> Bytes): Bytes {
    var low :=
      if forall b <- s :: b < 0x80 then seq(|s|, i requires 0 <= i < |s| => LowerAscii(s[i]))
      else unicodeLower(s);
    if |low| > 0 && low[|low| - 1] == 0x2E then low[..|low| - 1] else low
  }

  // ---------------------------------------------------------------------
  // Reading, as functions of the bytes
  // ---------------------------------------------------------------------

  function U16(b: Bytes): nat
    requires |b| >= 2
  {
    b[0] as int * 256 + b[1] as int
  }

  function BigEndian(b: Bytes): nat {
    if b == [] then 0 else BigEndian(b[..|b| - 1]) * 256 + b[|b| - 1] as int
  }

  function Skip(b: Bytes, prefix: nat): Option<Bytes> {
    if |b| < prefix then None
    else if |b| - prefix < BigEndian(b[..prefix]) then None
    else Some(b[prefix + BigEndian(b[..prefix])..])
  }

  function ReadNames(b: Bytes, lower: Bytes -> Bytes): Name
    decreases |b|
  {
    if b == [] then Found([])
    else if |b| < 3 then Bad(NameEntryTruncated)
    else if |b| - 3 < U16(b[1..3]) then Bad(NameEntryTruncated)
    else if b[0] == NAME_TYPE_HOST then Found(Normalize(b[3..3 + U16(b[1..3])], lower))
    else ReadNames(b[3 + U16(b[1..3])..], lower)
  }

  function ReadServerName(b: Bytes, lower: Bytes -> Bytes): Name {
    if |b| < 2 then Bad(ServerNameTruncated)
    else if |b| - 2 < U16(b) then Bad(ServerNameTruncated)
    else ReadNames(b[2..2 + U16(b)], lower)
  }

  function ReadExtensions(b: Bytes, lower: Bytes -> Bytes): Name
    decreases |b|
  {
    if b == [] then Found([])
    else if |b| < 4 then Bad(ExtensionHeaderTruncated)
    else if |b| - 4 < U16(b[2..]) then Bad(ExtensionBodyTruncated)
    else if U16(b) == EXTENSION_SERVER_NAME then ReadServerName(b[4..4 + U16(b[2..])], lower)
    else ReadExtensions(b[4 + U16(b[2..])..], lower)
  }

  function ReadExtensionBlock(b: Bytes, lower: Bytes -> Bytes): Name {
    if b == [] then Found([])
    else if |b| < 2 then Bad(ExtensionsTruncated)
    else if |b| - 2 < U16(b) then Bad(ExtensionsTruncated)
    else ReadExtensions(b[2..2 + U16(b)], lower)
  }

  function ReadHello(b: Bytes, lower: Bytes -> Bytes): Name {
    if |b| < 34 then Bad(HelloTooShort) else
    var s := Skip(b[34..], 1);
    if s.None? then Bad(BadSessionId) else
    var c := Skip(s.value, 2);
    if c.None? then Bad(BadCipherSuites) else
    var m := Skip(c.value, 1);
    if m.None? then Bad(BadCompression) else
    ReadExtensionBlock(m.value, lower)
  }

  /** The handshake message collected so far: None while it is still incomplete. */
  function ReadMessage(msg: Bytes, lower: Bytes -> Bytes): Option<Name> {
    if |msg| < 4 then None
    else if msg[0] != HANDSHAKE_CLIENT then Some(Bad(NotClientHello))
    else if |msg| < 4 + BigEndian(msg[1..4]) then None
    else Some(ReadHello(msg[4..4 + BigEndian(msg[1..4])], lower))
  }

  /** One turn per record: `raw` is what was consumed, `msg` its handshake payload. */
  function PeekFrom(rest: Bytes, raw: Bytes, msg: Bytes, records: nat, lower: Bytes -> Bytes): Peeked
    decreases MAX_RECORDS + 1 - records
  {
    if |rest| < 5 then Refused(ReadingHeader)
    else if rest[0] != RECORD_HANDSHAKE then Refused(NotHandshake)
    else if records + 1 > MAX_RECORDS then Refused(TooManyRecords)
    else
      var length := U16(rest[3..]);
      if |raw| + 5 + length > MAX_BYTES then Refused(TooManyBytes)
      else if |rest| < 5 + length then Refused(ReadingPayload)
      else
        var msg' := msg + rest[5..5 + length];
        match ReadMessage(msg', lower)
        case Some(Found(sni)) => Peeked(sni, raw + rest[..5 + length], rest[5 + length..])
        case Some(Bad(e)) => Refused(e)
        case None => PeekFrom(rest[5 + length..], raw + rest[..5 + length], msg', records + 1, lower)
  }

  // ---------------------------------------------------------------------
  // The reader itself
  // ---------------------------------------------------------------------

  method SkipLengthPrefixed(b: Bytes, prefix: nat) returns (r: Option<Bytes>)
    ensures r == Skip(b, prefix)
  {
    if |b| < prefix {
      return None;
    }
    var n := 0;
    for i := 0 to prefix
      invariant n == BigEndian(b[..i])
    {
      assert b[..i + 1][..i] == b[..i];
      n := n * 256 + b[i] as int;
    }
    if |b| - prefix < n {
      return None;
    }
    return Some(b[prefix + n..]);
  }

  method ParseServerNameExtension(b: Bytes, lower: Bytes -> Bytes) returns (r: Name)
    ensures r == ReadServerName(b, lower)
  {
    if |b| < 2 || |b| - 2 < U16(b) {
      return Bad(ServerNameTruncated);
    }
    var data := b[2..2 + U16(b)];
    while |data| > 0
      invariant ReadServerName(b, lower) == ReadNames(data, lower)
    {
      if |data| < 3 {
        return Bad(NameEntryTruncated);
      }
      var typ, length := data[0], U16(data[1..3]);
      if |data| - 3 < length {
        return Bad(NameEntryTruncated);
      }
      var name := data[3..3 + length];
      data := data[3 + length..];
      if typ != NAME_TYPE_HOST {
        continue;
      }
      return Found(Normalize(name, lower));
    }
    return Found([]);
  }

  method ParseClientHelloServerName(b: Bytes, lower: Bytes -> Bytes) returns (r: Name)
    ensures r == ReadHello(b, lower)
  {
    hide ReadServerName, Skip;
    if |b| < 34 {
      return Bad(HelloTooShort);
    }
    var s := SkipLengthPrefixed(b[34..], 1);
    if s.None? {
      return Bad(BadSessionId);
    }
    s := SkipLengthPrefixed(s.value, 2);
    if s.None? {
      return Bad(BadCipherSuites);
    }
    s := SkipLengthPrefixed(s.value, 1);
    if s.None? {
      return Bad(BadCompression);
    }
    if |s.value| == 0 {
      return Found([]);
    }
    if |s.value| < 2 || |s.value| - 2 < U16(s.value) {
      return Bad(ExtensionsTruncated);
    }
    var extensions := s.value[2..2 + U16(s.value)];
    while |extensions| > 0
      invariant ReadHello(b, lower) == ReadExtensions(extensions, lower)
    {
      if |extensions| < 4 {
        return Bad(ExtensionHeaderTruncated);
      }
      var typ, length := U16(extensions), U16(extensions[2..]);
      if |extensions| - 4 < length {
        return Bad(ExtensionBodyTruncated);
      }
      var data := extensions[4..4 + length];
      extensions := extensions[4 + length..];
      if typ != EXTENSION_SERVER_NAME {
        continue;
      }
      r := ParseServerNameExtension(data, lower);
      return;
    }
    return Found([]);
  }

  /** `stream` is everything the peer will ever send. */
  method PeekClientHello(stream: Bytes, lower: Bytes -> Bytes) returns (r: Peeked)
    ensures r == PeekFrom(stream, [], [], 0, lower)
  {
    hide ReadHello;
    var rest, buf, msg, records := stream, [], [], 0;
    while true
      invariant PeekFrom(stream, [], [], 0, lower) == PeekFrom(rest, buf, msg, records, lower)
      decreases |rest|
    {
      if |rest| < 5 {
        return Refused(ReadingHeader);
      }
      var header := rest[..5];
      if header[0] != RECORD_HANDSHAKE {
        return Refused(NotHandshake);
      }
      var length := U16(header[3..5]);
      records := records + 1;
      if records > MAX_RECORDS {
        return Refused(TooManyRecords);
      }
      if |buf| + 5 + length > MAX_BYTES {
        return Refused(TooManyBytes);
      }
      if |rest| - 5 < length {
        return Refused(ReadingPayload);
      }
      var payload := rest[5..5 + length];
      assert buf + rest[..5 + length] == buf + header + payload;
      buf := buf + header + payload;
      msg := msg + payload;
      rest := rest[5 + length..];
      if |msg| < 4 {
        continue;
      }
      if msg[0] != HANDSHAKE_CLIENT {
        return Refused(NotClientHello);
      }
      BigEndian3(msg[1..4]);
      var msgLen := msg[1] as int * 0x1_0000 + msg[2] as int * 0x100 + msg[3] as int;
      if |msg| < 4 + msgLen {
        continue;
      }
      var name := ParseClientHelloServerName(msg[4..4 + msgLen], lower);
      match name {
        case Found(sni) => return Peeked(sni, buf, rest);
        case Bad(e) => return Refused(e);
      }
    }
  }

  lemma BigEndian3(b: Bytes)
    requires |b| == 3
    ensures BigEndian(b) == b[0] as int * 0x1_0000 + b[1] as int * 0x100 + b[2] as int
  {
    assert b[..2][..1] == b[..1];
    assert BigEndian(b[..1]) == BigEndian([]) * 256 + b[0] as int by { assert b[..1][..0] == []; }
  }

  // ---------------------------------------------------------------------
  // Well-formed hellos, and how they are written
  // ---------------------------------------------------------------------

  datatype HostName = HostName(typ: byte, name: Bytes)
  datatype Extension = ServerName(names: seq<HostName>) | Other(typ: nat, data: Bytes)
  datatype Hello = Hello(versionAndRandom: Bytes, sessionId: Bytes, cipherSuites: Bytes, compression: Bytes,
                         extensions: Option<seq<Extension>>)

  function W16(n: nat): Bytes
    requires n < 0x1_0000
  {
    [n / 256, n % 256]
  }

  function W24(n: nat): Bytes
    requires n < 0x100_0000
  {
    [n / 0x1_0000, n / 0x100 % 256, n % 256]
  }

  function NamesSize(names: seq<HostName>): nat {
    if names == [] then 0 else 3 + |names[0].name| + NamesSize(names[1..])
  }

  predicate NamesFit(names: seq<HostName>) {
    forall h <- names :: |h.name| < 0x1_0000
  }

  function WriteNames(names: seq<HostName>): (b: Bytes)
    requires NamesFit(names)
    ensures |b| == NamesSize(names)
  {
    if names == [] then []
    else [names[0].typ] + W16(|names[0].name|) + names[0].name + WriteNames(names[1..])
  }

  predicate ExtensionFits(e: Extension) {
    match e
    case ServerName(names) => NamesFit(names) && 2 + NamesSize(names) < 0x1_0000
    case Other(typ, data) => 0 < typ < 0x1_0000 && |data| < 0x1_0000
  }

  function ExtensionType(e: Extension): (t: nat)
    requires ExtensionFits(e)
    ensures t < 0x1_0000 && (t == EXTENSION_SERVER_NAME <==> e.ServerName?)
  {
    if e.ServerName? then EXTENSION_SERVER_NAME else e.typ
  }

  function ExtensionBody(e: Extension): (b: Bytes)
    requires ExtensionFits(e)
    ensures |b| < 0x1_0000
  {
    match e
    case ServerName(names) => W16(NamesSize(names)) + WriteNames(names)
    case Other(_, data) => data
  }

  predicate AllFit(es: seq<Extension>) {
    forall e <- es :: ExtensionFits(e)
  }

  function WriteExtensions(es: seq<Extension>): Bytes
    requires AllFit(es)
  {
    if es == [] then []
    else W16(ExtensionType(es[0])) + W16(|ExtensionBody(es[0])|) + ExtensionBody(es[0]) + WriteExtensions(es[1..])
  }

  predicate WellFormed(h: Hello) {
    && |h.versionAndRandom| == 34 && |h.sessionId| < 256 && |h.cipherSuites| < 0x1_0000 && |h.compression| < 256
    && (h.extensions.Some? ==> AllFit(h.extensions.value) && |WriteExtensions(h.extensions.value)| < 0x1_0000)
  }

  function WriteBlock(es: Option<seq<Extension>>): Bytes
    requires es.Some? ==> AllFit(es.value) && |WriteExtensions(es.value)| < 0x1_0000
  {
    match es
    case None => []
    case Some(es) => W16(|WriteExtensions(es)|) + WriteExtensions(es)
  }

  function WriteHello(h: Hello): Bytes
    requires WellFormed(h)
  {
    h.versionAndRandom
    + ([|h.sessionId|] + h.sessionId
       + (W16(|h.cipherSuites|) + h.cipherSuites
          + ([|h.compression|] + h.compression
             + WriteBlock(h.extensions))))
  }

  /** The handshake message: type, 24-bit length, body. */
  function WriteMessage(h: Hello): Bytes
    requires WellFormed(h) && |WriteHello(h)| < 0x100_0000
  {
    [HANDSHAKE_CLIENT] + W24(|WriteHello(h)|) + WriteHello(h)
  }

  /** The first host_name entry, normalised. */
  function HostIn(names: seq<HostName>, lower: Bytes -> Bytes): Bytes {
    if names == [] then []
    else if names[0].typ == NAME_TYPE_HOST then Normalize(names[0].name, lower)
    else HostIn(names[1..], lower)
  }

  /** What the relay must route by: the host of the first server_name extension, empty if there is none. */
  function SniIn(es: seq<Extension>, lower: Bytes -> Bytes): Bytes {
    if es == [] then []
    else if es[0].ServerName? then HostIn(es[0].names, lower)
    else SniIn(es[1..], lower)
  }

  function SniOf(h: Hello, lower: Bytes -> Bytes): Bytes {
    if h.extensions.None? then [] else SniIn(h.extensions.value, lower)
  }

  // ---------------------------------------------------------------------
  // Reading undoes writing
  // ---------------------------------------------------------------------

  lemma U16W16(n: nat, rest: Bytes)
    requires n < 0x1_0000
    ensures U16(W16(n) + rest) == n
  {
  }

  lemma {:induction false} NamesRoundTrip(names: seq<HostName>, lower: Bytes -> Bytes)
    requires NamesFit(names)
    ensures ReadNames(WriteNames(names), lower) == Found(HostIn(names, lower))
  {
    if names != [] {
      hide Normalize, U16, W16;
      var n, rest := names[0], WriteNames(names[1..]);
      var b := WriteNames(names);
      U16W16(|n.name|, []);
      W16Length(|n.name|);
      assert b[1..3] == W16(|n.name|) + [];
      assert b[3..3 + |n.name|] == n.name && b[3 + |n.name|..] == rest;
      NamesRoundTrip(names[1..], lower);
    }
  }

  lemma W16Length(n: nat)
    requires n < 0x1_0000
    ensures |W16(n)| == 2
  {
  }

  lemma ServerNameRoundTrip(names: seq<HostName>, lower: Bytes -> Bytes)
    requires ExtensionFits(ServerName(names))
    ensures ReadServerName(ExtensionBody(ServerName(names)), lower) == Found(HostIn(names, lower))
  {
    hide U16, W16;
    var b := ExtensionBody(ServerName(names));
    W16Length(NamesSize(names));
    U16W16(NamesSize(names), WriteNames(names));
    assert b[2..2 + NamesSize(names)] == WriteNames(names);
    NamesRoundTrip(names, lower);
  }

  lemma {:induction false} ExtensionsRoundTrip(es: seq<Extension>, lower: Bytes -> Bytes)
    requires AllFit(es)
    ensures ReadExtensions(WriteExtensions(es), lower) == Found(SniIn(es, lower))
  {
    if es != [] {
      hide U16, W16, ReadServerName, ExtensionBody, HostIn;
      var e, rest := es[0], WriteExtensions(es[1..]);
      var b, body := WriteExtensions(es), ExtensionBody(es[0]);
      W16Length(ExtensionType(e));
      W16Length(|body|);
      U16W16(ExtensionType(e), W16(|body|) + body + rest);
      U16W16(|body|, body + rest);
      assert b == W16(ExtensionType(e)) + (W16(|body|) + body + rest);
      assert b[2..] == W16(|body|) + (body + rest);
      assert b[4..4 + |body|] == body && b[4 + |body|..] == rest;
      if e.ServerName? {
        ServerNameRoundTrip(e.names, lower);
      } else {
        ExtensionsRoundTrip(es[1..], lower);
      }
    }
  }

  lemma BlockRoundTrip(h: Hello, lower: Bytes -> Bytes)
    requires WellFormed(h)
    ensures ReadExtensionBlock(WriteBlock(h.extensions), lower) == Found(SniOf(h, lower))
  {
    if h.extensions.Some? {
      hide U16, W16;
      var b := WriteExtensions(h.extensions.value);
      W16Length(|b|);
      U16W16(|b|, b);
      assert (W16(|b|) + b)[2..2 + |b|] == b;
      ExtensionsRoundTrip(h.extensions.value, lower);
    }
  }

  lemma SkipOne(data: Bytes, rest: Bytes)
    requires |data| < 256
    ensures Skip([|data|] + data + rest, 1) == Some(rest)
  {
    var b := [|data|] + data + rest;
    assert b[..1][..0] == [];
    assert BigEndian(b[..1]) == |data|;
    assert b[1 + |data|..] == rest;
  }

  lemma SkipTwo(data: Bytes, rest: Bytes)
    requires |data| < 0x1_0000
    ensures Skip(W16(|data|) + data + rest, 2) == Some(rest)
  {
    var b := W16(|data|) + data + rest;
    assert b[..2][..1] == b[..1] && b[..1][..0] == [];
    assert BigEndian(b[..1]) == |data| / 256;
    assert BigEndian(b[..2]) == |data|;
    assert b[2 + |data|..] == rest;
  }

  lemma HelloRoundTrip(h: Hello, lower: Bytes -> Bytes)
    requires WellFormed(h)
    ensures ReadHello(WriteHello(h), lower) == Found(SniOf(h, lower))
  {
    hide Skip, W16, ReadExtensionBlock, SniOf, WriteBlock;
    var block := WriteBlock(h.extensions);
    var compression := [|h.compression|] + h.compression + block;
    var suites := W16(|h.cipherSuites|) + h.cipherSuites + compression;
    var session := [|h.sessionId|] + h.sessionId + suites;
    assert WriteHello(h)[34..] == session;
    SkipOne(h.sessionId, suites);
    SkipTwo(h.cipherSuites, compression);
    SkipOne(h.compression, block);
    BlockRoundTrip(h, lower);
  }

  /** Any bytes that begin with the message are read as the message; any proper prefix asks for more. */
  lemma MessageRoundTrip(h: Hello, msg: Bytes, lower: Bytes -> Bytes)
    requires WellFormed(h) && |WriteHello(h)| < 0x100_0000
    ensures WriteMessage(h) <= msg ==> ReadMessage(msg, lower) == Some(Found(SniOf(h, lower)))
    ensures msg <= WriteMessage(h) && msg != WriteMessage(h) ==> ReadMessage(msg, lower) == None
  {
    hide ReadHello, SniOf;
    var m, body := WriteMessage(h), WriteHello(h);
    assert m[1..4] == W24(|body|) && m[4..] == body;
    BigEndian3(m[1..4]);
    W24Value(|body|);
    if |msg| >= 4 && (m <= msg || msg <= m) {
      assert msg[0] == m[0] && msg[1..4] == m[1..4];
      if m <= msg {
        assert msg[4..4 + |body|] == body;
        HelloRoundTrip(h, lower);
      }
    }
  }

  lemma W24Value(n: nat)
    requires n < 0x100_0000
    ensures var b := W24(n); b[0] as int * 0x1_0000 + b[1] as int * 0x100 + b[2] as int == n
  {
    var q0, q1 := n / 0x100, n / 0x1_0000;
    assert n == 0x100 * q0 + n % 0x100;
    assert q0 / 0x100 == q1 && q0 == 0x100 * q1 + q0 % 0x100;
  }

  // ---------------------------------------------------------------------
  // Records
  // ---------------------------------------------------------------------

  /** The reader ignores a record's two version bytes. */
  datatype Record = Record(major: byte, minor: byte, payload: Bytes)

  predicate RecordsFit(rs: seq<Record>) {
    forall r <- rs :: |r.payload| < 0x1_0000
  }

  function WriteRecord(r: Record): Bytes
    requires |r.payload| < 0x1_0000
  {
    [RECORD_HANDSHAKE, r.major, r.minor] + W16(|r.payload|) + r.payload
  }

  function WriteRecords(rs: seq<Record>): Bytes
    requires RecordsFit(rs)
  {
    if rs == [] then [] else WriteRecord(rs[0]) + WriteRecords(rs[1..])
  }

  function Payload(rs: seq<Record>): Bytes {
    if rs == [] then [] else rs[0].payload + Payload(rs[1..])
  }

  lemma ReadRecord(r: Record, rest: Bytes)
    requires |r.payload| < 0x1_0000
    ensures var b := WriteRecord(r) + rest;
            && |WriteRecord(r)| == 5 + |r.payload| && b[0] == RECORD_HANDSHAKE && U16(b[3..]) == |r.payload|
            && b[5..5 + |r.payload|] == r.payload && b[..5 + |r.payload|] == WriteRecord(r)
            && b[5 + |r.payload|..] == rest
  {
    var b := WriteRecord(r) + rest;
    assert b[3..] == W16(|r.payload|) + (r.payload + rest);
  }

  /** Only the last record completes the message. */
  ghost predicate Completes(rs: seq<Record>, msg: Bytes, m: Bytes) {
    rs != [] && m <= msg + Payload(rs) && |msg| + |Payload(rs[..|rs| - 1])| < |m|
  }

  /** One turn of the reader over a whole record. */
  lemma OneRecord(r: Record, more: Bytes, raw: Bytes, msg: Bytes, records: nat, lower: Bytes -> Bytes)
    requires |r.payload| < 0x1_0000
    requires records < MAX_RECORDS && |raw| + |WriteRecord(r)| <= MAX_BYTES
    ensures PeekFrom(WriteRecord(r) + more, raw, msg, records, lower)
         == match ReadMessage(msg + r.payload, lower)
            case Some(Found(sni)) => Peeked(sni, raw + WriteRecord(r), more)
            case Some(Bad(e)) => Refused(e)
            case None => PeekFrom(more, raw + WriteRecord(r), msg + r.payload, records + 1, lower)
  {
    hide ReadMessage, U16, WriteRecord;
    ReadRecord(r, more);
  }

  lemma {:induction false} RecordsRoundTrip(h: Hello, rs: seq<Record>, tail: Bytes, raw: Bytes, msg: Bytes,
                                            records: nat, lower: Bytes -> Bytes)
    requires WellFormed(h) && |WriteHello(h)| < 0x100_0000
    requires RecordsFit(rs) && Completes(rs, msg, WriteMessage(h))
    requires records + |rs| <= MAX_RECORDS && |raw| + |WriteRecords(rs)| <= MAX_BYTES
    ensures PeekFrom(WriteRecords(rs) + tail, raw, msg, records, lower)
         == Peeked(SniOf(h, lower), raw + WriteRecords(rs), tail)
    decreases |rs|
  {
    hide ReadMessage, WriteMessage, WriteHello, WellFormed, SniOf, WriteRecord, WriteRecords, Payload, Completes,
      PeekFrom;
    CompletesStep(rs, msg, WriteMessage(h));
    RecordsSplit(rs, tail, raw);
    var r := rs[0];
    var raw', msg' := raw + WriteRecord(r), msg + r.payload;
    OneRecord(r, WriteRecords(rs[1..]) + tail, raw, msg, records, lower);
    MessageRoundTrip(h, msg', lower);
    if |rs| > 1 {
      RecordsRoundTrip(h, rs[1..], tail, raw', msg', records + 1, lower);
    }
  }

  lemma RecordsSplit(rs: seq<Record>, tail: Bytes, raw: Bytes)
    requires RecordsFit(rs) && rs != []
    ensures var more := WriteRecords(rs[1..]);
            && WriteRecords(rs) + tail == WriteRecord(rs[0]) + (more + tail)
            && raw + WriteRecord(rs[0]) + more == raw + WriteRecords(rs)
            && |WriteRecords(rs)| == |WriteRecord(rs[0])| + |more|
            && (|rs| == 1 ==> more + tail == tail && raw + WriteRecord(rs[0]) == raw + WriteRecords(rs))
  {
    UnfoldRecords(rs);
    hide WriteRecord, WriteRecords;
    var first, more := WriteRecord(rs[0]), WriteRecords(rs[1..]);
    Reassociate(first, more, tail);
    Reassociate(raw, first, more);
    if |rs| == 1 {
      NoRecords(rs[1..]);
    }
  }

  lemma UnfoldRecords(rs: seq<Record>)
    requires RecordsFit(rs) && rs != []
    ensures WriteRecords(rs) == WriteRecord(rs[0]) + WriteRecords(rs[1..])
  {
  }

  lemma NoRecords(rs: seq<Record>)
    requires rs == []
    ensures WriteRecords(rs) == []
  {
  }

  lemma Reassociate(a: Bytes, b: Bytes, c: Bytes)
    ensures (a + b) + c == a + (b + c)
  {
  }

  lemma CompletesStep(rs: seq<Record>, msg: Bytes, m: Bytes)
    requires Completes(rs, msg, m)
    ensures rs != []
    ensures |rs| == 1 ==> m <= msg + rs[0].payload
    ensures |rs| > 1 ==>
              |msg + rs[0].payload| < |m| && msg + rs[0].payload <= m && Completes(rs[1..], msg + rs[0].payload, m)
  {
    if |rs| == 1 {
      assert rs[1..] == [] && Payload(rs) == rs[0].payload;
    } else {
      SplitPayload(rs);
      var msg' := msg + rs[0].payload;
      assert msg' + Payload(rs[1..]) == msg + Payload(rs);
      assert msg' <= msg + Payload(rs);
    }
  }

  lemma SplitPayload(rs: seq<Record>)
    requires |rs| >= 2
    ensures Payload(rs) == rs[0].payload + Payload(rs[1..])
    ensures Payload(rs[..|rs| - 1]) == rs[0].payload + Payload(rs[1..][..|rs[1..]| - 1])
  {
    assert rs[..|rs| - 1][1..] == rs[1..][..|rs[1..]| - 1];
  }

  // ---------------------------------------------------------------------
  // Main results
  // ---------------------------------------------------------------------

  /**
   A well-formed hello, cut into at most four records and 16384 bytes at any
   boundaries, is read back; what was consumed is exactly those records,
   whatever follows them.
   */
  lemma AnyFragmentationIsRead(h: Hello, rs: seq<Record>, tail: Bytes, lower: Bytes -> Bytes)
    requires WellFormed(h) && |WriteHello(h)| < 0x100_0000
    requires RecordsFit(rs) && Completes(rs, [], WriteMessage(h))
    requires |rs| <= MAX_RECORDS && |WriteRecords(rs)| <= MAX_BYTES
    ensures PeekFrom(WriteRecords(rs) + tail, [], [], 0, lower) == Peeked(SniOf(h, lower), WriteRecords(rs), tail)
  {
    RecordsRoundTrip(h, rs, tail, [], [], 0, lower);
    assert [] + WriteRecords(rs) == WriteRecords(rs);
  }

  /** For every input: the bytes handed on for replay and those left unread are the stream, within the caps. */
  lemma {:induction false} ReplayIsVerbatim(rest: Bytes, raw: Bytes, msg: Bytes, records: nat, lower: Bytes -> Bytes)
    requires |raw| <= MAX_BYTES
    ensures var p := PeekFrom(rest, raw, msg, records, lower);
            p.Peeked? ==> p.raw + p.unread == raw + rest && raw <= p.raw && |p.raw| <= MAX_BYTES
    decreases MAX_RECORDS + 1 - records
  {
    hide ReadMessage, U16;
    var p := PeekFrom(rest, raw, msg, records, lower);
    if p.Peeked? {
      var length := U16(rest[3..]);
      assert raw + rest[..5 + length] + rest[5 + length..] == raw + rest;
      if ReadMessage(msg + rest[5..5 + length], lower).None? {
        ReplayIsVerbatim(rest[5 + length..], raw + rest[..5 + length], msg + rest[5..5 + length], records + 1, lower);
      }
    }
  }
}
