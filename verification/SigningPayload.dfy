/** The byte strings pkg/protocol signs: what they bind, exactly. */
module SigningPayload {
  import opened Common

  const VERSION := 1
  const MAX_FIELD := 0x10_0000

  /** "ntwire-auth-v1" and "ntwire-relay-register-v1", each with a closing NUL. */
  const AUTH_DOMAIN: Bytes :=
    [0x6E, 0x74, 0x77, 0x69, 0x72, 0x65, 0x2D, 0x61, 0x75, 0x74, 0x68, 0x2D, 0x76, 0x31, 0x00]
  const REGISTER_DOMAIN: Bytes :=
    [0x6E, 0x74, 0x77, 0x69, 0x72, 0x65, 0x2D, 0x72, 0x65, 0x6C, 0x61, 0x79, 0x2D,
     0x72, 0x65, 0x67, 0x69, 0x73, 0x74, 0x65, 0x72, 0x2D, 0x76, 0x31, 0x00]

  datatype ClientInfo = ClientInfo(os: Bytes, arch: Bytes, hostname: Bytes, username: Bytes, clientVersion: Bytes,
                                   latencyMillis: nat, reconnections: nat, extra: map<Bytes, Bytes>)

  datatype AuthRequest = AuthRequest(version: int, publicKey: Bytes, wireGuardPublicKey: Bytes, timestamp: Bytes,
                                     nonce: Bytes, info: ClientInfo, signature: Bytes, queryOnly: bool)

  datatype RelayRegisterRequest = RelayRegisterRequest(version: int, publicKey: Bytes, name: Bytes,
                                                       timestamp: Bytes, nonce: Bytes, signature: Bytes)

  datatype Result = Payload(b: Bytes) | UnsupportedVersion | FieldTooLarge

  // ---------------------------------------------------------------------
  // Length-prefixed fields, and reading them back
  // ---------------------------------------------------------------------

  function U32(n: nat): Bytes
    requires n < 0x1_0000_0000
  {
    [n / 0x100_0000, n / 0x1_0000 % 256, n / 0x100 % 256, n % 256]
  }

  function FromU32(b: Bytes): nat
    requires |b| >= 4
  {
    b[0] as int * 0x100_0000 + b[1] as int * 0x1_0000 + b[2] as int * 0x100 + b[3] as int
  }

  lemma U32RoundTrip(n: nat)
    requires n < 0x1_0000_0000
    ensures FromU32(U32(n)) == n
  {
    var q0, q1, q2 := n / 0x100, n / 0x1_0000, n / 0x100_0000;
    assert n == 0x100 * q0 + n % 0x100;
    assert q0 / 0x100 == q1 && q0 == 0x100 * q1 + q0 % 0x100;
    assert q1 / 0x100 == q2 && q1 == 0x100 * q2 + q1 % 0x100;
  }

  predicate Small(fields: seq<Bytes>) {
    forall f <- fields :: |f| <= MAX_FIELD
  }

  function Encode(fields: seq<Bytes>): Bytes
    requires Small(fields)
  {
    if fields == [] then [] else U32(|fields[0]|) + fields[0] + Encode(fields[1..])
  }

  function Decode(b: Bytes): Option<seq<Bytes>>
    decreases |b|
  {
    if b == [] then Some([])
    else if |b| < 4 || |b| - 4 < FromU32(b) then None
    else
      match Decode(b[4 + FromU32(b)..])
      case None => None
      case Some(rest) => Some([b[4..4 + FromU32(b)]] + rest)
  }

  /** The encoding is uniquely readable: no field can run into the next. */
  lemma {:induction false} DecodeUndoesEncode(fields: seq<Bytes>)
    requires Small(fields)
    ensures Decode(Encode(fields)) == Some(fields)
  {
    hide FromU32, U32, Decode;
    if fields == [] {
      DecodeEmpty();
    } else {
      DecodeUndoesEncode(fields[1..]);
      DecodeOne(fields[0], Encode(fields[1..]), fields[1..]);
      assert fields == [fields[0]] + fields[1..];
    }
  }

  lemma DecodeEmpty()
    ensures Decode([]) == Some([])
  {
  }

  lemma DecodeOne(f: Bytes, rest: Bytes, fields: seq<Bytes>)
    requires |f| <= MAX_FIELD && Decode(rest) == Some(fields)
    ensures Decode(U32(|f|) + f + rest) == Some([f] + fields)
  {
    hide FromU32, U32;
    var b := U32(|f|) + f + rest;
    U32RoundTrip(|f|);
    U32Prefix(|f|, f + rest);
    assert U32(|f|) + (f + rest) == b;
    assert b[4 + |f|..] == rest && b[4..4 + |f|] == f;
  }

  lemma U32Prefix(n: nat, rest: Bytes)
    requires n < 0x1_0000_0000
    ensures |U32(n)| == 4 && FromU32(U32(n) + rest) == FromU32(U32(n))
  {
  }

  lemma {:induction false} EncodeSnoc(fields: seq<Bytes>, f: Bytes)
    requires Small(fields + [f])
    ensures Encode(fields + [f]) == Encode(fields) + (U32(|f|) + f)
  {
    if fields == [] {
      assert Encode([f]) == U32(|f|) + f + Encode([]);
    } else {
      assert (fields + [f])[1..] == fields[1..] + [f];
      EncodeSnoc(fields[1..], f);
    }
  }

  // ---------------------------------------------------------------------
  // sort.Strings: bytewise lexicographic order
  // ---------------------------------------------------------------------

  predicate Less(a: Bytes, b: Bytes)
    decreases |a|
  {
    if a == [] then b != []
    else if b == [] then false
    else a[0] < b[0] || (a[0] == b[0] && Less(a[1..], b[1..]))
  }

  lemma {:induction false} LessIrreflexive(a: Bytes)
    ensures !Less(a, a)
  {
    if a != [] {
      LessIrreflexive(a[1..]);
    }
  }

  lemma {:induction false} LessTotal(a: Bytes, b: Bytes)
    ensures a == b || Less(a, b) || Less(b, a)
    ensures !(Less(a, b) && Less(b, a))
    decreases |a|
  {
    if a != [] && b != [] {
      LessTotal(a[1..], b[1..]);
      if a[1..] == b[1..] && a[0] == b[0] {
        assert a == [a[0]] + a[1..] && b == [b[0]] + b[1..];
      }
    }
  }

  lemma {:induction false} LessTransitive(a: Bytes, b: Bytes, c: Bytes)
    requires Less(a, b) && Less(b, c)
    ensures Less(a, c)
    decreases |a|
  {
    if a != [] && a[0] == b[0] == c[0] {
      LessTransitive(a[1..], b[1..], c[1..]);
    }
  }

  ghost predicate Sorted(s: seq<Bytes>) {
    forall i, j :: 0 <= i < j < |s| ==> Less(s[i], s[j])
  }

  function Insert(s: seq<Bytes>, k: Bytes): seq<Bytes> {
    if s == [] || Less(k, s[0]) then [k] + s else [s[0]] + Insert(s[1..], k)
  }

  lemma {:induction false} InsertKeepsSorted(s: seq<Bytes>, k: Bytes)
    requires Sorted(s) && k !in s
    ensures Sorted(Insert(s, k)) && Elements(Insert(s, k)) == Elements(s) + {k}
  {
    if s == [] {
    } else if Less(k, s[0]) {
      forall j | 0 <= j < |s| ensures Less(k, s[j]) {
        if j > 0 { LessTransitive(k, s[0], s[j]); }
      }
    } else {
      LessTotal(k, s[0]);
      assert s == [s[0]] + s[1..];
      InsertKeepsSorted(s[1..], k);
      var r := Insert(s[1..], k);
      forall x | x in r ensures Less(s[0], x) {
        assert x in Elements(r);
        if x != k {
          var j :| 0 <= j < |s[1..]| && s[1..][j] == x;
          assert Less(s[0], s[j + 1]);
        }
      }
    }
  }

  function Sort(s: seq<Bytes>): seq<Bytes> {
    if s == [] then [] else Insert(Sort(s[..|s| - 1]), s[|s| - 1])
  }

  lemma {:induction false} SortSorts(s: seq<Bytes>)
    requires NoDuplicates(s)
    ensures Sorted(Sort(s)) && Elements(Sort(s)) == Elements(s)
  {
    if s != [] {
      var t, k := s[..|s| - 1], s[|s| - 1];
      SortSorts(t);
      assert s == t + [k];
      assert k !in Elements(t);
      InsertKeepsSorted(Sort(t), k);
    }
  }

  /** A strictly sorted sequence is determined by its elements. */
  lemma {:induction false} SortedIsUnique(a: seq<Bytes>, b: seq<Bytes>)
    requires Sorted(a) && Sorted(b) && Elements(a) == Elements(b)
    ensures a == b
  {
    EmptyElements(a);
    EmptyElements(b);
    if a != [] {
      assert a[0] in Elements(a) && a[0] in Elements(b);
      if b != [] {
        assert b[0] in Elements(b) && b[0] in Elements(a);
        var i :| 0 <= i < |b| && b[i] == a[0];
        var j :| 0 <= j < |a| && a[j] == b[0];
        LessTotal(a[0], b[0]);
        SortedTail(a);
        SortedTail(b);
        SortedIsUnique(a[1..], b[1..]);
      }
    }
  }

  lemma SortedTail(s: seq<Bytes>)
    requires Sorted(s) && s != []
    ensures Sorted(s[1..]) && Elements(s[1..]) == Elements(s) - {s[0]}
  {
    LessIrreflexive(s[0]);
    forall x | x in s[1..] ensures x != s[0] {
      var i :| 0 <= i < |s[1..]| && s[1..][i] == x;
      assert Less(s[0], s[i + 1]);
    }
    assert s == [s[0]] + s[1..];
  }

  // ---------------------------------------------------------------------
  // The two payloads
  // ---------------------------------------------------------------------

  function Flatten(keys: seq<Bytes>, m: map<Bytes, Bytes>): seq<Bytes>
    requires forall k <- keys :: k in m
  {
    if keys == [] then [] else Flatten(keys[..|keys| - 1], m) + [keys[|keys| - 1], m[keys[|keys| - 1]]]
  }

  function FixedFields(r: AuthRequest): seq<Bytes> {
    [r.publicKey, r.wireGuardPublicKey, r.timestamp, r.nonce,
     r.info.os, r.info.arch, r.info.hostname, r.info.username, r.info.clientVersion]
  }

  /** The key order a payload must use. */
  ghost predicate KeyOrder(keys: seq<Bytes>, m: map<Bytes, Bytes>) {
    Sorted(keys) && Elements(keys) == m.Keys
  }

  ghost predicate AuthFields(r: AuthRequest, fields: seq<Bytes>) {
    exists keys :: KeyOrder(keys, r.info.extra) && (forall k <- keys :: k in r.info.extra)
                   && fields == FixedFields(r) + Flatten(keys, r.info.extra)
  }

  method SigningPayload(r: AuthRequest) returns (res: Result, ghost fields: seq<Bytes>)
    ensures res.UnsupportedVersion? <==> r.version != VERSION
    ensures r.version == VERSION ==> AuthFields(r, fields)
    ensures r.version == VERSION ==> (res.Payload? <==> Small(fields))
    ensures res.Payload? ==> res.b == AUTH_DOMAIN + Encode(fields)
  {
    hide Encode, Less;
    fields := [];
    if r.version != VERSION {
      return UnsupportedVersion, fields;
    }
    var list := FixedFields(r);
    var keys: seq<Bytes> := [];
    var rest := r.info.extra.Keys;
    while rest != {}
      invariant rest <= r.info.extra.Keys
      invariant NoDuplicates(keys) && Elements(keys) == r.info.extra.Keys - rest
      decreases rest
    {
      var k :| k in rest;
      rest := rest - {k};
      assert k !in Elements(keys);
      assert Elements(keys + [k]) == Elements(keys) + {k};
      keys := keys + [k];
    }
    SortSorts(keys);
    keys := Sort(keys);
    assert forall k <- keys :: k in Elements(keys);
    for i := 0 to |keys|
      invariant forall k <- keys :: k in r.info.extra
      invariant list == FixedFields(r) + Flatten(keys[..i], r.info.extra)
    {
      assert keys[..i + 1][..i] == keys[..i];
      list := list + [keys[i], r.info.extra[keys[i]]];
    }
    assert keys[..|keys|] == keys;
    fields := list;
    res := WriteFields(AUTH_DOMAIN, list);
  }

  method WriteFields(domain: Bytes, list: seq<Bytes>) returns (res: Result)
    ensures if Small(list) then res == Payload(domain + Encode(list)) else res == FieldTooLarge
  {
    hide Encode;
    var b := domain;
    assert Encode([]) == [] by { EncodeEmpty(); }
    for i := 0 to |list|
      invariant Small(list[..i]) && b == domain + Encode(list[..i])
    {
      if |list[i]| > MAX_FIELD {
        assert list[i] in list;
        return FieldTooLarge;
      }
      assert list[..i + 1] == list[..i] + [list[i]];
      EncodeSnoc(list[..i], list[i]);
      b := b + U32(|list[i]|);
      b := b + list[i];
    }
    assert list[..|list|] == list;
    return Payload(b);
  }

  lemma EncodeEmpty()
    ensures Encode([]) == []
  {
  }

  function RegisterFields(r: RelayRegisterRequest): seq<Bytes> {
    [r.publicKey, r.name, r.timestamp, r.nonce]
  }

  method RelayRegisterPayload(r: RelayRegisterRequest) returns (res: Result)
    ensures res.UnsupportedVersion? <==> r.version != VERSION
    ensures r.version == VERSION ==> (res.Payload? <==> Small(RegisterFields(r)))
    ensures res.Payload? ==> res.b == REGISTER_DOMAIN + Encode(RegisterFields(r))
  {
    if r.version != VERSION {
      return UnsupportedVersion;
    }
    res := WriteFields(REGISTER_DOMAIN, RegisterFields(r));
  }

  // ---------------------------------------------------------------------
  // Main results
  // ---------------------------------------------------------------------

  /** b is the signing payload of r. */
  ghost predicate IsAuthPayload(r: AuthRequest, b: Bytes) {
    r.version == VERSION
    && exists fields :: AuthFields(r, fields) && Small(fields) && b == AUTH_DOMAIN + Encode(fields)
  }

  ghost predicate IsRegisterPayload(r: RelayRegisterRequest, b: Bytes) {
    r.version == VERSION && Small(RegisterFields(r)) && b == REGISTER_DOMAIN + Encode(RegisterFields(r))
  }

  /** Everything a signature vouches for: not the signature, the telemetry or the query flag. */
  ghost predicate SameSigned(r: AuthRequest, s: AuthRequest) {
    FixedFields(r) == FixedFields(s) && r.info.extra == s.info.extra
  }

  lemma {:induction false} EncodeInjective(domain: Bytes, f: seq<Bytes>, g: seq<Bytes>)
    requires Small(f) && Small(g) && domain + Encode(f) == domain + Encode(g)
    ensures f == g
  {
    hide Encode, Decode;
    assert (domain + Encode(f))[|domain|..] == Encode(f);
    assert (domain + Encode(g))[|domain|..] == Encode(g);
    DecodeUndoesEncode(f);
    DecodeUndoesEncode(g);
  }

  lemma {:induction false} FlattenReadsBack(keys: seq<Bytes>, m: map<Bytes, Bytes>)
    requires forall k <- keys :: k in m
    ensures |Flatten(keys, m)| == 2 * |keys|
    ensures forall i :: 0 <= i < |keys| ==>
              Flatten(keys, m)[2 * i] == keys[i] && Flatten(keys, m)[2 * i + 1] == m[keys[i]]
  {
    if keys != [] {
      var front := keys[..|keys| - 1];
      FlattenReadsBack(front, m);
    }
  }

  lemma FlattenInjective(keys: seq<Bytes>, m: map<Bytes, Bytes>, keys': seq<Bytes>, m': map<Bytes, Bytes>)
    requires KeyOrder(keys, m) && KeyOrder(keys', m')
    requires (forall k <- keys :: k in m) && (forall k <- keys' :: k in m')
    requires Flatten(keys, m) == Flatten(keys', m')
    ensures m == m'
  {
    hide Sorted, Flatten;
    FlattenReadsBack(keys, m);
    FlattenReadsBack(keys', m');
    forall i | 0 <= i < |keys| ensures keys[i] == keys'[i] && m[keys[i]] == m'[keys[i]] {
      assert Flatten(keys, m)[2 * i] == Flatten(keys', m')[2 * i];
      assert Flatten(keys, m)[2 * i + 1] == Flatten(keys', m')[2 * i + 1];
    }
    assert keys == keys';
    assert m.Keys == m'.Keys;
    forall k | k in m ensures m[k] == m'[k] {
      assert k in Elements(keys);
    }
  }

  /** Two requests have the same payload exactly when everything signed is equal. */
  lemma AuthPayloadBindsRequest(r: AuthRequest, s: AuthRequest, b: Bytes, c: Bytes)
    requires IsAuthPayload(r, b) && IsAuthPayload(s, c)
    ensures b == c <==> SameSigned(r, s)
  {
    hide Encode, Flatten, Sorted;
    var f :| AuthFields(r, f) && Small(f) && b == AUTH_DOMAIN + Encode(f);
    var g :| AuthFields(s, g) && Small(g) && c == AUTH_DOMAIN + Encode(g);
    var keys :| KeyOrder(keys, r.info.extra) && (forall k <- keys :: k in r.info.extra)
                && f == FixedFields(r) + Flatten(keys, r.info.extra);
    var keys' :| KeyOrder(keys', s.info.extra) && (forall k <- keys' :: k in s.info.extra)
                && g == FixedFields(s) + Flatten(keys', s.info.extra);
    if b == c {
      EncodeInjective(AUTH_DOMAIN, f, g);
      assert f[..9] == FixedFields(r) && g[..9] == FixedFields(s);
      assert f[9..] == Flatten(keys, r.info.extra) && g[9..] == Flatten(keys', s.info.extra);
      FlattenInjective(keys, r.info.extra, keys', s.info.extra);
    }
    if SameSigned(r, s) {
      SortedIsUnique(keys, keys');
    }
  }

  lemma RegisterPayloadBindsRequest(r: RelayRegisterRequest, s: RelayRegisterRequest, b: Bytes, c: Bytes)
    requires IsRegisterPayload(r, b) && IsRegisterPayload(s, c)
    ensures b == c <==> RegisterFields(r) == RegisterFields(s)
  {
    if b == c {
      EncodeInjective(REGISTER_DOMAIN, RegisterFields(r), RegisterFields(s));
      assert RegisterFields(r) == RegisterFields(s);
    }
  }

  /** No signature over one kind of payload can be replayed as the other. */
  lemma PayloadKindsAreDisjoint(r: AuthRequest, s: RelayRegisterRequest, b: Bytes, c: Bytes)
    requires IsAuthPayload(r, b) && IsRegisterPayload(s, c)
    ensures b != c
  {
    hide Encode;
    assert b[7] == AUTH_DOMAIN[7];
    assert c[7] == REGISTER_DOMAIN[7];
  }

  // ---------------------------------------------------------------------
  // The layout, byte for byte
  // ---------------------------------------------------------------------

  /** Bytewise order: at the first difference the smaller byte, or the end, comes first. */
  ghost predicate Precedes(a: Bytes, b: Bytes) {
    exists k :: 0 <= k <= |a| && k < |b| && a[..k] == b[..k] && (k == |a| || a[k] < b[k])
  }

  lemma {:induction false} LessIsBytewise(a: Bytes, b: Bytes)
    ensures Less(a, b) <==> Precedes(a, b)
    decreases |a|
  {
    if a == [] || b == [] {
      if b != [] { assert a[..0] == b[..0]; }
    } else {
      LessIsBytewise(a[1..], b[1..]);
      if a[0] == b[0] && Precedes(a[1..], b[1..]) {
        var c, d := a[1..], b[1..];
        var k :| 0 <= k <= |c| && k < |d| && c[..k] == d[..k] && (k == |c| || c[k] < d[k]);
        assert a[..k + 1] == [a[0]] + a[1..][..k] && b[..k + 1] == [b[0]] + b[1..][..k];
      } else if a[0] < b[0] {
        assert a[..0] == b[..0];
      }
      if Precedes(a, b) {
        var k :| 0 <= k <= |a| && k < |b| && a[..k] == b[..k] && (k == |a| || a[k] < b[k]);
        if k > 0 {
          assert a[0] == a[..k][0] && b[0] == b[..k][0];
          assert a[1..][..k - 1] == a[..k][1..] && b[1..][..k - 1] == b[..k][1..];
        }
      }
    }
  }

  /** A length is four bytes, the most significant first. */
  lemma LengthsAreBigEndian(n: nat)
    requires n < 0x1_0000_0000
    ensures |U32(n)| == 4
    ensures n == U32(n)[0] as int * 16777216 + U32(n)[1] as int * 65536 + U32(n)[2] as int * 256 + U32(n)[3] as int
  {
    U32RoundTrip(n);
  }

  ghost predicate Spells(b: Bytes, s: string) {
    |b| == |s| && forall i :: 0 <= i < |s| ==> b[i] as char == s[i]
  }

  /**
   An authentication payload is its domain and then, each with its length, the
   nine fixed fields in this order and the extra entries in bytewise key order.
   */
  lemma AuthPayloadLayout(r: AuthRequest, b: Bytes)
    requires IsAuthPayload(r, b)
    ensures |b| >= 15 && Spells(b[..14], "ntwire-auth-v1") && b[14] == 0
    ensures exists keys :: KeyOrder(keys, r.info.extra) && (forall k <- keys :: k in r.info.extra)
              && Decode(b[15..]) == Some([r.publicKey, r.wireGuardPublicKey, r.timestamp, r.nonce,
                                          r.info.os, r.info.arch, r.info.hostname, r.info.username,
                                          r.info.clientVersion] + Flatten(keys, r.info.extra))
  {
    hide Encode, Decode, Less, Flatten;
    var fields :| AuthFields(r, fields) && Small(fields) && b == AUTH_DOMAIN + Encode(fields);
    DecodeUndoesEncode(fields);
    assert b[15..] == Encode(fields) && b[..14] == AUTH_DOMAIN[..14] && b[14] == AUTH_DOMAIN[14];
  }

  /** A registration payload likewise, with its own domain and four fields. */
  lemma RegisterPayloadLayout(r: RelayRegisterRequest, b: Bytes)
    requires IsRegisterPayload(r, b)
    ensures |b| >= 25 && Spells(b[..24], "ntwire-relay-register-v1") && b[24] == 0
    ensures Decode(b[25..]) == Some([r.publicKey, r.name, r.timestamp, r.nonce])
  {
    hide Encode, Decode;
    DecodeUndoesEncode(RegisterFields(r));
    assert b[25..] == Encode(RegisterFields(r)) && b[..24] == REGISTER_DOMAIN[..24] && b[24] == REGISTER_DOMAIN[24];
  }

  /** The extra entries stand in pairs, keys ascending, each key of the map once. */
  lemma ExtrasInOrder(keys: seq<Bytes>, m: map<Bytes, Bytes>)
    requires KeyOrder(keys, m) && forall k <- keys :: k in m
    ensures |Flatten(keys, m)| == 2 * |keys|
    ensures forall i :: 0 <= i < |keys| ==>
              Flatten(keys, m)[2 * i] == keys[i] && Flatten(keys, m)[2 * i + 1] == m[keys[i]]
    ensures forall i, j :: 0 <= i < j < |keys| ==> Precedes(keys[i], keys[j])
    ensures forall k <- m :: k in keys
  {
    hide Less, Precedes, Flatten;
    FlattenReadsBack(keys, m);
    forall i, j | 0 <= i < j < |keys| ensures Precedes(keys[i], keys[j]) {
      LessIsBytewise(keys[i], keys[j]);
    }
    forall k | k in m ensures k in keys { assert k in Elements(keys); }
  }
}
