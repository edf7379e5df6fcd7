/**
 The TLS ClientHello parser: `Parse`, `parseClientHello` and the extension readers of
 internal/protocol/tls/parser.go, against the layout of section 7.4.1.2 of RFC 5246.
 */
module ClientHello {
  import opened Common
  import opened Ja3

  const SNI: U16 := 0x0000
  const GROUPS: U16 := 0x000A
  const POINT_FORMATS: U16 := 0x000B
  const ALPN: U16 := 0x0010

  function Min(a: int, b: int): int { if a < b then a else b }

  // ------------------------------------------------------------------ list readers

  /** Two bytes at a time while two bytes are left before `end`. */
  function U16sAt(d: bytes, off: nat, end: nat): (vals: seq<U16>)
    requires end <= |d|
    decreases end - off
  {
    if off + 2 <= end then [BE16(d, off)] + U16sAt(d, off + 2, end) else []
  }

  /** Length-prefixed strings up to `end` or to the first that overruns it. */
  function StringsAt(d: bytes, off: nat, end: nat): (s: seq<bytes>)
    requires end <= |d|
    decreases end - off
  {
    if off < end && off + 1 + d[off] <= end
    then [d[off + 1..off + 1 + d[off]]] + StringsAt(d, off + 1 + d[off], end)
    else []
  }

  function ServerName(d: bytes): bytes {
    if |d| < 5 || d[2] != 0 || 5 + BE16(d, 3) > |d| then [] else d[5..5 + BE16(d, 3)]
  }

  function Protocols(d: bytes): seq<bytes> {
    if |d| < 2 then [] else StringsAt(d, 2, Min(2 + BE16(d, 0), |d|))
  }

  function U16List(d: bytes): seq<U16> {
    if |d| < 2 then [] else U16sAt(d, 2, Min(2 + BE16(d, 0), |d|))
  }

  function U8List(d: bytes): bytes {
    if |d| < 1 then [] else var len: nat := d[0]; d[1..Min(1 + len, |d|)]
  }

  method ParseAlpn(d: bytes) returns (protocols: seq<bytes>)
    ensures protocols == Protocols(d)
  {
    protocols := [];
    if |d| < 2 { return; }
    var off: nat, end: nat := 2, Min(2 + BE16(d, 0), |d|);
    while off < end
      invariant off <= end
      invariant protocols + StringsAt(d, off, end) == Protocols(d)
    {
      var pLen: nat := d[off];
      if off + 1 + pLen > end { break; }
      protocols := protocols + [d[off + 1..off + 1 + pLen]];
      off := off + 1 + pLen;
    }
  }

  method ParseU16List(d: bytes) returns (out: seq<U16>)
    ensures out == U16List(d)
  {
    out := [];
    if |d| < 2 { return; }
    var off: nat, end: nat := 2, Min(2 + BE16(d, 0), |d|);
    while off + 2 <= end
      invariant off <= end
      invariant out + U16sAt(d, off, end) == U16List(d)
    {
      out := out + [BE16(d, off)];
      off := off + 2;
    }
  }

  method ParseU8List(d: bytes) returns (out: bytes)
    ensures out == U8List(d)
  {
    out := [];
    if |d| < 1 { return; }
    var len: nat := d[0];
    var off: nat, end: nat := 1, Min(1 + len, |d|);
    while off < end
      invariant 1 <= off <= end
      invariant out == d[1..off]
    {
      out := out + [d[off]];
      off := off + 1;
    }
  }

  // ------------------------------------------------------------------ the body

  type Ext = Entry<U16>

  /** The extension loop: data is cut at the end of the body, the next header is looked for at its declared end. */
  function ExtsAt(hs: bytes, off: nat, end: nat): seq<Ext>
    requires end <= |hs|
    decreases end - off
  {
    if off + 4 > end then []
    else
      var len := BE16(hs, off + 2);
      [Entry(BE16(hs, off), hs[off + 4..Min(off + 4 + len, |hs|)])] + ExtsAt(hs, off + 4 + len, end)
  }

  function Kinds(exts: seq<Ext>): (kinds: seq<U16>)
    ensures |kinds| == |exts| && forall i :: 0 <= i < |exts| ==> kinds[i] == exts[i].kind
  {
    if exts == [] then [] else [exts[0].kind] + Kinds(exts[1..])
  }

  /** What the parser extracts. */
  datatype Extracted = Extracted(version: U16, ciphers: seq<U16>, extTypes: seq<U16>, sni: bytes, alpn: seq<bytes>,
                                 curves: seq<U16>, pointFormats: bytes)

  function Summary(version: U16, ciphers: seq<U16>, exts: seq<Ext>): Extracted {
    Extracted(version, ciphers, Kinds(exts), ServerName(LastData(exts, SNI)), Protocols(LastData(exts, ALPN)),
              U16List(LastData(exts, GROUPS)), U8List(LastData(exts, POINT_FORMATS)))
  }

  function HelloOf(x: Extracted): Hello { Hello(x.version, x.ciphers, x.extTypes, x.curves, x.pointFormats) }

  /** The string stored under ja3_raw. */
  function RawFingerprint(x: Extracted): bytes { Raw(HelloOf(x)) }

  /**
   `CipherListOverrun` is the odd-length list that ends with the body: its last two-byte read leaves the
   slice, which Go either refuses at run time or, when the capacity allows it, follows with the
   truncated-compression error.
   */
  datatype Error =
    | TooShort | SessionTruncated | CipherLengthTruncated | CiphersTruncated | CipherListOverrun
    | CompressionLengthTruncated | CompressionTruncated
    | RecordTooShort | NotHandshake | HandshakeTruncated

  datatype Outcome = Client(hello: Extracted) | OtherHandshake(kind: byte) | Err(error: Error)

  /** A number of two-byte suites. */
  function CiphersAt(hs: bytes, off: nat, count: nat): (suites: seq<U16>)
    requires off + 2 * count <= |hs|
    ensures |suites| == count
    decreases count
  {
    if count == 0 then [] else [BE16(hs, off)] + CiphersAt(hs, off + 2, count - 1)
  }

  /** How many two-byte reads a list of `len` bytes takes; the last of an odd list runs one byte past it. */
  function Suites(len: nat): (count: nat)
    ensures 2 * count == len + len % 2
  {
    (len + 1) / 2
  }

  function Body(hs: bytes): Outcome {
    if |hs| < 38 then Err(TooShort)
    else
      var sidLen: nat := hs[34];
      var cs := 35 + sidLen;
      if cs > |hs| then Err(SessionTruncated)
      else if cs + 2 > |hs| then Err(CipherLengthTruncated)
      else
        var csLen := BE16(hs, cs);
        if cs + 2 + csLen > |hs| then Err(CiphersTruncated)
        else if cs + 2 + csLen + csLen % 2 > |hs| then Err(CipherListOverrun)
        else
          var ciphers := CiphersAt(hs, cs + 2, Suites(csLen));
          var comp := cs + 2 + csLen;
          if comp >= |hs| then Err(CompressionLengthTruncated)
          else
            var ext := comp + 1 + hs[comp];
            if ext > |hs| then Err(CompressionTruncated)
            else
              var exts := if ext + 2 <= |hs| then ExtsAt(hs, ext + 2, Min(ext + 2 + BE16(hs, ext), |hs|)) else [];
              Client(Summary(BE16(hs, 0), ciphers, exts))
  }

  /** One turn of the extension loop. */
  lemma ExtsStep(hs: bytes, off: nat, end: nat)
    requires off + 4 <= end <= |hs|
    ensures var len := BE16(hs, off + 2);
      var e := Entry(BE16(hs, off), hs[off + 4..Min(off + 4 + len, |hs|)]);
      ExtsAt(hs, off, end) == [e] + ExtsAt(hs, off + 4 + len, end)
  {}

  lemma ExtsEnd(hs: bytes, off: nat, end: nat)
    requires off + 4 > end && end <= |hs|
    ensures ExtsAt(hs, off, end) == []
  {}

  /** The extension loop with its five variables, each overwritten by a later extension of its kind. */
  method ReadExtensions(hs: bytes, from: nat, end: nat, version: U16, ciphers: seq<U16>) returns (x: Extracted)
    requires end <= |hs|
    ensures x == Summary(version, ciphers, ExtsAt(hs, from, end))
  {
    hide ServerName, U16List, U8List, Protocols, BE16, LastData, Kinds, ExtsAt;
    var extTypes: seq<U16>, sni: bytes, alpn: seq<bytes>, curves: seq<U16>, formats: bytes := [], [], [], [], [];
    var off := from;
    ghost var done: seq<Ext> := [];
    EmptyData();
    assert done + ExtsAt(hs, off, end) == ExtsAt(hs, from, end);
    while off + 4 <= end
      invariant done + ExtsAt(hs, off, end) == ExtsAt(hs, from, end)
      invariant Extracted(version, ciphers, extTypes, sni, alpn, curves, formats) == Summary(version, ciphers, done)
      decreases end - off
    {
      var kind: U16, len := BE16(hs, off), BE16(hs, off + 2);
      var data := hs[off + 4..Min(off + 4 + len, |hs|)];
      OneMore(done, Entry(kind, data));
      ExtsStep(hs, off, end);
      assert done + ([Entry(kind, data)] + ExtsAt(hs, off + 4 + len, end))
          == (done + [Entry(kind, data)]) + ExtsAt(hs, off + 4 + len, end);
      done := done + [Entry(kind, data)];
      extTypes := extTypes + [kind];
      if kind == SNI { sni := ServerName(data); }
      else if kind == ALPN { alpn := ParseAlpn(data); }
      else if kind == GROUPS { curves := ParseU16List(data); }
      else if kind == POINT_FORMATS { formats := ParseU8List(data); }
      off := off + 4 + len;
    }
    ExtsEnd(hs, off, end);
    assert done + [] == done;
    x := Extracted(version, ciphers, extTypes, sni, alpn, curves, formats);
  }

  lemma OneMore(exts: seq<Ext>, e: Ext)
    ensures Kinds(exts + [e]) == Kinds(exts) + [e.kind]
    ensures forall kind :: LastData(exts + [e], kind) == if e.kind == kind then e.data else LastData(exts, kind)
  {
    LastDataSnoc(exts, e);
  }

  lemma EmptyData()
    ensures Kinds([]) == [] && forall kind: U16 :: LastData([], kind) == []
    ensures ServerName([]) == [] && Protocols([]) == [] && U16List([]) == [] && U8List([]) == []
  {}

  lemma {:induction false} SuiteAt(hs: bytes, off: nat, count: nat, k: nat)
    requires off + 2 * count <= |hs| && k < count
    ensures CiphersAt(hs, off, count)[k] == BE16(hs, off + 2 * k)
    decreases count
  {
    hide BE16;
    if k > 0 { SuiteAt(hs, off + 2, count - 1, k - 1); }
  }

  /** A list of odd length gives one suite more than it has pairs, ended by the byte behind the list. */
  lemma OddCipherList(hs: bytes, off: nat, len: nat)
    requires off + len + len % 2 <= |hs| && len % 2 == 1
    ensures var suites := CiphersAt(hs, off, Suites(len));
      |suites| == (len + 1) / 2 && suites[|suites| - 1] == BE16(hs, off + len - 1)
  {
    SuiteAt(hs, off, Suites(len), Suites(len) - 1);
  }

  method ReadCiphers(hs: bytes, off: nat, csLen: nat) returns (ciphers: seq<U16>)
    requires off + csLen + csLen % 2 <= |hs|
    ensures ciphers == CiphersAt(hs, off, Suites(csLen))
  {
    hide BE16;
    ciphers := [];
    var i: nat := 0;
    ghost var count, k := Suites(csLen), 0;
    hide Suites;
    while i < csLen
      invariant i == 2 * k && k <= count
      invariant ciphers + CiphersAt(hs, off + i, count - k) == CiphersAt(hs, off, count)
    {
      var cs := BE16(hs, off + i);
      ghost var rest := CiphersAt(hs, off + i + 2, count - k - 1);
      assert ciphers + ([cs] + rest) == (ciphers + [cs]) + rest;
      ciphers := ciphers + [cs];
      i, k := i + 2, k + 1;
    }
    assert ciphers + [] == ciphers;
  }

  /** parseClientHello: one offset moved over the fields, then the fingerprint string of what they held. */
  method ParseClientHello(hs: bytes) returns (r: Outcome, ja3Raw: bytes)
    ensures r == Body(hs)
    ensures ja3Raw == if r.Client? then RawFingerprint(r.hello) else []
  {
    ja3Raw := [];
    hide BE16, CiphersAt, ExtsAt, LastData, Kinds, ServerName, Protocols, U16List, U8List, Raw;
    if |hs| < 38 { return Err(TooShort), []; }
    var off: nat := 34;
    var sidLen := hs[off];
    off := off + 1 + sidLen;
    if off > |hs| { return Err(SessionTruncated), []; }
    if off + 2 > |hs| { return Err(CipherLengthTruncated), []; }
    var csLen := BE16(hs, off);
    off := off + 2;
    if off + csLen > |hs| { return Err(CiphersTruncated), []; }
    if off + csLen + csLen % 2 > |hs| { return Err(CipherListOverrun), []; }
    var ciphers := ReadCiphers(hs, off, csLen);
    off := off + csLen;
    if off >= |hs| { return Err(CompressionLengthTruncated), []; }
    var compLen := hs[off];
    off := off + 1 + compLen;
    if off > |hs| { return Err(CompressionTruncated), []; }
    var x := Summary(BE16(hs, 0), ciphers, []);
    if off + 2 <= |hs| {
      var extEnd := Min(off + 2 + BE16(hs, off), |hs|);
      x := ReadExtensions(hs, off + 2, extEnd, BE16(hs, 0), ciphers);
    }
    r := Client(x);
    ja3Raw := BuildJa3(HelloOf(x));
  }

  /** Parse: the record and handshake headers, with a truncated record or handshake cut to what is there. */
  function Parsed(data: bytes): Outcome {
    if |data| < 5 then Err(RecordTooShort)
    else if data[0] != 0x16 then Err(NotHandshake)
    else
      var payload := data[5..Min(5 + BE16(data, 3), |data|)];
      if |payload| < 4 then Err(HandshakeTruncated)
      else if payload[0] != 0x01 then OtherHandshake(payload[0])
      else
        Body(payload[4..Min(4 + BE24(payload, 1), |payload|)])
  }

  // ------------------------------------------------------------------ what a hello is made of

  function PutU16s(vals: seq<U16>): (d: bytes)
    ensures |d| == 2 * |vals|
  {
    if vals == [] then [] else PutBE16(vals[0]) + PutU16s(vals[1..])
  }

  function PutStrings(ss: seq<bytes>): bytes
    requires forall i :: 0 <= i < |ss| ==> |ss[i]| < 256
  {
    if ss == [] then [] else [|ss[0]|] + ss[0] + PutStrings(ss[1..])
  }

  function PutExts(exts: seq<Ext>): bytes
    requires forall i :: 0 <= i < |exts| ==> |exts[i].data| < 0x1_0000
  {
    if exts == [] then []
    else PutBE16(exts[0].kind) + PutBE16(|exts[0].data|) + exts[0].data + PutExts(exts[1..])
  }

  datatype Spec = Spec(version: U16, random: bytes, session: bytes, ciphers: seq<U16>, compression: bytes,
                       exts: Option<seq<Ext>>)

  function Exts(h: Spec): seq<Ext> { if h.exts.Some? then h.exts.value else [] }

  predicate Legal(h: Spec) {
    && |h.random| == 32 && |h.session| < 256 && 2 * |h.ciphers| < 0x1_0000 && |h.compression| < 256
    && (h.exts.Some? ==>
         && (forall i :: 0 <= i < |h.exts.value| ==> |h.exts.value[i].data| < 0x1_0000)
         && |PutExts(h.exts.value)| < 0x1_0000)
  }

  function PutBody(h: Spec): bytes
    requires Legal(h)
  {
    PutBE16(h.version) + h.random + ([|h.session|] + h.session) + (PutBE16(2 * |h.ciphers|) + PutU16s(h.ciphers))
    + ([|h.compression|] + h.compression)
    + (if h.exts.Some? then PutBE16(|PutExts(h.exts.value)|) + PutExts(h.exts.value) else [])
  }

  /** A record holding one ClientHello. */
  function PutRecord(h: Spec, minor: byte): bytes
    requires Legal(h) && 4 + |PutBody(h)| < 0x1_0000
  {
    [0x16, 0x03, minor] + PutBE16(4 + |PutBody(h)|) + ([0x01] + PutBE24(|PutBody(h)|) + PutBody(h))
  }

  // ------------------------------------------------------------------ round trip

  lemma {:induction false} CiphersRead(hs: bytes, off: nat, vals: seq<U16>)
    requires off + 2 * |vals| <= |hs| && hs[off..off + 2 * |vals|] == PutU16s(vals)
    ensures CiphersAt(hs, off, |vals|) == vals
    ensures U16sAt(hs, off, off + 2 * |vals|) == vals
    decreases |vals|
  {
    hide BE16, PutBE16;
    if vals != [] {
      var end := off + 2 * |vals|;
      SubSlice(hs, off, end, 0, 2);
      SubSlice(hs, off, end, 2, 2 * |vals|);
      assert PutU16s(vals)[0..2] == PutBE16(vals[0]) && PutU16s(vals)[2..2 * |vals|] == PutU16s(vals[1..]);
      BE16Written(hs, off, vals[0]);
      CiphersRead(hs, off + 2, vals[1..]);
    }
  }

  lemma {:induction false} StringsRead(d: bytes, off: nat, ss: seq<bytes>, end: nat)
    requires forall i :: 0 <= i < |ss| ==> |ss[i]| < 256
    requires off <= end <= |d| && d[off..end] == PutStrings(ss)
    ensures StringsAt(d, off, end) == ss
    decreases |ss|
  {
    if ss != [] {
      var w, n := d[off..end], 1 + |ss[0]|;
      SubSlice(d, off, end, 1, n);
      SubSlice(d, off, end, n, |w|);
      assert d[off] == w[0] == |ss[0]| && w[1..n] == ss[0] && w[n..|w|] == PutStrings(ss[1..]);
      StringsRead(d, off + n, ss[1..], end);
    }
  }

  lemma {:induction false} ExtsRead(hs: bytes, off: nat, exts: seq<Ext>, end: nat)
    requires forall i :: 0 <= i < |exts| ==> |exts[i].data| < 0x1_0000
    requires off <= end <= |hs| && hs[off..end] == PutExts(exts)
    ensures ExtsAt(hs, off, end) == exts
    decreases |exts|
  {
    hide BE16, PutBE16;
    if exts != [] {
      var e, w := exts[0], hs[off..end];
      var n := 4 + |e.data|;
      PutExtsHead(exts);
      SubSlice(hs, off, end, 0, 2);
      SubSlice(hs, off, end, 2, 4);
      SubSlice(hs, off, end, 4, n);
      SubSlice(hs, off, end, n, |w|);
      BE16Written(hs, off, e.kind);
      BE16Written(hs, off + 2, |e.data|);
      ExtsRead(hs, off + n, exts[1..], end);
    }
  }

  lemma PutExtsHead(exts: seq<Ext>)
    requires exts != [] && forall i :: 0 <= i < |exts| ==> |exts[i].data| < 0x1_0000
    ensures var w, e := PutExts(exts), exts[0];
      && |w| >= 4 + |e.data|
      && w[0..2] == PutBE16(e.kind) && w[2..4] == PutBE16(|e.data|)
      && w[4..4 + |e.data|] == e.data && w[4 + |e.data|..|w|] == PutExts(exts[1..])
  {}

  /** Where each field of an encoded body stands. */
  lemma BodyLayout(h: Spec)
    requires Legal(h)
    ensures var d, cs := PutBody(h), 35 + |h.session|;
      var comp := cs + 2 + 2 * |h.ciphers|;
      var ext := comp + 1 + |h.compression|;
      && ext <= |d| && |d| >= 38
      && d[0..2] == PutBE16(h.version) && d[34] == |h.session| && d[cs..cs + 2] == PutBE16(2 * |h.ciphers|)
      && d[cs + 2..comp] == PutU16s(h.ciphers) && d[comp] == |h.compression|
      && (h.exts.None? ==> ext == |d|)
      && (h.exts.Some? ==> ext + 2 <= |d| && d[ext..ext + 2] == PutBE16(|PutExts(h.exts.value)|)
                           && d[ext + 2..] == PutExts(h.exts.value))
  {
    hide PutU16s, PutExts, PutBE16;
    var a := PutBE16(h.version) + h.random;
    var b := a + ([|h.session|] + h.session);
    var c := b + (PutBE16(2 * |h.ciphers|) + PutU16s(h.ciphers));
    var e := c + ([|h.compression|] + h.compression);
    assert a[0..2] == PutBE16(h.version);
    assert c[|b|..|b| + 2] == PutBE16(2 * |h.ciphers|) && c[|b| + 2..] == PutU16s(h.ciphers);
    assert b[34] == |h.session| && e[|c|] == |h.compression|;
    var d := PutBody(h);
    var f := if h.exts.Some? then PutBE16(|PutExts(h.exts.value)|) + PutExts(h.exts.value) else [];
    assert d == e + f;
    assert d[..|e|] == e && d[|e|..] == f;
    assert e[..|c|] == c && c[..|b|] == b && b[..|a|] == a;
  }

  /**
   Round trip: version, cipher suites and extension types come back in wire order, and each extension
   reader sees the data of the last extension of its kind.
   */
  lemma BodyRoundTrip(h: Spec)
    requires Legal(h)
    ensures Body(PutBody(h)) == Client(Summary(h.version, h.ciphers, Exts(h)))
  {
    hide BE16, PutBE16, PutU16s, PutExts, PutBody, Summary, CiphersAt, ExtsAt;
    var d, cs := PutBody(h), 35 + |h.session|;
    var comp := cs + 2 + 2 * |h.ciphers|;
    var ext := comp + 1 + |h.compression|;
    BodyLayout(h);
    BE16Written(d, 0, h.version);
    BE16Written(d, cs, 2 * |h.ciphers|);
    CiphersRead(d, cs + 2, h.ciphers);
    if h.exts.Some? {
      BE16Written(d, ext, |PutExts(h.exts.value)|);
      assert d[ext + 2..|d|] == d[ext + 2..];
      ExtsRead(d, ext + 2, h.exts.value, |d|);
    }
  }

  /** The same through the record and handshake headers, whatever follows the record. */
  lemma RecordRoundTrip(h: Spec, minor: byte, tail: bytes)
    requires Legal(h) && 4 + |PutBody(h)| < 0x1_0000
    ensures Parsed(PutRecord(h, minor) + tail)
         == Client(Summary(h.version, h.ciphers, Exts(h)))
  {
    hide BE16, PutBE16, PutBE24, PutBody, Summary, Body;
    BodyRoundTrip(h);
    var body := PutBody(h);
    var hs := [0x01] + PutBE24(|body|) + body;
    var data := PutRecord(h, minor) + tail;
    assert data[3..5] == PutBE16(|hs|) && data[5..5 + |hs|] == hs;
    BE16Written(data, 3, |hs|);
    assert hs[1..4] == PutBE24(|body|) && hs[4..|hs|] == body;
    BE24Written(hs, 1, |body|);
  }

  // ------------------------------------------------------------------ the four extensions

  /** Server name of section 3 of RFC 6066: a list whose first entry is a host name. */
  function PutServerName(name: bytes, more: bytes): bytes
    requires |name| + |more| + 3 < 0x1_0000
  {
    PutBE16(|name| + |more| + 3) + [0] + PutBE16(|name|) + name + more
  }

  lemma ServerNameRead(name: bytes, more: bytes)
    requires |name| + |more| + 3 < 0x1_0000
    ensures ServerName(PutServerName(name, more)) == name
  {
    hide BE16, PutBE16;
    var d := PutServerName(name, more);
    assert d[3..5] == PutBE16(|name|) && d[5..5 + |name|] == name;
    BE16Written(d, 3, |name|);
  }

  /** Protocol names of section 3.1 of RFC 7301. */
  lemma ProtocolsRead(names: seq<bytes>)
    requires (forall i :: 0 <= i < |names| ==> |names[i]| < 256) && |PutStrings(names)| < 0x1_0000
    ensures Protocols(PutBE16(|PutStrings(names)|) + PutStrings(names)) == names
  {
    var d := PutBE16(|PutStrings(names)|) + PutStrings(names);
    assert d[0..2] == PutBE16(|PutStrings(names)|) && d[2..|d|] == PutStrings(names);
    BE16Written(d, 0, |PutStrings(names)|);
    StringsRead(d, 2, names, |d|);
  }

  lemma WholeList(d: bytes, n: nat)
    requires |d| == 2 + n && BE16(d, 0) == n
    ensures U16List(d) == U16sAt(d, 2, 2 + n)
  {}

  /** Supported groups and point formats of section 5.1 of RFC 8422. */
  lemma GroupsRead(groups: seq<U16>)
    requires 2 * |groups| < 0x1_0000
    ensures U16List(PutBE16(2 * |groups|) + PutU16s(groups)) == groups
  {
    hide BE16, PutBE16, PutU16s, U16sAt, CiphersAt, U16List;
    var n, list := 2 * |groups|, PutU16s(groups);
    var d := PutBE16(n) + list;
    assert d[0..2] == PutBE16(n) && d[2..2 + n] == list;
    BE16Written(d, 0, n);
    WholeList(d, n);
    CiphersRead(d, 2, groups);
  }

  lemma PointFormatsRead(formats: bytes)
    requires |formats| < 256
    ensures U8List([|formats|] + formats) == formats
  {
    assert ([|formats|] + formats)[1..] == formats;
  }

  /** With distinct extension types the data read for a kind is that of its one extension. */
  lemma {:induction false} LastDataOfDistinct(exts: seq<Ext>, i: nat)
    requires i < |exts| && forall j :: i < j < |exts| ==> exts[j].kind != exts[i].kind
    ensures LastData(exts, exts[i].kind) == exts[i].data
  {
    if i < |exts| - 1 {
      LastDataOfDistinct(exts[..|exts| - 1], i);
    }
  }

  /** A hello with the four extensions, each once and in any order among others. */
  ghost predicate Carries(exts: seq<Ext>, kind: U16, data: bytes) {
    exists i :: 0 <= i < |exts| && exts[i] == Entry(kind, data) && forall j :: i < j < |exts| ==> exts[j].kind != kind
  }

  /** Everything the fingerprint and the event need is recovered from the wire. */
  lemma HelloRoundTrip(
    h: Spec, minor: byte, tail: bytes, name: bytes, names: seq<bytes>, groups: seq<U16>, formats: bytes)
    requires Legal(h) && 4 + |PutBody(h)| < 0x1_0000 && h.exts.Some?
    requires |name| + 3 < 0x1_0000 && 2 * |groups| < 0x1_0000 && |formats| < 256
    requires (forall i :: 0 <= i < |names| ==> |names[i]| < 256) && |PutStrings(names)| < 0x1_0000
    requires Carries(h.exts.value, 0, PutServerName(name, []))
    requires Carries(h.exts.value, 16, PutBE16(|PutStrings(names)|) + PutStrings(names))
    requires Carries(h.exts.value, 10, PutBE16(2 * |groups|) + PutU16s(groups))
    requires Carries(h.exts.value, 11, [|formats|] + formats)
    ensures Parsed(PutRecord(h, minor) + tail)
         == Client(Extracted(h.version, h.ciphers, Kinds(h.exts.value), name, names, groups, formats))
  {
    hide Parsed, PutRecord, PutBody, ServerName, Protocols, U16List, U8List;
    hide PutStrings, PutU16s, PutBE16, PutServerName;
    RecordRoundTrip(h, minor, tail);
    CarriesLast(h.exts.value, 0, PutServerName(name, []));
    CarriesLast(h.exts.value, 16, PutBE16(|PutStrings(names)|) + PutStrings(names));
    CarriesLast(h.exts.value, 10, PutBE16(2 * |groups|) + PutU16s(groups));
    CarriesLast(h.exts.value, 11, [|formats|] + formats);
    ServerNameRead(name, []);
    ProtocolsRead(names);
    GroupsRead(groups);
    PointFormatsRead(formats);
  }

  /** The supported groups and the point formats a hello announces; the last extension of a kind counts. */
  function Groups(h: Spec): seq<U16> { U16List(LastData(Exts(h), 10)) }

  function PointFormats(h: Spec): bytes { U8List(LastData(Exts(h), 11)) }

  /** Two hellos that agree in everything the fingerprint depends on. */
  ghost predicate SameClient(g: Spec, h: Spec) {
    && g.version == h.version
    && Filtered(g.ciphers) == Filtered(h.ciphers)
    && Filtered(Kinds(Exts(g))) == Filtered(Kinds(Exts(h)))
    && Filtered(Groups(g)) == Filtered(Groups(h))
    && PointFormats(g) == PointFormats(h)
  }

  predicate FitsRecord(h: Spec) { Legal(h) && 4 + |PutBody(h)| < 0x1_0000 }

  /**
   From the wire to the fingerprint: two hellos sent as records get the same fingerprint string if and only
   if version and point formats agree and suites, extension types and groups agree after removing GREASE.
   Random, session, compression, names and protocols, and whatever follows the records, do not matter.
   */
  lemma FingerprintFromTheWire(g: Spec, h: Spec, minor: byte, other: byte, tail: bytes, rest: bytes)
    requires FitsRecord(g) && FitsRecord(h)
    ensures var p, q := Parsed(PutRecord(g, minor) + tail), Parsed(PutRecord(h, other) + rest);
      && p.Client? && q.Client?
      && (RawFingerprint(p.hello) == RawFingerprint(q.hello) <==> SameClient(g, h))
  {
    hide Parsed, PutRecord, PutBody, Raw, ServerName, Protocols, U16List, U8List, LastData, Kinds, Filtered;
    RecordRoundTrip(g, minor, tail);
    RecordRoundTrip(h, other, rest);
    RawIsCanonical(HelloOf(Summary(g.version, g.ciphers, Exts(g))), HelloOf(Summary(h.version, h.ciphers, Exts(h))));
  }

  lemma CarriesLast(exts: seq<Ext>, kind: U16, data: bytes)
    requires Carries(exts, kind, data)
    ensures LastData(exts, kind) == data
  {
    var i :| 0 <= i < |exts| && exts[i] == Entry(kind, data) && forall j :: i < j < |exts| ==> exts[j].kind != kind;
    LastDataOfDistinct(exts, i);
  }

  // ------------------------------------------------------------------ what is cut off or malformed

  /** The record and handshake headers: what each failure and each other handshake type takes. */
  lemma RecordExactly(data: bytes)
    ensures Parsed(data) == Err(RecordTooShort) <==> |data| < 5
    ensures Parsed(data) == Err(NotHandshake) <==> |data| >= 5 && data[0] != 22
    ensures Parsed(data) == Err(HandshakeTruncated) <==>
      |data| >= 5 && data[0] == 22 && (BE16(data, 3) < 4 || |data| < 9)
    ensures |data| >= 9 && data[0] == 22 && BE16(data, 3) >= 4 ==>
      forall kind: byte :: Parsed(data) == OtherHandshake(kind) <==> data[5] == kind && kind != 1
  {
    hide BE16, BE24, Body;
    if |data| >= 5 {
      var payload := data[5..Min(5 + BE16(data, 3), |data|)];
      assert |payload| >= 4 ==> payload[0] == data[5];
      if |payload| >= 4 { BodyErrors(payload[4..Min(4 + BE24(payload, 1), |payload|)]); }
    }
  }

  /** A record or handshake longer than the data is read as if it ended with the data. */
  lemma CutRecord(minor: byte, n: nat, m: nat, hs: bytes)
    requires n < 0x1_0000 && m < 0x100_0000 && 4 + |hs| <= n && |hs| <= m
    ensures Parsed([22, 3, minor] + PutBE16(n) + ([1] + PutBE24(m) + hs)) == Body(hs)
  {
    hide BE16, BE24, PutBE16, PutBE24, Body;
    var data := [22, 3, minor] + PutBE16(n) + ([1] + PutBE24(m) + hs);
    assert data[3..5] == PutBE16(n);
    BE16Written(data, 3, n);
    var payload := data[5..];
    assert data[5..|data|] == payload && payload == [1] + PutBE24(m) + hs;
    assert payload[1..4] == PutBE24(m) && payload[4..|payload|] == hs;
    BE24Written(payload, 1, m);
  }

  /** How far the fields of a body reach: where the cipher list, the compression list and the extensions begin. */
  ghost predicate ReachesCiphers(hs: bytes) { |hs| >= 38 && 37 + (hs[34] as int) <= |hs| }

  function CiphersBegin(hs: bytes): nat
    requires |hs| >= 38
  {
    37 + (hs[34] as int)
  }

  function CiphersLength(hs: bytes): nat
    requires |hs| >= 38 && 37 + (hs[34] as int) <= |hs|
  {
    (hs[35 + (hs[34] as int)] as int) * 256 + hs[36 + (hs[34] as int)]
  }

  /** Each failure of the body parser, by the field that does not fit; otherwise a hello is extracted. */
  lemma BodyErrors(hs: bytes)
    ensures Body(hs) == Err(TooShort) <==> |hs| < 38
    ensures Body(hs) == Err(SessionTruncated) <==> |hs| >= 38 && 35 + (hs[34] as int) > |hs|
    ensures Body(hs) == Err(CipherLengthTruncated) <==>
      |hs| >= 38 && 35 + (hs[34] as int) <= |hs| < 37 + (hs[34] as int)
    ensures ReachesCiphers(hs) ==>
      var at, n := CiphersBegin(hs), CiphersLength(hs);
      && (Body(hs) == Err(CiphersTruncated) <==> at + n > |hs|)
      && (Body(hs) == Err(CipherListOverrun) <==> at + n == |hs| && n % 2 == 1)
      && (Body(hs) == Err(CompressionLengthTruncated) <==> at + n == |hs| && n % 2 == 0)
      && (Body(hs) == Err(CompressionTruncated) <==> at + n < |hs| < at + n + 1 + hs[at + n])
      && (Body(hs).Client? <==> at + n < |hs| && at + n + 1 + hs[at + n] <= |hs|)
    ensures !ReachesCiphers(hs) ==> !Body(hs).Client?
    ensures !Body(hs).OtherHandshake? && Body(hs) != Err(RecordTooShort) && Body(hs) != Err(NotHandshake)
         && Body(hs) != Err(HandshakeTruncated)
  {
    hide Summary, ExtsAt, CiphersAt;
    if ReachesCiphers(hs) { assert BE16(hs, 35 + (hs[34] as int)) == CiphersLength(hs); }
  }

  /** An extension at the front, complete or cut off with the message. */
  lemma ExtInFront(hs: bytes, off: nat, e: Ext, rest: bytes)
    requires |e.data| < 0x1_0000 && off <= |hs|
    requires hs[off..] == PutBE16(e.kind) + PutBE16(|e.data|) + e.data + rest
    ensures off + 4 + |e.data| <= |hs| && hs[off + 4 + |e.data|..] == rest
    ensures ExtsAt(hs, off, |hs|) == [e] + ExtsAt(hs, off + 4 + |e.data|, |hs|)
  {
    hide BE16, PutBE16, ExtsAt;
    var n, w := |e.data|, hs[off..|hs|];
    assert w == hs[off..];
    assert w[0..2] == PutBE16(e.kind) && w[2..4] == PutBE16(n) && w[4..4 + n] == e.data && w[4 + n..|w|] == rest;
    SubSlice(hs, off, |hs|, 0, 2);
    SubSlice(hs, off, |hs|, 2, 4);
    SubSlice(hs, off, |hs|, 4, 4 + n);
    SubSlice(hs, off, |hs|, 4 + n, |w|);
    BE16Written(hs, off, e.kind);
    BE16Written(hs, off + 2, n);
    ExtsStep(hs, off, |hs|);
  }

  lemma CutInFront(hs: bytes, off: nat, kind: U16, len: nat, cut: bytes)
    requires |cut| <= len < 0x1_0000 && off <= |hs| && hs[off..] == PutBE16(kind) + PutBE16(len) + cut
    ensures ExtsAt(hs, off, |hs|) == [Entry(kind, cut)]
  {
    hide BE16, PutBE16, ExtsAt;
    var w := hs[off..|hs|];
    assert w == hs[off..];
    assert w[0..2] == PutBE16(kind) && w[2..4] == PutBE16(len) && w[4..|w|] == cut;
    SubSlice(hs, off, |hs|, 0, 2);
    SubSlice(hs, off, |hs|, 2, 4);
    SubSlice(hs, off, |hs|, 4, |w|);
    BE16Written(hs, off, kind);
    BE16Written(hs, off + 2, len);
    ExtsStep(hs, off, |hs|);
    ExtsEnd(hs, off + 4 + len, |hs|);
  }

  /** Extensions up to one whose data is cut off with the message: that one is read as far as it goes. */
  lemma {:induction false} CutExtension(hs: bytes, off: nat, exts: seq<Ext>, kind: U16, len: nat, cut: bytes)
    requires forall i :: 0 <= i < |exts| ==> |exts[i].data| < 0x1_0000
    requires |cut| <= len < 0x1_0000 && off <= |hs|
    requires hs[off..] == PutExts(exts) + (PutBE16(kind) + PutBE16(len) + cut)
    ensures ExtsAt(hs, off, |hs|) == exts + [Entry(kind, cut)]
    decreases |exts|
  {
    hide BE16, PutBE16;
    var last := PutBE16(kind) + PutBE16(len) + cut;
    hide ExtsAt;
    if exts == [] {
      assert hs[off..] == last && [] + [Entry(kind, cut)] == [Entry(kind, cut)];
      CutInFront(hs, off, kind, len, cut);
    } else {
      var e, rest := exts[0], PutExts(exts[1..]) + last;
      assert PutExts(exts) == PutBE16(e.kind) + PutBE16(|e.data|) + e.data + PutExts(exts[1..]);
      hide PutExts;
      assert hs[off..] == PutBE16(e.kind) + PutBE16(|e.data|) + e.data + rest;
      ExtInFront(hs, off, e, rest);
      CutExtension(hs, off + 4 + |e.data|, exts[1..], kind, len, cut);
      assert [e] + (exts[1..] + [Entry(kind, cut)]) == exts + [Entry(kind, cut)];
    }
  }

  /** Groups in a list that announces more than is there, or less: what lies in both is read, by pairs. */
  lemma GroupsCutOff(groups: seq<U16>, n: nat, rest: bytes)
    requires n < 0x1_0000 && 2 * |groups| <= n && (n < 2 * |groups| + 2 || |rest| < 2)
    ensures U16List(PutBE16(n) + PutU16s(groups) + rest) == groups
  {
    hide BE16, PutBE16, PutU16s, U16sAt, CiphersAt, U16List;
    var list := PutU16s(groups);
    var d := PutBE16(n) + list + rest;
    assert d[0..2] == PutBE16(n) && d[2..2 + 2 * |groups|] == list;
    BE16Written(d, 0, n);
    CiphersRead(d, 2, groups);
    U16ListOf(d, n);
    U16sStop(d, 2, |groups|, Min(2 + n, |d|));
  }

  lemma U16ListOf(d: bytes, n: nat)
    requires |d| >= 2 && BE16(d, 0) == n
    ensures U16List(d) == U16sAt(d, 2, Min(2 + n, |d|))
  {}

  /** Less than a pair behind the last value changes nothing. */
  lemma {:induction false} U16sStop(d: bytes, off: nat, count: nat, end: nat)
    requires off + 2 * count <= end <= |d| && end < off + 2 * count + 2
    ensures U16sAt(d, off, end) == U16sAt(d, off, off + 2 * count)
    decreases count
  {
    hide BE16;
    if count > 0 { U16sStop(d, off + 2, count - 1, end); }
  }

  lemma StringInFront(ss: seq<bytes>, cut: bytes, w: bytes)
    requires ss != [] && (forall i :: 0 <= i < |ss| ==> |ss[i]| < 256) && w == PutStrings(ss) + cut
    ensures var n := 1 + |ss[0]|;
      n <= |w| && w[0] == |ss[0]| && w[1..n] == ss[0] && w[n..|w|] == PutStrings(ss[1..]) + cut
  {
    var n, rest := 1 + |ss[0]|, PutStrings(ss[1..]) + cut;
    assert w == [|ss[0]|] + ss[0] + rest;
  }

  /** A list of protocol names ends in front of one that runs over its end. */
  lemma {:induction false} StringsCutOff(d: bytes, off: nat, ss: seq<bytes>, cut: bytes, end: nat)
    requires (forall i :: 0 <= i < |ss| ==> |ss[i]| < 256) && (cut == [] || 1 + cut[0] > |cut|)
    requires off <= end <= |d| && d[off..end] == PutStrings(ss) + cut
    ensures StringsAt(d, off, end) == ss
    decreases |ss|
  {
    var w := d[off..end];
    if ss == [] {
      assert w == cut;
      assert cut != [] ==> d[off] == w[0];
    } else {
      var n := 1 + |ss[0]|;
      StringInFront(ss, cut, w);
      SubSlice(d, off, end, 1, n);
      SubSlice(d, off, end, n, |w|);
      assert d[off] == w[0];
      hide PutStrings;
      StringsCutOff(d, off + n, ss[1..], cut, end);
    }
  }

  /** The same for the whole extension: what the announced length leaves, or the data. */
  lemma ProtocolsCutOff(names: seq<bytes>, n: nat, cut: bytes, more: bytes)
    requires (forall i :: 0 <= i < |names| ==> |names[i]| < 256) && (cut == [] || 1 + cut[0] > |cut|)
    requires n < 0x1_0000 && |PutStrings(names)| + |cut| <= n
    requires n == |PutStrings(names)| + |cut| || more == []
    ensures Protocols(PutBE16(n) + PutStrings(names) + cut + more) == names
  {
    hide PutStrings, StringsAt, PutBE16, BE16;
    var put := PutStrings(names);
    var d, end := PutBE16(n) + put + cut + more, 2 + |put| + |cut|;
    assert d[0..2] == PutBE16(n) && d[2..end] == put + cut;
    BE16Written(d, 0, n);
    StringsCutOff(d, 2, names, cut, end);
  }

  /** No host name in front, or one that is cut off, gives none. */
  lemma NoServerName(list: nat, kind: byte, n: nat, cut: bytes)
    requires list < 0x1_0000 && n < 0x1_0000 && (kind != 0 || |cut| < n)
    ensures ServerName(PutBE16(list) + [kind] + PutBE16(n) + cut) == []
    ensures forall d: bytes :: |d| < 5 ==> ServerName(d) == []
  {
    hide BE16, PutBE16;
    var d := PutBE16(list) + [kind] + PutBE16(n) + cut;
    assert d[3..5] == PutBE16(n);
    BE16Written(d, 3, n);
  }

  /** Point formats in a list that announces more than is there, or less. */
  lemma PointFormatsCutOff(n: byte, formats: bytes, more: bytes)
    requires |formats| == n || (|formats| < n && more == [])
    ensures U8List([n] + formats + more) == formats
  {
    var d := [n] + formats + more;
    assert d[1..1 + |formats|] == formats;
  }

  /** A handshake shorter than its record: the body ends where the handshake says, the record where it says. */
  lemma HandshakeInRecord(minor: byte, hs: bytes, more: bytes, tail: bytes)
    requires 4 + |hs| + |more| < 0x1_0000
    ensures Parsed([22, 3, minor] + PutBE16(4 + |hs| + |more|) + ([1] + PutBE24(|hs|) + hs + more) + tail) == Body(hs)
  {
    hide BE16, BE24, PutBE16, PutBE24, Body;
    var n := 4 + |hs| + |more|;
    var payload := [1] + PutBE24(|hs|) + hs + more;
    var data := [22, 3, minor] + PutBE16(n) + payload + tail;
    assert data[3..5] == PutBE16(n) && data[5..5 + n] == payload;
    BE16Written(data, 3, n);
    assert payload[1..4] == PutBE24(|hs|) && payload[4..4 + |hs|] == hs;
    BE24Written(payload, 1, |hs|);
  }

  /** What follows the extension block of a body is not looked at. */
  lemma BodyTail(h: Spec, tail: bytes)
    requires Legal(h) && h.exts.Some?
    ensures Body(PutBody(h) + tail) == Client(Summary(h.version, h.ciphers, h.exts.value))
  {
    hide BE16, PutBE16, PutU16s, PutExts, PutBody, Summary, CiphersAt, ExtsAt;
    var w, d, cs := PutBody(h), PutBody(h) + tail, 35 + |h.session|;
    var comp := cs + 2 + 2 * |h.ciphers|;
    var ext := comp + 1 + |h.compression|;
    BodyLayout(h);
    assert d[0..2] == w[0..2] && d[34] == w[34] && d[cs..cs + 2] == w[cs..cs + 2];
    assert d[cs + 2..comp] == w[cs + 2..comp] && d[comp] == w[comp] && d[ext..ext + 2] == w[ext..ext + 2];
    assert d[ext + 2..|w|] == w[ext + 2..];
    BE16Written(d, 0, h.version);
    BE16Written(d, cs, 2 * |h.ciphers|);
    CiphersRead(d, cs + 2, h.ciphers);
    BE16Written(d, ext, |PutExts(h.exts.value)|);
    ExtsRead(d, ext + 2, h.exts.value, |w|);
  }
}
