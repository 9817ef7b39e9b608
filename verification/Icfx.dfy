/** The .icfx container format: layout, framing parser and header stripping. */
module Icfx {
  import opened Wrappers
  import opened Bytes

  const MAGIC := Ascii("ICFX")
  const HEADER_PREFIX_LEN := 7
  const MAX_INT64 := 0x7fff_ffff_ffff_ffff

  // ----- profiles -----

  type Profile = Byte

  const LEGACY_PUBLIC_BUFFERED: Profile := 1
  const LEGACY_PRIVATE_BUFFERED: Profile := 2
  const LEGACY_PRIVATE_STREAMING: Profile := 3
  const LEGACY_PUBLIC_STREAMING: Profile := 4
  const PRIVATE: Profile := 5
  const PUBLIC: Profile := 6

  predicate Legacy(p: Profile) { p in {1, 2, 3, 4} }
  predicate Known(p: Profile) { Legacy(p) || p == PRIVATE || p == PUBLIC }
  predicate HasHeader(p: Profile) { p in {LEGACY_PUBLIC_BUFFERED, LEGACY_PUBLIC_STREAMING, PUBLIC} }
  predicate Streaming(p: Profile) { p in {LEGACY_PRIVATE_STREAMING, LEGACY_PUBLIC_STREAMING, PRIVATE, PUBLIC} }
  predicate SealsMetadata(p: Profile) { p in {LEGACY_PRIVATE_BUFFERED, LEGACY_PRIVATE_STREAMING, PRIVATE, PUBLIC} }

  /** The profiles: which are known, legacy, public, streamed, and seal their metadata. */
  lemma ProfileTable(p: Profile)
    ensures Known(p) <==> 1 <= p <= 6
    ensures Legacy(p) <==> 1 <= p <= 4
    ensures Streaming(p) <==> 3 <= p <= 6
    ensures HasHeader(p) <==> p == 1 || p == 4 || p == 6
    ensures SealsMetadata(p) <==> Known(p) && p != 1 && p != 4
  {
  }

  datatype Metadata = Metadata(senderFP: Bytes, timestamp: int, filename: Bytes, isSigned: bool)

  /** json.Marshal and json.Unmarshal of Metadata. */
  datatype Json = Json(marshal: Metadata -> Option<Bytes>, unmarshal: Bytes -> Option<Metadata>)

  ghost predicate Faithful(json: Json) {
    forall m :: json.marshal(m).Some? ==> json.unmarshal(json.marshal(m).value) == Some(m)
  }

  datatype FormatError = ShortRead | InvalidMagic | UnsupportedProfile | BadMetadata | InvalidFormat

  datatype Result<+T> = Ok(value: T) | Err(error: FormatError)

  // ----- layout -----

  function Prefix(p: Profile, headerLen: nat): Bytes {
    MAGIC + [p] + BigEndian(headerLen, 2)
  }

  /** magic | profile | headerLen(u16) | header | payloadLen(u64) | payload |
      sigLen(u16) | sig */
  function Wire(p: Profile, header: Bytes, payload: Bytes, sig: Bytes): Bytes {
    Prefix(p, |header|) + header + BigEndian(|payload|, 8) + payload + BigEndian(|sig|, 2) + sig
  }

  /** ParseHeaderPrefix */
  function ParseHeaderPrefix(head: Bytes): (r: Result<(Profile, nat)>)
    ensures r.Ok? ==> r.value.1 < 0x1_0000 && Known(r.value.0) && HEADER_PREFIX_LEN <= |head|
  {
    if |head| < HEADER_PREFIX_LEN then Err(InvalidFormat)
    else if head[..4] != MAGIC then Err(InvalidMagic)
    else if !Known(head[4]) then Err(UnsupportedProfile)
    else
      FromBigEndianRoundTrip(head[5..7]);
      Ok((head[4], FromBigEndian(head[5..7])))
  }

  lemma PrefixParses(head: Bytes, p: Profile, n: nat)
    requires n < 0x1_0000
    ensures |head| >= HEADER_PREFIX_LEN && head[..HEADER_PREFIX_LEN] == Prefix(p, n) && Known(p)
            <==> ParseHeaderPrefix(head) == Ok((p, n))
  {
    BigEndianRoundTrip(n, 2);
    if |head| >= HEADER_PREFIX_LEN {
      FromBigEndianRoundTrip(head[5..7]);
      assert head[..7] == head[..4] + [head[4]] + head[5..7];
      if head[..7] == Prefix(p, n) {
        assert head[..4] == head[..7][..4] == MAGIC;
        assert head[5..7] == head[..7][5..7] == BigEndian(n, 2);
      }
    }
  }

  datatype StreamHeader = StreamHeader(profile: Profile, isPrivate: bool, meta: Option<Metadata>, raw: Bytes,
                                       payloadStart: nat, payloadLen: nat, signature: Bytes)

  /** The wire's uint64 reinterpreted as an int64. */
  function ToInt64(v: nat): int {
    if v <= MAX_INT64 then v else v - 0x1_0000_0000_0000_0000
  }

  lemma ToInt64Exact(v: nat)
    requires v < 0x1_0000_0000_0000_0000
    ensures -0x8000_0000_0000_0000 <= ToInt64(v) < 0x8000_0000_0000_0000
    ensures (v - ToInt64(v)) % 0x1_0000_0000_0000_0000 == 0
  {
  }

  /** ParseStreamHeader, on the whole stream at once. */
  function Parse(json: Json, data: Bytes): Result<StreamHeader> {
    if |data| < HEADER_PREFIX_LEN then Err(ShortRead)
    else
      var pre := ParseHeaderPrefix(data[..HEADER_PREFIX_LEN]);
      if pre.Err? then Err(pre.error)
      else if !Streaming(pre.value.0) then Err(UnsupportedProfile)
      else
        var (p, n) := pre.value;
        if |data| < HEADER_PREFIX_LEN + n then Err(ShortRead)
        else
          var raw := data[HEADER_PREFIX_LEN..HEADER_PREFIX_LEN + n];
          if n > 0 && json.unmarshal(raw).None? then Err(BadMetadata)
          else ParseTail(p, if n > 0 then json.unmarshal(raw) else None, raw, data)
  }

  /** The payload length, its guard, and the signature behind the payload. */
  function ParseTail(p: Profile, meta: Option<Metadata>, raw: Bytes, data: Bytes): Result<StreamHeader>
    requires HEADER_PREFIX_LEN + |raw| <= |data|
  {
    var at := HEADER_PREFIX_LEN + |raw|;
    var start := at + 8;
    if |data| < start then Err(ShortRead)
    else
      var len := ToInt64(FromBigEndian(data[at..start]));
      if len < 0 || len > MAX_INT64 - start - 2 then Err(InvalidFormat)
      else if |data| < start + len + 2 then Err(ShortRead)
      else
        var sigLen := FromBigEndian(data[start + len..start + len + 2]);
        if |data| < start + len + 2 + sigLen then Err(ShortRead)
        else Ok(StreamHeader(p, raw == [], meta, raw, start, len, data[start + len + 2..start + len + 2 + sigLen]))
  }

  function PayloadOf(data: Bytes, sh: StreamHeader): Bytes
    requires sh.payloadStart + sh.payloadLen <= |data|
  {
    data[sh.payloadStart..sh.payloadStart + sh.payloadLen]
  }

  /** The payload offset and everything after it stay within an int64: the guard
      on the attacker-controlled length is exact. */
  lemma LengthGuardExact(v: nat, start: nat)
    requires v < 0x1_0000_0000_0000_0000 && start <= HEADER_PREFIX_LEN + 0xffff + 8
    ensures !(ToInt64(v) < 0 || ToInt64(v) > MAX_INT64 - start - 2) <==> start + v + 2 <= MAX_INT64
  {
  }

  /** A stream is laid out as a container whose fields are those of sh, possibly
      with bytes left over at the end. */
  ghost predicate LaidOut(json: Json, data: Bytes, sh: StreamHeader, payload: Bytes, rest: Bytes) {
    && data == Wire(sh.profile, sh.raw, payload, sh.signature) + rest
    && Known(sh.profile) && Streaming(sh.profile)
    && |sh.raw| < 0x1_0000 && |sh.signature| < 0x1_0000
    && sh.payloadStart == HEADER_PREFIX_LEN + |sh.raw| + 8 && sh.payloadLen == |payload|
    && sh.payloadStart + sh.payloadLen + 2 <= MAX_INT64
    && sh.isPrivate == (sh.raw == [])
    && sh.meta == (if sh.raw == [] then None else json.unmarshal(sh.raw))
    && (sh.raw != [] ==> sh.meta.Some?)
  }

  lemma WireSlices(p: Profile, header: Bytes, payload: Bytes, sig: Bytes, rest: Bytes)
    ensures var data := Wire(p, header, payload, sig) + rest;
            var at := HEADER_PREFIX_LEN + |header|;
            var end := at + 8 + |payload|;
            && |data| == end + 2 + |sig| + |rest|
            && data[..HEADER_PREFIX_LEN] == Prefix(p, |header|)
            && data[HEADER_PREFIX_LEN..at] == header
            && data[at..at + 8] == BigEndian(|payload|, 8)
            && data[at + 8..end] == payload
            && data[end..end + 2] == BigEndian(|sig|, 2)
            && data[end + 2..end + 2 + |sig|] == sig
  {
  }

  lemma TailComplete(p: Profile, meta: Option<Metadata>, raw: Bytes, data: Bytes, payload: Bytes, sig: Bytes)
    requires var at := HEADER_PREFIX_LEN + |raw|;
             var end := at + 8 + |payload|;
             && end + 2 + |sig| <= |data| && end + 2 <= MAX_INT64 && |sig| < 0x1_0000
             && data[at..at + 8] == BigEndian(|payload|, 8)
             && data[end..end + 2] == BigEndian(|sig|, 2)
             && data[end + 2..end + 2 + |sig|] == sig
    ensures ParseTail(p, meta, raw, data) ==
            Ok(StreamHeader(p, raw == [], meta, raw, HEADER_PREFIX_LEN + |raw| + 8, |payload|, sig))
  {
    BigEndianRoundTrip(|payload|, 8);
    BigEndianRoundTrip(|sig|, 2);
  }

  /** Parsing is complete: every container that fits int64 offsets parses to its
      fields, whatever follows it. */
  lemma ParseComplete(json: Json, data: Bytes, sh: StreamHeader, payload: Bytes, rest: Bytes)
    requires LaidOut(json, data, sh, payload, rest)
    ensures Parse(json, data) == Ok(sh)
    ensures sh.payloadStart + sh.payloadLen <= |data| && PayloadOf(data, sh) == payload
  {
    WireSlices(sh.profile, sh.raw, payload, sh.signature, rest);
    PrefixParses(data[..HEADER_PREFIX_LEN], sh.profile, |sh.raw|);
    TailComplete(sh.profile, sh.meta, sh.raw, data, payload, sh.signature);
  }

  /** What the parser checked, offset by offset. */
  lemma TailFacts(p: Profile, meta: Option<Metadata>, raw: Bytes, data: Bytes, sh: StreamHeader)
    requires HEADER_PREFIX_LEN + |raw| <= |data| && ParseTail(p, meta, raw, data) == Ok(sh)
    ensures sh.profile == p && sh.meta == meta && sh.raw == raw && sh.isPrivate == (raw == [])
    ensures var at := HEADER_PREFIX_LEN + |raw|;
            var end := sh.payloadStart + sh.payloadLen;
            && sh.payloadStart == at + 8 && end + 2 + |sh.signature| <= |data| && end + 2 <= MAX_INT64
            && data[at..sh.payloadStart] == BigEndian(sh.payloadLen, 8)
            && data[end..end + 2] == BigEndian(|sh.signature|, 2) && |sh.signature| < 0x1_0000
            && data[end + 2..end + 2 + |sh.signature|] == sh.signature
  {
    var at, start := HEADER_PREFIX_LEN + |raw|, sh.payloadStart;
    var end := start + sh.payloadLen;
    FromBigEndianRoundTrip(data[at..start]);
    FromBigEndianRoundTrip(data[end..end + 2]);
  }

  lemma HeadFacts(json: Json, data: Bytes, sh: StreamHeader)
    requires Parse(json, data) == Ok(sh)
    ensures |sh.raw| < 0x1_0000 && HEADER_PREFIX_LEN + |sh.raw| <= |data| && Known(sh.profile) && Streaming(sh.profile)
    ensures data[..HEADER_PREFIX_LEN] == Prefix(sh.profile, |sh.raw|)
    ensures data[HEADER_PREFIX_LEN..HEADER_PREFIX_LEN + |sh.raw|] == sh.raw
    ensures sh.meta == (if sh.raw == [] then None else json.unmarshal(sh.raw)) && (sh.raw != [] ==> sh.meta.Some?)
    ensures ParseTail(sh.profile, sh.meta, sh.raw, data) == Ok(sh)
  {
    PrefixParses(data[..HEADER_PREFIX_LEN], sh.profile, |sh.raw|);
  }

  /** Each field stands where the parser found it. */
  ghost predicate Framed(json: Json, data: Bytes, sh: StreamHeader) {
    var at := HEADER_PREFIX_LEN + |sh.raw|;
    var end := sh.payloadStart + sh.payloadLen;
    && |sh.raw| < 0x1_0000 && Known(sh.profile) && Streaming(sh.profile) && |sh.signature| < 0x1_0000
    && sh.payloadStart == at + 8 && end + 2 + |sh.signature| <= |data| && end + 2 <= MAX_INT64
    && data[..HEADER_PREFIX_LEN] == Prefix(sh.profile, |sh.raw|)
    && data[HEADER_PREFIX_LEN..at] == sh.raw
    && data[at..sh.payloadStart] == BigEndian(sh.payloadLen, 8)
    && data[end..end + 2] == BigEndian(|sh.signature|, 2)
    && data[end + 2..end + 2 + |sh.signature|] == sh.signature
    && sh.isPrivate == (sh.raw == [])
    && sh.meta == (if sh.raw == [] then None else json.unmarshal(sh.raw)) && (sh.raw != [] ==> sh.meta.Some?)
  }

  lemma ParseFramed(json: Json, data: Bytes, sh: StreamHeader)
    requires Parse(json, data) == Ok(sh)
    ensures Framed(json, data, sh)
  {
    HeadFacts(json, data, sh);
    TailFacts(sh.profile, sh.meta, sh.raw, data, sh);
  }

  /** Parsing is sound: what parses is laid out as its fields say. */
  lemma ParseSound(json: Json, data: Bytes, sh: StreamHeader) returns (payload: Bytes, rest: Bytes)
    requires Parse(json, data) == Ok(sh)
    ensures sh.payloadStart + sh.payloadLen <= |data| && payload == PayloadOf(data, sh)
    ensures LaidOut(json, data, sh, payload, rest)
  {
    ParseFramed(json, data, sh);
    payload, rest := PayloadOf(data, sh), data[sh.payloadStart + sh.payloadLen + 2 + |sh.signature|..];
  }

  // ----- reading a stream -----

  /** An io.ReadSeeker over a file. */
  class Reader {
    const data: Bytes
    var pos: nat

    constructor (data: Bytes)
      ensures this.data == data && pos == 0
    {
      this.data, pos := data, 0;
    }

    method ReadFull(n: nat) returns (ok: bool, b: Bytes)
      modifies this`pos
      ensures ok == (old(pos) + n <= |data|)
      ensures ok ==> b == data[old(pos)..old(pos) + n] && pos == old(pos) + n
    {
      ok := pos + n <= |data|;
      b := [];
      if ok {
        b := data[pos..pos + n];
        pos := pos + n;
      }
    }
  }

  /** ParseStreamHeader: reads the framing piece by piece, seeking over the
      payload. */
  method ParseStreamHeader(json: Json, r: Reader) returns (res: Result<StreamHeader>)
    requires r.pos == 0
    modifies r`pos
    ensures res == Parse(json, r.data)
  {
    var ok, head := r.ReadFull(HEADER_PREFIX_LEN);
    if !ok { return Err(ShortRead); }
    var pre := ParseHeaderPrefix(head);
    if pre.Err? { return Err(pre.error); }
    var (p, n) := pre.value;
    if !Streaming(p) { return Err(UnsupportedProfile); }
    var raw: Bytes := [];
    var meta := None;
    if n > 0 {
      ok, raw := r.ReadFull(n);
      if !ok { return Err(ShortRead); }
      meta := json.unmarshal(raw);
      if meta.None? { return Err(BadMetadata); }
    }
    var plbuf;
    ok, plbuf := r.ReadFull(8);
    assert raw == r.data[HEADER_PREFIX_LEN..HEADER_PREFIX_LEN + n];
    if !ok { return Err(ShortRead); }
    var start := HEADER_PREFIX_LEN + n + 8;
    var len := ToInt64(FromBigEndian(plbuf));
    if len < 0 || len > MAX_INT64 - start - 2 { return Err(InvalidFormat); }
    r.pos := start + len;
    var slbuf;
    ok, slbuf := r.ReadFull(2);
    if !ok { return Err(ShortRead); }
    var sig: Bytes := [];
    var sigLen := FromBigEndian(slbuf);
    if sigLen > 0 {
      ok, sig := r.ReadFull(sigLen);
      if !ok { return Err(ShortRead); }
    }
    assert sig == r.data[start + len + 2..start + len + 2 + sigLen];
    res := Ok(StreamHeader(p, n == 0, meta, raw, start, len, sig));
  }

  // ----- header stripping -----

  /** ZeroMetaLen */
  method ZeroMetaLen(head: array<Byte>)
    requires head.Length >= HEADER_PREFIX_LEN
    modifies head
    ensures head[..] == old(head[..5]) + BigEndian(0, 2) + old(head[7..])
  {
    head[5] := 0;
    head[6] := 0;
    assert Digit(0, 0) == 0 && Digit(0, 1) == 0;
    assert BigEndian(0, 2) == [0, 0];
  }

  /** The stream SendEncryptedProgress uploads, and the size it declares. */
  function Strip(data: Bytes): Result<(Bytes, int)> {
    if |data| < HEADER_PREFIX_LEN then Err(ShortRead)
    else
      var pre := ParseHeaderPrefix(data[..HEADER_PREFIX_LEN]);
      if pre.Err? then Err(pre.error)
      else
        var (p, n) := pre.value;
        var tail := HEADER_PREFIX_LEN + n;
        Ok((Prefix(p, 0) + (if tail <= |data| then data[tail..] else []), |data| - n))
  }

  /** The strip as it is carried out: read the prefix, seek past the metadata,
      overwrite the length field, concatenate. */
  method StripHeader(r: Reader) returns (res: Result<(Bytes, int)>)
    requires r.pos == 0
    modifies r`pos
    ensures res == Strip(r.data)
  {
    var ok, head := r.ReadFull(HEADER_PREFIX_LEN);
    if !ok { return Err(ShortRead); }
    var pre := ParseHeaderPrefix(head);
    if pre.Err? { return Err(pre.error); }
    var (p, n) := pre.value;
    r.pos := HEADER_PREFIX_LEN + n;
    var buf := new Byte[HEADER_PREFIX_LEN](i requires 0 <= i < HEADER_PREFIX_LEN => head[i]);
    assert buf[..] == head;
    PrefixParses(head, p, n);
    assert head[..HEADER_PREFIX_LEN] == head;
    ZeroMetaLen(buf);
    assert head[..5] == MAGIC + [p] by { assert head[..5] == Prefix(p, n)[..5]; }
    assert buf[..] == Prefix(p, 0);
    var body := buf[..] + (if r.pos <= |r.data| then r.data[r.pos..] else []);
    res := Ok((body, |r.data| - n));
  }

  /** The declared size is the uploaded size exactly when the header block is all
      there. */
  lemma StripSizeExact(data: Bytes)
    requires Strip(data).Ok?
    ensures var (body, size) := Strip(data).value;
            |body| == size <==> HEADER_PREFIX_LEN + ParseHeaderPrefix(data[..HEADER_PREFIX_LEN]).value.1 <= |data|
  {
  }

  /** A file cut anywhere inside its header block is still accepted, and its declared size is
      short of the stream by as much as is missing. */
  lemma TruncatedSizeWrong(p: Profile, n: nat, header: Bytes)
    requires Known(p) && n < 0x1_0000 && |header| < n
    ensures var data := Prefix(p, n) + header;
      Strip(data) == Ok((Prefix(p, 0), HEADER_PREFIX_LEN + |header| - n)) && |Prefix(p, 0)| == HEADER_PREFIX_LEN
  {
    var data := Prefix(p, n) + header;
    assert data[..HEADER_PREFIX_LEN] == Prefix(p, n);
    PrefixParses(Prefix(p, n), p, n);
    assert Prefix(p, n)[..HEADER_PREFIX_LEN] == Prefix(p, n);
    assert Prefix(p, 0) + [] == Prefix(p, 0);
  }

  lemma StripWire(p: Profile, header: Bytes, payload: Bytes, sig: Bytes, rest: Bytes)
    requires |header| < 0x1_0000 && Known(p)
    ensures var data := Wire(p, header, payload, sig) + rest;
            Strip(data) == Ok((Wire(p, [], payload, sig) + rest, |data| - |header|))
  {
    var data := Wire(p, header, payload, sig) + rest;
    var tail := BigEndian(|payload|, 8) + payload + BigEndian(|sig|, 2) + sig + rest;
    assert data == Prefix(p, |header|) + header + tail;
    assert data[..HEADER_PREFIX_LEN] == Prefix(p, |header|);
    PrefixParses(data[..HEADER_PREFIX_LEN], p, |header|);
    assert data[HEADER_PREFIX_LEN + |header|..] == tail;
    assert Prefix(p, 0) + tail == Wire(p, [], payload, sig) + rest;
  }

  function Bare(sh: StreamHeader): StreamHeader {
    StreamHeader(sh.profile, true, None, [], HEADER_PREFIX_LEN + 8, sh.payloadLen, sh.signature)
  }

  /** Stripping a container drops its header block and nothing else. */
  lemma StripKeepsContainer(json: Json, data: Bytes, sh: StreamHeader)
    requires Parse(json, data) == Ok(sh)
    ensures Strip(data).Ok? && |Strip(data).value.0| == Strip(data).value.1
    ensures var body := Strip(data).value.0;
            Parse(json, body) == Ok(Bare(sh))
            && HEADER_PREFIX_LEN + 8 + sh.payloadLen <= |body| && sh.payloadStart + sh.payloadLen <= |data|
            && PayloadOf(body, Bare(sh)) == PayloadOf(data, sh)
  {
    var payload, rest := ParseSound(json, data, sh);
    StripWire(sh.profile, sh.raw, payload, sh.signature, rest);
    var body := Wire(sh.profile, [], payload, sh.signature) + rest;
    ParseComplete(json, body, Bare(sh), payload, rest);
  }

  /** Stripping twice equals stripping once. */
  lemma StripIdempotent(data: Bytes)
    requires Strip(data).Ok?
    ensures Strip(Strip(data).value.0) == Ok((Strip(data).value.0, |Strip(data).value.0|))
  {
    var body := Strip(data).value.0;
    var p := ParseHeaderPrefix(data[..HEADER_PREFIX_LEN]).value.0;
    assert body[..HEADER_PREFIX_LEN] == Prefix(p, 0);
    PrefixParses(body[..HEADER_PREFIX_LEN], p, 0);
    assert body == Prefix(p, 0) + body[HEADER_PREFIX_LEN..];
  }

  // ----- legacy buffered containers -----

  datatype Container = Container(profile: Profile, metadata: Option<Metadata>, payload: Bytes, signature: Bytes)

  /** Deserialize: magic | profile | metaLen(u16) | meta | payloadLen(u32) |
      payload | sigLen(u16) | sig */
  function Deserialize(json: Json, data: Bytes): Result<Container> {
    if |data| < HEADER_PREFIX_LEN then Err(InvalidFormat)
    else if data[..4] != MAGIC then Err(InvalidMagic)
    else if !Legacy(data[4]) || Streaming(data[4]) then Err(UnsupportedProfile)
    else
      var n := FromBigEndian(data[5..7]);
      var at := HEADER_PREFIX_LEN + n;
      if |data| < at + 4 then Err(InvalidFormat)
      else
        var raw := data[HEADER_PREFIX_LEN..at];
        if n > 0 && json.unmarshal(raw).None? then Err(BadMetadata)
        else
          var start := at + 4;
          var len := FromBigEndian(data[at..start]);
          if |data| - start < len + 2 then Err(InvalidFormat)
          else
            var end := start + len;
            var sigLen := FromBigEndian(data[end..end + 2]);
            if sigLen > 0 && |data| < end + 2 + sigLen then Err(InvalidFormat)
            else Ok(Container(data[4], if n > 0 then json.unmarshal(raw) else None, data[start..end],
                              data[end + 2..end + 2 + sigLen]))
  }

  /** Its layout. */
  function LegacyWire(p: Profile, header: Bytes, payload: Bytes, sig: Bytes): Bytes {
    Prefix(p, |header|) + (header + (BigEndian(|payload|, 4) + (payload + (BigEndian(|sig|, 2) + sig))))
  }

  predicate Buffered(p: Profile) { p == LEGACY_PUBLIC_BUFFERED || p == LEGACY_PRIVATE_BUFFERED }

  /** c is laid out as data, with `rest` behind it; an empty header stands for no metadata. */
  predicate LegacyLaidOut(json: Json, data: Bytes, c: Container, header: Bytes, rest: Bytes) {
    && Buffered(c.profile) && |header| < 0x1_0000 && |c.payload| < 0x1_0000_0000 && |c.signature| < 0x1_0000
    && data == LegacyWire(c.profile, header, c.payload, c.signature) + rest
    && (if header == [] then c.metadata.None? else c.metadata.Some? && json.unmarshal(header) == c.metadata)
  }

  /** The fields of such a layout, where they stand. */
  lemma LegacySlices(p: Profile, header: Bytes, payload: Bytes, sig: Bytes, rest: Bytes)
    ensures var data := LegacyWire(p, header, payload, sig) + rest;
      var at := HEADER_PREFIX_LEN + |header|;
      var start, end := at + 4, at + 4 + |payload|;
      && |data| == end + 2 + |sig| + |rest|
      && data[..4] == MAGIC && data[4] == p && data[5..7] == BigEndian(|header|, 2)
      && data[HEADER_PREFIX_LEN..at] == header && data[at..start] == BigEndian(|payload|, 4)
      && data[start..end] == payload && data[end..end + 2] == BigEndian(|sig|, 2)
      && data[end + 2..end + 2 + |sig|] == sig
  {
  }

  /** What is so laid out is read back. */
  lemma DeserializeComplete(json: Json, data: Bytes, c: Container, header: Bytes, rest: Bytes)
    requires LegacyLaidOut(json, data, c, header, rest)
    ensures Deserialize(json, data) == Ok(c)
  {
    LegacySlices(c.profile, header, c.payload, c.signature, rest);
    BigEndianRoundTrip(|header|, 2);
    BigEndianRoundTrip(|c.payload|, 4);
    BigEndianRoundTrip(|c.signature|, 2);
  }

  /** What is read was so laid out. */
  lemma DeserializeSound(json: Json, data: Bytes) returns (header: Bytes, rest: Bytes)
    requires Deserialize(json, data).Ok?
    ensures LegacyLaidOut(json, data, Deserialize(json, data).value, header, rest)
  {
    var c := Deserialize(json, data).value;
    var at := HEADER_PREFIX_LEN + FromBigEndian(data[5..7]);
    var end := at + 4 + |c.payload|;
    header, rest := data[HEADER_PREFIX_LEN..at], data[end + 2 + |c.signature|..];
    FromBigEndianRoundTrip(data[5..7]);
    FromBigEndianRoundTrip(data[at..at + 4]);
    FromBigEndianRoundTrip(data[end..end + 2]);
    assert data[..4] + [data[4]] + data[5..7] == data[..HEADER_PREFIX_LEN];
    assert data == data[..HEADER_PREFIX_LEN]
                   + (header + (data[at..at + 4] + (c.payload + (data[end..end + 2] + c.signature)))) + rest;
  }

  // ----- refusals -----

  /** Header length, payload length and signature length, where a stream would have them. */
  function HeaderLen(data: Bytes): nat
    requires |data| >= 7
  {
    FromBigEndian(data[5..7])
  }

  function WireLen(data: Bytes): nat
    requires |data| >= 7 && |data| >= 15 + HeaderLen(data)
  {
    FromBigEndian(data[7 + HeaderLen(data)..15 + HeaderLen(data)])
  }

  /** The stream ends before the end that its length fields give it. */
  predicate CutShort(data: Bytes) {
    || |data| < 7 || |data| < 15 + HeaderLen(data)
    || |data| < 17 + HeaderLen(data) + WireLen(data)
    || var end := 15 + HeaderLen(data) + WireLen(data); |data| < end + 2 + FromBigEndian(data[end..end + 2])
  }

  /** A stream found too short is. */
  lemma ShortReadIsCutShort(json: Json, data: Bytes)
    requires Parse(json, data) == Err(ShortRead)
    ensures CutShort(data)
  {
    if |data| >= 7 {
      assert data[..7][5..7] == data[5..7];
      FromBigEndianRoundTrip(data[5..7]);
      if |data| >= 15 + HeaderLen(data) {
        FromBigEndianRoundTrip(data[7 + HeaderLen(data)..15 + HeaderLen(data)]);
        LengthGuardExact(WireLen(data), 15 + HeaderLen(data));
      }
    }
  }

  /** Why a stream is refused. */
  lemma ParseRefusals(json: Json, data: Bytes)
    requires Parse(json, data).Err?
    ensures !Parse(json, data).error.ShortRead? ==> |data| >= 7
    ensures |data| >= 7 ==>
      match Parse(json, data).error
      case InvalidMagic => data[..4] != MAGIC
      case UnsupportedProfile => data[..4] == MAGIC && !(3 <= data[4] <= 6)
      case BadMetadata => data[..4] == MAGIC && 3 <= data[4] <= 6 && 7 < 7 + HeaderLen(data) <= |data|
                          && json.unmarshal(data[7..7 + HeaderLen(data)]).None?
      case InvalidFormat => data[..4] == MAGIC && 3 <= data[4] <= 6 && |data| >= 15 + HeaderLen(data)
                            && 15 + HeaderLen(data) + WireLen(data) + 2 > MAX_INT64
      case ShortRead =>
        && data[..4] == MAGIC && 3 <= data[4] <= 6
        && (7 < 7 + HeaderLen(data) <= |data| ==> json.unmarshal(data[7..7 + HeaderLen(data)]).Some?)
        && (|data| >= 15 + HeaderLen(data) ==> 15 + HeaderLen(data) + WireLen(data) + 2 <= MAX_INT64)
  {
    if |data| >= 7 {
      var head := data[..7];
      assert head[..4] == data[..4] && head[4] == data[4] && head[5..7] == data[5..7];
      FromBigEndianRoundTrip(data[5..7]);
      ProfileTable(data[4]);
      if |data| >= 15 + HeaderLen(data) {
        FromBigEndianRoundTrip(data[7 + HeaderLen(data)..15 + HeaderLen(data)]);
        LengthGuardExact(WireLen(data), 15 + HeaderLen(data));
      }
    }
  }

  /** Why a buffered container is refused. */
  lemma DeserializeRefusals(json: Json, data: Bytes)
    requires Deserialize(json, data).Err?
    ensures match Deserialize(json, data).error
            case InvalidMagic => |data| >= 7 && data[..4] != MAGIC
            case UnsupportedProfile => |data| >= 7 && data[..4] == MAGIC && !Buffered(data[4])
            case BadMetadata => |data| >= 11 + HeaderLen(data) > 11 && data[..4] == MAGIC && Buffered(data[4])
                                && json.unmarshal(data[7..7 + HeaderLen(data)]).None?
            case InvalidFormat => |data| < 7 || (data[..4] == MAGIC && Buffered(data[4]))
            case ShortRead => false
  {
    if |data| >= 7 {
      ProfileTable(data[4]);
    }
  }

  // ----- the sealed metadata -----

  /** EncodePayload: uint16 length, metadata, file bytes. */
  function EncodePayload(raw: Bytes, file: Bytes): Bytes { BigEndian(|raw|, 2) + raw + file }

  /** DecodePayload and readInnerMeta: the metadata, its raw bytes, the file. */
  function DecodePayload(json: Json, plain: Bytes): Option<(Metadata, Bytes, Bytes)> {
    if |plain| < 2 then None
    else
      var n := FromBigEndian(plain[..2]);
      if |plain| < 2 + n then None
      else
        var raw := plain[2..2 + n];
        if json.unmarshal(raw).None? then None else Some((json.unmarshal(raw).value, raw, plain[2 + n..]))
  }

  lemma PayloadRoundTrip(json: Json, m: Metadata, file: Bytes)
    requires Faithful(json) && json.marshal(m).Some? && |json.marshal(m).value| < 0x1_0000
    ensures DecodePayload(json, EncodePayload(json.marshal(m).value, file)) == Some((m, json.marshal(m).value, file))
  {
    var raw := json.marshal(m).value;
    var plain := EncodePayload(raw, file);
    BigEndianRoundTrip(|raw|, 2);
    assert plain[..2] == BigEndian(|raw|, 2);
    assert plain[2..2 + |raw|] == raw;
    assert plain[2 + |raw|..] == file;
  }

  /** A payload opens to metadata and file exactly when it is laid out as their encoding. */
  lemma PayloadExact(json: Json, plain: Bytes, m: Metadata, raw: Bytes, file: Bytes)
    ensures DecodePayload(json, plain) == Some((m, raw, file)) <==>
              |raw| < 0x1_0000 && plain == BigEndian(|raw|, 2) + raw + file && json.unmarshal(raw) == Some(m)
  {
    if |plain| >= 2 { FromBigEndianRoundTrip(plain[..2]); }
    if |raw| < 0x1_0000 && plain == EncodePayload(raw, file) {
      BigEndianRoundTrip(|raw|, 2);
      assert plain[..2] == BigEndian(|raw|, 2);
      assert plain[2..2 + |raw|] == raw && plain[2 + |raw|..] == file;
    }
    if DecodePayload(json, plain) == Some((m, raw, file)) {
      assert plain == plain[..2] + plain[2..2 + |raw|] + plain[2 + |raw|..];
    }
  }
}
