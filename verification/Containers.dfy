/** Writing and reading .icfx containers: EncryptStream, DecryptAndVerifyStream and
    what sharing's header strip does to the verdict. */
module Containers {
  import opened Wrappers
  import opened Bytes
  import opened SignedMessages
  import opened Icfx
  import opened Verdict
  import opened Continuity

  /** Everything the container code calls into. `consumed` is how many payload
      bytes age reads before it reaches its final chunk. */
  datatype Suite = Suite(
    json: Json,
    crypto: Crypto,
    seal: (set<nat>, nat, Bytes) -> Bytes,      // recipients, coins, plaintext
    open: (nat, Bytes) -> Option<Bytes>,        // key, payload
    consumed: (nat, Bytes) -> nat,
    digest: Bytes -> Bytes,
    sign: (nat, Bytes) -> Bytes)                // secret, message

  datatype Signer = Signer(fp: Bytes, secret: nat)

  /** JSON and age give back what was put in. */
  ghost predicate Sound(s: Suite) {
    && Faithful(s.json)
    && forall rs, coins, p, k :: k in rs ==> s.open(k, s.seal(rs, coins, p)) == Some(p)
  }

  /** pub is the signer's public key: it accepts whatever the signer signs. */
  ghost predicate KeyPair(s: Suite, signer: Signer, pub: Bytes) {
    forall m :: s.sign(signer.secret, m) != [] && s.crypto.verify(m, s.sign(signer.secret, m), pub)
  }

  // ----- writing -----

  /** The metadata EncryptStream seals: a signed container names its signer. */
  function SealedMeta(meta: Metadata, signer: Option<Signer>): Option<Metadata> {
    if !meta.isSigned then Some(meta)
    else if signer.None? || !ValidFingerprint(signer.value.fp) then None
    else if meta.senderFP == [] then Some(meta.(senderFP := signer.value.fp))
    else if meta.senderFP == signer.value.fp then Some(meta)
    else None
  }

  function SealPayload(s: Suite, raw: Bytes, plaintext: Bytes, rs: set<nat>, coins: nat): Bytes {
    s.seal(rs, coins, EncodePayload(raw, plaintext))
  }

  function SignPayload(s: Suite, signed: bool, signer: Option<Signer>, p: Profile, plaintext: Bytes,
                       payload: Bytes): Bytes
    requires signed ==> signer.Some?
  {
    if signed then s.sign(signer.value.secret, ContainerMessage(p, s.digest(plaintext), s.digest(payload))) else []
  }

  /** EncryptStream, on the whole plaintext at once. */
  function Encrypt(s: Suite, plaintext: Bytes, rs: set<nat>, coins: nat, signer: Option<Signer>, meta: Metadata,
                   p: Profile): Option<Bytes> {
    if p != PRIVATE && p != PUBLIC then None
    else
      var m := SealedMeta(meta, signer);
      if m.None? || s.json.marshal(m.value).None? then None
      else
        var raw := s.json.marshal(m.value).value;
        if |raw| > 65535 then None
        else
          var payload := SealPayload(s, raw, plaintext, rs, coins);
          var sig := SignPayload(s, meta.isSigned, signer, p, plaintext, payload);
          if |sig| > 65535 then None
          else Some(Wire(p, if HasHeader(p) then raw else [], payload, sig))
  }

  function Concat(chunks: seq<Bytes>, n: nat): Bytes
    requires n <= |chunks|
  {
    if n == 0 then [] else Concat(chunks, n - 1) + chunks[n - 1]
  }

  /** EncryptStream: the plaintext arrives in chunks, each going to the digest and
      to age; the container is then written piece by piece. */
  method EncryptStream(s: Suite, src: seq<Bytes>, rs: set<nat>, coins: nat, signer: Option<Signer>, meta0: Metadata,
                       p: Profile)
    returns (dst: Option<Bytes>)
    ensures dst == Encrypt(s, Concat(src, |src|), rs, coins, signer, meta0, p)
  {
    if p != PRIVATE && p != PUBLIC { return None; }
    var meta := meta0;
    if meta.isSigned {
      if signer.None? { return None; }
      var fp := signer.value.fp;
      if !ValidFingerprint(fp) { return None; }
      if meta.senderFP == [] {
        meta := meta.(senderFP := fp);
      } else if meta.senderFP != fp {
        return None;
      }
    }
    var marshaled := s.json.marshal(meta);
    if marshaled.None? || |marshaled.value| > 65535 { return None; }
    var raw := marshaled.value;

    var hashed: Bytes := [];
    var written := BigEndian(|raw|, 2) + raw;
    for i := 0 to |src|
      invariant hashed == Concat(src, i)
      invariant written == EncodePayload(raw, hashed)
    {
      hashed := hashed + src[i];
      written := written + src[i];
    }
    var payload := s.seal(rs, coins, written);

    var sig: Bytes := [];
    if meta.isSigned {
      var msg := SignedMessage(p, s.digest(hashed), s.digest(payload));
      sig := s.sign(signer.value.secret, msg);
    }
    if |sig| > 65535 { return None; }

    var headerMeta := if HasHeader(p) then raw else [];
    var out := MAGIC + [p] + BigEndian(|headerMeta|, 2);
    out := out + headerMeta;
    out := out + BigEndian(|payload|, 8);
    out := out + payload;
    out := out + BigEndian(|sig|, 2);
    out := out + sig;
    dst := Some(out);
  }

  // ----- reading -----

  /** The parsed framing together with the payload it locates. */
  function Located(s: Suite, data: Bytes): (r: Option<(StreamHeader, Bytes)>)
    ensures r.Some? <==> Parse(s.json, data).Ok?
    ensures r.Some? ==> Parse(s.json, data) == Ok(r.value.0)
  {
    var res := Parse(s.json, data);
    if res.Err? then None
    else
      ParseFramed(s.json, data, res.value);
      Some((res.value, PayloadOf(data, res.value)))
  }

  /** What a payload opens to: sealed metadata, its raw bytes, the file. */
  function Opened(s: Suite, key: nat, payload: Bytes): Option<(Metadata, Bytes, Bytes)> {
    var plain := s.open(key, payload);
    if plain.None? then None else DecodePayload(s.json, plain.value)
  }

  /** decryptContainer */
  function DecryptContainer(s: Suite, data: Bytes, u: Unlocked, cs: seq<Contact>): Option<(Bytes, VerifyResult)> {
    var loc := Located(s, data);
    if loc.None? then None
    else
      var (sh, payload) := loc.value;
      if sh.profile == PRIVATE && !sh.isPrivate then None
      else
        var inner := Opened(s, u.key, payload);
        if inner.None? then None
        else
          var (m, raw, file) := inner.value;
          Some((file, VerdictOf(s.crypto, sh, m, raw, s.digest(file), s.digest(payload), u, cs)))
  }

  /** decryptLegacyStreaming */
  function DecryptLegacyStreaming(s: Suite, data: Bytes, u: Unlocked): Option<(Bytes, VerifyResult)> {
    var loc := Located(s, data);
    if loc.None? then None
    else
      var (sh, payload) := loc.value;
      var plain := s.open(u.key, payload);
      if plain.None? then None
      else if SealsMetadata(sh.profile) then
        var inner := DecodePayload(s.json, plain.value);
        if inner.None? then None else Some((inner.value.2, LegacyVerdict(Some(inner.value.0), sh.signature)))
      else Some((plain.value, LegacyVerdict(sh.meta, sh.signature)))
  }

  const MAX_LEGACY_BUFFERED := 0x2000_0000

  /** decryptLegacyBuffered */
  function DecryptLegacyBuffered(s: Suite, data: Bytes, u: Unlocked): Option<(Bytes, VerifyResult)> {
    if |data| > MAX_LEGACY_BUFFERED then None
    else
      var c := Deserialize(s.json, data);
      if c.Err? then None
      else
        var plain := s.open(u.key, c.value.payload);
        if plain.None? then None
        else if SealsMetadata(c.value.profile) then
          var inner := DecodePayload(s.json, plain.value);
          if inner.None? then None else Some((inner.value.2, LegacyVerdict(Some(inner.value.0), c.value.signature)))
        else Some((plain.value, LegacyVerdict(c.value.metadata, c.value.signature)))
  }

  /** DecryptAndVerifyStream */
  function DecryptAndVerify(s: Suite, data: Bytes, u: Unlocked, cs: seq<Contact>): Option<(Bytes, VerifyResult)> {
    if |data| < HEADER_PREFIX_LEN then None
    else
      var pre := ParseHeaderPrefix(data[..HEADER_PREFIX_LEN]);
      if pre.Err? then None
      else if !Streaming(pre.value.0) then DecryptLegacyBuffered(s, data, u)
      else if Legacy(pre.value.0) then DecryptLegacyStreaming(s, data, u)
      else DecryptContainer(s, data, u, cs)
  }

  /** decryptContainer as it runs: age reads some prefix of the payload through the
      ciphertext digest, and what it leaves unread is hashed afterwards. */
  method DecryptContainerStream(s: Suite, r: Reader, u: Unlocked, cs: seq<Contact>)
    returns (out: Option<(Bytes, VerifyResult)>)
    requires r.pos == 0
    modifies r`pos
    ensures out == DecryptContainer(s, r.data, u, cs)
  {
    var res := ParseStreamHeader(s.json, r);
    if res.Err? { return None; }
    var sh := res.value;
    if sh.profile == PRIVATE && !sh.isPrivate { return None; }
    r.pos := sh.payloadStart;
    ParseFramed(s.json, r.data, sh);
    var payload := r.data[r.pos..r.pos + sh.payloadLen];
    var k := s.consumed(u.key, payload);
    var n := if k < |payload| then k else |payload|;
    var hashed := payload[..n];
    var plain := s.open(u.key, payload);
    if plain.None? { return None; }
    var inner := DecodePayload(s.json, plain.value);
    if inner.None? { return None; }
    var (m, raw, file) := inner.value;
    hashed := hashed + payload[n..];
    assert hashed == payload;
    var verdict := VerdictOf(s.crypto, sh, m, raw, s.digest(file), s.digest(hashed), u, cs);
    out := Some((file, verdict));
  }

  // ----- round trip -----

  /** A successful write, with its intermediate values named. */
  ghost predicate Written(s: Suite, plaintext: Bytes, rs: set<nat>, coins: nat, signer: Option<Signer>,
                          meta: Metadata, p: Profile,
                          data: Bytes, m: Metadata, raw: Bytes, payload: Bytes, sig: Bytes)
  {
    && (p == PRIVATE || p == PUBLIC)
    && SealedMeta(meta, signer) == Some(m) && s.json.marshal(m) == Some(raw) && |raw| <= 65535
    && payload == SealPayload(s, raw, plaintext, rs, coins)
    && (meta.isSigned ==> signer.Some?) && sig == SignPayload(s, meta.isSigned, signer, p, plaintext, payload)
    && |sig| <= 65535
    && data == Wire(p, if HasHeader(p) then raw else [], payload, sig)
  }

  lemma EncryptWritten(s: Suite, plaintext: Bytes, rs: set<nat>, coins: nat, signer: Option<Signer>, meta: Metadata,
                       p: Profile, data: Bytes)
    returns (m: Metadata, raw: Bytes, payload: Bytes, sig: Bytes)
    requires Encrypt(s, plaintext, rs, coins, signer, meta, p) == Some(data)
    ensures Written(s, plaintext, rs, coins, signer, meta, p, data, m, raw, payload, sig)
    ensures m == meta.(senderFP := m.senderFP)
    ensures meta.isSigned ==> m.senderFP == signer.value.fp && ValidFingerprint(m.senderFP)
  {
    m := SealedMeta(meta, signer).value;
    raw := s.json.marshal(m).value;
    payload := SealPayload(s, raw, plaintext, rs, coins);
    sig := SignPayload(s, meta.isSigned, signer, p, plaintext, payload);
  }

  /** What is written, and when: a current profile, a signer that the metadata does not contradict,
      and lengths that their fields can hold. */
  lemma EncryptExact(s: Suite, plaintext: Bytes, rs: set<nat>, coins: nat, signer: Option<Signer>, meta: Metadata,
                     p: Profile, data: Bytes)
    ensures Encrypt(s, plaintext, rs, coins, signer, meta, p) == Some(data) <==>
              exists m, raw, payload, sig ::
                Written(s, plaintext, rs, coins, signer, meta, p, data, m, raw, payload, sig)
  {
    if Encrypt(s, plaintext, rs, coins, signer, meta, p) == Some(data) {
      var m, raw, payload, sig := EncryptWritten(s, plaintext, rs, coins, signer, meta, p, data);
    }
  }

  /** The metadata sealed: as given where nothing is signed, and else naming the signer, whom the
      metadata given must name or leave open. */
  lemma SealedMetaExact(meta: Metadata, signer: Option<Signer>, m: Metadata)
    ensures SealedMeta(meta, signer) == Some(m) <==>
              if !meta.isSigned then m == meta
              else
                && signer.Some? && ValidFingerprint(signer.value.fp) && meta.senderFP in {[], signer.value.fp}
                && m.senderFP == signer.value.fp && m.isSigned
                && m.timestamp == meta.timestamp && m.filename == meta.filename
  {
  }

  function HeaderOf(s: Suite, p: Profile, raw: Bytes, payload: Bytes, sig: Bytes): StreamHeader {
    var header := if HasHeader(p) then raw else [];
    StreamHeader(p, header == [], if header == [] then None else s.json.unmarshal(header), header,
                 HEADER_PREFIX_LEN + |header| + 8, |payload|, sig)
  }

  lemma WireLocated(s: Suite, p: Profile, raw: Bytes, payload: Bytes, sig: Bytes, m: Metadata)
    requires (p == PRIVATE || p == PUBLIC) && |raw| < 0x1_0000 && |sig| < 0x1_0000
    requires s.json.unmarshal(raw) == Some(m)
    requires |Wire(p, if HasHeader(p) then raw else [], payload, sig)| <= MAX_INT64
    ensures var data := Wire(p, if HasHeader(p) then raw else [], payload, sig);
            && Located(s, data) == Some((HeaderOf(s, p, raw, payload, sig), payload))
            && |data| >= HEADER_PREFIX_LEN
            && ParseHeaderPrefix(data[..HEADER_PREFIX_LEN]) == Ok((p, |HeaderOf(s, p, raw, payload, sig).raw|))
  {
    var sh := HeaderOf(s, p, raw, payload, sig);
    var data := Wire(p, sh.raw, payload, sig);
    WireSlices(p, sh.raw, payload, sig, []);
    assert data + [] == data;
    assert LaidOut(s.json, data, sh, payload, []);
    ParseComplete(s.json, data, sh, payload, []);
    PrefixParses(data[..HEADER_PREFIX_LEN], p, |sh.raw|);
  }

  /** What reading back a written container comes to, for any reader it was sealed
      to. */
  lemma ReadBack(s: Suite, plaintext: Bytes, rs: set<nat>, coins: nat, signer: Option<Signer>, meta: Metadata,
                 p: Profile,
                 data: Bytes, m: Metadata, raw: Bytes, payload: Bytes, sig: Bytes, u: Unlocked, cs: seq<Contact>)
    requires Sound(s) && u.key in rs && |data| <= MAX_INT64
    requires Written(s, plaintext, rs, coins, signer, meta, p, data, m, raw, payload, sig)
    ensures DecryptAndVerify(s, data, u, cs) ==
            Some((plaintext, VerdictOf(s.crypto, HeaderOf(s, p, raw, payload, sig), m, raw,
                                        s.digest(plaintext), s.digest(payload), u, cs)))
  {
    assert s.json.unmarshal(raw) == Some(m);
    WireLocated(s, p, raw, payload, sig, m);
    PayloadRoundTrip(s.json, m, plaintext);
    assert s.open(u.key, payload) == Some(EncodePayload(raw, plaintext));
  }

  /** Container round trip: every reader a container was sealed to gets back exactly
      the plaintext; an unsigned container reads as unsigned, and a signed one as
      verified whenever the signer's key is on record under its fingerprint, as from
      an unknown signer whenever nothing usable is. */
  lemma ContainerRoundTrip(s: Suite, plaintext: Bytes, rs: set<nat>, coins: nat, signer: Option<Signer>,
                           meta: Metadata, p: Profile,
                           data: Bytes, u: Unlocked, cs: seq<Contact>)
    requires Sound(s) && u.key in rs && |data| <= MAX_INT64
    requires Encrypt(s, plaintext, rs, coins, signer, meta, p) == Some(data)
    ensures DecryptAndVerify(s, data, u, cs).Some? && DecryptAndVerify(s, data, u, cs).value.0 == plaintext
    ensures var v := DecryptAndVerify(s, data, u, cs).value.1;
            && (!meta.isSigned ==> v == VerifyResult(Unsigned, [], Nobody))
            && (meta.isSigned && SignerOnRecord(s, signer.value, u, cs) ==>
                  v.status == Verified && v.signerFP == signer.value.fp)
            && (meta.isSigned && (forall c :: OnRecord(cs, u, c) ==> !Usable(s.crypto, signer.value.fp, c))
                && (forall x :: s.sign(signer.value.secret, x) != []) ==>
                  v.status == UnknownSigner && v.signerFP == signer.value.fp)
  {
    var m, raw, payload, sig := EncryptWritten(s, plaintext, rs, coins, signer, meta, p, data);
    ReadBack(s, plaintext, rs, coins, signer, meta, p, data, m, raw, payload, sig, u, cs);
    var sh := HeaderOf(s, p, raw, payload, sig);
    VerdictExact(s.crypto, sh, m, raw, s.digest(plaintext), s.digest(payload), u, cs);
    if meta.isSigned && SignerOnRecord(s, signer.value, u, cs) {
      var c :| OnRecord(cs, u, c) && Usable(s.crypto, signer.value.fp, c)
               && KeyPair(s, signer.value, s.crypto.decode(c.sign).value);
      assert Accepts(s.crypto, Claim(ContainerMessage(p, s.digest(plaintext), s.digest(payload)), sig, m.senderFP), c);
    }
  }

  /** A key that accepts the signer's signatures is recorded under its fingerprint. */
  ghost predicate SignerOnRecord(s: Suite, signer: Signer, u: Unlocked, cs: seq<Contact>) {
    exists c :: OnRecord(cs, u, c) && Usable(s.crypto, signer.fp, c) &&
                KeyPair(s, signer, s.crypto.decode(c.sign).value)
  }

  // ----- legacy containers -----

  /** No legacy container ever verifies. */
  lemma LegacyNeverVerifies(s: Suite, data: Bytes, u: Unlocked, cs: seq<Contact>)
    requires |data| >= HEADER_PREFIX_LEN && ParseHeaderPrefix(data[..HEADER_PREFIX_LEN]).Ok?
    requires Legacy(ParseHeaderPrefix(data[..HEADER_PREFIX_LEN]).value.0)
    requires DecryptAndVerify(s, data, u, cs).Some?
    ensures DecryptAndVerify(s, data, u, cs).value.1.status in {Unsigned, Failed}
  {
  }

  /** What a legacy container opens to: the file alone, or sealed together with its metadata. */
  function LegacyFile(s: Suite, p: Profile, key: nat, payload: Bytes): Option<Bytes> {
    if p == LEGACY_PRIVATE_BUFFERED || p == LEGACY_PRIVATE_STREAMING then
      var o := Opened(s, key, payload);
      if o.None? then None else Some(o.value.2)
    else s.open(key, payload)
  }

  /** What a legacy container says of its signer: the sealed metadata, or else that of its header. */
  function LegacyMeta(s: Suite, p: Profile, key: nat, payload: Bytes, header: Option<Metadata>): Option<Metadata> {
    if p == LEGACY_PRIVATE_BUFFERED || p == LEGACY_PRIVATE_STREAMING then
      var o := Opened(s, key, payload);
      if o.None? then None else Some(o.value.0)
    else header
  }

  /** How a legacy container is read: the file is what its payload opens to, and it is unsigned
      exactly when neither the metadata nor the wire speaks of a signature. */
  ghost predicate ReadsAs(out: Option<(Bytes, VerifyResult)>, file: Option<Bytes>, meta: Option<Metadata>, sig: Bytes) {
    && out.Some? == file.Some?
    && (out.Some? ==>
          && out.value.0 == file.value && out.value.1.via == Nobody && out.value.1.status in {Unsigned, Failed}
          && (out.value.1.status == Unsigned <==> sig == [] && (meta.Some? ==> !meta.value.isSigned)))
  }

  /** Any legacy container, streamed or buffered. */
  lemma LegacyExact(s: Suite, data: Bytes, u: Unlocked, cs: seq<Contact>)
    requires |data| >= HEADER_PREFIX_LEN && ParseHeaderPrefix(data[..HEADER_PREFIX_LEN]).Ok?
    requires Legacy(ParseHeaderPrefix(data[..HEADER_PREFIX_LEN]).value.0)
    ensures var p, out := ParseHeaderPrefix(data[..HEADER_PREFIX_LEN]).value.0, DecryptAndVerify(s, data, u, cs);
      if p == LEGACY_PRIVATE_STREAMING || p == LEGACY_PUBLIC_STREAMING then
        var loc := Located(s, data);
        if loc.None? then out.None?
        else ReadsAs(out, LegacyFile(s, p, u.key, loc.value.1), LegacyMeta(s, p, u.key, loc.value.1, loc.value.0.meta),
                     loc.value.0.signature)
      else
        var c := Deserialize(s.json, data);
        if |data| > MAX_LEGACY_BUFFERED || c.Err? then out.None?
        else ReadsAs(out, LegacyFile(s, p, u.key, c.value.payload),
                     LegacyMeta(s, p, u.key, c.value.payload, c.value.metadata),
                     c.value.signature)
  {
  }

  /** Read as verified exactly when the container is a current one, its framing is
      consistent, and some key on record under the sealed fingerprint accepts the
      signature over this profile, this plaintext and this ciphertext. */
  lemma VerifiedExactly(s: Suite, data: Bytes, u: Unlocked, cs: seq<Contact>)
    requires DecryptAndVerify(s, data, u, cs).Some?
    ensures DecryptAndVerify(s, data, u, cs).value.1.status == Verified <==>
            && Located(s, data).Some? && !Legacy(Located(s, data).value.0.profile)
            && var (sh, payload) := Located(s, data).value;
            && Opened(s, u.key, payload).Some?
            && var (m, raw, file) := Opened(s, u.key, payload).value;
            && WellFramed(sh, m, raw)
            && exists c :: OnRecord(cs, u, c)
                           && Accepts(s.crypto, Claim(ContainerMessage(sh.profile, s.digest(file), s.digest(payload)),
                                                      sh.signature, m.senderFP), c)
  {
    var p := ParseHeaderPrefix(data[..HEADER_PREFIX_LEN]).value.0;
    if Legacy(p) {
      LegacyNeverVerifies(s, data, u, cs);
    } else {
      var (sh, payload) := Located(s, data).value;
      var (m, raw, file) := Opened(s, u.key, payload).value;
      VerdictExact(s.crypto, sh, m, raw, s.digest(file), s.digest(payload), u, cs);
    }
  }

  // ----- stripping -----

  /** Stripping any current container leaves what it decrypts to alone, and leaves
      the verdict alone too unless the dropped header disagreed with the sealed
      metadata, in which case the container had failed. */
  lemma StripKeepsMeaning(s: Suite, data: Bytes, u: Unlocked, cs: seq<Contact>)
    requires DecryptContainer(s, data, u, cs).Some?
    requires !Legacy(Located(s, data).value.0.profile)
    ensures Strip(data).Ok? && |Strip(data).value.0| == Strip(data).value.1
    ensures var (sh, payload) := Located(s, data).value;
            var body := Strip(data).value.0;
            var before, after := DecryptContainer(s, data, u, cs).value, DecryptContainer(s, body, u, cs);
            && Located(s, body) == Some((Bare(sh), payload))
            && after.Some? && after.value.0 == before.0
            && DecryptAndVerify(s, body, u, cs) == after
            && (sh.isPrivate || sh.raw == Opened(s, u.key, payload).value.1 ==> after.value.1 == before.1)
            && (!(sh.isPrivate || sh.raw == Opened(s, u.key, payload).value.1) ==> before.1.status == Failed)
  {
    var (sh, payload) := Located(s, data).value;
    StripKeepsContainer(s.json, data, sh);
    var body := Strip(data).value.0;
    StripIdempotent(data);
    HeadFacts(s.json, body, Bare(sh));
    PrefixParses(body[..HEADER_PREFIX_LEN], sh.profile, 0);
  }

  /** For a written container the strip is invisible to its readers. */
  lemma StripWrittenContainer(s: Suite, plaintext: Bytes, rs: set<nat>, coins: nat, signer: Option<Signer>,
                              meta: Metadata, p: Profile,
                              data: Bytes, u: Unlocked, cs: seq<Contact>)
    requires Sound(s) && u.key in rs && |data| <= MAX_INT64
    requires Encrypt(s, plaintext, rs, coins, signer, meta, p) == Some(data)
    ensures Strip(data).Ok? && |Strip(data).value.0| == Strip(data).value.1
    ensures DecryptAndVerify(s, Strip(data).value.0, u, cs) == DecryptAndVerify(s, data, u, cs)
  {
    var m, raw, payload, sig := EncryptWritten(s, plaintext, rs, coins, signer, meta, p, data);
    assert s.json.unmarshal(raw) == Some(m);
    WireLocated(s, p, raw, payload, sig, m);
    ReadBack(s, plaintext, rs, coins, signer, meta, p, data, m, raw, payload, sig, u, cs);
    PayloadRoundTrip(s.json, m, plaintext);
    StripKeepsMeaning(s, data, u, cs);
  }
}
