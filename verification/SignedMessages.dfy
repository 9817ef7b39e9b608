/** The canonical messages an identity's key signs: length-framed fields behind a
    domain tag. */
module SignedMessages {
  import opened Bytes

  /** writeField: an 8-byte big-endian length, then the bytes. */
  function Field(b: Bytes): Bytes {
    BigEndian(|b|, 8) + b
  }

  function Frames(fields: seq<Bytes>): Bytes {
    if fields == [] then [] else Field(fields[0]) + Frames(fields[1..])
  }

  /** Go slices are shorter than 2^63 bytes. */
  predicate Sized(fields: seq<Bytes>) {
    forall i :: 0 <= i < |fields| ==> |fields[i]| < 0x8000_0000_0000_0000
  }

  lemma FieldPrefix(a: Bytes, b: Bytes, x: Bytes, y: Bytes)
    requires |a| < 0x8000_0000_0000_0000 && |b| < 0x8000_0000_0000_0000
    requires Field(a) + x == Field(b) + y
    ensures a == b && x == y
  {
    BigEndianRoundTrip(|a|, 8);
    BigEndianRoundTrip(|b|, 8);
    var s := Field(a) + x;
    assert s[..8] == BigEndian(|a|, 8);
    assert s[..8] == BigEndian(|b|, 8) by { assert (Field(b) + y)[..8] == BigEndian(|b|, 8); }
    assert s[8..8 + |a|] == a;
    assert s[8..8 + |b|] == b by { assert (Field(b) + y)[8..8 + |b|] == b; }
    assert s[8 + |a|..] == x;
    assert s[8 + |b|..] == y by { assert (Field(b) + y)[8 + |b|..] == y; }
  }

  /** Framing is unambiguous, whatever the fields contain and however many there
      are. */
  lemma {:induction false} FramesInjective(a: seq<Bytes>, b: seq<Bytes>)
    requires Sized(a) && Sized(b) && Frames(a) == Frames(b)
    ensures a == b
  {
    assert a != [] ==> |Frames(a)| >= 8;
    assert b != [] ==> |Frames(b)| >= 8;
    if a != [] && b != [] {
      FieldPrefix(a[0], b[0], Frames(a[1..]), Frames(b[1..]));
      FramesInjective(a[1..], b[1..]);
      assert a == [a[0]] + a[1..] && b == [b[0]] + b[1..];
    }
  }

  // ----- the four messages -----

  datatype LockBundle = LockBundle(id: Bytes, name: Bytes, encPubKey: Bytes, signPubKey: Bytes,
                                   fingerprint: Bytes, email: Bytes, alias: Bytes, sig: Bytes)

  datatype Revocation = Revocation(id: Bytes, revokedFingerprint: Bytes, revokedAt: Bytes)

  datatype Message =
    | ContainerMsg(profile: Byte, plaintextDigest: Bytes, ciphertextDigest: Bytes)
    | LockMsg(lock: LockBundle)
    | RevocationMsg(rev: Revocation)
    | RotationMsg(rev: Revocation, newLock: LockBundle)

  const CONTAINER_TAG := "ICFX-CONTAINER-V1"
  const LOCK_TAG := "ICFX-LOCK-V1"
  const REVOKE_TAG := "ICFX-REVOKE-V1"
  const ROTATE_TAG := "ICFX-ROTATE-V1"

  function LockFields(l: LockBundle): seq<Bytes> {
    [Ascii(LOCK_TAG), l.id, l.encPubKey, l.signPubKey, l.fingerprint]
  }

  function FieldsOf(m: Message): seq<Bytes> {
    match m
    case ContainerMsg(p, pd, cd) => [Ascii(CONTAINER_TAG), [p], pd, cd]
    case LockMsg(l) => LockFields(l)
    case RevocationMsg(r) => [Ascii(REVOKE_TAG), r.id, r.revokedFingerprint, r.revokedAt]
    case RotationMsg(r, l) =>
      [Ascii(ROTATE_TAG), r.id, r.revokedFingerprint, r.revokedAt, Frames(LockFields(l)), l.sig]
  }

  /** The bytes that are signed. */
  function Canonical(m: Message): Bytes { Frames(FieldsOf(m)) }

  ghost predicate Representable(m: Message) {
    Sized(FieldsOf(m)) && (m.RotationMsg? ==> Sized(LockFields(m.newLock)))
  }

  predicate SameKeys(a: LockBundle, b: LockBundle) {
    a.id == b.id && a.encPubKey == b.encPubKey && a.signPubKey == b.signPubKey && a.fingerprint == b.fingerprint
  }

  /** Same kind, and the same value in every field the signature is meant to bind.
      A lock's labels are advisory and bound by none of the messages. */
  predicate SameBound(a: Message, b: Message) {
    match (a, b)
    case (LockMsg(l), LockMsg(k)) => SameKeys(l, k)
    case (RotationMsg(r, l), RotationMsg(s, k)) => r == s && SameKeys(l, k) && l.sig == k.sig
    case _ => a == b
  }

  lemma TagsDiffer()
    ensures |Ascii(CONTAINER_TAG)| == 17 && |Ascii(LOCK_TAG)| == 12
    ensures |Ascii(REVOKE_TAG)| == 14 && |Ascii(ROTATE_TAG)| == 14
    ensures Ascii(REVOKE_TAG) != Ascii(ROTATE_TAG)
  {
    assert Ascii(REVOKE_TAG)[6] != Ascii(ROTATE_TAG)[6];
  }

  /** A signature over one message is a signature over no other: signed bytes agree
      exactly when kind and bound fields do, including the lock nested in a
      rotation. */
  lemma SignedBytesIdentifyMessage(a: Message, b: Message)
    requires Representable(a) && Representable(b)
    ensures Canonical(a) == Canonical(b) <==> SameBound(a, b)
  {
    if Canonical(a) == Canonical(b) {
      FramesInjective(FieldsOf(a), FieldsOf(b));
      TagsDiffer();
      assert FieldsOf(a)[0] == FieldsOf(b)[0];
      match (a, b)
      case (ContainerMsg(p, pd, cd), ContainerMsg(q, qd, dd)) => assert [p][0] == [q][0];
      case (RotationMsg(r, l), RotationMsg(s, k)) => FramesInjective(LockFields(l), LockFields(k));
      case _ =>
    }
  }

  // ----- byte by byte -----

  lemma FramesCons(a: Bytes, rest: seq<Bytes>)
    ensures Frames([a] + rest) == BigEndian(|a|, 8) + a + Frames(rest)
  {
    assert ([a] + rest)[1..] == rest;
  }

  lemma FourFrames(a: Bytes, b: Bytes, c: Bytes, d: Bytes)
    ensures Frames([a, b, c, d]) ==
            BigEndian(|a|, 8) + a + (BigEndian(|b|, 8) + b + (BigEndian(|c|, 8) + c + (BigEndian(|d|, 8) + d)))
  {
    FramesCons(d, []);
    FramesCons(c, [d]);
    FramesCons(b, [c, d]);
    FramesCons(a, [b, c, d]);
    assert [d] + [] == [d] && [c] + [d] == [c, d] && [b] + [c, d] == [b, c, d] && [a] + [b, c, d] == [a, b, c, d];
  }

  /** What a container signature covers: tag, profile, the plaintext's digest, the ciphertext's. */
  lemma ContainerBytes(p: Byte, pd: Bytes, cd: Bytes)
    ensures Canonical(ContainerMsg(p, pd, cd)) ==
            BigEndian(17, 8) + Ascii("ICFX-CONTAINER-V1")
            + (BigEndian(1, 8) + [p] + (BigEndian(|pd|, 8) + pd + (BigEndian(|cd|, 8) + cd)))
  {
    FourFrames(Ascii(CONTAINER_TAG), [p], pd, cd);
    TagsDiffer();
  }

  /** A lock's: tag, id, encryption key, signing key, fingerprint. */
  lemma LockBytes(l: LockBundle)
    ensures Canonical(LockMsg(l)) ==
            BigEndian(12, 8) + Ascii("ICFX-LOCK-V1")
            + (BigEndian(|l.id|, 8) + l.id
               + (BigEndian(|l.encPubKey|, 8) + l.encPubKey
                  + (BigEndian(|l.signPubKey|, 8) + l.signPubKey + (BigEndian(|l.fingerprint|, 8) + l.fingerprint))))
  {
    FourFrames(l.id, l.encPubKey, l.signPubKey, l.fingerprint);
    FramesCons(Ascii(LOCK_TAG), [l.id, l.encPubKey, l.signPubKey, l.fingerprint]);
    assert LockFields(l) == [Ascii(LOCK_TAG)] + [l.id, l.encPubKey, l.signPubKey, l.fingerprint];
    TagsDiffer();
  }

  /** A revocation's: tag, id, revoked fingerprint, date. */
  lemma RevocationBytes(r: Revocation)
    ensures Canonical(RevocationMsg(r)) ==
            BigEndian(14, 8) + Ascii("ICFX-REVOKE-V1")
            + (BigEndian(|r.id|, 8) + r.id
               + (BigEndian(|r.revokedFingerprint|, 8) + r.revokedFingerprint
                  + (BigEndian(|r.revokedAt|, 8) + r.revokedAt)))
  {
    FourFrames(Ascii(REVOKE_TAG), r.id, r.revokedFingerprint, r.revokedAt);
    TagsDiffer();
  }

  /** A rotation's: tag, the same three fields, the new lock's own message, and its signature. */
  lemma RotationBytes(r: Revocation, l: LockBundle)
    ensures var lock := Canonical(LockMsg(l));
            Canonical(RotationMsg(r, l)) ==
            BigEndian(14, 8) + Ascii("ICFX-ROTATE-V1")
            + (BigEndian(|r.id|, 8) + r.id
               + (BigEndian(|r.revokedFingerprint|, 8) + r.revokedFingerprint
                  + (BigEndian(|r.revokedAt|, 8) + r.revokedAt)))
            + (BigEndian(|lock|, 8) + lock + (BigEndian(|l.sig|, 8) + l.sig))
  {
    var lock := Frames(LockFields(l));
    FramesCons(l.sig, []);
    FramesCons(lock, [l.sig]);
    FourFrames(Ascii(ROTATE_TAG), r.id, r.revokedFingerprint, r.revokedAt);
    FramesConcat([Ascii(ROTATE_TAG), r.id, r.revokedFingerprint, r.revokedAt], [lock, l.sig]);
    assert FieldsOf(RotationMsg(r, l)) == [Ascii(ROTATE_TAG), r.id, r.revokedFingerprint, r.revokedAt] + [lock, l.sig];
    assert [l.sig] + [] == [l.sig] && [lock] + [l.sig] == [lock, l.sig];
    TagsDiffer();
  }

  // ----- the code's buffers -----

  method WriteField(buf: Bytes, b: Bytes) returns (out: Bytes)
    ensures out == buf + Field(b)
  {
    out := buf + BigEndian(|b|, 8);
    out := out + b;
  }

  lemma {:induction false} FramesConcat(a: seq<Bytes>, b: seq<Bytes>)
    ensures Frames(a + b) == Frames(a) + Frames(b)
  {
    if a == [] {
      assert a + b == b;
    } else {
      assert (a + b)[1..] == a[1..] + b;
      FramesConcat(a[1..], b);
    }
  }

  method WriteFields(fields: seq<Bytes>) returns (buf: Bytes)
    ensures buf == Frames(fields)
  {
    buf := [];
    for i := 0 to |fields|
      invariant buf == Frames(fields[..i])
    {
      FramesConcat(fields[..i], [fields[i]]);
      assert fields[..i] + [fields[i]] == fields[..i + 1];
      assert Frames([fields[i]]) == Field(fields[i]) + [];
      buf := WriteField(buf, fields[i]);
    }
    assert fields[..|fields|] == fields;
  }

  /** SignedMessage */
  method SignedMessage(profile: Byte, plaintextDigest: Bytes, ciphertextDigest: Bytes) returns (b: Bytes)
    ensures b == Canonical(ContainerMsg(profile, plaintextDigest, ciphertextDigest))
  {
    b := WriteFields([Ascii(CONTAINER_TAG), [profile], plaintextDigest, ciphertextDigest]);
  }

  /** CanonicalRotationBytes: the new lock goes in as one nested field. */
  method CanonicalRotationBytes(rev: Revocation, newLock: LockBundle) returns (b: Bytes)
    ensures b == Canonical(RotationMsg(rev, newLock))
  {
    var lock := WriteFields(LockFields(newLock));
    b := WriteFields([Ascii(ROTATE_TAG), rev.id, rev.revokedFingerprint, rev.revokedAt, lock, newLock.sig]);
  }
}
