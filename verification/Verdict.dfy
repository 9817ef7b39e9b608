/** Who signed a decrypted container: resolving the signer and the verdict. */
module Verdict {
  import opened Wrappers
  import opened Bytes
  import opened SignedMessages
  import opened Icfx
  import opened Continuity

  datatype Status = Unsigned | Verified | Failed | UnknownSigner

  /** How the signer was recognised. */
  datatype Via = Nobody | ViaContact(alias: Bytes) | ViaRevoked(alias: Bytes, revokedAt: int) | ViaSelf(name: Bytes)

  datatype VerifyResult = VerifyResult(status: Status, signerFP: Bytes, via: Via)

  datatype Unlocked = Unlocked(name: Bytes, fp: Bytes, signPubKey: Bytes, key: nat)

  // ----- fingerprints -----

  predicate HexDigit(b: Byte) { 48 <= b <= 57 || 65 <= b <= 70 || 97 <= b <= 102 }

  /** ValidateFingerprint: 32 hexadecimal characters. */
  predicate ValidFingerprint(fp: Bytes) {
    |fp| == 32 && forall i :: 0 <= i < |fp| ==> HexDigit(fp[i])
  }

  function Lower(b: Byte): Byte { if 65 <= b <= 90 then b + 32 else b }

  /** strings.EqualFold against a hexadecimal string. */
  predicate EqualFold(a: Bytes, b: Bytes) {
    |a| == |b| && forall i :: 0 <= i < |a| ==> Lower(a[i]) == Lower(b[i])
  }

  /** Which characters those are. */
  lemma HexDigitExact(b: Byte)
    ensures HexDigit(b) <==> b in Ascii("0123456789abcdefABCDEF")
  {
    var s := "0123456789abcdefABCDEF";
    assert forall i :: 0 <= i < |s| ==> HexDigit(Ascii(s)[i]);
    if HexDigit(b) {
      var i := if b <= 57 then b as int - 48 else if b >= 97 then b as int - 87 else b as int - 49;
      assert Ascii(s)[i] == b;
    }
  }

  /** A fingerprint is 32 such characters. */
  lemma FingerprintExact(fp: Bytes)
    ensures ValidFingerprint(fp) <==> |fp| == 32 && forall i :: 0 <= i < 32 ==> fp[i] in Ascii("0123456789abcdefABCDEF")
  {
    forall i | 0 <= i < |fp| ensures HexDigit(fp[i]) <==> fp[i] in Ascii("0123456789abcdefABCDEF") {
      HexDigitExact(fp[i]);
    }
  }

  function HexValue(b: Byte): int
    requires HexDigit(b)
  {
    if b <= 57 then b as int - 48 else if b <= 70 then b as int - 55 else b as int - 87
  }

  /** Against a hexadecimal string, only one of the same value is equal. */
  lemma EqualFoldExact(a: Bytes, b: Bytes)
    requires forall i :: 0 <= i < |b| ==> HexDigit(b[i])
    ensures EqualFold(a, b) <==>
              |a| == |b| && forall i :: 0 <= i < |a| ==> HexDigit(a[i]) && HexValue(a[i]) == HexValue(b[i])
  {
    forall i | 0 <= i < |a| == |b|
      ensures Lower(a[i]) == Lower(b[i]) <==> HexDigit(a[i]) && HexValue(a[i]) == HexValue(b[i])
    {
      assert HexDigit(b[i]);
    }
  }

  // ----- keys on record -----

  datatype Candidate = Candidate(fp: Bytes, sign: Bytes, via: Via)

  function CurrentKey(c: Contact): Candidate { Candidate(c.key.fp, c.key.sign, ViaContact(c.alias)) }

  function RetiredKey(c: Contact, j: nat): Candidate
    requires j < |c.previous|
  {
    Candidate(c.previous[j].key.fp, c.previous[j].key.sign, ViaRevoked(c.alias, c.previous[j].revokedAt))
  }

  function OwnKey(u: Unlocked): Candidate { Candidate(u.fp, u.signPubKey, ViaSelf(u.name)) }

  /** c is a contact's current key, a contact's retired key, or our own. */
  ghost predicate OnRecord(cs: seq<Contact>, u: Unlocked, c: Candidate) {
    || (exists i :: 0 <= i < |cs| && c == CurrentKey(cs[i]))
    || (exists i, j :: 0 <= i < |cs| && 0 <= j < |cs[i].previous| && c == RetiredKey(cs[i], j))
    || c == OwnKey(u)
  }

  /** The key is recorded under the fingerprint and decodes. */
  predicate Usable(cr: Crypto, fp: Bytes, c: Candidate) {
    EqualFold(c.fp, fp) && cr.decode(c.sign).Some?
  }

  /** What is being checked: a message, its signature, the fingerprint claimed. */
  datatype Claim = Claim(msg: Bytes, sig: Bytes, fp: Bytes)

  predicate Accepts(cr: Crypto, q: Claim, c: Candidate) {
    Usable(cr, q.fp, c) && cr.verify(q.msg, q.sig, cr.decode(c.sign).value)
  }

  // ----- the search, in the code's order -----

  function SearchCurrent(cr: Crypto, q: Claim, cs: seq<Contact>, i: nat): (r: Option<Via>)
    requires i <= |cs|
    ensures r.Some? <==> exists k :: i <= k < |cs| && Accepts(cr, q, CurrentKey(cs[k]))
    decreases |cs| - i
  {
    if i == |cs| then None
    else if Accepts(cr, q, CurrentKey(cs[i])) then Some(CurrentKey(cs[i]).via)
    else SearchCurrent(cr, q, cs, i + 1)
  }

  function SearchRetiredOf(cr: Crypto, q: Claim, c: Contact, j: nat): (r: Option<Via>)
    requires j <= |c.previous|
    ensures r.Some? <==> exists k :: j <= k < |c.previous| && Accepts(cr, q, RetiredKey(c, k))
    decreases |c.previous| - j
  {
    if j == |c.previous| then None
    else if Accepts(cr, q, RetiredKey(c, j)) then Some(RetiredKey(c, j).via)
    else SearchRetiredOf(cr, q, c, j + 1)
  }

  function SearchRetired(cr: Crypto, q: Claim, cs: seq<Contact>, i: nat): (r: Option<Via>)
    requires i <= |cs|
    ensures r.Some? <==> exists k :: i <= k < |cs| && SearchRetiredOf(cr, q, cs[k], 0).Some?
    decreases |cs| - i
  {
    if i == |cs| then None
    else
      var hit := SearchRetiredOf(cr, q, cs[i], 0);
      if hit.Some? then hit else SearchRetired(cr, q, cs, i + 1)
  }

  predicate UsableCurrent(cr: Crypto, fp: Bytes, cs: seq<Contact>, i: nat)
    requires i <= |cs|
  {
    exists k :: 0 <= k < i && Usable(cr, fp, CurrentKey(cs[k]))
  }

  predicate UsableRetiredOf(cr: Crypto, fp: Bytes, c: Contact, j: nat)
    requires j <= |c.previous|
  {
    exists k :: 0 <= k < j && Usable(cr, fp, RetiredKey(c, k))
  }

  predicate UsableRetired(cr: Crypto, fp: Bytes, cs: seq<Contact>, i: nat)
    requires i <= |cs|
  {
    exists k :: 0 <= k < i && UsableRetiredOf(cr, fp, cs[k], |cs[k].previous|)
  }

  function FirstHit(cr: Crypto, q: Claim, u: Unlocked, cs: seq<Contact>): Option<Via> {
    var current := SearchCurrent(cr, q, cs, 0);
    var retired := SearchRetired(cr, q, cs, 0);
    if current.Some? then current
    else if retired.Some? then retired
    else if Accepts(cr, q, OwnKey(u)) then Some(OwnKey(u).via)
    else None
  }

  predicate AnyUsable(cr: Crypto, fp: Bytes, u: Unlocked, cs: seq<Contact>) {
    UsableCurrent(cr, fp, cs, |cs|) || UsableRetired(cr, fp, cs, |cs|) || Usable(cr, fp, OwnKey(u))
  }

  /** verifySignature, as a function. */
  function SignatureResult(cr: Crypto, q: Claim, u: Unlocked, cs: seq<Contact>): VerifyResult {
    if q.fp == [] then VerifyResult(UnknownSigner, [], Nobody)
    else
      var hit := FirstHit(cr, q, u, cs);
      if hit.Some? then VerifyResult(Verified, q.fp, hit.value)
      else VerifyResult(if AnyUsable(cr, q.fp, u, cs) then Failed else UnknownSigner, q.fp, Nobody)
  }

  /** The search finds a key exactly when one on record accepts. */
  lemma SearchComplete(cr: Crypto, q: Claim, u: Unlocked, cs: seq<Contact>)
    ensures FirstHit(cr, q, u, cs).Some? <==> exists c :: OnRecord(cs, u, c) && Accepts(cr, q, c)
    ensures AnyUsable(cr, q.fp, u, cs) <==> exists c :: OnRecord(cs, u, c) && Usable(cr, q.fp, c)
  {
    forall c | OnRecord(cs, u, c) && Accepts(cr, q, c) ensures FirstHit(cr, q, u, cs).Some? {
      if i, j :| 0 <= i < |cs| && 0 <= j < |cs[i].previous| && c == RetiredKey(cs[i], j) {
        assert SearchRetiredOf(cr, q, cs[i], 0).Some?;
      }
    }
    forall c | OnRecord(cs, u, c) && Usable(cr, q.fp, c) ensures AnyUsable(cr, q.fp, u, cs) {
      if i, j :| 0 <= i < |cs| && 0 <= j < |cs[i].previous| && c == RetiredKey(cs[i], j) {
        assert UsableRetiredOf(cr, q.fp, cs[i], |cs[i].previous|);
      }
    }
  }

  // ----- whose key it was -----

  /** A key in base64, recorded under fp, accepts the claim's signature; fingerprints are hexadecimal
      and compared without regard to case. */
  ghost predicate Signs(cr: Crypto, q: Claim, fp: Bytes, key: Bytes) {
    EqualFold(fp, q.fp) && exists pub :: cr.decode(key) == Some(pub) && cr.verify(q.msg, q.sig, pub)
  }

  ghost predicate ByCurrent(cr: Crypto, q: Claim, cs: seq<Contact>, i: int) {
    0 <= i < |cs| && Signs(cr, q, cs[i].key.fp, cs[i].key.sign)
  }

  ghost predicate ByRetired(cr: Crypto, q: Claim, cs: seq<Contact>, i: int, j: int) {
    0 <= i < |cs| && 0 <= j < |cs[i].previous| && Signs(cr, q, cs[i].previous[j].key.fp, cs[i].previous[j].key.sign)
  }

  lemma {:induction false} FirstCurrent(cr: Crypto, q: Claim, cs: seq<Contact>, i: nat) returns (k: nat)
    requires i <= |cs| && SearchCurrent(cr, q, cs, i).Some?
    ensures i <= k && ByCurrent(cr, q, cs, k) && SearchCurrent(cr, q, cs, i) == Some(ViaContact(cs[k].alias))
    ensures forall l :: i <= l < k ==> !ByCurrent(cr, q, cs, l)
    decreases |cs| - i
  {
    if Accepts(cr, q, CurrentKey(cs[i])) {
      k := i;
    } else {
      k := FirstCurrent(cr, q, cs, i + 1);
    }
  }

  lemma {:induction false} FirstRetiredOf(cr: Crypto, q: Claim, cs: seq<Contact>, i: nat, j: nat) returns (k: nat)
    requires i < |cs| && j <= |cs[i].previous| && SearchRetiredOf(cr, q, cs[i], j).Some?
    ensures j <= k && ByRetired(cr, q, cs, i, k)
    ensures SearchRetiredOf(cr, q, cs[i], j) == Some(ViaRevoked(cs[i].alias, cs[i].previous[k].revokedAt))
    ensures forall l :: j <= l < k ==> !ByRetired(cr, q, cs, i, l)
    decreases |cs[i].previous| - j
  {
    if Accepts(cr, q, RetiredKey(cs[i], j)) {
      k := j;
    } else {
      k := FirstRetiredOf(cr, q, cs, i, j + 1);
    }
  }

  lemma {:induction false} FirstRetired(cr: Crypto, q: Claim, cs: seq<Contact>, i: nat) returns (k: nat, j: nat)
    requires i <= |cs| && SearchRetired(cr, q, cs, i).Some?
    ensures i <= k && ByRetired(cr, q, cs, k, j)
    ensures SearchRetired(cr, q, cs, i) == Some(ViaRevoked(cs[k].alias, cs[k].previous[j].revokedAt))
    ensures forall l, h :: (i <= l < k || (l == k && h < j)) ==> !ByRetired(cr, q, cs, l, h)
    decreases |cs| - i
  {
    if SearchRetiredOf(cr, q, cs[i], 0).Some? {
      k := i;
      j := FirstRetiredOf(cr, q, cs, i, 0);
    } else {
      k, j := FirstRetired(cr, q, cs, i + 1);
      forall h | ByRetired(cr, q, cs, i, h) ensures false {
        assert Accepts(cr, q, RetiredKey(cs[i], h));
      }
    }
  }

  lemma NoneCurrent(cr: Crypto, q: Claim, cs: seq<Contact>)
    requires SearchCurrent(cr, q, cs, 0).None?
    ensures forall i :: !ByCurrent(cr, q, cs, i)
  {
    forall i | ByCurrent(cr, q, cs, i) ensures false {
      assert Accepts(cr, q, CurrentKey(cs[i]));
    }
  }

  lemma NoneRetired(cr: Crypto, q: Claim, cs: seq<Contact>)
    requires SearchRetired(cr, q, cs, 0).None?
    ensures forall i, j :: !ByRetired(cr, q, cs, i, j)
  {
    forall i, j | ByRetired(cr, q, cs, i, j) ensures false {
      assert Accepts(cr, q, RetiredKey(cs[i], j));
    }
  }

  /** Whom a verified signature is put down to: the first contact whose current key accepts it; if
      there is none, the first contact with a retired key that does, flagged with that key's date;
      if there is none either, ourselves. */
  lemma VerifiedMeans(cr: Crypto, q: Claim, u: Unlocked, cs: seq<Contact>)
    requires SignatureResult(cr, q, u, cs).status.Verified?
    ensures SignatureResult(cr, q, u, cs).signerFP == q.fp != []
    ensures match SignatureResult(cr, q, u, cs).via
            case Nobody => false
            case ViaContact(alias) =>
              exists i ::
                && ByCurrent(cr, q, cs, i) && alias == cs[i].alias
                && forall k :: k < i ==> !ByCurrent(cr, q, cs, k)
            case ViaRevoked(alias, date) =>
              && (forall k :: !ByCurrent(cr, q, cs, k))
              && exists i, j ::
                   ByRetired(cr, q, cs, i, j) && alias == cs[i].alias && date == cs[i].previous[j].revokedAt
                                && forall k, h :: (k < i || (k == i && h < j)) ==> !ByRetired(cr, q, cs, k, h)
            case ViaSelf(name) =>
              && name == u.name && Signs(cr, q, u.fp, u.signPubKey)
              && (forall k :: !ByCurrent(cr, q, cs, k)) && forall k, h :: !ByRetired(cr, q, cs, k, h)
  {
    if SearchCurrent(cr, q, cs, 0).Some? {
      var i := FirstCurrent(cr, q, cs, 0);
    } else if SearchRetired(cr, q, cs, 0).Some? {
      NoneCurrent(cr, q, cs);
      var i, j := FirstRetired(cr, q, cs, 0);
    } else {
      NoneCurrent(cr, q, cs);
      NoneRetired(cr, q, cs);
    }
  }

  /** Some key recorded under the fingerprint decodes. */
  ghost predicate Resolves(cr: Crypto, fp: Bytes, u: Unlocked, cs: seq<Contact>) {
    || (exists i :: 0 <= i < |cs| && EqualFold(cs[i].key.fp, fp) && cr.decode(cs[i].key.sign).Some?)
    || (exists i, j :: 0 <= i < |cs| && 0 <= j < |cs[i].previous| && EqualFold(cs[i].previous[j].key.fp, fp)
                       && cr.decode(cs[i].previous[j].key.sign).Some?)
    || (EqualFold(u.fp, fp) && cr.decode(u.signPubKey).Some?)
  }

  /** The status, in terms of the keys themselves. */
  lemma StatusExact(cr: Crypto, q: Claim, u: Unlocked, cs: seq<Contact>)
    ensures var r := SignatureResult(cr, q, u, cs);
      && r.signerFP == q.fp && !r.status.Unsigned? && (r.via == Nobody <==> !r.status.Verified?)
      && (r.status.Verified? <==>
            && q.fp != []
            && ((exists i :: ByCurrent(cr, q, cs, i)) || (exists i, j :: ByRetired(cr, q, cs, i, j))
                || Signs(cr, q, u.fp, u.signPubKey)))
      && (r.status.UnknownSigner? <==> q.fp == [] || !Resolves(cr, q.fp, u, cs))
  {
    if SearchCurrent(cr, q, cs, 0).Some? {
      var i := FirstCurrent(cr, q, cs, 0);
    } else {
      NoneCurrent(cr, q, cs);
      if SearchRetired(cr, q, cs, 0).Some? {
        var i, j := FirstRetired(cr, q, cs, 0);
      } else {
        NoneRetired(cr, q, cs);
        UsableResolves(cr, q.fp, u, cs);
      }
    }
  }

  lemma UsableResolves(cr: Crypto, fp: Bytes, u: Unlocked, cs: seq<Contact>)
    ensures AnyUsable(cr, fp, u, cs) <==> Resolves(cr, fp, u, cs)
  {
    forall i, j | 0 <= i < |cs| && 0 <= j < |cs[i].previous| && EqualFold(cs[i].previous[j].key.fp, fp)
                  && cr.decode(cs[i].previous[j].key.sign).Some?
      ensures UsableRetired(cr, fp, cs, |cs|)
    {
      assert Usable(cr, fp, RetiredKey(cs[i], j));
      assert UsableRetiredOf(cr, fp, cs[i], |cs[i].previous|);
    }
    forall i | 0 <= i < |cs| && EqualFold(cs[i].key.fp, fp) && cr.decode(cs[i].key.sign).Some?
      ensures UsableCurrent(cr, fp, cs, |cs|)
    {
      assert Usable(cr, fp, CurrentKey(cs[i]));
    }
  }

  // ----- the search loops -----

  /** One try of a recorded key; `resolved` remembers that a usable one was seen. */
  method Try(cr: Crypto, q: Claim, c: Candidate, resolved0: bool) returns (hit: bool, resolved: bool)
    ensures hit == Accepts(cr, q, c)
    ensures resolved == (resolved0 || Usable(cr, q.fp, c))
  {
    hit, resolved := false, resolved0;
    if EqualFold(c.fp, q.fp) {
      var pub := cr.decode(c.sign);
      if pub.Some? {
        resolved := true;
        hit := cr.verify(q.msg, q.sig, pub.value);
      }
    }
  }

  method TryCurrent(cr: Crypto, q: Claim, cs: seq<Contact>) returns (hit: Option<Via>, resolved: bool)
    ensures hit == SearchCurrent(cr, q, cs, 0)
    ensures hit.None? ==> resolved == UsableCurrent(cr, q.fp, cs, |cs|)
  {
    hit, resolved := None, false;
    for i := 0 to |cs|
      invariant SearchCurrent(cr, q, cs, 0) == SearchCurrent(cr, q, cs, i)
      invariant resolved == UsableCurrent(cr, q.fp, cs, i)
    {
      var ok;
      ok, resolved := Try(cr, q, CurrentKey(cs[i]), resolved);
      if ok { return Some(CurrentKey(cs[i]).via), true; }
    }
  }

  method TryRetiredOf(cr: Crypto, q: Claim, c: Contact, resolved0: bool) returns (hit: Option<Via>, resolved: bool)
    ensures hit == SearchRetiredOf(cr, q, c, 0)
    ensures hit.None? ==> resolved == (resolved0 || UsableRetiredOf(cr, q.fp, c, |c.previous|))
  {
    hit, resolved := None, resolved0;
    for j := 0 to |c.previous|
      invariant SearchRetiredOf(cr, q, c, 0) == SearchRetiredOf(cr, q, c, j)
      invariant resolved == (resolved0 || UsableRetiredOf(cr, q.fp, c, j))
    {
      var ok;
      ok, resolved := Try(cr, q, RetiredKey(c, j), resolved);
      if ok { return Some(RetiredKey(c, j).via), true; }
    }
  }

  method TryRetired(cr: Crypto, q: Claim, cs: seq<Contact>, resolved0: bool) returns (hit: Option<Via>, resolved: bool)
    ensures hit == SearchRetired(cr, q, cs, 0)
    ensures hit.None? ==> resolved == (resolved0 || UsableRetired(cr, q.fp, cs, |cs|))
  {
    hit, resolved := None, resolved0;
    for i := 0 to |cs|
      invariant hit.None? && SearchRetired(cr, q, cs, 0) == SearchRetired(cr, q, cs, i)
      invariant resolved == (resolved0 || UsableRetired(cr, q.fp, cs, i))
    {
      hit, resolved := TryRetiredOf(cr, q, cs[i], resolved);
      if hit.Some? { return; }
    }
  }

  /** verifySignature: current keys, then retired keys, then ourselves. */
  method VerifySignature(cr: Crypto, q: Claim, u: Unlocked, cs: seq<Contact>) returns (r: VerifyResult)
    ensures r == SignatureResult(cr, q, u, cs)
  {
    if q.fp == [] { return VerifyResult(UnknownSigner, [], Nobody); }
    var hit, resolved := TryCurrent(cr, q, cs);
    if hit.Some? { return VerifyResult(Verified, q.fp, hit.value); }
    hit, resolved := TryRetired(cr, q, cs, resolved);
    if hit.Some? { return VerifyResult(Verified, q.fp, hit.value); }
    var ok;
    ok, resolved := Try(cr, q, OwnKey(u), resolved);
    if ok { return VerifyResult(Verified, q.fp, OwnKey(u).via); }
    r := VerifyResult(if resolved then Failed else UnknownSigner, q.fp, Nobody);
  }

  // ----- the verdict -----

  function ClaimedSigner(m: Metadata): Bytes {
    if ValidFingerprint(m.senderFP) then m.senderFP else []
  }

  function ContainerMessage(p: Profile, plaintextDigest: Bytes, ciphertextDigest: Bytes): Bytes {
    Canonical(ContainerMsg(p, plaintextDigest, ciphertextDigest))
  }

  /** verdict */
  function VerdictOf(cr: Crypto, sh: StreamHeader, m: Metadata, sealedRaw: Bytes, pd: Bytes, cd: Bytes,
                     u: Unlocked, cs: seq<Contact>): VerifyResult
  {
    var failed := VerifyResult(Failed, ClaimedSigner(m), Nobody);
    if !sh.isPrivate && sh.raw != sealedRaw then failed
    else if !m.isSigned then
      if sh.signature != [] then failed else VerifyResult(Unsigned, [], Nobody)
    else if ClaimedSigner(m) == [] || sh.signature == [] then failed
    else SignatureResult(cr, Claim(ContainerMessage(sh.profile, pd, cd), sh.signature, ClaimedSigner(m)), u, cs)
  }

  /** legacyVerdict */
  function LegacyVerdict(m: Option<Metadata>, signature: Bytes): VerifyResult {
    if (m.None? || !m.value.isSigned) && signature == [] then VerifyResult(Unsigned, [], Nobody)
    else VerifyResult(Failed, if m.Some? then ClaimedSigner(m.value) else [], Nobody)
  }

  /** The wire agrees with the sealed metadata and both speak of a signature. */
  predicate WellFramed(sh: StreamHeader, m: Metadata, sealedRaw: Bytes) {
    && (sh.isPrivate || sh.raw == sealedRaw)
    && m.isSigned && ValidFingerprint(m.senderFP) && sh.signature != []
  }

  /** Verified means exactly that the framing is consistent and that some key on
      record under the sealed fingerprint accepts the signature over profile,
      plaintext and ciphertext; given consistent framing, the signer is unknown
      exactly when no usable key is on record under it, and the signer named is the one the
      search names. */
  lemma VerdictExact(cr: Crypto, sh: StreamHeader, m: Metadata, sealedRaw: Bytes, pd: Bytes, cd: Bytes, u: Unlocked,
                     cs: seq<Contact>)
    ensures var v := VerdictOf(cr, sh, m, sealedRaw, pd, cd, u, cs);
            var q := Claim(ContainerMessage(sh.profile, pd, cd), sh.signature, m.senderFP);
            && (v.status == Verified <==>
                  WellFramed(sh, m, sealedRaw) && exists c :: OnRecord(cs, u, c) && Accepts(cr, q, c))
            && (v.status == UnknownSigner <==>
                  WellFramed(sh, m, sealedRaw) && forall c :: OnRecord(cs, u, c) ==> !Usable(cr, m.senderFP, c))
            && (v.status == Unsigned <==>
                  (sh.isPrivate || sh.raw == sealedRaw) && !m.isSigned && sh.signature == [])
            && (v.status == Verified ==> v.signerFP == m.senderFP)
            && (v.signerFP == [] || v.signerFP == m.senderFP)
            && (if WellFramed(sh, m, sealedRaw) then v == SignatureResult(cr, q, u, cs) else v.via == Nobody)
  {
    var q := Claim(ContainerMessage(sh.profile, pd, cd), sh.signature, m.senderFP);
    SearchComplete(cr, q, u, cs);
    if FirstHit(cr, q, u, cs).Some? {
      var c :| OnRecord(cs, u, c) && Accepts(cr, q, c);
      assert Usable(cr, m.senderFP, c);
    }
  }
}
