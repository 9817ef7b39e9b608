/** Contact key continuity: verifying and applying rotations and revocations, and what an
    inbox item may do to a contact. */
module Continuity {
  import opened Wrappers
  import opened Bytes
  import opened SignedMessages

  /** Signatures, hashing, base64 and label rules, as the code calls them. */
  datatype Crypto = Crypto(
    verify: (Bytes, Bytes, Bytes) -> bool,      // message, signature, public key
    fingerprint: (Bytes, Bytes) -> Bytes,       // encryption key, signing key
    decode: Bytes -> Option<Bytes>,             // base64
    validLock: LockBundle -> bool,              // ValidateLockBundle
    handle: LockBundle -> Bytes,                // the alias SaveFromLock picks
    shortFP: Bytes -> Bytes)

  /** The empty string is no ML-DSA-65 key, and fingerprints are never empty. */
  ghost predicate Sane(cr: Crypto) {
    && (cr.decode([]).Some? ==> forall m, s :: !cr.verify(m, s, cr.decode([]).value))
    && (forall e, s :: cr.fingerprint(e, s) != [])
  }

  datatype Key = Key(enc: Bytes, sign: Bytes, fp: Bytes)

  const NO_KEY := Key([], [], [])

  datatype PreviousKey = PreviousKey(key: Key, revokedAt: int)

  datatype Contact = Contact(id: Bytes, alias: Bytes, email: Bytes, key: Key, previous: seq<PreviousKey>)

  datatype BundleType = LockType | RevokeType | RotateType

  datatype ParsedBundle = ParsedBundle(kind: BundleType, lock: Option<LockBundle>,
                                     revocation: Option<Revocation>, sig: Bytes)

  function LockKey(l: LockBundle): Key { Key(l.encPubKey, l.signPubKey, l.fingerprint) }

  // ----- verification -----

  predicate VerifyFingerprint(cr: Crypto, l: LockBundle) {
    cr.decode(l.signPubKey).Some? && cr.fingerprint(l.encPubKey, cr.decode(l.signPubKey).value) == l.fingerprint
  }

  /** decode, decode, verify: the tail all three checks share. */
  predicate VerifyUnder(cr: Crypto, msg: Bytes, sig: Bytes, signPubKey: Bytes) {
    && cr.decode(sig).Some? && cr.decode(signPubKey).Some?
    && cr.verify(msg, cr.decode(sig).value, cr.decode(signPubKey).value)
  }

  predicate VerifyLockSelfSig(cr: Crypto, l: LockBundle) {
    l.sig != [] && VerifyFingerprint(cr, l) && VerifyUnder(cr, Canonical(LockMsg(l)), l.sig, l.signPubKey)
  }

  predicate VerifyContinuity(rev: Revocation, c: Contact) {
    rev.revokedFingerprint == c.key.fp && (c.id != [] ==> rev.id == c.id)
  }

  predicate VerifyRotation(cr: Crypto, b: ParsedBundle, c: Contact) {
    && b.lock.Some? && b.revocation.Some?
    && VerifyLockSelfSig(cr, b.lock.value)
    && VerifyContinuity(b.revocation.value, c)
    && VerifyUnder(cr, Canonical(RotationMsg(b.revocation.value, b.lock.value)), b.sig, c.key.sign)
  }

  predicate VerifyRevocation(cr: Crypto, b: ParsedBundle, c: Contact) {
    && b.revocation.Some?
    && VerifyContinuity(b.revocation.value, c)
    && VerifyUnder(cr, Canonical(RevocationMsg(b.revocation.value)), b.sig, c.key.sign)
  }

  // ----- import -----

  /** FindByID: the first contact with the id. */
  function FindByID(cs: seq<Contact>, id: Bytes): (r: Option<nat>)
    ensures r.Some? ==> r.value < |cs| && cs[r.value].id == id
    ensures forall j :: 0 <= j < (if r.Some? then r.value else |cs|) ==> cs[j].id != id
  {
    if cs == [] then None
    else
      var front := FindByID(cs[..|cs| - 1], id);
      if front.Some? then front else if cs[|cs| - 1].id == id then Some(|cs| - 1) else None
  }

  /** Same alias or same email, an empty one matching nothing. */
  predicate SameHandle(c: Contact, alias: Bytes, email: Bytes) {
    (alias != [] && c.alias == alias) || (email != [] && c.email == email)
  }

  /** FindDuplicate: the first contact with the alias or the email. */
  function FindDuplicate(cs: seq<Contact>, alias: Bytes, email: Bytes): (r: Option<nat>)
    ensures r.Some? ==> r.value < |cs| && SameHandle(cs[r.value], alias, email)
    ensures forall j :: 0 <= j < (if r.Some? then r.value else |cs|) ==> !SameHandle(cs[j], alias, email)
  {
    if cs == [] then None
    else
      var front := FindDuplicate(cs[..|cs| - 1], alias, email);
      if front.Some? then front
      else if SameHandle(cs[|cs| - 1], alias, email) then Some(|cs| - 1)
      else None
  }

  datatype ImportResult = Malformed | NoMatch | Update(index: nat) | Revoke(index: nat)

  function MatchOr(m: Option<nat>, revoke: bool): ImportResult {
    if m.None? then NoMatch else if revoke then Revoke(m.value) else Update(m.value)
  }

  /** ProcessImport. A bare lock can match a contact too, by id, handle or email. */
  function ProcessImport(cr: Crypto, b: ParsedBundle, cs: seq<Contact>): (r: ImportResult)
    ensures r.Update? || r.Revoke? ==> r.index < |cs|
  {
    match b.kind
    case LockType =>
      if b.lock.None? || !cr.validLock(b.lock.value) then Malformed
      else
        var l := b.lock.value;
        var byID := if l.id == [] then None else FindByID(cs, l.id);
        if byID.Some? then Update(byID.value)
        else MatchOr(FindDuplicate(cs, if l.alias == [] then l.name else l.alias, l.email), false)
    case RevokeType =>
      if b.revocation.None? then Malformed else MatchOr(FindByID(cs, b.revocation.value.id), true)
    case RotateType =>
      if b.lock.None? || b.revocation.None? || !cr.validLock(b.lock.value) then Malformed
      else MatchOr(FindByID(cs, b.revocation.value.id), false)
  }

  function Retire(c: Contact, now: int): seq<PreviousKey> { c.previous + [PreviousKey(c.key, now)] }

  /** ApplyUpdate */
  function ApplyUpdate(c: Contact, l: LockBundle, now: int): Contact {
    var handle := if l.alias == [] then l.name else l.alias;
    c.(previous := Retire(c, now), key := LockKey(l),
       alias := if handle != [] then handle else c.alias,
       email := if l.email != [] then l.email else c.email)
  }

  /** ApplyRevoke */
  function ApplyRevoke(c: Contact, now: int): Contact {
    c.(previous := Retire(c, now), key := NO_KEY)
  }

  datatype Outcome = Ignored | Done | Rejected

  /** applyBundleToContacts */
  function ApplyBundle(cr: Crypto, cs: seq<Contact>, b: ParsedBundle, now: int): (Outcome, seq<Contact>) {
    match ProcessImport(cr, b, cs)
    case Malformed => (Rejected, cs)
    case NoMatch => (Ignored, cs)
    case Update(i) =>
      if VerifyRotation(cr, b, cs[i]) then (Done, cs[i := ApplyUpdate(cs[i], b.lock.value, now)]) else (Rejected, cs)
    case Revoke(i) =>
      if VerifyRevocation(cr, b, cs[i]) then (Done, cs[i := ApplyRevoke(cs[i], now)]) else (Rejected, cs)
  }

  /** The current-key match of SaveFromLock. */
  function FindByFP(cs: seq<Contact>, fp: Bytes): (r: Option<nat>)
    ensures r.Some? ==> r.value < |cs| && cs[r.value].key.fp == fp
    ensures forall j :: 0 <= j < (if r.Some? then r.value else |cs|) ==> cs[j].key.fp != fp
  {
    if cs == [] then None
    else
      var front := FindByFP(cs[..|cs| - 1], fp);
      if front.Some? then front else if cs[|cs| - 1].key.fp == fp then Some(|cs| - 1) else None
  }

  /** SaveFromLock for a lock that passed its checks. */
  function SaveFromLock(cr: Crypto, cs: seq<Contact>, l: LockBundle): seq<Contact> {
    var m := FindByFP(cs, l.fingerprint);
    var alias := cr.handle(l);
    if m.Some? then
      var c := cs[m.value];
      cs[m.value := Contact(l.id, alias, l.email, c.key.(enc := l.encPubKey, sign := l.signPubKey), c.previous)]
    else
      var taken := exists i :: 0 <= i < |cs| && cs[i].alias == alias;
      cs + [Contact(l.id, if taken then alias + Ascii(" (") + cr.shortFP(l.fingerprint) + Ascii(")") else alias,
                    l.email, LockKey(l), [])]
  }

  // ----- one inbox item -----

  /** A pending item after fetching, unlocking, decrypting and parsing. */
  datatype Item = Request | Unreadable | Accept(lock: LockBundle) | KeyChange(rotation: bool, bundle: ParsedBundle)

  /** What handling an item does to the contact list. */
  function Handle(cr: Crypto, cs: seq<Contact>, it: Item, now: int): seq<Contact> {
    match it
    case Accept(l) => if VerifyLockSelfSig(cr, l) && cr.validLock(l) then SaveFromLock(cr, cs, l) else cs
    case KeyChange(_, b) => ApplyBundle(cr, cs, b, now).1
    case _ => cs
  }

  // ----- custody -----

  /** A key in base64 accepts the signature, in base64 too. */
  ghost predicate SignedUnder(cr: Crypto, msg: Bytes, sig: Bytes, key: Bytes) {
    exists pub, raw :: cr.decode(key) == Some(pub) && cr.decode(sig) == Some(raw) && cr.verify(msg, raw, pub)
  }

  /** The lock is signed by its own key, and its fingerprint is the hash of its keys. */
  ghost predicate SelfSigned(cr: Crypto, l: LockBundle) {
    && l.sig != [] && SignedUnder(cr, Canonical(LockMsg(l)), l.sig, l.signPubKey)
    && exists pub :: cr.decode(l.signPubKey) == Some(pub) && cr.fingerprint(l.encPubKey, pub) == l.fingerprint
  }

  /** The key change from c to c' was authorised: a rotation signed under the very
      key it retires, naming that key's fingerprint, and installing the keys of the
      self-signed lock it carries; or a revocation so signed, leaving no key. */
  ghost predicate Authorised(cr: Crypto, it: Item, c: Contact, c': Contact) {
    && it.KeyChange?
    && var b := it.bundle;
    && b.revocation.Some? && b.revocation.value.revokedFingerprint == c.key.fp
    && if c'.key == NO_KEY && b.kind.RevokeType?
       then SignedUnder(cr, Canonical(RevocationMsg(b.revocation.value)), b.sig, c.key.sign)
       else
         && b.lock.Some? && c'.key == LockKey(b.lock.value) && SelfSigned(cr, b.lock.value)
         && SignedUnder(cr, Canonical(RotationMsg(b.revocation.value, b.lock.value)), b.sig, c.key.sign)
  }

  /** What one item may do to one contact. */
  ghost predicate Evolves(cr: Crypto, it: Item, c: Contact, c': Contact, now: int) {
    || (c'.key.fp == c.key.fp && c'.previous == c.previous && (c'.key != c.key ==> it.Accept? && Bound(cr, c'.key)))
    || (c'.previous == Retire(c, now) && Authorised(cr, it, c, c'))
  }

  /** The fingerprint is the hash of the keys. */
  predicate Bound(cr: Crypto, k: Key) {
    cr.decode(k.sign).Some? && cr.fingerprint(k.enc, cr.decode(k.sign).value) == k.fp
  }

  lemma HandleEvolves(cr: Crypto, cs: seq<Contact>, it: Item, now: int, i: nat)
    requires i < |cs|
    ensures |cs| <= |Handle(cr, cs, it, now)|
    ensures Evolves(cr, it, cs[i], Handle(cr, cs, it, now)[i], now)
  {
  }

  // ----- runs -----

  /** The contact list before and after each of a sequence of handled items. */
  ghost predicate Run(cr: Crypto, states: seq<seq<Contact>>, items: seq<Item>, times: seq<int>) {
    && |states| == |items| + 1 && |times| == |items|
    && forall k :: 0 <= k < |items| ==> states[k + 1] == Handle(cr, states[k], items[k], times[k])
  }

  lemma {:induction false} ContactsPersist(cr: Crypto, states: seq<seq<Contact>>, items: seq<Item>, times: seq<int>,
                                           m: nat, n: nat, i: nat)
    requires Run(cr, states, items, times) && m <= n < |states| && i < |states[m]|
    ensures i < |states[n]|
    decreases n
  {
    if m < n {
      ContactsPersist(cr, states, items, times, m, n - 1, i);
      HandleEvolves(cr, states[n - 1], items[n - 1], times[n - 1], i);
    }
  }

  /** PreviousKeys only ever grows, and only at its end. */
  lemma {:induction false} PreviousKeysGrow(cr: Crypto, states: seq<seq<Contact>>, items: seq<Item>, times: seq<int>,
                                            m: nat, n: nat, i: nat)
    requires Run(cr, states, items, times) && m <= n < |states| && i < |states[m]|
    ensures i < |states[n]| && states[m][i].previous <= states[n][i].previous
    decreases n
  {
    if m < n {
      PreviousKeysGrow(cr, states, items, times, m, n - 1, i);
      HandleEvolves(cr, states[n - 1], items[n - 1], times[n - 1], i);
    }
  }

  /** The fingerprint the contact went by in its m-th key period. */
  function PeriodFP(c: Contact, m: nat): Bytes
    requires m <= |c.previous|
  {
    if m < |c.previous| then c.previous[m].key.fp else c.key.fp
  }

  /** What the last item of a run did to a contact. */
  lemma LastStep(cr: Crypto, states: seq<seq<Contact>>, items: seq<Item>, times: seq<int>, n: nat, i: nat)
    requires Run(cr, states, items, times) && 0 < n < |states| && i < |states[0]|
    ensures i < |states[n - 1]| && i < |states[n]|
    ensures Evolves(cr, items[n - 1], states[n - 1][i], states[n][i], times[n - 1])
  {
    ContactsPersist(cr, states, items, times, 0, n - 1, i);
    HandleEvolves(cr, states[n - 1], items[n - 1], times[n - 1], i);
  }

  /** Keys retired before stay on record, and the one that came next stays known. */
  lemma HistoryStays(cr: Crypto, it: Item, c: Contact, c': Contact, now: int, j: nat)
    requires Evolves(cr, it, c, c', now) && j < |c.previous|
    ensures j < |c'.previous| && c'.previous[j] == c.previous[j] && PeriodFP(c', j + 1) == PeriodFP(c, j + 1)
  {
  }

  /** A further one is the key that the item retired. */
  lemma HistoryGrows(cr: Crypto, it: Item, c: Contact, c': Contact, now: int, j: nat)
    requires Evolves(cr, it, c, c', now) && |c.previous| <= j < |c'.previous|
    ensures j == |c.previous| && c'.previous[j] == PreviousKey(c.key, now)
    ensures Authorised(cr, it, c, c') && PeriodFP(c', j + 1) == c'.key.fp
  {
  }

  /** Chain of custody. For every key retired during a run there is the one item
      that retired it: signed under that key, naming its fingerprint, and installing
      the key the contact went by next. */
  lemma {:induction false} ChainOfCustody(cr: Crypto, states: seq<seq<Contact>>, items: seq<Item>, times: seq<int>,
                                          n: nat, i: nat, j: nat)
    returns (k: nat)
    requires Run(cr, states, items, times) && n < |states| && i < |states[0]|
    requires i < |states[n]| && |states[0][i].previous| <= j < |states[n][i].previous|
    ensures k < n && i < |states[k]| && i < |states[k + 1]|
    ensures |states[k][i].previous| == j && states[n][i].previous[j] == PreviousKey(states[k][i].key, times[k])
    ensures Authorised(cr, items[k], states[k][i], states[k + 1][i])
    ensures PeriodFP(states[n][i], j + 1) == states[k + 1][i].key.fp
    decreases n
  {
    LastStep(cr, states, items, times, n, i);
    var c, c' := states[n - 1][i], states[n][i];
    if j < |c.previous| {
      HistoryStays(cr, items[n - 1], c, c', times[n - 1], j);
      k := ChainOfCustody(cr, states, items, times, n - 1, i, j);
    } else {
      HistoryGrows(cr, items[n - 1], c, c', times[n - 1], j);
      k := n - 1;
    }
  }

  /** A contact's fingerprint never changes except by an item authorised under the
      key it replaces. */
  lemma NewKeyNeedsOldKey(cr: Crypto, states: seq<seq<Contact>>, items: seq<Item>, times: seq<int>, k: nat, i: nat)
    requires Run(cr, states, items, times) && k < |items| && i < |states[k]|
    requires i < |states[k + 1]| && states[k + 1][i].key.fp != states[k][i].key.fp
    ensures Authorised(cr, items[k], states[k][i], states[k + 1][i])
    ensures states[k + 1][i].previous == Retire(states[k][i], times[k])
  {
    HandleEvolves(cr, states[k], items[k], times[k], i);
  }

  /** A revoked contact never regains a key. */
  lemma {:induction false} RevocationIsFinal(cr: Crypto, states: seq<seq<Contact>>, items: seq<Item>,
                                             times: seq<int>, m: nat, n: nat, i: nat)
    requires Sane(cr) && Run(cr, states, items, times) && m <= n < |states| && i < |states[m]|
    requires states[m][i].key == NO_KEY
    ensures i < |states[n]| && states[n][i] == states[m][i]
    decreases n
  {
    if m < n {
      RevocationIsFinal(cr, states, items, times, m, n - 1, i);
      HandleEvolves(cr, states[n - 1], items[n - 1], times[n - 1], i);
    }
  }

  /** A stranger changes nothing: if no key on record verifies an item's signature,
      no contact's keys or history change. */
  lemma StrangersAreRejected(cr: Crypto, cs: seq<Contact>, rotation: bool, b: ParsedBundle, now: int)
    requires forall i, m :: 0 <= i < |cs| ==> !VerifyUnder(cr, m, b.sig, cs[i].key.sign)
    ensures Handle(cr, cs, KeyChange(rotation, b), now) == cs
  {
  }

  // ----- keys that come back -----

  /** Some contact goes by the fingerprint now. */
  ghost predicate GoesBy(cs: seq<Contact>, fp: Bytes) { exists i :: 0 <= i < |cs| && cs[i].key.fp == fp }

  /** The item carries a lock with the fingerprint, signed by itself: an accept that passes its
      checks, or a rotation that verifies under the contact it changes. */
  ghost predicate Brings(cr: Crypto, cs: seq<Contact>, it: Item, fp: Bytes) {
    match it
    case Accept(l) => VerifyLockSelfSig(cr, l) && cr.validLock(l) && l.fingerprint == fp
    case KeyChange(_, b) =>
      var r := ProcessImport(cr, b, cs);
      r.Update? && VerifyRotation(cr, b, cs[r.index]) && b.lock.value.fingerprint == fp
    case _ => false
  }

  /** A fingerprint that no contact goes by, a revoked one included, becomes current exactly by
      an item that brings it. */
  lemma BecomesCurrentExact(cr: Crypto, cs: seq<Contact>, it: Item, now: int, fp: Bytes)
    requires fp != [] && !GoesBy(cs, fp)
    ensures GoesBy(Handle(cr, cs, it, now), fp) <==> Brings(cr, cs, it, fp)
  {
    var cs' := Handle(cr, cs, it, now);
    match it {
      case Accept(l) =>
        if VerifyLockSelfSig(cr, l) && cr.validLock(l) {
          assert FindByFP(cs, l.fingerprint).Some? || cs'[|cs|].key.fp == l.fingerprint;
          assert forall i :: 0 <= i < |cs| ==> cs'[i].key.fp == cs[i].key.fp;
        }
      case KeyChange(_, b) =>
        var r := ProcessImport(cr, b, cs);
        if r.Update? && VerifyRotation(cr, b, cs[r.index]) {
          assert cs'[r.index].key.fp == b.lock.value.fingerprint;
        }
      case _ =>
    }
  }

  /** Over whole runs: what is current at the end and was not at the start was brought by some
      item of the run. */
  lemma {:induction false} CurrentWasBrought(cr: Crypto, states: seq<seq<Contact>>, items: seq<Item>,
                                             times: seq<int>, n: nat, fp: Bytes)
    returns (k: nat)
    requires Run(cr, states, items, times) && n < |states| && fp != []
    requires !GoesBy(states[0], fp) && GoesBy(states[n], fp)
    ensures k < n && Brings(cr, states[k], items[k], fp)
  {
    if GoesBy(states[n - 1], fp) {
      k := CurrentWasBrought(cr, states, items, times, n - 1, fp);
    } else {
      k := n - 1;
      BecomesCurrentExact(cr, states[k], items[k], times[k], fp);
    }
  }

  /** Nobody checks that such a key has been revoked. After a verified revocation of the one
      contact that went by it, any valid self-signed accept of that very lock makes it current
      again, under a new contact with no history. */
  lemma RevokedKeyReturns(cr: Crypto, cs: seq<Contact>, b: ParsedBundle, l: LockBundle, now: int, later: int)
    requires ProcessImport(cr, b, cs).Revoke? && VerifyRevocation(cr, b, cs[ProcessImport(cr, b, cs).index])
    requires var i := ProcessImport(cr, b, cs).index;
      LockKey(l) == cs[i].key && l.fingerprint != [] &&
      forall j :: 0 <= j < |cs| && cs[j].key.fp == l.fingerprint ==> j == i
    requires VerifyLockSelfSig(cr, l) && cr.validLock(l)
    ensures var i := ProcessImport(cr, b, cs).index;
      var cs1 := Handle(cr, cs, KeyChange(false, b), now);
      var cs2 := Handle(cr, cs1, Accept(l), later);
      && !GoesBy(cs1, cs[i].key.fp) && |cs1| == |cs| && |cs2| == |cs| + 1
      && cs2[i].key == NO_KEY && cs2[|cs|].key == cs[i].key && cs2[|cs|].previous == []
  {
  }
}
