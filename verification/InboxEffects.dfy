/** What handling an inbox item does, field by field, and to which contact. */
module InboxEffects {
  import opened Wrappers
  import opened Bytes
  import opened SignedMessages
  import opened Continuity

  // ----- rotations and revocations -----

  ghost predicate FirstWithID(cs: seq<Contact>, i: int, id: Bytes) {
    0 <= i < |cs| && cs[i].id == id && forall k :: 0 <= k < i ==> cs[k].id != id
  }

  /** The alias a lock publishes, or else its name. */
  function Published(l: LockBundle): Bytes { if l.alias != [] then l.alias else l.name }

  /** The contact goes by that alias or has that email. */
  predicate Goes(c: Contact, alias: Bytes, email: Bytes) {
    (alias != [] && alias == c.alias) || (email != [] && email == c.email)
  }

  ghost predicate FirstWithHandle(cs: seq<Contact>, i: int, alias: Bytes, email: Bytes) {
    0 <= i < |cs| && Goes(cs[i], alias, email) && forall k :: 0 <= k < i ==> !Goes(cs[k], alias, email)
  }

  /** All the parts that the kind of bundle needs are there, the lock a valid one. */
  predicate WellFormed(cr: Crypto, b: ParsedBundle) {
    && (b.kind != LockType ==> b.revocation.Some?)
    && (b.kind != RevokeType ==> b.lock.Some? && cr.validLock(b.lock.value))
  }

  /** The contact the bundle speaks of: the one with the id it revokes; for a bare lock the one with
      the lock's id, or if there is none the one with its handle or email. */
  ghost predicate SpeaksOf(cr: Crypto, b: ParsedBundle, cs: seq<Contact>, i: int) {
    && WellFormed(cr, b)
    && if b.kind != LockType then FirstWithID(cs, i, b.revocation.value.id)
       else
         var l := b.lock.value;
         || (l.id != [] && FirstWithID(cs, i, l.id))
         || ((l.id == [] || forall k :: 0 <= k < |cs| ==> cs[k].id != l.id)
             && FirstWithHandle(cs, i, Published(l), l.email))
  }

  /** It names the contact's id and current key. */
  predicate Names(b: ParsedBundle, c: Contact) {
    && b.revocation.Some? && b.revocation.value.revokedFingerprint == c.key.fp
    && (c.id == [] || c.id == b.revocation.value.id)
  }

  /** It is signed under the contact's current key: a revocation as such, all else as a rotation to a
      self-signed lock. */
  ghost predicate Convinces(cr: Crypto, b: ParsedBundle, c: Contact) {
    && Names(b, c)
    && if b.kind == RevokeType then SignedUnder(cr, Canonical(RevocationMsg(b.revocation.value)), b.sig, c.key.sign)
       else
         && b.lock.Some? && SelfSigned(cr, b.lock.value)
         && SignedUnder(cr, Canonical(RotationMsg(b.revocation.value, b.lock.value)), b.sig, c.key.sign)
  }

  /** The old key is kept with the date, the new one is the lock's; alias and email follow the lock
      where it has them, and the id stays. */
  predicate Rotated(c: Contact, c': Contact, l: LockBundle, now: int) {
    && c'.id == c.id && c'.previous == c.previous + [PreviousKey(c.key, now)]
    && c'.key.enc == l.encPubKey && c'.key.sign == l.signPubKey && c'.key.fp == l.fingerprint
    && (l.alias != [] ==> c'.alias == l.alias)
    && (l.alias == [] && l.name != [] ==> c'.alias == l.name)
    && (l.alias == [] && l.name == [] ==> c'.alias == c.alias)
    && (l.email != [] ==> c'.email == l.email)
    && (l.email == [] ==> c'.email == c.email)
  }

  /** The old key is kept with the date, and no key takes its place. */
  predicate Withdrawn(c: Contact, c': Contact, now: int) {
    && c'.id == c.id && c'.alias == c.alias && c'.email == c.email
    && c'.previous == c.previous + [PreviousKey(c.key, now)]
    && c'.key.enc == [] && c'.key.sign == [] && c'.key.fp == []
  }

  lemma SpokenOf(cr: Crypto, b: ParsedBundle, cs: seq<Contact>, i: int)
    ensures var r := ProcessImport(cr, b, cs); SpeaksOf(cr, b, cs, i) <==> (r.Update? || r.Revoke?) && r.index == i
    ensures ProcessImport(cr, b, cs).Revoke? ==> b.kind == RevokeType
    ensures ProcessImport(cr, b, cs).Update? ==> b.kind != RevokeType
    ensures ProcessImport(cr, b, cs).Malformed? <==> !WellFormed(cr, b)
  {
    if b.kind == LockType && b.lock.Some? {
      var l := b.lock.value;
      assert forall c ::
          Goes(c, Published(l), l.email) == SameHandle(c, if l.alias == [] then l.name else l.alias, l.email);
    }
  }

  lemma Convinced(cr: Crypto, b: ParsedBundle, c: Contact)
    ensures b.kind != RevokeType ==> (VerifyRotation(cr, b, c) <==> Convinces(cr, b, c))
    ensures b.kind == RevokeType ==> (VerifyRevocation(cr, b, c) <==> Convinces(cr, b, c))
  {
  }

  /** The bundle takes cs to cs' and the outcome out. */
  ghost predicate BundleDoes(cr: Crypto, b: ParsedBundle, cs: seq<Contact>, now: int, out: Outcome, cs': seq<Contact>) {
    && |cs'| == |cs|
    && (forall i :: 0 <= i < |cs| ==>
          if SpeaksOf(cr, b, cs, i) && Convinces(cr, b, cs[i])
          then if b.kind == RevokeType then Withdrawn(cs[i], cs'[i], now) else Rotated(cs[i], cs'[i], b.lock.value, now)
          else cs'[i] == cs[i])
    && (out.Done? <==> exists i :: SpeaksOf(cr, b, cs, i) && Convinces(cr, b, cs[i]))
    && (out.Ignored? <==> WellFormed(cr, b) && forall i :: !SpeaksOf(cr, b, cs, i))
  }

  /** A bundle changes exactly the one contact it speaks of, if it convinces under that contact's key,
      and that contact as its kind says; it is rejected when it is malformed or does not convince,
      and ignored when it speaks of no one. */
  lemma BundleEffect(cr: Crypto, b: ParsedBundle, cs: seq<Contact>, now: int)
    ensures var (out, cs') := ApplyBundle(cr, cs, b, now); BundleDoes(cr, b, cs, now, out, cs')
  {
    var r := ProcessImport(cr, b, cs);
    forall i ensures SpeaksOf(cr, b, cs, i) <==> (r.Update? || r.Revoke?) && r.index == i {
      SpokenOf(cr, b, cs, i);
    }
    SpokenOf(cr, b, cs, 0);
    if r.Update? || r.Revoke? {
      Convinced(cr, b, cs[r.index]);
      assert SpeaksOf(cr, b, cs, r.index);
    }
  }

  // ----- accepts -----

  /** The contact of a lock, as saved; the history is the one it had. */
  predicate SavedAs(c: Contact, l: LockBundle, alias: Bytes, previous: seq<PreviousKey>) {
    && c.id == l.id && c.alias == alias && c.email == l.email && c.previous == previous
    && c.key.enc == l.encPubKey && c.key.sign == l.signPubKey && c.key.fp == l.fingerprint
  }

  /** Saved over the first contact with its fingerprint, which keeps its history. */
  ghost predicate SavedOver(cr: Crypto, l: LockBundle, cs: seq<Contact>, i: int, cs': seq<Contact>) {
    && 0 <= i < |cs| == |cs'|
    && cs[i].key.fp == l.fingerprint && (forall k :: 0 <= k < i ==> cs[k].key.fp != l.fingerprint)
    && SavedAs(cs'[i], l, cr.handle(l), cs[i].previous) && forall k :: 0 <= k < |cs| && k != i ==> cs'[k] == cs[k]
  }

  /** Saved at the end, no contact having its fingerprint, under an alias that is marked where
      another contact has it already. */
  ghost predicate SavedNew(cr: Crypto, l: LockBundle, cs: seq<Contact>, cs': seq<Contact>) {
    && |cs'| == |cs| + 1 && cs'[..|cs|] == cs && (forall k :: 0 <= k < |cs| ==> cs[k].key.fp != l.fingerprint)
    && ((forall k :: 0 <= k < |cs| ==> cs[k].alias != cr.handle(l)) ==> SavedAs(cs'[|cs|], l, cr.handle(l), []))
    && ((exists k :: 0 <= k < |cs| && cs[k].alias == cr.handle(l)) ==>
          SavedAs(cs'[|cs|], l, cr.handle(l) + Ascii(" (") + cr.shortFP(l.fingerprint) + Ascii(")"), []))
  }

  lemma SaveEffect(cr: Crypto, l: LockBundle, cs: seq<Contact>)
    ensures var cs' := SaveFromLock(cr, cs, l); SavedNew(cr, l, cs, cs') || exists i :: SavedOver(cr, l, cs, i, cs')
  {
    var m := FindByFP(cs, l.fingerprint);
    if m.Some? {
      assert SavedOver(cr, l, cs, m.value, SaveFromLock(cr, cs, l));
    }
  }

  /** An accept saves its lock if that is self-signed and valid, and changes nothing otherwise. */
  lemma AcceptEffect(cr: Crypto, l: LockBundle, cs: seq<Contact>, now: int)
    ensures var cs' := Handle(cr, cs, Accept(l), now);
      if SelfSigned(cr, l) && cr.validLock(l) then SavedNew(cr, l, cs, cs') || exists i :: SavedOver(cr, l, cs, i, cs')
      else cs' == cs
  {
    assert VerifyLockSelfSig(cr, l) <==> SelfSigned(cr, l);
    SaveEffect(cr, l, cs);
  }

  // ----- any item -----

  /** What each kind of item does to the contacts. */
  lemma ItemEffect(cr: Crypto, cs: seq<Contact>, it: Item, now: int)
    ensures var cs' := Handle(cr, cs, it, now);
      match it
      case Accept(l) =>
        if SelfSigned(cr, l) && cr.validLock(l)
        then SavedNew(cr, l, cs, cs') || exists i :: SavedOver(cr, l, cs, i, cs')
        else cs' == cs
      case KeyChange(_, b) => BundleDoes(cr, b, cs, now, ApplyBundle(cr, cs, b, now).0, cs')
      case _ => cs' == cs
  {
    match it
    case Accept(l) => AcceptEffect(cr, l, cs, now);
    case KeyChange(_, b) => BundleEffect(cr, b, cs, now);
    case _ =>
  }
}
