/** Draining the pending inbox: which items are handled, where a drain stops, and what one item
    can do to all those behind it. */
module Inbox {
  import opened Wrappers
  import opened SignedMessages
  import opened Continuity

  /** The calls made in handling an item that can fail and stop the drain. Fetching is not one: an
      item that cannot be fetched is unreadable. */
  datatype Call = Load | Save | Mark | Ack

  /** An item that a drain acknowledges, and so removes from the inbox. */
  predicate Settles(it: Item) { it.Accept? || it.KeyChange? }

  /** A self-signed accept whose labels SaveFromLock refuses. The labels are not signed. */
  predicate Blocks(cr: Crypto, it: Item) {
    it.Accept? && VerifyLockSelfSig(cr, it.lock) && !cr.validLock(it.lock)
  }

  /** validate.ValidateLockBundle: a lock has a name. */
  ghost predicate NameRequired(cr: Crypto) { forall l :: cr.validLock(l) ==> l.name != [] }

  /** Strip any self-signed lock of its name, and accepting with it blocks. */
  lemma NamelessAcceptBlocks(cr: Crypto, l: LockBundle)
    requires NameRequired(cr) && VerifyLockSelfSig(cr, l)
    ensures Blocks(cr, Accept(l.(name := [])))
  {
  }

  /** The item's effect does not reach the store: a load or a save it makes fails. */
  ghost predicate Unsaved(cr: Crypto, cs: seq<Contact>, it: Item, now: int, fails: set<Call>) {
    match it
    case Accept(l) => VerifyLockSelfSig(cr, l) && (Load in fails || Save in fails)
    case KeyChange(_, b) => Load in fails || (ApplyBundle(cr, cs, b, now).0.Done? && Save in fails)
    case _ => false
  }

  /** Handled, it is not acknowledged. An accept is marked as connected first. */
  ghost predicate Unacknowledged(cr: Crypto, it: Item, fails: set<Call>) {
    Settles(it) && (Ack in fails || (it.Accept? && VerifyLockSelfSig(cr, it.lock) && Mark in fails))
  }

  /** The store has what the item does to it, acknowledged or not. */
  ghost predicate Stored(cr: Crypto, cs: seq<Contact>, it: Item, now: int, fails: set<Call>) {
    !Blocks(cr, it) && !Unsaved(cr, cs, it, now, fails)
  }

  ghost predicate Stops(cr: Crypto, cs: seq<Contact>, it: Item, now: int, fails: set<Call>) {
    !Stored(cr, cs, it, now, fails) || Unacknowledged(cr, it, fails)
  }

  /** The calls that handling the item makes, each if those before it succeed: an accept is saved,
      marked and acknowledged, one that is not self-signed only acknowledged, and one whose labels
      are refused none of these; a bundle is looked up in the store, saved if it applies, and
      acknowledged. */
  ghost function CallsMade(cr: Crypto, cs: seq<Contact>, it: Item, now: int): seq<Call> {
    match it
    case Accept(l) => if !SelfSigned(cr, l) then [Ack] else if cr.validLock(l) then [Load, Save, Mark, Ack] else []
    case KeyChange(_, b) => [Load] + (if ApplyBundle(cr, cs, b, now).0.Done? then [Save] else []) + [Ack]
    case _ => []
  }

  /** The drain stops at an item exactly when that blocks or one of its calls fails, and the store
      has the item's effect exactly when none of the calls up to the save is among those. */
  lemma StopsExact(cr: Crypto, cs: seq<Contact>, it: Item, now: int, fails: set<Call>)
    ensures Stops(cr, cs, it, now, fails)
       <==> Blocks(cr, it) || exists c :: c in CallsMade(cr, cs, it, now) && c in fails
    ensures Stored(cr, cs, it, now, fails) <==>
              !Blocks(cr, it) && forall c :: c in CallsMade(cr, cs, it, now) && c in fails ==> c in {Mark, Ack}
  {
    var made := CallsMade(cr, cs, it, now);
    match it
    case Accept(l) =>
      if SelfSigned(cr, l) && cr.validLock(l) {
        assert made[0] == Load && made[1] == Save && made[2] == Mark && made[3] == Ack;
      } else if !SelfSigned(cr, l) {
        assert made[0] == Ack;
      }
    case KeyChange(_, b) =>
      assert made[0] == Load && made[|made| - 1] == Ack && (|made| == 3 ==> made[1] == Save);
      assert |made| == 3 <==> ApplyBundle(cr, cs, b, now).0.Done?;
    case _ =>
  }

  // ----- a whole drain -----

  /** What the first n items leave in the inbox, and make of the contacts. */
  function Unsettled(items: seq<Item>, n: nat): seq<Item>
    requires n <= |items|
  {
    if n == 0 then [] else Unsettled(items, n - 1) + (if Settles(items[n - 1]) then [] else [items[n - 1]])
  }

  function HandleAll(cr: Crypto, cs: seq<Contact>, items: seq<Item>, n: nat, now: int): seq<Contact>
    requires n <= |items|
  {
    if n == 0 then cs else Handle(cr, HandleAll(cr, cs, items, n - 1, now), items[n - 1], now)
  }

  /** What a drain does, wherever it stops, is a run, so everything proved of runs holds of
      drains. */
  lemma DrainIsRun(cr: Crypto, cs: seq<Contact>, items: seq<Item>, n: nat, now: int)
    returns (states: seq<seq<Contact>>, times: seq<int>)
    requires n <= |items|
    ensures Run(cr, states, items[..n], times)
    ensures states[0] == cs && states[n] == HandleAll(cr, cs, items, n, now)
  {
    states := seq(n + 1, k requires 0 <= k <= n => HandleAll(cr, cs, items, k, now));
    times := seq(n, _ => now);
  }

  /** The drain stops at item k, if it gets there. */
  ghost predicate StopsAt(cr: Crypto, cs: seq<Contact>, items: seq<Item>, now: int, fails: nat -> set<Call>, k: nat)
    requires k < |items|
  {
    Stops(cr, HandleAll(cr, cs, items, k, now), items[k], now, fails(k))
  }

  /** How many items the store has, when the drain ends at item n. */
  ghost function Reached(cr: Crypto, cs: seq<Contact>, items: seq<Item>, now: int, fails: nat -> set<Call>,
                         n: nat): (m: nat)
    requires n <= |items|
    ensures n <= m <= |items|
  {
    if n < |items| && Stored(cr, HandleAll(cr, cs, items, n, now), items[n], now, fails(n)) then n + 1 else n
  }

  /** From cs and items to cs' and items': n is the first item at which the drain stops, or the
      end of the listing. What it got past is handled and, where that settles it, gone; what it
      did not get to is untouched. */
  ghost predicate Drains(cr: Crypto, cs: seq<Contact>, items: seq<Item>, now: int, fails: nat -> set<Call>, n: nat,
                         cs': seq<Contact>, items': seq<Item>) {
    && n <= |items|
    && (forall k :: 0 <= k < n ==> !StopsAt(cr, cs, items, now, fails, k))
    && (n < |items| ==> StopsAt(cr, cs, items, now, fails, n))
    && cs' == HandleAll(cr, cs, items, Reached(cr, cs, items, now, fails, n), now)
    && items' == Unsettled(items, n) + items[n..]
  }

  /** A drain in which no call fails handles every item exactly when none blocks. */
  lemma DrainCompletesExact(cr: Crypto, cs: seq<Contact>, items: seq<Item>, now: int, fails: nat -> set<Call>, n: nat,
                            cs': seq<Contact>, items': seq<Item>)
    requires Drains(cr, cs, items, now, fails, n, cs', items') && forall k :: fails(k) == {}
    ensures n == |items| <==> forall k :: 0 <= k < |items| ==> !Blocks(cr, items[k])
    ensures n == |items| ==> cs' == HandleAll(cr, cs, items, n, now) && items' == Unsettled(items, n)
  {
    assert forall k :: 0 <= k < |items| ==> (StopsAt(cr, cs, items, now, fails, k) <==> Blocks(cr, items[k]));
  }

  /** No drain gets past an item that blocks: that item and all behind it stay, and the contacts
      change by items before it alone. */
  lemma BlockedStays(cr: Crypto, cs: seq<Contact>, items: seq<Item>, now: int, fails: nat -> set<Call>, n: nat,
                     cs': seq<Contact>, items': seq<Item>, i: nat)
    returns (j: nat)
    requires Drains(cr, cs, items, now, fails, n, cs', items') && i < |items| && Blocks(cr, items[i])
    ensures n <= i && j <= |items'| && items'[j..] == items[i..]
    ensures Reached(cr, cs, items, now, fails, n) <= i
  {
    assert StopsAt(cr, cs, items, now, fails, i);
    j := |Unsettled(items, n)| + i - n;
    assert items'[j..] == items[n..][i - n..];
  }

  /** One drain of many. What the user or other passes do to the contacts in between is
      arbitrary. */
  datatype Visit = Visit(contacts: seq<Contact>, items: seq<Item>, now: int, fails: nat -> set<Call>, n: nat,
                         contacts': seq<Contact>, items': seq<Item>, before: nat)

  /** Each visit drains, and the next one finds what it left, with `before` arrivals in front of
      it and any number behind. */
  ghost predicate Visits(cr: Crypto, vs: seq<Visit>) {
    && (forall k :: 0 <= k < |vs| ==>
          var v := vs[k]; Drains(cr, v.contacts, v.items, v.now, v.fails, v.n, v.contacts', v.items'))
    && (forall k :: 0 <= k < |vs| - 1 ==>
          vs[k].before <= |vs[k + 1].items| && vs[k].items' <= vs[k + 1].items[vs[k].before..])
  }

  /** From one visit to the next. */
  lemma BlockedNext(cr: Crypto, u: Visit, v: Visit, tail: seq<Item>, i: nat) returns (j: nat)
    requires Drains(cr, u.contacts, u.items, u.now, u.fails, u.n, u.contacts', u.items')
    requires u.before <= |v.items| && u.items' <= v.items[u.before..]
    requires i < |u.items| && tail != [] && Blocks(cr, tail[0]) && tail <= u.items[i..]
    ensures j < |v.items| && tail <= v.items[j..]
  {
    assert u.items[i..][0] == tail[0];
    var l := BlockedStays(cr, u.contacts, u.items, u.now, u.fails, u.n, u.contacts', u.items', i);
    j := l + u.before;
    assert tail <= u.items'[l..];
    assert u.items'[l..] <= v.items[u.before..][l..] == v.items[j..];
  }

  /** Once an item blocks, no later drain ever handles it or anything behind it, for as long as
      it can be read: at every visit they are still there, from position j on, and the contacts
      change by items before j alone. */
  lemma {:induction false} BlockedForever(cr: Crypto, vs: seq<Visit>, i: nat, k: nat) returns (j: nat)
    requires Visits(cr, vs) && k < |vs| && i < |vs[0].items| && Blocks(cr, vs[0].items[i])
    ensures var v := vs[k];
      && j < |v.items| && vs[0].items[i..] <= v.items[j..] && v.n <= j
      && Reached(cr, v.contacts, v.items, v.now, v.fails, v.n) <= j
      && v.contacts' == HandleAll(cr, v.contacts, v.items, Reached(cr, v.contacts, v.items, v.now, v.fails, v.n), v.now)
  {
    var v, tail := vs[k], vs[0].items[i..];
    j := i;
    if k > 0 {
      j := BlockedForever(cr, vs, i, k - 1);
      j := BlockedNext(cr, vs[k - 1], v, tail, j);
    }
    assert v.items[j..][0] == tail[0];
    var _ := BlockedStays(cr, v.contacts, v.items, v.now, v.fails, v.n, v.contacts', v.items', j);
  }

  // ----- the report -----

  datatype DrainReport = DrainReport(requestsWaiting: nat, accepted: nat, rotated: nat, revoked: nat,
                                     ignored: nat, skipped: nat, rejected: nat)

  /** Every item counted. */
  function Total(rep: DrainReport): nat {
    rep.requestsWaiting + rep.accepted + rep.rotated + rep.revoked + rep.ignored + rep.skipped + rep.rejected
  }

  /** Items counted as left in the inbox. */
  function Kept(rep: DrainReport): nat { rep.requestsWaiting + rep.skipped }

  /** recordDrainOutcome */
  function Record(rep: DrainReport, rotation: bool, outcome: Outcome): DrainReport {
    match outcome
    case Rejected => rep.(rejected := rep.rejected + 1)
    case Ignored => rep.(ignored := rep.ignored + 1)
    case Done => if rotation then rep.(rotated := rep.rotated + 1) else rep.(revoked := rep.revoked + 1)
  }

  /** How an item the drain got past is counted. */
  function Counted(cr: Crypto, cs: seq<Contact>, it: Item, now: int, rep: DrainReport): (rep': DrainReport)
    ensures Total(rep') == Total(rep) + 1
    ensures Kept(rep') == Kept(rep) + if Settles(it) then 0 else 1
  {
    match it
    case Request => rep.(requestsWaiting := rep.requestsWaiting + 1)
    case Unreadable => rep.(skipped := rep.skipped + 1)
    case Accept(l) =>
      if VerifyLockSelfSig(cr, l) then rep.(accepted := rep.accepted + 1) else rep.(rejected := rep.rejected + 1)
    case KeyChange(rotation, b) => Record(rep, rotation, ApplyBundle(cr, cs, b, now).0)
  }

  function Tally(cr: Crypto, cs: seq<Contact>, items: seq<Item>, n: nat, now: int): DrainReport
    requires n <= |items|
  {
    if n == 0 then DrainReport(0, 0, 0, 0, 0, 0, 0)
    else Counted(cr, HandleAll(cr, cs, items, n - 1, now), items[n - 1], now, Tally(cr, cs, items, n - 1, now))
  }

  /** Every item is counted once, and those counted as waiting or skipped are those that stay. */
  lemma {:induction false} TallyAddsUp(cr: Crypto, cs: seq<Contact>, items: seq<Item>, n: nat, now: int)
    requires n <= |items|
    ensures Total(Tally(cr, cs, items, n, now)) == n && Kept(Tally(cr, cs, items, n, now)) == |Unsettled(items, n)|
  {
    if n > 0 {
      TallyAddsUp(cr, cs, items, n - 1, now);
    }
  }

  datatype Fate = Waits | IsSkipped | IsAccepted | IsRotated | IsRevoked | IsIgnored | IsRejected

  /** What becomes of an item. */
  ghost function FateIn(cr: Crypto, cs: seq<Contact>, it: Item, now: int): Fate {
    match it
    case Request => Waits
    case Unreadable => IsSkipped
    case Accept(l) => if SelfSigned(cr, l) then IsAccepted else IsRejected
    case KeyChange(rotation, b) =>
      var out := ApplyBundle(cr, cs, b, now).0;
      if out.Rejected? then IsRejected
      else if out.Ignored? then IsIgnored
      else if rotation then IsRotated
      else IsRevoked
  }

  /** ... of item k, those before it having been handled. */
  ghost function FateOf(cr: Crypto, cs: seq<Contact>, items: seq<Item>, k: nat, now: int): Fate
    requires k < |items|
  {
    FateIn(cr, HandleAll(cr, cs, items, k, now), items[k], now)
  }

  /** ... of each of the first n. */
  ghost function Fates(cr: Crypto, cs: seq<Contact>, items: seq<Item>, n: nat, now: int): seq<Fate>
    requires n <= |items|
  {
    seq(n, k requires 0 <= k < n => FateOf(cr, cs, items, k, now))
  }

  ghost function Entry(rep: DrainReport, fate: Fate): nat {
    match fate
    case Waits => rep.requestsWaiting
    case IsSkipped => rep.skipped
    case IsAccepted => rep.accepted
    case IsRotated => rep.rotated
    case IsRevoked => rep.revoked
    case IsIgnored => rep.ignored
    case IsRejected => rep.rejected
  }

  lemma CountedAs(cr: Crypto, cs: seq<Contact>, it: Item, now: int, rep: DrainReport, fate: Fate)
    ensures Entry(Counted(cr, cs, it, now, rep), fate)
         == Entry(rep, fate) + if FateIn(cr, cs, it, now) == fate then 1 else 0
  {
  }

  /** One if item k met that fate, zero otherwise. */
  ghost function Met(cr: Crypto, cs: seq<Contact>, items: seq<Item>, k: nat, now: int, fate: Fate): nat
    requires k < |items|
  {
    if FateOf(cr, cs, items, k, now) == fate then 1 else 0
  }

  lemma OneMore(s: seq<Fate>, f: Fate, fate: Fate)
    ensures multiset(s + [f])[fate] == multiset(s)[fate] + if f == fate then 1 else 0
  {
    assert multiset(s + [f]) == multiset(s) + multiset{f};
  }

  lemma OneMoreFate(cr: Crypto, cs: seq<Contact>, items: seq<Item>, n: nat, now: int, fate: Fate)
    requires n < |items|
    ensures multiset(Fates(cr, cs, items, n + 1, now))[fate] == multiset(Fates(cr, cs, items, n, now))[fate]
              + Met(cr, cs, items, n, now, fate)
  {
    var f, s := FateOf(cr, cs, items, n, now), Fates(cr, cs, items, n, now);
    assert Fates(cr, cs, items, n + 1, now) == s + [f];
    OneMore(s, f, fate);
  }

  lemma OneMoreEntry(cr: Crypto, cs: seq<Contact>, items: seq<Item>, n: nat, now: int, fate: Fate)
    requires n < |items|
    ensures Entry(Tally(cr, cs, items, n + 1, now), fate) == Entry(Tally(cr, cs, items, n, now), fate)
              + Met(cr, cs, items, n, now, fate)
  {
    CountedAs(cr, HandleAll(cr, cs, items, n, now), items[n], now, Tally(cr, cs, items, n, now), fate);
  }

  lemma NothingMetYet(cr: Crypto, cs: seq<Contact>, items: seq<Item>, now: int, fate: Fate)
    ensures Entry(Tally(cr, cs, items, 0, now), fate) == multiset(Fates(cr, cs, items, 0, now))[fate] == 0
  {
    assert Fates(cr, cs, items, 0, now) == [];
  }

  /** The report counts the items by what became of them. */
  lemma {:induction false} TallyCounts(cr: Crypto, cs: seq<Contact>, items: seq<Item>, n: nat, now: int, fate: Fate)
    requires n <= |items|
    ensures Entry(Tally(cr, cs, items, n, now), fate) == multiset(Fates(cr, cs, items, n, now))[fate]
  {
    if n == 0 {
      NothingMetYet(cr, cs, items, now, fate);
    } else {
      var m := n - 1;
      TallyCounts(cr, cs, items, m, now, fate);
      OneMoreEntry(cr, cs, items, m, now, fate);
      OneMoreFate(cr, cs, items, m, now, fate);
    }
  }

  method EmptyReport(ghost cr: Crypto, ghost cs: seq<Contact>, ghost items: seq<Item>, ghost now: int)
    returns (rep: DrainReport)
    ensures rep == Tally(cr, cs, items, 0, now)
  {
    rep := DrainReport(0, 0, 0, 0, 0, 0, 0);
  }

  /** The drain has got past the first n items. */
  ghost predicate Along(cr: Crypto, cs: seq<Contact>, items: seq<Item>, now: int, fails: nat -> set<Call>, n: nat,
                        cs': seq<Contact>, left: seq<Item>, rep: DrainReport) {
    && n <= |items|
    && (forall k :: 0 <= k < n ==> !StopsAt(cr, cs, items, now, fails, k))
    && cs' == HandleAll(cr, cs, items, n, now) && left == Unsettled(items, n) && rep == Tally(cr, cs, items, n, now)
  }

  lemma MovesOn(cr: Crypto, cs: seq<Contact>, items: seq<Item>, now: int, fails: nat -> set<Call>, n: nat,
                cs1: seq<Contact>, left: seq<Item>, rep: DrainReport)
    requires Along(cr, cs, items, now, fails, n, cs1, left, rep) && n < |items|
    requires !Stops(cr, cs1, items[n], now, fails(n))
    ensures Stored(cr, cs1, items[n], now, fails(n))
    ensures Along(cr, cs, items, now, fails, n + 1, Handle(cr, cs1, items[n], now),
                  left + (if Settles(items[n]) then [] else [items[n]]), Counted(cr, cs1, items[n], now, rep))
  {
  }

  lemma HaltsAt(cr: Crypto, cs: seq<Contact>, items: seq<Item>, now: int, fails: nat -> set<Call>, n: nat,
                cs1: seq<Contact>, left: seq<Item>, rep: DrainReport)
    requires Along(cr, cs, items, now, fails, n, cs1, left, rep) && n < |items|
    requires Stops(cr, cs1, items[n], now, fails(n))
    ensures StopsAt(cr, cs, items, now, fails, n)
    ensures Drains(cr, cs, items, now, fails, n,
                   if Stored(cr, cs1, items[n], now, fails(n)) then Handle(cr, cs1, items[n], now) else cs1,
                   left + items[n..])
  {
  }

  // ----- the code -----

  class Client {
    var contacts: seq<Contact>
    var inbox: seq<Item>

    /** applyBundleToContacts; nothing is stored when a load or the save fails. */
    method ApplyBundleToContacts(cr: Crypto, b: ParsedBundle, now: int, fails: set<Call>)
      returns (ok: bool, outcome: Outcome)
      modifies this`contacts
      ensures ok <==> Load !in fails && (ApplyBundle(cr, old(contacts), b, now).0.Done? ==> Save !in fails)
      ensures ok ==> (outcome, contacts) == ApplyBundle(cr, old(contacts), b, now)
      ensures !ok ==> contacts == old(contacts)
    {
      if Load in fails { return false, Ignored; }
      ok := true;
      var existing := contacts;
      match ProcessImport(cr, b, existing) {
        case Malformed => return true, Rejected;
        case NoMatch => return true, Ignored;
        case Update(i) =>
          if !VerifyRotation(cr, b, existing[i]) { return true, Rejected; }
          existing := existing[i := ApplyUpdate(existing[i], b.lock.value, now)];
        case Revoke(i) =>
          if !VerifyRevocation(cr, b, existing[i]) { return true, Rejected; }
          existing := existing[i := ApplyRevoke(existing[i], now)];
      }
      if Save in fails { return false, Ignored; }
      contacts := existing;
      outcome := Done;
    }

    /** A contact_accept: check, save, mark as connected, acknowledge. */
    method DrainAccept(cr: Crypto, l: LockBundle, now: int, fails: set<Call>, rep: DrainReport)
      returns (rep': DrainReport, ok: bool)
      modifies this`contacts
      ensures ok <==> !Stops(cr, old(contacts), Accept(l), now, fails)
      ensures contacts == if Stored(cr, old(contacts), Accept(l), now, fails)
                          then Handle(cr, old(contacts), Accept(l), now)
                          else old(contacts)
      ensures rep' == if ok then Counted(cr, old(contacts), Accept(l), now, rep) else rep
    {
      rep', ok := rep, false;
      if !VerifyLockSelfSig(cr, l) {
        if Ack in fails { return; }
        return rep.(rejected := rep.rejected + 1), true;
      }
      if !cr.validLock(l) || Load in fails || Save in fails { return; }
      contacts := SaveFromLock(cr, contacts, l);
      if Mark in fails || Ack in fails { return; }
      return rep.(accepted := rep.accepted + 1), true;
    }

    /** One item: its effect on the store, then the acknowledgement. */
    method DrainItem(cr: Crypto, it: Item, now: int, fails: set<Call>, rep: DrainReport)
      returns (rep': DrainReport, ok: bool)
      modifies this`contacts
      ensures ok <==> !Stops(cr, old(contacts), it, now, fails)
      ensures contacts == if Stored(cr, old(contacts), it, now, fails)
                          then Handle(cr, old(contacts), it, now)
                          else old(contacts)
      ensures rep' == if ok then Counted(cr, old(contacts), it, now, rep) else rep
    {
      rep', ok := rep, true;
      match it {
        case Request =>
          rep' := rep.(requestsWaiting := rep.requestsWaiting + 1);
        case Unreadable =>
          rep' := rep.(skipped := rep.skipped + 1);
        case Accept(l) =>
          rep', ok := DrainAccept(cr, l, now, fails, rep);
        case KeyChange(rotation, b) =>
          var outcome;
          ok, outcome := ApplyBundleToContacts(cr, b, now, fails);
          if !ok { return; }
          if Ack in fails { return rep, false; }
          rep' := Record(rep, rotation, outcome);
      }
    }

    /** The loop body: item n of the listing. What is acknowledged leaves the inbox at once. */
    method DrainNth(cr: Crypto, items: seq<Item>, n: nat, now: int, fails: nat -> set<Call>, rep: DrainReport,
                    left: seq<Item>, ghost start: seq<Contact>)
      returns (rep': DrainReport, left': seq<Item>, ok: bool)
      requires n < |items| && inbox == left + items[n..]
      requires Along(cr, start, items, now, fails, n, contacts, left, rep)
      modifies this
      ensures ok ==> Along(cr, start, items, now, fails, n + 1, contacts, left', rep')
      ensures ok ==> inbox == left' + items[n + 1..]
      ensures !ok ==> StopsAt(cr, start, items, now, fails, n)
      ensures !ok ==> Drains(cr, start, items, now, fails, n, contacts, inbox) && rep' == rep
    {
      left' := left;
      ghost var before := contacts;
      rep', ok := DrainItem(cr, items[n], now, fails(n), rep);
      if !ok {
        HaltsAt(cr, start, items, now, fails, n, before, left, rep);
        return;
      }
      MovesOn(cr, start, items, now, fails, n, before, left, rep);
      if Settles(items[n]) {
        inbox := left + items[n + 1..];
        assert left + [] == left;
      } else {
        left' := left + [items[n]];
        assert left + items[n..] == left' + items[n + 1..];
      }
    }

    /** DrainPending. Items are handled in order; an acknowledged one leaves the inbox, requests
        and unreadable items stay. The drain stops at the first item that blocks or at which a
        call fails, and leaves that one and all behind it. */
    method DrainPending(cr: Crypto, now: int, fails: nat -> set<Call>)
      returns (rep: DrainReport, ok: bool, ghost n: nat)
      modifies this
      ensures Drains(cr, old(contacts), old(inbox), now, fails, n, contacts, inbox)
      ensures ok <==> n == |old(inbox)|
      ensures rep == Tally(cr, old(contacts), old(inbox), n, now)
    {
      var items := inbox;
      rep := EmptyReport(cr, contacts, items, now);
      ok, n := true, 0;
      var left: seq<Item> := [];
      for i := 0 to |items|
        invariant ok && n == i && inbox == left + items[i..]
        invariant Along(cr, old(contacts), items, now, fails, i, contacts, left, rep)
      {
        rep, left, ok := DrainNth(cr, items, i, now, fails, rep, left, old(contacts));
        if !ok { return; }
        n := i + 1;
      }
    }
  }
}
