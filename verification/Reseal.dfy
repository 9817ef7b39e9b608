/** Re-keying: re-sealing cloud copies from local plaintext, and when that may overwrite. */
module Reseal {
  import opened Wrappers
  import opened MergedBlob
  import Log = OpLog
  import opened ContactsSync
  import Trail = ContactsTrail
  import Client = ContactsClient

  // ----- the data-loss guard -----

  /** A local plaintext. `lengths` counts its entries and its tombstones when its JSON
      decodes as the resource's document. */
  datatype Source = Source(content: string, lengths: Option<(nat, nat)>)

  predicate EntryFree(s: Source) { s.lengths == Some((0, 0)) }

  datatype Resource = Contacts | Groups | Notifications | Settings | Other(name: string)

  /** The resources that have an empty state. */
  predicate Guarded(name: Resource) { name.Contacts? || name.Groups? || name.Notifications? }

  function LocalSourceHasData(name: Resource, local: Source): bool {
    match name
    case Contacts => local.lengths.None? || local.lengths.value.0 > 0
    case Groups => local.lengths.None? || local.lengths.value.0 > 0 || local.lengths.value.1 > 0
    case Notifications => local.lengths.None? || local.lengths.value.0 > 0 || local.lengths.value.1 > 0
    case _ => true
  }

  /** A contacts list holds no tombstones. */
  predicate WellTyped(name: Resource, s: Source) {
    name.Contacts? && s.lengths.Some? ==> s.lengths.value.1 == 0
  }

  lemma HasDataExact(name: Resource, s: Source)
    requires WellTyped(name, s)
    ensures LocalSourceHasData(name, s) <==> !(Guarded(name) && EntryFree(s))
  {
  }

  // ----- resealBlob -----

  datatype BlobOutcome = Sealed(version: nat) | NoLocalToRecover | Failed | TooManyConflicts

  /** The others may write, re-create or delete the blob as they like. */
  ghost predicate AnyWriters(net: Network<Source>) {
    forall k, c, b :: ValidBlob(b) ==> ValidBlob(net.others(k, c, b))
  }

  ghost predicate Quiet(net: Network<Source>) {
    && (forall k, c, b :: net.others(k, c, b) == b)
    && (forall k, c :: !net.fails(k, c))
  }

  /** The blob that attempt k starts from: after a conflict the others have had their turn before
      that attempt's write and before the re-read. */
  ghost function Standing(net: Network<Source>, b: Blob<Source>, k: nat): Blob<Source>
    decreases k, 0
  {
    if k == 0 then b else net.others(k - 1, Open, Meeting(net, b, k - 1))
  }

  /** The blob that its write meets. */
  ghost function Meeting(net: Network<Source>, b: Blob<Source>, k: nat): Blob<Source>
    decreases k, 1
  {
    net.others(k, Seal, Standing(net, b, k))
  }

  /** The version it goes by: the one given, and after a conflict the one re-read. */
  ghost function GoesBy(net: Network<Source>, b: Blob<Source>, current: nat, k: nat): nat {
    if k == 0 then current else Version(Standing(net, b, k))
  }

  /** The guard: a blob is known to exist and the plaintext has nothing to put in its place. */
  predicate Stops(name: Resource, plaintext: Source, version: nat) {
    version > 0 && Guarded(name) && EntryFree(plaintext)
  }

  /** Attempt k passes the guard, meets another version than it goes by, and re-reads. */
  ghost predicate Retries(net: Network<Source>, name: Resource, plaintext: Source, b: Blob<Source>, current: nat,
                          k: nat) {
    && !Stops(name, plaintext, GoesBy(net, b, current, k)) && !net.fails(k, Seal)
    && Version(Meeting(net, b, k)) != GoesBy(net, b, current, k) && !net.fails(k, Open)
  }

  /** How attempt k ends, and leaves the blob. */
  ghost predicate SealEnds(out: BlobOutcome, net: Network<Source>, name: Resource, plaintext: Source, b: Blob<Source>,
                           current: nat, k: nat, b': Blob<Source>) {
    var version, met := GoesBy(net, b, current, k), Meeting(net, b, k);
    var stops := Stops(name, plaintext, version);
    match out
    case NoLocalToRecover => stops && b' == Standing(net, b, k)
    case Failed =>
      && !stops
      && (if net.fails(k, Seal) then b' == met
          else Version(met) != version && net.fails(k, Open) && b' == Standing(net, b, k + 1))
    case TooManyConflicts => k == MAX_ATTEMPTS && b' == Standing(net, b, k)
    case Sealed(v) =>
      !stops && !net.fails(k, Seal) && Version(met) == version && v == version + 1 && b' == Present(plaintext, v)
  }

  /** Left alone, the first attempt finds the blob at the version given, or the second does. */
  lemma {:induction false} QuietStands(net: Network<Source>, b: Blob<Source>, k: nat)
    requires Quiet(net)
    ensures Standing(net, b, k) == b
  {
    if k > 0 {
      QuietStands(net, b, k - 1);
    }
  }

  /** One attempt; None is a conflict, with the version re-read. */
  method SealAttempt(server: BlobServer<Source>, name: Resource, plaintext: Source, cur: nat, net: Network<Source>,
                     k: nat, ghost start: Blob<Source>, ghost current: nat)
    returns (out: Option<BlobOutcome>, cur': nat)
    requires WellTyped(name, plaintext) && AnyWriters(net) && ValidBlob(server.blob)
    requires server.blob == Standing(net, start, k) && cur == GoesBy(net, start, current, k)
    modifies server
    ensures ValidBlob(server.blob)
    ensures out.Some? ==> SealEnds(out.value, net, name, plaintext, start, current, k, server.blob)
    ensures out.Some? ==> !out.value.TooManyConflicts?
    ensures out.None? ==> Retries(net, name, plaintext, start, current, k)
    ensures out.None? ==> server.blob == Standing(net, start, k + 1) && cur' == GoesBy(net, start, current, k + 1)
  {
    HasDataExact(name, plaintext);
    out, cur' := None, cur;
    if cur > 0 && !LocalSourceHasData(name, plaintext) { return Some(NoLocalToRecover), cur; }
    server.blob := net.others(k, Seal, server.blob);
    if net.fails(k, Seal) { return Some(Failed), cur; }
    var conflict := server.Put(plaintext, cur);
    if !conflict { return Some(Sealed(server.blob.version)), cur; }
    server.blob := net.others(k, Open, server.blob);
    if net.fails(k, Open) { return Some(Failed), cur; }
    cur' := if server.blob.Absent? then 0 else server.blob.version;
  }

  /** Attempt k, the first that does not retry, decides: it writes this device's own plaintext
      over the very blob whose version it goes by, or nothing. A guarded entry-free plaintext is
      never written over an existing blob. Left alone, it fails only when the guard stops it. */
  method ResealBlob(server: BlobServer<Source>, name: Resource, plaintext: Source, current: nat,
                    versions: map<Resource, nat>, net: Network<Source>)
    returns (out: BlobOutcome, versions': map<Resource, nat>, ghost k: nat)
    requires WellTyped(name, plaintext) && AnyWriters(net) && ValidBlob(server.blob)
    modifies server
    ensures k <= MAX_ATTEMPTS && forall j: nat :: j < k ==> Retries(net, name, plaintext, old(server.blob), current, j)
    ensures SealEnds(out, net, name, plaintext, old(server.blob), current, k, server.blob)
    ensures versions' == if out.Sealed? then versions[name := out.version] else versions
    ensures out.Sealed? && Meeting(net, old(server.blob), k).Present? ==> !(Guarded(name) && EntryFree(plaintext))
    ensures Quiet(net) ==> (out.Sealed? || out.NoLocalToRecover?)
    ensures Quiet(net) ==> (out.NoLocalToRecover? <==>
              Guarded(name) && EntryFree(plaintext) && (current > 0 || old(server.blob).Present?))
  {
    ghost var start := server.blob;
    var cur: nat := current;
    for attempt := 0 to MAX_ATTEMPTS
      invariant ValidBlob(server.blob) && server.blob == Standing(net, start, attempt)
      invariant cur == GoesBy(net, start, current, attempt)
      invariant forall j: nat :: j < attempt ==> Retries(net, name, plaintext, start, current, j)
    {
      var ended;
      ended, cur := SealAttempt(server, name, plaintext, cur, net, attempt, start, current);
      if ended.Some? {
        out, k := ended.value, attempt;
        SealedOverMet(net, name, plaintext, start, current, k, out, server.blob);
        QuietEnds(net, name, plaintext, start, current, k, out, server.blob);
        return out, if out.Sealed? then versions[name := out.version] else versions, k;
      }
    }
    out, k := BlobOutcome.TooManyConflicts, MAX_ATTEMPTS;
    QuietEnds(net, name, plaintext, start, current, k, out, server.blob);
    return out, versions, k;
  }

  lemma SealedOverMet(net: Network<Source>, name: Resource, plaintext: Source, b: Blob<Source>, current: nat, k: nat,
                      out: BlobOutcome, b': Blob<Source>)
    requires AnyWriters(net) && ValidBlob(Standing(net, b, k)) && SealEnds(out, net, name, plaintext, b, current, k, b')
    ensures out.Sealed? && Meeting(net, b, k).Present? ==> !(Guarded(name) && EntryFree(plaintext))
  {
  }

  lemma QuietEnds(net: Network<Source>, name: Resource, plaintext: Source, b: Blob<Source>, current: nat, k: nat,
                  out: BlobOutcome, b': Blob<Source>)
    requires ValidBlob(b) && k <= MAX_ATTEMPTS && SealEnds(out, net, name, plaintext, b, current, k, b')
    requires forall j: nat :: j < k ==> Retries(net, name, plaintext, b, current, j)
    ensures Quiet(net) ==> (out.Sealed? || out.NoLocalToRecover?)
    ensures Quiet(net) ==>
              (out.NoLocalToRecover? <==> Guarded(name) && EntryFree(plaintext) && (current > 0 || b.Present?))
  {
    if Quiet(net) {
      QuietStands(net, b, 1);
      QuietStands(net, b, k);
      if k > 0 { assert Retries(net, name, plaintext, b, current, 0); }
      if k > 1 { assert Retries(net, name, plaintext, b, current, 1); }
    }
  }

  // ----- resealContacts -----

  /** What other devices may do to the op log: append, and compact or re-seal under a new
      version. Nothing is asked of the snapshots they write. */
  predicate Advances(srv: Server, srv': Server) {
    && srv.history <= srv'.history
    && srv.version <= srv'.version
    && (srv.version == srv'.version ==> srv.through == srv'.through && srv.snapshot == srv'.snapshot)
  }

  predicate ValidLog(srv: Server) { srv.through <= |srv.history| && (srv.version == 0 ==> srv.through == 0) }

  ghost predicate LogWriters(net: Trail.Network) {
    forall k, srv :: ValidLog(srv) ==> ValidLog(net.others(k, srv)) && Advances(srv, net.others(k, srv))
  }

  datatype ContactsOutcome = Recompacted | ShadowStuck | NothingToRecover | CallFailed | GaveUp

  /** The head read in the attempt that succeeded, and the server that attempt wrote to. */
  ghost predicate CompactedAt(read: Server, before: Server, after: Server, list: seq<Log.Contact>) {
    && ValidLog(read) && ValidLog(before) && Advances(read, before) && read.version == before.version
    && after == Compact(before, list, |read.history|, read.version)
  }

  /** Everything above the head that was read is still there to be fetched, and what was
      dropped was at or below it. */
  lemma NothingAboveHeadDropped(read: Server, before: Server, after: Server, list: seq<Log.Contact>)
    requires CompactedAt(read, before, after, list)
    ensures ValidLog(after) && after.history == before.history
    ensures Log.Ops(FetchSince(after, 0)) == before.history[|read.history|..]
    ensures Log.Ops(FetchSince(after, |read.history|)) == Log.Ops(FetchSince(before, |read.history|))
  {
    FetchOps(after, |read.history|);
    FetchOps(before, |read.history|);
    assert FetchSince(after, 0) == FetchSince(after, |read.history|);
  }

  /** An empty list is only ever sealed where no op and no snapshot had been seen, and then
      drops nothing. */
  lemma EmptyListDropsNothing(read: Server, before: Server, after: Server)
    requires CompactedAt(read, before, after, []) && !Refuses(RemoteOf(read), [])
    ensures before.version == 0 && Log.Ops(FetchSince(after, 0)) == before.history == Log.Ops(FetchSince(before, 0))
  {
    NothingAboveHeadDropped(read, before, after, []);
    FetchOps(before, 0);
  }

  /** The server after k attempts that met a conflict: the others' turn before each compaction
      call and before each state fetch. */
  ghost function Rereads(net: Trail.Network, srv: Server, k: nat): Server {
    if k == 0 then srv else net.others(2 * k - 1, net.others(2 * k - 2, Rereads(net, srv, k - 1)))
  }

  /** What attempt k goes by: the state read at the start of the run, and after a conflict the
      one just fetched. */
  ghost function ReadBy(net: Trail.Network, seen: Server, srv: Server, k: nat): Server {
    if k == 0 then seen else Rereads(net, srv, k)
  }

  /** What the compaction call of attempt k meets. */
  ghost function MetBy(net: Trail.Network, srv: Server, k: nat): Server { net.others(2 * k, Rereads(net, srv, k)) }

  lemma {:induction false} RereadsAdvance(net: Trail.Network, seen: Server, srv: Server, k: nat)
    requires LogWriters(net) && ValidLog(srv) && Advances(seen, srv)
    ensures ValidLog(Rereads(net, srv, k)) && Advances(srv, Rereads(net, srv, k))
    ensures Advances(seen, Rereads(net, srv, k))
    ensures ValidLog(MetBy(net, srv, k)) && Advances(Rereads(net, srv, k), MetBy(net, srv, k))
    ensures Advances(srv, MetBy(net, srv, k)) && Advances(ReadBy(net, seen, srv, k), MetBy(net, srv, k))
  {
    if k > 0 {
      RereadsAdvance(net, seen, srv, k - 1);
    }
  }

  /** Attempt k lost its race: another device compacted since its state was read. */
  ghost predicate Conflicts(net: Trail.Network, seen: Server, srv: Server, k: nat) {
    MetBy(net, srv, k).version != ReadBy(net, seen, srv, k).version
  }

  /** The guard: the cloud holds contacts and the list is empty. */
  predicate Refuses(state: Remote, list: seq<Log.Contact>) {
    (state.version > 0 || state.maxSeq > 0) && list == []
  }

  /** An empty list is refused exactly when the server holds anything. */
  lemma RefusesExact(srv: Server, list: seq<Log.Contact>)
    requires ValidLog(srv)
    ensures Refuses(RemoteOf(srv), list) <==> list == [] && (srv.version != 0 || srv.history != [])
  {
  }

  /** How attempt k ends, in terms of the server srv the run started from. */
  ghost predicate EndsAttempt(out: ContactsOutcome, net: Trail.Network, seen: Server, srv: Server, k: nat,
                              list: seq<Log.Contact>, srv': Server, pos: Position)
  {
    var read := ReadBy(net, seen, srv, k);
    match out
    case NothingToRecover => Refuses(RemoteOf(read), list) && srv' == Rereads(net, srv, k)
    case CallFailed =>
      && !Refuses(RemoteOf(read), list)
      && (if net.fails(2 * k) then srv' == MetBy(net, srv, k)
          else net.fails(2 * k + 1) && Conflicts(net, seen, srv, k) && srv' == Rereads(net, srv, k + 1))
    case GaveUp => k == MAX_ATTEMPTS && srv' == Rereads(net, srv, k)
    case _ =>
      && !net.fails(2 * k) && CompactedAt(read, MetBy(net, srv, k), srv', list) && !Refuses(RemoteOf(read), list)
      && pos == Position(|read.history|, srv'.version)
  }

  /** Attempt j passed the guard and met a conflict. */
  ghost predicate LosesRace(net: Trail.Network, seen: Server, srv: Server, j: nat, list: seq<Log.Contact>) {
    && Conflicts(net, seen, srv, j) && !Refuses(RemoteOf(ReadBy(net, seen, srv, j)), list)
    && !net.fails(2 * j) && !net.fails(2 * j + 1)
  }

  method Attempt(client: Client.ContactsClient, server: Client.OpLogServer, st: Remote, ghost seen: Server,
                 ghost srv: Server,
                 net: Trail.Network, k: nat, shadowStays: bool)
    returns (out: Option<ContactsOutcome>, st': Remote)
    requires LogWriters(net) && ValidLog(seen) && ValidLog(srv) && Advances(seen, srv)
    requires server.srv == Rereads(net, srv, k) && st == RemoteOf(ReadBy(net, seen, srv, k))
    modifies server, client`pos, client`shadow
    ensures out.Some? ==> !out.value.GaveUp?
    ensures out.Some? ==> EndsAttempt(out.value, net, seen, srv, k, client.store, server.srv, client.pos)
    ensures out.None? ==> LosesRace(net, seen, srv, k, client.store)
    ensures out.None? ==> server.srv == Rereads(net, srv, k + 1) && st' == RemoteOf(server.srv)
    ensures client.shadow == if out == Some(Recompacted) then None else old(client.shadow)
    ensures out == Some(Recompacted) || out == Some(ShadowStuck) || client.pos == old(client.pos)
  {
    st' := st;
    RereadsAdvance(net, seen, srv, k);
    if (st.version > 0 || st.maxSeq > 0) && client.store == [] {
      return Some(NothingToRecover), st;
    }
    server.srv := net.others(2 * k, server.srv);
    if net.fails(2 * k) {
      return Some(CallFailed), st;
    }
    var conflict, version := server.CompactOps(client.store, st.maxSeq, st.version);
    if !conflict {
      client.pos := Position(st.maxSeq, version);
      if shadowStays {
        return Some(ShadowStuck), st;
      }
      client.shadow := None;
      return Some(Recompacted), st;
    }
    server.srv := net.others(2 * k + 1, server.srv);
    if net.fails(2 * k + 1) {
      return Some(CallFailed), st;
    }
    return None, RemoteOf(server.srv);
  }

  /** Re-seals the op log from the store. `state` was read from `seen` at the start of the run.
      Attempt k, the first that does not lose its race, compacts the server it meets through
      the head it had read, and only past the guard. */
  method ResealContacts(client: Client.ContactsClient, server: Client.OpLogServer, state: Remote, ghost seen: Server,
                        net: Trail.Network, shadowStays: bool)
    returns (out: ContactsOutcome, ghost k: nat)
    requires LogWriters(net) && ValidLog(seen) && state == RemoteOf(seen)
    requires ValidLog(server.srv) && Advances(seen, server.srv)
    modifies server, client`pos, client`shadow
    ensures k <= MAX_ATTEMPTS && forall j: nat :: j < k ==> LosesRace(net, seen, old(server.srv), j, client.store)
    ensures EndsAttempt(out, net, seen, old(server.srv), k, client.store, server.srv, client.pos)
    ensures client.shadow == if out.Recompacted? then None else old(client.shadow)
    ensures out.Recompacted? || out.ShadowStuck? || client.pos == old(client.pos)
  {
    var st := state;
    ghost var srv := server.srv;
    for attempt := 0 to MAX_ATTEMPTS
      invariant forall j: nat :: j < attempt ==> LosesRace(net, seen, srv, j, client.store)
      invariant server.srv == Rereads(net, srv, attempt) && st == RemoteOf(ReadBy(net, seen, srv, attempt))
      invariant client.pos == old(client.pos) && client.shadow == old(client.shadow)
    {
      var ended;
      ended, st := Attempt(client, server, st, seen, srv, net, attempt, shadowStays);
      if ended.Some? {
        return ended.value, attempt;
      }
    }
    return GaveUp, MAX_ATTEMPTS;
  }

  /** Left alone, re-sealing stops at the guard or compacts what it had read at the first attempt. */
  lemma UndisturbedReseals(out: ContactsOutcome, net: Trail.Network, seen: Server, k: nat, list: seq<Log.Contact>,
                           srv': Server, pos: Position)
    requires (forall c: nat, srv :: net.others(c, srv) == srv) && forall c: nat :: !net.fails(c)
    requires (forall j: nat :: j < k ==> LosesRace(net, seen, seen, j, list))
    requires EndsAttempt(out, net, seen, seen, k, list, srv', pos)
    ensures k == 0 && (out.NothingToRecover? <==> Refuses(RemoteOf(seen), list))
    ensures out.NothingToRecover? ==> srv' == seen
    ensures !out.NothingToRecover? ==>
              && (out.Recompacted? || out.ShadowStuck?)
              && srv' == Server(seen.history, seen.version + 1, |seen.history|, list)
              && pos == Position(|seen.history|, seen.version + 1)
  {
    assert !LosesRace(net, seen, seen, 0, list);
  }

  // ----- what a re-seal does to the contacts everyone sees -----

  /** What a fresh device reads: the snapshot and the ops still in the log. */
  function Visible(srv: Server): Log.Book
    requires ValidLog(srv)
  {
    Log.Replay(Log.ByID(srv.snapshot), srv.history[srv.through..])
  }

  /** Re-sealing at a head keeps what everyone sees, whatever has been appended since it was
      read, exactly when the list is what everyone saw there. The guard asks only that it is
      not empty. */
  lemma ResealExact(read: Server, list: seq<Log.Contact>)
    requires ValidLog(read)
    ensures (forall before, after | CompactedAt(read, before, after, list) ::
               ValidLog(before) && ValidLog(after) && Visible(after) == Visible(before))
        <==> Log.ByID(list) == Visible(read)
  {
    if Log.ByID(list) == Visible(read) {
      forall before, after | CompactedAt(read, before, after, list)
        ensures ValidLog(before) && ValidLog(after) && Visible(after) == Visible(before)
      {
        var tail := before.history[|read.history|..];
        assert before.history[before.through..] == read.history[read.through..] + tail;
        Log.ReplayConcat(Log.ByID(before.snapshot), read.history[read.through..], tail);
      }
    } else {
      var after := Compact(read, list, |read.history|, read.version);
      assert CompactedAt(read, read, after, list);
      assert after.history[after.through..] == [];
    }
  }

  /** Any list that is not empty passes the guard, and every contact it lacks is dropped. */
  lemma StaleListDropsContact(read: Server, list: seq<Log.Contact>, k: string)
    requires ValidLog(read) && list != [] && k in Visible(read) && k !in Log.ByID(list)
    ensures !Refuses(RemoteOf(read), list)
    ensures var after := Compact(read, list, |read.history|, read.version);
      CompactedAt(read, read, after, list) && ValidLog(after) && k !in Visible(after)
  {
    var after := Compact(read, list, |read.history|, read.version);
    assert after.history[after.through..] == [];
  }
}
