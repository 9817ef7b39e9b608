/** SyncContactsOps itself: one pass over the client's files and positions. */
module ContactsClient {
  import opened Wrappers
  import opened OpLog
  import opened ContactsDiff
  import opened ContactsSync
  import opened ContactsTrail
  import opened ContactsQuiet

  /** The account's op log, shared with the other devices. */
  class OpLogServer {
    var srv: Server

    constructor (srv: Server)
      ensures this.srv == srv
    {
      this.srv := srv;
    }

    method AppendOps(ops: seq<ContactOp>) returns (first: nat, last: nat)
      requires ops != []
      modifies this
      ensures srv == Append(old(srv), ops)
      ensures first == |old(srv).history| + 1 && last == |srv.history|
    {
      first := |srv.history| + 1;
      srv := Append(srv, ops);
      last := |srv.history|;
    }

    method CompactOps(list: seq<Contact>, throughSeq: nat, prevVersion: nat) returns (conflict: bool, version: nat)
      modifies this
      ensures srv == Compact(old(srv), list, throughSeq, prevVersion)
      ensures conflict == (old(srv).version != prevVersion) && version == srv.version
    {
      conflict := srv.version != prevVersion;
      srv := Compact(srv, list, throughSeq, prevVersion);
      version := srv.version;
    }
  }

  // ----- contacts stay filed under their aliases -----

  lemma AppendKeyed(srv: Server, ops: seq<ContactOp>)
    requires KeyedOps(srv.history) && KeyedOps(ops)
    ensures KeyedOps(Append(srv, ops).history)
  {
  }

  lemma FetchKeyed(srv: Server, since: nat)
    requires KeyedOps(srv.history)
    ensures KeyedOps(Ops(FetchSince(srv, since)))
  {
  }

  lemma {:induction false} RacedKeyed(gap: seq<LoggedOp>, first: nat)
    requires KeyedOps(Ops(gap))
    ensures KeyedOps(Raced(gap, first))
  {
    if gap != [] && gap[0].seqNo < first {
      assert forall i :: 0 <= i < |gap[1..]| ==> Ops(gap[1..])[i] == Ops(gap)[i + 1];
      assert Ops(gap)[0] == gap[0].op;
      RacedKeyed(gap[1..], first);
    }
  }

  lemma {:induction false} ReplaySkipKeyed(m: Book, ops: seq<ContactOp>, skip: set<string>)
    requires Keyed(m) && KeyedOps(ops)
    ensures Keyed(ReplaySkip(m, ops, skip))
  {
    if ops != [] {
      ReplaySkipKeyed(m, ops[..|ops| - 1], skip);
    }
  }

  lemma DiffKeyed(shadow: seq<Contact>, loaded: seq<Contact>, ops: seq<ContactOp>)
    requires IsDiff(ops, ByID(shadow), ByID(loaded))
    ensures KeyedOps(ops)
  {
    ByIDKeyed(loaded);
    DiffReplays(ops, ByID(shadow), ByID(loaded));
  }

  // ----- the code -----

  datatype SyncAction = UpToDate | SyncedBoth | PushedOnly | PulledOnly

  datatype SyncOutcome = Ok(action: SyncAction, version: nat) | Blocked | Failed

  /** contactsAction */
  function ContactsAction(bootstrapped: bool, pulled: nat, pushed: nat): SyncAction {
    if (bootstrapped || pulled > 0) && pushed > 0 then SyncedBoth
    else if pushed > 0 then PushedOnly
    else if bootstrapped || pulled > 0 then PulledOnly
    else UpToDate
  }

  class ContactsClient {
    var store: seq<Contact>
    var shadow: Option<seq<Contact>>
    var pos: Position
    ghost var covers: nat
    ghost var edited: bool

    /** This device in the protocol, with `from` the position last persisted. */
    ghost function Files(from: Position, p: Pass): Device
      reads this
    {
      Device(store, shadow, covers, from, edited, p)
    }

    /** The trail has led to this server and these files, with the pass at p. */
    ghost predicate On(server: OpLogServer, net: Network, t: Trail, from: Position, p: Pass)
      reads this, server
    {
      Leads(net, t, server.srv, Files(from, p)) && KeyedOps(server.srv.history)
    }

    /** The pull loop: ops in order, the position following each. */
    method PullOps(base: Book, fetched: seq<LoggedOp>) returns (m: Book)
      modifies this`pos
      ensures m == Replay(base, Ops(fetched))
      ensures pos == if fetched == [] then old(pos) else old(pos).(seqNo := fetched[|fetched| - 1].seqNo)
    {
      m := base;
      for i := 0 to |fetched|
        invariant m == Replay(base, Ops(fetched[..i]))
        invariant pos == if i == 0 then old(pos) else old(pos).(seqNo := fetched[i - 1].seqNo)
      {
        m := Apply(m, fetched[i].op);
        pos := pos.(seqNo := fetched[i].seqNo);
        assert Ops(fetched[..i + 1])[..i] == Ops(fetched[..i]);
      }
      assert fetched[..|fetched|] == fetched;
    }

    method ApplyLocal(base: Book, ops: seq<ContactOp>) returns (m: Book, touched: set<string>)
      ensures m == Replay(base, ops) && touched == Ids(ops)
    {
      m, touched := base, {};
      for i := 0 to |ops|
        invariant m == Replay(base, ops[..i])
        invariant touched == Ids(ops[..i])
      {
        touched := touched + {ops[i].id};
        m := Apply(m, ops[i]);
        assert ops[..i + 1][..i] == ops[..i];
        assert Ids(ops[..i + 1]) == Ids(ops[..i]) + {ops[i].id};
      }
      assert ops[..|ops|] == ops;
    }

    /** The others' turn before call k. */
    method Yield(server: OpLogServer, net: Network, k: nat, ghost t0: Trail, ghost from: Position, ghost p: Pass)
      returns (ghost t: Trail)
      requires FilesKeyed(net) && On(server, net, t0, from, p) && !t0.Turn?
      modifies server
      ensures On(server, net, t, from, p) && t.Turn? && t.call == k && Root(t) == Root(t0)
      ensures Brought(t) == Brought(t0)
    {
      server.srv := net.others(k, server.srv);
      t := Turn(server.srv, t0.dev, t0, k);
    }

    /** The user's turn at the end of a stage, which closes it. */
    method Close(net: Network, k: nat, ghost t0: Trail, ghost a: Action, ghost from: Position, ghost p: Pass)
      returns (ghost t: Trail)
      requires Legal(net, t0) && Ready(net, t0, a) && k == Stage(a) && DoDevice(t0.srv, t0.dev, a) == Files(from, p)
      modifies this`store, this`edited
      ensures t.Act? && t.prev == t0 && t.action == a && Root(t) == Root(t0)
      ensures Brought(t) == (Brought(t0) || Brings(t0.srv, t0.dev, a))
      ensures Leads(net, t, DoServer(t0.srv, t0.dev, a), Files(from, p))
      ensures store == net.edits(k, old(store))
    {
      var list := net.edits(k, store);
      edited := edited || list != store;
      store := list;
      t := Act(DoServer(t0.srv, t0.dev, a), Files(from, p), t0, a);
    }

    /** Bootstrap or rebase. */
    method Rebase(server: OpLogServer, remote: Remote, localOps: seq<ContactOp>, net: Network, ghost t0: Trail)
      returns (ok: bool, base: Book, bootstrapped: bool, ghost t: Trail)
      requires FilesKeyed(net) && On(server, net, t0, pos, Started(remote)) && t0.Start?
      requires Enabled(Files(pos, Started(remote)), Base(localOps))
      requires !IdlePath(Files(pos, Started(remote)), remote, localOps)
      modifies this`pos, this`store, this`edited, server
      ensures Root(t) == t0 && Keyed(base)
      ensures bootstrapped == (ok && old(NeedsDownload(Files(pos, Started(remote)), remote)))
      ensures ok ==> t.Act? && t.dev.pass.Based? && Brought(t) == bootstrapped
      ensures ok ==> On(server, net, t, old(pos), Based(remote, Local(old(store), localOps), base, pos, t.dev.pass.at))
      ensures !ok ==> Stuck(net, t) && pos == old(pos) && On(server, net, t, pos, Started(remote))
    {
      ghost var from := pos;
      ghost var dev := Files(from, Started(remote));
      t, bootstrapped := t0, false;
      base := ContactsByID(if shadow.Some? then shadow.value else []);
      ByIDKeyed(if shadow.Some? then shadow.value else []);
      if remote.version != pos.snapVersion || shadow.None? {
        if remote.version != 0 && (shadow.None? || pos.seqNo < remote.through) {
          t := Yield(server, net, 0, t, from, Started(remote));
          if net.fails(0) { return false, base, false, t; }
          base := ContactsByID(server.srv.snapshot);
          ByIDKeyed(server.srv.snapshot);
          pos := pos.(seqNo := remote.through);
          bootstrapped := true;
        }
        pos := pos.(snapVersion := remote.version);
      }
      ok := true;
      ghost var p := BasePass(server.srv, dev, remote, localOps);
      assert p == Based(remote, Local(store, localOps), base, pos, p.at);
      t := Close(net, 0, t, Base(localOps), from, p);
    }

    method FetchAndApply(srv: Server, base: Book) returns (m: Book, n: nat)
      requires Keyed(base) && KeyedOps(srv.history)
      modifies this`pos
      ensures var fetched := FetchSince(srv, old(pos).seqNo);
        && m == Replay(base, Ops(fetched)) && n == |fetched|
        && pos == if fetched == [] then old(pos) else old(pos).(seqNo := fetched[|fetched| - 1].seqNo)
      ensures Keyed(m)
    {
      var fetched := FetchSince(srv, pos.seqNo);
      FetchKeyed(srv, pos.seqNo);
      ReplayKeyed(base, Ops(fetched));
      m := PullOps(base, fetched);
      n := |fetched|;
    }

    /** Fetch the ops past our position and apply them in order. */
    method PullRemote(server: OpLogServer, remote: Remote, base0: Book, net: Network, ghost t0: Trail,
                      ghost from: Position, ghost p: Pass)
      returns (ok: bool, base: Book, pulledOps: nat, ghost t: Trail)
      requires FilesKeyed(net) && On(server, net, t0, from, p) && t0.Act? && Keyed(base0)
      requires p.Based? && p.remote == remote && p.base == base0 && p.mem == pos
      modifies this`pos, this`store, this`edited, server
      ensures Root(t) == Root(t0) && Keyed(base)
      ensures ok ==> t.Act? && On(server, net, t, from, Pulled(remote, p.local, base, pos))
      ensures ok ==> Brought(t) == (Brought(t0) || pulledOps > 0)
      ensures !ok ==> Stuck(net, t) && pos == old(pos) && On(server, net, t, from, p)
    {
      ok, t, base, pulledOps := true, t0, base0, 0;
      if remote.maxSeq > pos.seqNo {
        t := Yield(server, net, 1, t, from, p);
        if net.fails(1) { return false, base, 0, t; }
        base, pulledOps := FetchAndApply(server.srv, base);
      }
      assert Replay(base0, Ops([])) == base0;
      t := Close(net, 1, t, Pull, from, Pulled(remote, p.local, base, pos));
    }

    /** Encrypt and append the local ops, already applied to the base. */
    method AppendLocal(server: OpLogServer, remote: Remote, base: Book, localOps: seq<ContactOp>, net: Network,
                       ghost t0: Trail, ghost from: Position, ghost p: Pass)
      returns (ok: bool, first: nat, last: nat, ghost t: Trail)
      requires FilesKeyed(net) && On(server, net, t0, from, p) && t0.Act? && localOps != [] && KeyedOps(localOps)
      requires p.Pulled? && p.remote == remote && p.local.ops == localOps && base == Replay(p.base, localOps)
      requires p.mem == pos
      modifies this`store, this`edited, server
      ensures Root(t) == Root(t0)
      ensures ok ==> t.Act? && On(server, net, t, from, Appended(remote, p.local, base, pos, first, last))
      ensures Brought(t) == Brought(t0)
      ensures !ok ==> Stuck(net, t) && On(server, net, t, from, p)
    {
      t := Yield(server, net, 2, t0, from, p);
      if net.fails(2) { return false, 0, 0, t; }
      AppendKeyed(server.srv, localOps);
      first, last := server.AppendOps(localOps);
      ghost var q := PushPass(t.srv, p);
      assert q == Appended(remote, p.local, base, pos, first, last);
      ok := true;
      t := Close(net, 2, t, Push, from, q);
    }

    method FetchGap(srv: Server, since: nat, base: Book, first: nat, touched: set<string>) returns (m: Book)
      requires Keyed(base) && KeyedOps(srv.history)
      ensures m == ReplaySkip(base, Raced(FetchSince(srv, since), first), touched) && Keyed(m)
    {
      var gap := FetchSince(srv, since);
      FetchKeyed(srv, since);
      RacedKeyed(gap, first);
      ReplaySkipKeyed(base, Raced(gap, first), touched);
      m := ApplyGapOps(base, gap, first, touched);
    }

    /** Pick up the ops that raced the append. */
    method RepairRace(server: OpLogServer, remote: Remote, base0: Book, touched: set<string>, first: nat, last: nat,
                      net: Network,
                      ghost t0: Trail, ghost from: Position, ghost p: Pass)
      returns (ok: bool, base: Book, ghost t: Trail)
      requires FilesKeyed(net) && On(server, net, t0, from, p) && t0.Act? && Keyed(base0)
      requires p.Appended? && p == Appended(remote, p.local, base0, pos, first, last) && touched == Ids(p.local.ops)
      modifies this`pos, this`store, this`edited, server
      ensures Root(t) == Root(t0) && Keyed(base)
      ensures ok ==> t.Act? && On(server, net, t, from, Merged(remote, p.local, base, pos))
      ensures Brought(t) == Brought(t0)
      ensures !ok ==> Stuck(net, t) && pos == old(pos) && On(server, net, t, from, p)
    {
      ok, t, base := true, t0, base0;
      if first > pos.seqNo + 1 {
        t := Yield(server, net, 3, t, from, p);
        if net.fails(3) { return false, base, t; }
        base := FetchGap(server.srv, pos.seqNo, base, first, touched);
      }
      pos := pos.(seqNo := last);
      assert RepairPass(server.srv, p) == Merged(remote, p.local, base, pos);
      t := Close(net, 3, t, Repair, from, Merged(remote, p.local, base, pos));
    }

    /** Apply the local ops, append them, and pick up the ops that raced the append. */
    method PushLocal(server: OpLogServer, remote: Remote, base0: Book, localOps: seq<ContactOp>, net: Network,
                     ghost t0: Trail, ghost from: Position, ghost p: Pass)
      returns (ok: bool, base: Book, ghost t: Trail)
      requires FilesKeyed(net) && On(server, net, t0, from, p) && t0.Act? && Keyed(base0) && KeyedOps(localOps)
      requires p.Pulled? && p.remote == remote && p.local.ops == localOps && p.base == base0 && p.mem == pos
      modifies this`pos, this`store, this`edited, server
      ensures Root(t) == Root(t0) && Keyed(base)
      ensures ok ==> t.Act? && On(server, net, t, from, Merged(remote, p.local, base, pos))
      ensures Brought(t) == Brought(t0)
      ensures !ok ==> Stuck(net, t) && t.call != 4 && pos == old(pos) && MemOf(t.dev) == pos
      ensures !ok ==> On(server, net, t, from, t.dev.pass)
    {
      var touched;
      ReplayKeyed(base0, localOps);
      base, touched := ApplyLocal(base0, localOps);
      if |localOps| == 0 {
        t := Close(net, 2, t0, Push, from, Merged(remote, p.local, base, pos));
        return true, base, t;
      }
      var first, last;
      ok, first, last, t := AppendLocal(server, remote, base, localOps, net, t0, from, p);
      if !ok { return; }
      ok, base, t := RepairRace(server, remote, base, touched, first, last, net, t, from,
                                Appended(remote, p.local, base, pos, first, last));
    }

    /** Pull, then push. */
    method PullAndPush(server: OpLogServer, remote: Remote, base0: Book, localOps: seq<ContactOp>, net: Network,
                       ghost t0: Trail, ghost from: Position, ghost p: Pass)
      returns (ok: bool, base: Book, pulledOps: nat, ghost t: Trail)
      requires FilesKeyed(net) && On(server, net, t0, from, p) && t0.Act? && Keyed(base0) && KeyedOps(localOps)
      requires p.Based? && p.remote == remote && p.local.ops == localOps && p.base == base0 && p.mem == pos
      modifies this`pos, this`store, this`edited, server
      ensures Root(t) == Root(t0) && Keyed(base) && On(server, net, t, from, t.dev.pass) && MemOf(t.dev) == pos
      ensures ok ==> t.Act? && t.dev.pass == Merged(remote, p.local, base, pos)
      ensures ok ==> Brought(t) == (Brought(t0) || pulledOps > 0)
      ensures !ok ==> Stuck(net, t) && t.call != 4
    {
      ok, base, pulledOps, t := PullRemote(server, remote, base0, net, t0, from, p);
      if ok {
        ok, base, t := PushLocal(server, remote, base, localOps, net, t, from, Pulled(remote, p.local, base, pos));
      }
    }

    /** The network part of a pass: rebase, pull, push. */
    method Exchange(server: OpLogServer, remote: Remote, localOps: seq<ContactOp>, net: Network, ghost t0: Trail)
      returns (ok: bool, base: Book, action: SyncAction, ghost t: Trail)
      requires FilesKeyed(net) && On(server, net, t0, pos, Started(remote)) && t0.Start?
      requires Enabled(Files(pos, Started(remote)), Base(localOps))
      requires !IdlePath(Files(pos, Started(remote)), remote, localOps)
      modifies this`pos, this`store, this`edited, server
      ensures Root(t) == t0 && Keyed(base) && On(server, net, t, old(pos), t.dev.pass) && MemOf(t.dev) == pos
      ensures ok ==> t.Act? && t.dev.pass == Merged(remote, Local(old(store), localOps), base, pos)
      ensures !ok ==> Stuck(net, t) && t.call != 4
      ensures action.SyncedBoth? || action.PushedOnly? <==> localOps != []
      ensures ok ==> (action.SyncedBoth? || action.PulledOnly? <==> Brought(t))
    {
      ghost var from := pos;
      DiffKeyed(if shadow.Some? then shadow.value else [], store, localOps);
      var bootstrapped, pulledOps;
      ok, base, bootstrapped, t := Rebase(server, remote, localOps, net, t0);
      action := ContactsAction(bootstrapped, 0, |localOps|);
      if ok {
        ok, base, pulledOps, t := PullAndPush(server, remote, base, localOps, net, t, from, t.dev.pass);
        action := ContactsAction(bootstrapped, pulledOps, |localOps|);
      }
    }

    method SaveStoreFile(server: OpLogServer, remote: Remote, merged: seq<Contact>, net: Network, ghost t0: Trail,
                         ghost from: Position, ghost p: Pass)
      returns (ok: bool, ghost t: Trail)
      requires FilesKeyed(net) && On(server, net, t0, from, p) && t0.Act?
      requires p.Merged? && p.remote == remote && p.mem == pos && ListOf(merged, p.base)
      modifies this`store, this`edited, server
      ensures Root(t) == Root(t0)
      ensures ok ==> t.Act? && On(server, net, t, from, StoreSaved(remote, merged, pos))
      ensures Brought(t) == Brought(t0)
      ensures !ok ==> Stuck(net, t) && On(server, net, t, from, p)
    {
      t := Yield(server, net, 5, t0, from, p);
      if net.fails(5) { return false, t; }
      store, edited := merged, false;
      t := Close(net, 5, t, SaveStore(merged), from, StoreSaved(remote, merged, pos));
      ok := true;
    }

    method SaveShadowFile(server: OpLogServer, remote: Remote, merged: seq<Contact>, net: Network, ghost t0: Trail,
                          ghost from: Position)
      returns (ok: bool, ghost t: Trail)
      requires FilesKeyed(net) && On(server, net, t0, from, StoreSaved(remote, merged, pos)) && t0.Act?
      modifies this`store, this`shadow, this`covers, this`edited, server
      ensures Root(t) == Root(t0)
      ensures ok ==> t.Act? && On(server, net, t, from, ShadowSaved(remote, merged, pos))
      ensures Brought(t) == Brought(t0)
      ensures !ok ==> Stuck(net, t) && On(server, net, t, from, StoreSaved(remote, merged, pos))
    {
      ghost var p := StoreSaved(remote, merged, pos);
      t := Yield(server, net, 6, t0, from, p);
      if net.fails(6) { return false, t; }
      shadow, covers := Some(merged), pos.seqNo;
      t := Close(net, 6, t, SaveShadow, from, ShadowSaved(remote, merged, pos));
      ok := true;
    }

    /** Persist the converged set as store and shadow. */
    method Save(server: OpLogServer, remote: Remote, merged: seq<Contact>, net: Network, ghost t0: Trail,
                ghost from: Position, ghost p: Pass)
      returns (ok: bool, ghost t: Trail)
      requires FilesKeyed(net) && On(server, net, t0, from, p) && t0.Act?
      requires p.Merged? && p.remote == remote && p.mem == pos && ListOf(merged, p.base)
      modifies this`store, this`shadow, this`covers, this`edited, server
      ensures Root(t) == Root(t0) && On(server, net, t, from, t.dev.pass) && MemOf(t.dev) == pos
      ensures ok ==> t.Act? && t.dev.pass == ShadowSaved(remote, merged, pos)
      ensures Brought(t) == Brought(t0)
      ensures !ok ==> Stuck(net, t) && t.call != 4
    {
      ok, t := SaveStoreFile(server, remote, merged, net, t0, from, p);
      if ok {
        ok, t := SaveShadowFile(server, remote, merged, net, t, from);
      }
    }

    /** compactContacts, when the tail past the snapshot has grown long. Losing the race for
        the compaction is not an error. */
    method CompactContacts(server: OpLogServer, remote: Remote, merged: seq<Contact>, threshold: nat, net: Network,
                           ghost t0: Trail, ghost from: Position)
      returns (ok: bool, ghost t: Trail)
      requires FilesKeyed(net) && On(server, net, t0, from, ShadowSaved(remote, merged, pos)) && t0.Act?
      modifies this`pos, this`store, this`edited, server
      ensures Root(t) == Root(t0) && Leads(net, t, server.srv, Files(from, t.dev.pass)) && MemOf(t.dev) == pos
      ensures ok ==> t.Act? && t.dev.pass == Done(pos)
      ensures !ok ==> Stuck(net, t)
      ensures Threshold(t, threshold) && Brought(t) == Brought(t0)
    {
      ghost var p := ShadowSaved(remote, merged, pos);
      ok, t := true, t0;
      if pos.seqNo - remote.through > threshold {
        t := Yield(server, net, 4, t, from, p);
        if net.fails(4) { return false, t; }
        var conflict, version := server.CompactOps(merged, pos.seqNo, pos.snapVersion);
        if !conflict {
          pos := pos.(snapVersion := version);
        }
      }
      t := Close(net, 4, t, TryCompact(threshold), from, Done(pos));
    }

    /** A pass that has something to do. */
    method Converge(server: OpLogServer, remote: Remote, localOps: seq<ContactOp>, threshold: nat, net: Network,
                    ghost t0: Trail)
      returns (out: SyncOutcome, ghost t: Trail)
      requires FilesKeyed(net) && On(server, net, t0, pos, Started(remote)) && t0.Start?
      requires Enabled(Files(pos, Started(remote)), Base(localOps))
      requires !IdlePath(Files(pos, Started(remote)), remote, localOps)
      modifies this, server
      ensures Root(t) == t0 && Leads(net, t, server.srv, Files(old(pos), t.dev.pass)) && MemOf(t.dev) == pos
      ensures !out.Blocked? && (out.Failed? ==> Stuck(net, t)) && Threshold(t, threshold)
      ensures out.Ok? ==> t.Act? && t.dev.pass == Done(pos) && out.version == pos.snapVersion
      ensures out.Ok? ==> (out.action.SyncedBoth? || out.action.PushedOnly? <==> localOps != [])
      ensures out.Ok? ==> (out.action.SyncedBoth? || out.action.PulledOnly? <==> Brought(t))
    {
      ghost var from := pos;
      var ok, base, action;
      ok, base, action, t := Exchange(server, remote, localOps, net, t0);
      if !ok { return Failed, t; }
      var merged := ContactsSorted(base);
      ok, t := Save(server, remote, merged, net, t, from, t.dev.pass);
      if !ok { return Failed, t; }
      ok, t := CompactContacts(server, remote, merged, threshold, net, t, from);
      out := if ok then Ok(action, pos.snapVersion) else Failed;
    }

    /** One pass. What it did is a trail of the protocol's steps, each at the server that `net`
        says its call met, ending where the pass stopped: at its end, or at a call that failed.
        The position moves in place even when the pass then fails. If no stage read what a
        compaction had overtaken, as is always so while the others do not compact, the
        invariant holds at the end, and success means that the shadow, and the store unless
        it was edited since, are the replay of the whole log through the position, and in the
        latter case that the version recorded is the server's. A pass that nothing disturbs
        does not fail, and does just what `Solo` says. */
    method SyncContactsOps(server: OpLogServer, remote: Remote, maxContacts: nat, threshold: nat, net: Network)
      returns (out: SyncOutcome, ghost t: Trail)
      requires Lawful(net) && ServerInv(server.srv) && DeviceInv(server.srv, Files(pos, Started(remote)))
      modifies this, server
      ensures Legal(net, t) && Root(t) == old(Start(server.srv, Files(pos, Started(remote))))
      ensures Leads(net, t, server.srv, Files(old(pos), t.dev.pass)) && MemOf(t.dev) == pos
      ensures out.Blocked? <==> 0 < maxContacts < |old(store)|
      ensures out.Blocked? ==> t.Start?
      ensures (out.Failed? ==> Stuck(net, t)) && Threshold(t, threshold)
      ensures out.Ok? ==> Succeeded(t) && out.version == pos.snapVersion
      ensures out.Ok? ==> (out.action.SyncedBoth? || out.action.PushedOnly? <==>
                             ByID(old(if shadow.Some? then shadow.value else [])) != ByID(old(store)))
      ensures out.Ok? ==> (out.action.SyncedBoth? || out.action.PulledOnly? <==> Brought(t))
      ensures Clean(t) ==> ServerInv(server.srv) && DeviceInv(server.srv, t.dev)
      ensures out.Ok? && Clean(t) ==>
                && shadow.Some? && ByID(shadow.value) == MeaningAt(server.srv, pos.seqNo)
                && (!edited ==> ByID(store) == MeaningAt(server.srv, pos.seqNo))
      ensures KeepsVersion(net) && remote.version == old(server.srv).version ==>
                Clean(t) && (out.Ok? ==> pos.snapVersion == server.srv.version)
      ensures Still(net) && remote == RemoteOf(old(server.srv)) ==>
                && !out.Failed?
                && (out.Ok? ==>
                      SoloPass(threshold, old(server.srv), old(Files(pos, Idle)), server.srv, Files(pos, Idle)))
    {
      t := Start(server.srv, Files(pos, Started(remote)));
      out, t := Attempt(server, remote, maxContacts, threshold, net, t);
      PassEnds(net, t, threshold, old(server.srv), old(Files(pos, Idle)), remote);
    }

    /** The gate, the diff and the idle path. */
    method Attempt(server: OpLogServer, remote: Remote, maxContacts: nat, threshold: nat, net: Network, ghost t0: Trail)
      returns (out: SyncOutcome, ghost t: Trail)
      requires FilesKeyed(net) && On(server, net, t0, pos, Started(remote)) && t0.Start? && Distinct(store)
      modifies this, server
      ensures Root(t) == t0 && Leads(net, t, server.srv, Files(old(pos), t.dev.pass)) && MemOf(t.dev) == pos
      ensures out.Blocked? <==> 0 < maxContacts < |old(store)|
      ensures out.Blocked? ==> t.Start?
      ensures (out.Failed? ==> Stuck(net, t)) && Threshold(t, threshold)
      ensures out.Ok? ==> Succeeded(t) && out.version == pos.snapVersion
      ensures out.Ok? ==> (out.action.SyncedBoth? || out.action.PushedOnly? <==>
                             ByID(old(if shadow.Some? then shadow.value else [])) != ByID(old(store)))
      ensures out.Ok? ==> (out.action.SyncedBoth? || out.action.PulledOnly? <==> Brought(t))
    {
      ghost var dev := Files(pos, Started(remote));
      t := t0;
      var local := store;
      if 0 < maxContacts < |local| {
        return Blocked, t;
      }
      var localOps := DiffContacts(if shadow.Some? then shadow.value else [], local);
      DiffEmptyIff(localOps, ByID(ShadowList(dev)), ByID(store));
      if remote.version == pos.snapVersion && remote.maxSeq == pos.seqNo && localOps == [] && shadow.Some? {
        t := Close(net, 0, t, Base(localOps), pos, Idle);
        return Ok(UpToDate, remote.version), t;
      }
      out, t := Converge(server, remote, localOps, threshold, net, t);
    }
  }
}
