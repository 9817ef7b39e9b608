/** The tests a clean run asks of its steps are exact: for every combination of sequence
    numbers, the step is right for every log with those numbers exactly when the test holds. */
module ContactsExact {
  import opened Wrappers
  import opened OpLog
  import opened ContactsSync
  import ContactsQuiet

  // ----- logs with one contact in them -----

  const BOB := Contact("bob", "{}")

  /** n ops, of which only number j + 1 has an effect: it puts bob. */
  function Lone(n: nat, j: nat): (h: seq<ContactOp>)
    ensures |h| == n
  {
    seq(n, i => if i == j then Put(BOB.alias, BOB) else Del("carol"))
  }

  lemma {:induction false} LoneMeans(n: nat, j: nat, m: nat)
    requires m <= n
    ensures Replay(map[], Lone(n, j)[..m]) == if j < m then map[BOB.alias := BOB] else map[]
  {
    if m > 0 {
      LoneMeans(n, j, m - 1);
      assert Lone(n, j)[..m][..m - 1] == Lone(n, j)[..m - 1];
    }
  }

  /** The other ops leave bob alone. */
  lemma WithoutBob(base: Book, ops: seq<ContactOp>)
    requires forall i :: 0 <= i < |ops| ==> ops[i].id != BOB.alias
    ensures At(Replay(base, ops), BOB.alias) == At(base, BOB.alias) && LastWrite(ops, BOB.alias).None?
  {
    ReplayAt(base, ops, BOB.alias);
    LastWriteTouches(ops, BOB.alias);
  }

  /** Such a log, compacted through `through`. */
  function LoneServer(n: nat, j: nat, through: nat): Server {
    Server(Lone(n, j), if through == 0 then 0 else 1, through, if j < through then [BOB] else [])
  }

  lemma LoneServerInv(n: nat, j: nat, through: nat)
    requires through <= n
    ensures ServerInv(LoneServer(n, j, through))
  {
    LoneMeans(n, j, through);
    assert [BOB][..0] == [];
  }

  // ----- pulling -----

  /** A pull with the given numbers, onto a base that is right for where it stands. */
  ghost predicate PullCase(srv: Server, p: Pass, n: nat, through: nat, maxSeq: nat, since: nat, at: nat) {
    && ServerInv(srv) && |srv.history| == n && srv.through == through
    && p.Based? && p.remote.maxSeq == maxSeq && p.mem.seqNo == since && p.at == at
    && at <= n && p.base == MeaningAt(srv, at)
  }

  ghost predicate PullRight(srv: Server, p: Pass)
    requires p.Based?
  {
    var q := PullPass(srv, p);
    q.mem.seqNo <= |srv.history| && q.base == MeaningAt(srv, q.mem.seqNo)
  }

  lemma PullExact(n: nat, through: nat, maxSeq: nat, since: nat, at: nat)
    requires through <= n && since <= n && at <= n
    ensures (forall srv, p | PullCase(srv, p, n, through, maxSeq, since, at) :: PullRight(srv, p))
        <==> PullWhole(n, through, maxSeq, since, at)
  {
    if PullWhole(n, through, maxSeq, since, at) {
      forall srv, p | PullCase(srv, p, n, through, maxSeq, since, at) ensures PullRight(srv, p) {
        PullSound(srv, p);
      }
    } else {
      var srv, p := PullCounterexample(n, through, maxSeq, since, at);
      assert PullCase(srv, p, n, through, maxSeq, since, at) && !PullRight(srv, p);
    }
  }

  function PullAt(srv: Server, maxSeq: nat, since: nat, at: nat): Pass
    requires at <= |srv.history|
  {
    Based(Remote(0, 0, maxSeq), Local([], []), MeaningAt(srv, at), Position(since, 0), at)
  }

  lemma PullCounterexample(n: nat, through: nat, maxSeq: nat, since: nat, at: nat) returns (srv: Server, p: Pass)
    requires through <= n && since <= n && at <= n && !PullWhole(n, through, maxSeq, since, at)
    ensures PullCase(srv, p, n, through, maxSeq, since, at) && !PullRight(srv, p)
  {
    var fetches := maxSeq > since && Max(since, through) < n;
    // bob's op is one the pull misses, or one the base has and the position does not
    var j := if !fetches && since < at then since else at;
    srv := LoneServer(n, j, through);
    p := PullAt(srv, maxSeq, since, at);
    LoneServerInv(n, j, through);
    if fetches {
      PullMisses(srv, p, n);
    } else {
      PullMisplaces(n, j, through, maxSeq, since, at);
    }
  }

  lemma PullMisses(srv: Server, p: Pass, n: nat)
    requires p.Based? && p.at <= n && srv.through <= n && p.mem.seqNo <= n && srv.history == Lone(n, p.at)
    requires p.at < Max(p.mem.seqNo, srv.through) < n && p.remote.maxSeq > p.mem.seqNo
    requires p.base == MeaningAt(srv, p.at)
    ensures !PullRight(srv, p)
  {
    LoneMeans(n, p.at, p.at);
    LoneMeans(n, p.at, n);
    PullCut(srv, p);
    var tail := srv.history[Max(p.mem.seqNo, srv.through)..];
    WithoutBob(p.base, tail);
    assert At(Replay(p.base, tail), BOB.alias) == None;
    assert At(MeaningAt(srv, n), BOB.alias) == Some(BOB);
  }

  lemma PullMisplaces(n: nat, j: nat, through: nat, maxSeq: nat, since: nat, at: nat)
    requires through <= n && since <= n && at <= n && !(maxSeq > since && Max(since, through) < n)
    requires since != at && j == if since < at then since else at
    ensures var srv := LoneServer(n, j, through); !PullRight(srv, PullAt(srv, maxSeq, since, at))
  {
    var srv := LoneServer(n, j, through);
    var p := PullAt(srv, maxSeq, since, at);
    LoneMeans(n, j, at);
    LoneMeans(n, j, since);
    PullCut(srv, p);
    assert At(p.base, BOB.alias) != At(MeaningAt(srv, since), BOB.alias);
  }

  // ----- repairing -----

  ghost predicate RepairCase(srv: Server, p: Pass, n: nat, through: nat, since: nat, first: nat, last: nat) {
    && ServerInv(srv) && |srv.history| == n && srv.through == through
    && p.Appended? && p.mem.seqNo == since && p.first == first && p.last == last
    && since < first <= last <= n && srv.history[first - 1..last] == p.local.ops && DecidesItsIds(p.local.ops)
    && p.base == Replay(MeaningAt(srv, since), p.local.ops)
  }

  ghost predicate RepairRight(srv: Server, p: Pass)
    requires p.Appended?
  {
    p.last <= |srv.history| && RepairPass(srv, p).base == MeaningAt(srv, p.last)
  }

  lemma RepairExact(n: nat, through: nat, since: nat, first: nat, last: nat)
    requires through <= n && since < first <= last <= n
    ensures (forall srv, p | RepairCase(srv, p, n, through, since, first, last) :: RepairRight(srv, p))
        <==> RepairWhole(through, since, first)
  {
    if RepairWhole(through, since, first) {
      forall srv, p | RepairCase(srv, p, n, through, since, first, last) ensures RepairRight(srv, p) {
        RepairSound(srv, p);
      }
    } else {
      var srv, p := RepairCounterexample(n, through, since, first, last);
      assert RepairCase(srv, p, n, through, since, first, last) && !RepairRight(srv, p);
    }
  }

  lemma {:induction false} RacedWithin(gap: seq<LoggedOp>, first: nat, id: string)
    requires forall i :: 0 <= i < |gap| ==> gap[i].op.id != id
    ensures forall i :: 0 <= i < |Raced(gap, first)| ==> Raced(gap, first)[i].id != id
  {
    if gap != [] && gap[0].seqNo < first {
      RacedWithin(gap[1..], first, id);
    }
  }

  lemma RepairCounterexample(n: nat, through: nat, since: nat, first: nat, last: nat) returns (srv: Server, p: Pass)
    requires through <= n && since < first <= last <= n && !RepairWhole(through, since, first)
    ensures RepairCase(srv, p, n, through, since, first, last) && !RepairRight(srv, p)
  {
    srv := LoneServer(n, since, through);
    var ops := srv.history[first - 1..last];
    LoneServerInv(n, since, through);
    DecisiveDecides(ops);
    p := Appended(Remote(0, 0, 0), Local([], ops), Replay(MeaningAt(srv, since), ops), Position(since, 0), first, last);
    RepairMisses(srv, p, n, through);
  }

  lemma RepairMisses(srv: Server, p: Pass, n: nat, through: nat)
    requires p.Appended? && p.mem.seqNo < p.first <= p.last <= n && p.first > p.mem.seqNo + 1
    requires srv == LoneServer(n, p.mem.seqNo, through) && p.mem.seqNo < through <= n
    requires p.local.ops == srv.history[p.first - 1..p.last]
    requires p.base == Replay(MeaningAt(srv, p.mem.seqNo), p.local.ops)
    ensures !RepairRight(srv, p)
  {
    var since := p.mem.seqNo;
    LoneMeans(n, since, since);
    LoneMeans(n, since, p.last);
    WithoutBob(MeaningAt(srv, since), p.local.ops);
    RacedWithin(FetchSince(srv, since), p.first, BOB.alias);
    WithoutBob(map[], Gap(srv, p));
    ReplaySkipAt(p.base, Gap(srv, p), Ids(p.local.ops), BOB.alias);
    assert At(RepairPass(srv, p).base, BOB.alias) == None;
    assert At(MeaningAt(srv, p.last), BOB.alias) == Some(BOB);
  }

  // ----- resuming -----

  /** A shadow saved at `covers`, resumed from position `since`, catches up with
      every possible history exactly when the position is not ahead of the shadow.
      An error return persists the position a failed pass had reached without the
      shadow that goes with it, so this is the test it has to pass. */
  lemma ResumeExact(covers: nat, since: nat)
    ensures (forall h: seq<ContactOp> | covers <= |h| && since <= |h| ::
               Replay(Replay(map[], h[..covers]), h[since..]) == Replay(map[], h))
            <==> since <= covers
  {
    if since <= covers {
      forall h: seq<ContactOp> | covers <= |h| && since <= |h|
        ensures Replay(Replay(map[], h[..covers]), h[since..]) == Replay(map[], h)
      {
        CatchUp(Server(h, 0, 0, []), since, covers);
        assert h[..|h|] == h;
      }
    } else {
      var h := Lone(since, since - 1);
      assert h[since..] == [] && h[..since] == h;
      LoneMeans(since, since - 1, covers);
      LoneMeans(since, since - 1, since);
      assert At(Replay(Replay(map[], h[..covers]), h[since..]), BOB.alias) == None;
      assert At(Replay(map[], h), BOB.alias) == Some(BOB);
    }
  }

  /** What the base stage starts the rest of the pass from is right for where it stands. */
  ghost predicate BaseRight(srv: Server, dev: Device)
    requires dev.pass.Started? && dev.shadow.None?
  {
    var p := BasePass(srv, dev, dev.pass.remote, []);
    p.Based? && p.at <= |srv.history| && p.base == MeaningAt(srv, p.at)
  }

  /** A pass of a device that has no shadow, at a position it persisted earlier. */
  ghost predicate ShadowlessCase(srv: Server, dev: Device, pos: Position) {
    && ServerInv(srv) && PosInv(srv, pos) && dev.shadow.None? && dev.pos == pos && dev.pass == Started(RemoteOf(srv))
  }

  /** Without a shadow a position can be resumed from, on every server, exactly when it is at the
      start of the log or the next pass is bound to find a snapshot to download. */
  lemma ResumeWithoutShadowExact(pos: Position)
    ensures (forall srv, dev | ShadowlessCase(srv, dev, pos) :: BaseRight(srv, dev))
        <==> pos.seqNo == 0 || pos.snapVersion > 0
  {
    if pos.seqNo == 0 || pos.snapVersion > 0 {
      forall srv, dev | ShadowlessCase(srv, dev, pos) ensures BaseRight(srv, dev) {
        assert srv.history[..0] == [];
      }
    } else {
      var srv := LoneServer(pos.seqNo, 0, 0);
      var dev := Device([], None, 0, pos, false, Started(RemoteOf(srv)));
      LoneServerInv(pos.seqNo, 0, 0);
      LoneMeans(pos.seqNo, 0, pos.seqNo);
      assert At(MeaningAt(srv, pos.seqNo), BOB.alias) == Some(BOB);
      assert ShadowlessCase(srv, dev, pos) && !BaseRight(srv, dev);
    }
  }

  /** The device after a pull that had nothing to push saves its files and then dies. */
  ghost function CrashedAfterSave(srv: Server, dev: Device, list: seq<Contact>): Device
    requires dev.pass.Pulled? && dev.pass.local.ops == [] && ListOf(list, dev.pass.base)
  {
    var d1 := DoDevice(srv, dev, Push);
    var d2 := DoDevice(srv, d1, SaveStore(list));
    var d3 := DoDevice(srv, d2, SaveShadow);
    DoDevice(srv, d3, Crash)
  }

  lemma Crashed(srv: Server, dev: Device, list: seq<Contact>)
    requires dev.pass.Pulled? && dev.pass.local.ops == [] && ListOf(list, dev.pass.base)
    ensures CrashedAfterSave(srv, dev, list) == Device(list, Some(list), dev.pass.mem.seqNo, dev.pos, false, Idle)
  {
  }

  /** A pass that has pulled through `covers`, from a position persisted at `since`. */
  ghost predicate CrashCase(srv: Server, dev: Device, list: seq<Contact>, since: nat, covers: nat) {
    && ServerInv(srv) && PosInv(srv, dev.pos) && dev.pos.seqNo == since
    && dev.pass.Pulled? && dev.pass.local.ops == [] && dev.pass.mem.seqNo == covers <= |srv.history|
    && dev.pass.base == MeaningAt(srv, covers) && ListOf(list, dev.pass.base)
  }

  /** What the next pass, undisturbed and with nothing to push, makes of the contacts. */
  function NextResult(srv: Server, dev: Device): Book {
    if IdlePath(dev, RemoteOf(srv), []) then ByID(ShadowList(dev))
    else PullPass(srv, BasePass(srv, dev, RemoteOf(srv), [])).base
  }

  ghost predicate Recovers(srv: Server, dev: Device) {
    forall srv' | Grows(srv, srv') && ServerInv(srv') :: NextResult(srv', dev) == Meaning(srv')
  }

  /** After a crash between saving the shadow and persisting the position, the next pass catches
      up with every later log exactly when the pull before the crash did not end behind the
      position persisted earlier. */
  lemma FallBehindExact(since: nat, covers: nat)
    ensures (forall srv, dev, list | CrashCase(srv, dev, list, since, covers) ::
               Recovers(srv, CrashedAfterSave(srv, dev, list)))
        <==> since <= covers
  {
    if since <= covers {
      forall srv, dev, list | CrashCase(srv, dev, list, since, covers)
        ensures Recovers(srv, CrashedAfterSave(srv, dev, list))
      {
        forall srv' | Grows(srv, srv') && ServerInv(srv')
          ensures NextResult(srv', CrashedAfterSave(srv, dev, list)) == Meaning(srv')
        {
          MeaningStable(srv, srv', covers);
          CatchesUp(srv', CrashedAfterSave(srv, dev, list));
        }
      }
    } else {
      var srv, dev := CrashCounterexample(since, covers);
      assert CrashCase(srv, dev, [], since, covers) && !Recovers(srv, CrashedAfterSave(srv, dev, []));
    }
  }

  lemma CatchesUp(srv: Server, dev: Device)
    requires ServerInv(srv) && PosInv(srv, dev.pos) && dev.shadow.Some?
    requires dev.pos.seqNo <= dev.covers <= |srv.history| && ByID(dev.shadow.value) == MeaningAt(srv, dev.covers)
    ensures NextResult(srv, dev) == Meaning(srv)
  {
    assert srv.history[..|srv.history|] == srv.history;
    if !IdlePath(dev, RemoteOf(srv), []) {
      ContactsQuiet.PullSolo(srv, BasePass(srv, dev, RemoteOf(srv), []));
    }
  }

  /** Bob's op is the first one past the shadow, and the position is past it. */
  lemma CrashCounterexample(since: nat, covers: nat) returns (srv: Server, dev: Device)
    requires covers < since
    ensures CrashCase(srv, dev, [], since, covers) && !Recovers(srv, CrashedAfterSave(srv, dev, []))
  {
    srv := LoneServer(since, covers, 0);
    LoneServerInv(since, covers, 0);
    LoneMeans(since, covers, covers);
    LoneMeans(since, covers, since);
    dev := Device([], None, 0, Position(since, 0), false,
                  Pulled(Remote(0, 0, since), Local([], []), map[], Position(covers, 0)));
    assert ListOf([], map[]) && ByID([]) == map[];
    Crashed(srv, dev, []);
    SkipsBob(srv, Device([], Some([]), covers, Position(since, 0), false, Idle));
  }

  lemma SkipsBob(srv: Server, dev: Device)
    requires ServerInv(srv) && IdlePath(dev, RemoteOf(srv), []) && ByID(ShadowList(dev)) == map[]
    requires At(MeaningAt(srv, |srv.history|), BOB.alias) == Some(BOB)
    ensures !Recovers(srv, dev)
  {
    assert srv.history[..|srv.history|] == srv.history;
    assert Grows(srv, srv) && NextResult(srv, dev) != Meaning(srv);
  }
}
