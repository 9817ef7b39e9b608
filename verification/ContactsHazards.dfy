/** Where the protocol's guarantee stops: three families of runs in which the code loses a
    contact for good, and two in which it brings a deleted one back. */
module ContactsHazards {
  import opened Wrappers
  import opened OpLog
  import opened ContactsSync

  // ----- building runs -----

  ghost predicate Passes(states: seq<State>, events: seq<Event>, i: nat, earlier: State, s: State) {
    Run(states, events) && i <= |events| && states[i] == earlier && states[|events|] == s
  }

  /** Some run goes through `earlier` and ends in s. */
  ghost predicate Reach(earlier: State, s: State) {
    exists states, events, i :: Passes(states, events, i, earlier, s)
  }

  lemma ReachStart(s: State)
    requires Init(s)
    ensures Reach(s, s)
  {
    assert Passes([s], [], 0, s, s);
  }

  lemma ReachMark(earlier: State, s: State)
    requires Reach(earlier, s)
    ensures Reach(s, s)
  {
    var states, events, i :| Passes(states, events, i, earlier, s);
    assert Passes(states, events, |events|, s, s);
  }

  /** The other devices are as they were. */
  ghost predicate Elsewhere(s: State, s': State, d: nat) {
    && d in s.devices && d in s'.devices
    && forall o :: o in s.devices && o != d ==> o in s'.devices && s'.devices[o] == s.devices[o]
  }

  lemma RunExtends(states: seq<State>, events: seq<Event>, e: Event)
    requires Run(states, events) && CanDo(states[|events|], e)
    ensures Run(states + [After(states[|events|], e)], events + [e])
  {
    var states', events' := states + [After(states[|events|], e)], events + [e];
    forall i | 0 <= i < |events'|
      ensures CanDo(states'[i], events'[i]) && states'[i + 1] == After(states'[i], events'[i]) {
      if i < |events| {
        assert CanDo(states[i], events[i]) && states[i + 1] == After(states[i], events[i]);
      }
    }
  }

  lemma Take(earlier: State, s: State, d: nat, a: Action) returns (s': State)
    requires Reach(earlier, s) && CanDo(s, Event(d, a))
    ensures Reach(earlier, s') && Elsewhere(s, s', d)
    ensures s'.server == DoServer(s.server, s.devices[d], a) && s'.devices[d] == DoDevice(s.server, s.devices[d], a)
  {
    var e := Event(d, a);
    s' := After(s, e);
    var states, events, i :| Passes(states, events, i, earlier, s);
    RunExtends(states, events, e);
    assert Passes(states + [s'], events + [e], i, earlier, s');
  }

  lemma TakeBegin(earlier: State, s: State, d: nat) returns (s': State)
    requires Reach(earlier, s) && d in s.devices && s.devices[d].pass.Idle?
    ensures Reach(earlier, s') && Elsewhere(s, s', d) && s'.server == s.server
    ensures s'.devices[d] == s.devices[d].(pass := Started(RemoteOf(s.server)))
  {
    s' := Take(earlier, s, d, Begin);
  }

  lemma TakeBase(earlier: State, s: State, d: nat, diff: seq<ContactOp>) returns (s': State)
    requires Reach(earlier, s) && d in s.devices && Enabled(s.devices[d], Base(diff))
    ensures Reach(earlier, s') && Elsewhere(s, s', d) && s'.server == s.server
    ensures s'.devices[d] == s.devices[d].(pass := BasePass(s.server, s.devices[d], s.devices[d].pass.remote, diff))
  {
    s' := Take(earlier, s, d, Base(diff));
  }

  lemma TakeCompact(earlier: State, s: State, d: nat) returns (s': State)
    requires Reach(earlier, s) && d in s.devices && s.devices[d].pass.ShadowSaved? && Due(s.devices[d].pass, 0)
    ensures Reach(earlier, s') && Elsewhere(s, s', d)
    ensures var p := s.devices[d].pass; s'.server == Compact(s.server, p.merged, p.mem.seqNo, p.mem.snapVersion)
  {
    s' := Take(earlier, s, d, TryCompact(0));
  }

  // ----- what the stages of a pass come to -----

  function FreshDevice(store: seq<Contact>): Device {
    Device(store, None, 0, Position(0, 0), false, Idle)
  }

  function Holding(c: Contact): Book { map[c.alias := c] }

  lemma OneContact(c: Contact)
    ensures ByID([c]) == Holding(c) && ByID([]) == map[]
    ensures IsDiff([Put(c.alias, c)], map[], Holding(c)) && IsDiff([], map[], map[])
    ensures IsDiff([], Holding(c), Holding(c))
    ensures Replay(map[], [Put(c.alias, c)]) == Holding(c)
    ensures ListOf([c], Holding(c)) && ListOf([], map[])
  {
    assert [c][..0] == [];
    var ops := [Put(c.alias, c)];
    assert ops[..0] == [];
    assert ops[0].id in Ids(ops);
  }

  /** A device without a shadow, and an account without a snapshot: read the state and diff. */
  lemma Plan(earlier: State, s: State, d: nat, diff: seq<ContactOp>) returns (s': State)
    requires Reach(earlier, s) && d in s.devices && s.server.version == 0
    requires s.devices[d].pass.Idle? && s.devices[d].shadow.None? && s.devices[d].pos.snapVersion == 0
    requires IsDiff(diff, map[], ByID(s.devices[d].store))
    ensures Reach(earlier, s') && Elsewhere(s, s', d) && s'.server == s.server
    ensures var dev := s.devices[d];
      s'.devices[d] == dev.(pass := Based(RemoteOf(s.server), Local(dev.store, diff), map[], dev.pos, dev.pos.seqNo))
  {
    assert ByID([]) == map[];
    s' := TakeBegin(earlier, s, d);
    s' := TakeBase(earlier, s', d, diff);
  }

  /** Nothing to pull and nothing to push. */
  lemma NothingNew(earlier: State, s: State, d: nat) returns (s': State)
    requires Reach(earlier, s) && d in s.devices && s.devices[d].pass.Based? && s.devices[d].pass.local.ops == []
    requires s.devices[d].pass.remote.maxSeq <= s.devices[d].pass.mem.seqNo
    ensures Reach(earlier, s') && Elsewhere(s, s', d) && s'.server == s.server
    ensures var p := s.devices[d].pass; s'.devices[d] == s.devices[d].(pass := Merged(p.remote, p.local, p.base, p.mem))
  {
    s' := Take(earlier, s, d, Pull);
    assert s.server.history + [] == s.server.history;
    s' := Take(earlier, s', d, Push);
  }

  /** Nothing to pull, one contact to push onto an empty base. */
  lemma PushOne(earlier: State, s: State, d: nat, c: Contact) returns (s': State)
    requires Reach(earlier, s) && d in s.devices && s.devices[d].pass.Based? && s.devices[d].pass.base == map[]
    requires s.devices[d].pass.local.ops == [Put(c.alias, c)]
    requires var p := s.devices[d].pass; p.remote.maxSeq <= p.mem.seqNo || FetchSince(s.server, p.mem.seqNo) == []
    ensures Reach(earlier, s') && Elsewhere(s, s', d) && s'.server == Append(s.server, [Put(c.alias, c)])
    ensures var p, n := s.devices[d].pass, |s.server.history| + 1;
      s'.devices[d] == s.devices[d].(pass := Appended(p.remote, p.local, Holding(c), p.mem, n, n))
  {
    s' := Take(earlier, s, d, Pull);
    assert Replay(map[], [Put(c.alias, c)]) == Holding(c) by { OneContact(c); }
    s' := Take(earlier, s', d, Push);
  }

  /** No gap, or none of it left to fetch. */
  lemma RepairNothing(earlier: State, s: State, d: nat) returns (s': State)
    requires Reach(earlier, s) && d in s.devices && s.devices[d].pass.Appended?
    requires Gap(s.server, s.devices[d].pass) == []
    ensures Reach(earlier, s') && Elsewhere(s, s', d) && s'.server == s.server
    ensures var p := s.devices[d].pass;
      s'.devices[d] == s.devices[d].(pass := Merged(p.remote, p.local, p.base, p.mem.(seqNo := p.last)))
  {
    s' := Take(earlier, s, d, Repair);
  }

  /** Both files saved. */
  lemma SaveFiles(earlier: State, s: State, d: nat, list: seq<Contact>) returns (s': State)
    requires Reach(earlier, s) && d in s.devices && s.devices[d].pass.Merged? && ListOf(list, s.devices[d].pass.base)
    ensures Reach(earlier, s') && Elsewhere(s, s', d) && s'.server == s.server
    ensures var p := s.devices[d].pass;
      s'.devices[d] == Device(list, Some(list), p.mem.seqNo, s.devices[d].pos, false,
                              ShadowSaved(p.remote, list, p.mem))
  {
    s' := Take(earlier, s, d, SaveStore(list));
    s' := Take(earlier, s', d, SaveShadow);
  }

  /** ... and the positions too, no compaction being due. */
  lemma SaveAll(earlier: State, s: State, d: nat, list: seq<Contact>) returns (s': State)
    requires Reach(earlier, s) && d in s.devices && s.devices[d].pass.Merged? && ListOf(list, s.devices[d].pass.base)
    requires s.devices[d].pass.mem.seqNo - s.devices[d].pass.remote.through <= 200
    ensures Reach(earlier, s') && Elsewhere(s, s', d) && s'.server == s.server
    ensures var mem := s.devices[d].pass.mem; s'.devices[d] == Device(list, Some(list), mem.seqNo, mem, false, Idle)
  {
    s' := SaveFiles(earlier, s, d, list);
    s' := Take(earlier, s', d, TryCompact(200));
    s' := Take(earlier, s', d, Finish);
  }

  // ----- bob is pushed -----

  function Logged(bob: Contact): Server { Server([Put(bob.alias, bob)], 0, 0, []) }

  lemma TwoFresh(other: seq<Contact>, bob: Contact) returns (s: State)
    requires Distinct(other)
    ensures Reach(s, s) && s.server == Server([], 0, 0, []) && 0 in s.devices && 1 in s.devices
    ensures s.devices[0] == FreshDevice(other) && s.devices[1] == FreshDevice([bob])
  {
    s := State(Server([], 0, 0, []), map[0 := FreshDevice(other), 1 := FreshDevice([bob])]);
    ReachStart(s);
  }

  /** Two fresh devices; the second, which holds bob, has appended it. */
  lemma BobPushed(other: seq<Contact>, bob: Contact) returns (s: State)
    requires Distinct(other)
    ensures Reach(s, s) && s.server == Logged(bob) && 0 in s.devices && 1 in s.devices
    ensures s.devices[0] == FreshDevice(other)
    ensures s.devices[1] == FreshDevice([bob]).(pass :=
              Appended(Remote(0, 0, 0), Local([bob], [Put(bob.alias, bob)]), Holding(bob), Position(0, 0), 1, 1))
  {
    var start := TwoFresh(other, bob);
    var ops := [Put(bob.alias, bob)];
    assert IsDiff(ops, map[], ByID([bob])) by { OneContact(bob); }
    s := Plan(start, start, 1, ops);
    s := PushOne(start, s, 1, bob);
    assert start.server.history + ops == ops;
    ReachMark(start, s);
  }

  // ----- bob is lost -----

  /** The device records a position past bob's op, lacks bob, and will take the idle path
      from here on. */
  ghost predicate LostBob(s: State, bob: Contact) {
    && Reach(s, s) && 0 in s.devices && s.devices[0].pass.Idle?
    && var srv, dev := s.server, s.devices[0];
    && dev.pos.seqNo == |srv.history| && bob.alias in Meaning(srv) && bob.alias !in ByID(dev.store)
    && IsDiff([], ByID(ShadowList(dev)), ByID(dev.store)) && IdlePath(dev, RemoteOf(srv), [])
  }

  lemma PullsBob(p: Pass, bob: Contact)
    requires p.Based? && p.remote.maxSeq == 1 && p.mem == Position(0, 0) && p.base == map[]
    ensures PullPass(Logged(bob), p) == Pulled(p.remote, p.local, Holding(bob), Position(1, 0))
  {
    var fetched := FetchSince(Logged(bob), p.mem.seqNo);
    assert fetched == [LoggedOp(1, Put(bob.alias, bob))];
    assert Ops(fetched) == [Put(bob.alias, bob)];
    OneContact(bob);
  }

  lemma PulledBob(bob: Contact) returns (s: State)
    ensures Reach(s, s) && s.server == Logged(bob)
    ensures 0 in s.devices && s.devices[0] == FreshDevice([]).(pass :=
              Pulled(Remote(0, 0, 1), Local([], []), Holding(bob), Position(1, 0)))
  {
    var start := BobPushed([], bob);
    assert IsDiff([], map[], ByID([])) by { OneContact(bob); }
    s := Plan(start, start, 0, []);
    PullsBob(s.devices[0].pass, bob);
    s := Take(start, s, 0, Pull);
    ReachMark(start, s);
  }

  /** The pull advances the in-memory position, saving the store fails, and the caller
      persists the position. */
  lemma PulledThenFailed(bob: Contact) returns (s: State)
    ensures Reach(s, s) && s.server == Logged(bob)
    ensures 0 in s.devices && s.devices[0] == FreshDevice([]).(pos := Position(1, 0))
  {
    var start := PulledBob(bob);
    s := Take(start, start, 0, Push);
    assert Logged(bob).history + [] == Logged(bob).history;
    s := Take(start, s, 0, Abort);
    ReachMark(start, s);
  }

  /** The next pass starts from the old shadow at the new position and skips bob for good. */
  lemma ErrorReturnLosesContact(bob: Contact) returns (s: State)
    ensures LostBob(s, bob)
  {
    var start := PulledThenFailed(bob);
    assert IsDiff([], map[], ByID([])) && ListOf([], map[]) && bob.alias in Meaning(Logged(bob)) by { OneContact(bob); }
    s := Plan(start, start, 0, []);
    s := NothingNew(start, s, 0);
    s := SaveAll(start, s, 0, []);
    ReachMark(start, s);
  }

  function CompactedBob(bob: Contact): Server { Server([Put(bob.alias, bob)], 1, 1, [bob]) }

  lemma BobSaved(carol: Contact, bob: Contact) returns (s: State)
    ensures Reach(s, s) && s.server == Logged(bob) && 0 in s.devices && 1 in s.devices
    ensures s.devices[0] == FreshDevice([carol])
    ensures s.devices[1].pass == ShadowSaved(Remote(0, 0, 0), [bob], Position(1, 0))
  {
    var start := BobPushed([carol], bob);
    s := RepairNothing(start, start, 1);
    assert ListOf([bob], Holding(bob)) by { OneContact(bob); }
    s := SaveFiles(start, s, 1, [bob]);
    ReachMark(start, s);
  }

  /** The device that holds bob saves, and the other one, which adds carol, reads the server
      state just before bob's op is compacted away. */
  lemma BobCompacted(bob: Contact, carol: Contact) returns (s: State)
    ensures Reach(s, s) && s.server == CompactedBob(bob)
    ensures 0 in s.devices && s.devices[0] == FreshDevice([carol]).(pass := Started(Remote(0, 0, 1)))
  {
    var start := BobSaved(carol, bob);
    s := TakeBegin(start, start, 0);
    s := TakeCompact(start, s, 1);
    ReachMark(start, s);
  }

  function BobThenCarol(bob: Contact, carol: Contact): Server {
    Server([Put(bob.alias, bob), Put(carol.alias, carol)], 1, 1, [bob])
  }

  lemma PullMissesBob(bob: Contact, carol: Contact)
    ensures FetchSince(CompactedBob(bob), 0) == []
    ensures Append(CompactedBob(bob), [Put(carol.alias, carol)]) == BobThenCarol(bob, carol)
  {
  }

  lemma OvertakenPush(bob: Contact, carol: Contact) returns (s: State)
    ensures Reach(s, s) && s.server == BobThenCarol(bob, carol)
    ensures 0 in s.devices && s.devices[0] == FreshDevice([carol]).(pass :=
              Appended(Remote(0, 0, 1), Local([carol], [Put(carol.alias, carol)]),
                       Holding(carol), Position(0, 0), 2, 2))
  {
    var start := BobCompacted(bob, carol);
    var ops := [Put(carol.alias, carol)];
    assert IsDiff(ops, map[], ByID([carol])) && ByID([]) == map[] by { OneContact(carol); }
    s := TakeBase(start, start, 0, ops);
    PullMissesBob(bob, carol);
    s := PushOne(start, s, 0, carol);
    ReachMark(start, s);
  }

  /** Neither the pull nor the gap repair can see bob any more, yet the pass ends past it. */
  lemma OvertakenPass(bob: Contact, carol: Contact) returns (s: State)
    ensures Reach(s, s) && s.server == BobThenCarol(bob, carol)
    ensures 0 in s.devices && s.devices[0] == Device([carol], Some([carol]), 2, Position(2, 0), false, Idle)
  {
    var start := OvertakenPush(bob, carol);
    s := RepairNothing(start, start, 0);
    assert ListOf([carol], Holding(carol)) by { OneContact(carol); }
    s := SaveAll(start, s, 0, [carol]);
    ReachMark(start, s);
  }

  lemma MeansBob(bob: Contact, carol: Contact)
    requires bob.alias != carol.alias
    ensures bob.alias in Meaning(BobThenCarol(bob, carol))
  {
    var h := BobThenCarol(bob, carol).history;
    assert h[..1] == [Put(bob.alias, bob)];
    ReplayAt(map[], h, bob.alias);
    assert LastWrite(h, bob.alias) == LastWrite(h[..1], bob.alias);
  }

  lemma Rebased(start: State, bob: Contact, carol: Contact) returns (s: State)
    requires Reach(start, start) && start.server == BobThenCarol(bob, carol)
    requires 0 in start.devices && start.devices[0] == Device([carol], Some([carol]), 2, Position(2, 0), false, Idle)
    ensures Reach(start, s) && s.server == start.server && 0 in s.devices
    ensures s.devices[0] == start.devices[0].(pass :=
              Based(Remote(1, 1, 2), Local([carol], []), Holding(carol), Position(2, 1), 2))
  {
    assert ByID([carol]) == Holding(carol) && IsDiff([], Holding(carol), Holding(carol)) by { OneContact(carol); }
    s := TakeBegin(start, start, 0);
    s := TakeBase(start, s, 0, []);
  }

  /** The following pass records the new snapshot version without downloading it: its
      position already covers the snapshot's. */
  lemma ForeignCompactionLosesContact(bob: Contact, carol: Contact) returns (s: State)
    requires bob.alias != carol.alias
    ensures LostBob(s, bob)
  {
    var start := OvertakenPass(bob, carol);
    s := Rebased(start, bob, carol);
    s := NothingNew(start, s, 0);
    OneContact(carol);
    s := SaveAll(start, s, 0, [carol]);
    ReachMark(start, s);
    MeansBob(bob, carol);
  }

  // ----- an edit is lost -----

  /** A contact added while a pass is under way is gone from the store when it ends, never
      reached the log, and nothing is left to notice it. */
  lemma EditDuringPassIsLost(bob: Contact) returns (edited: State, s: State)
    ensures Reach(edited, s) && 0 in edited.devices && bob.alias in ByID(edited.devices[0].store)
    ensures 0 in s.devices && s.devices[0] == Device([], Some([]), 0, Position(0, 0), false, Idle)
    ensures s.server.history == []
    ensures IdlePath(s.devices[0], RemoteOf(s.server), [])
  {
    var start := State(Server([], 0, 0, []), map[0 := FreshDevice([])]);
    ReachStart(start);
    OneContact(bob);
    s := Plan(start, start, 0, []);
    s := Take(start, s, 0, Edit([bob]));
    edited := s;
    ReachMark(start, s);
    s := NothingNew(edited, s, 0);
    s := SaveAll(edited, s, 0, []);
  }

  // ----- a deletion is undone -----

  /** One device has synced bob. */
  lemma BobSynced(bob: Contact) returns (s: State)
    ensures Reach(s, s) && s.server == Logged(bob)
    ensures 0 in s.devices && s.devices[0] == Device([bob], Some([bob]), 1, Position(1, 0), false, Idle)
  {
    var start := State(Server([], 0, 0, []), map[0 := FreshDevice([bob])]);
    var ops := [Put(bob.alias, bob)];
    ReachStart(start);
    assert IsDiff(ops, map[], ByID([bob])) by { OneContact(bob); }
    s := Plan(start, start, 0, ops);
    s := PushOne(start, s, 0, bob);
    assert start.server.history + ops == ops;
    s := RepairNothing(start, s, 0);
    assert ListOf([bob], Holding(bob)) by { OneContact(bob); }
    s := SaveAll(start, s, 0, [bob]);
    ReachMark(start, s);
  }

  /** A device that lost its shadow after it had synced bob, and has no bob in its store. */
  ghost predicate ShadowlessWithoutBob(earlier: State, s: State, bob: Contact) {
    && Reach(earlier, s) && s.server == Logged(bob)
    && 0 in s.devices && s.devices[0] == Device([], None, 1, Position(0, 0), true, Idle)
  }

  /** Its next pass has nothing to show that bob was deleted, and pulls it back. */
  lemma BobPulledBack(earlier: State, s: State, bob: Contact) returns (s': State)
    requires ShadowlessWithoutBob(earlier, s, bob)
    ensures Reach(earlier, s') && 0 in s'.devices
    ensures s'.devices[0] == Device([bob], Some([bob]), 1, Position(1, 0), false, Idle)
  {
    assert IsDiff([], map[], ByID([])) by { OneContact(bob); }
    s' := Plan(earlier, s, 0, []);
    PullsBob(s'.devices[0].pass, bob);
    s' := Take(earlier, s', 0, Pull);
    s' := PushNothing(earlier, s', 0);
    OneContact(bob);
    s' := SaveAll(earlier, s', 0, [bob]);
  }

  /** Bob is deleted outside any pass, and the shadow then dropped. */
  lemma DeletionBeforeResetIsUndone(bob: Contact) returns (edited: State, s: State)
    ensures Reach(edited, s) && 0 in edited.devices && edited.devices[0].pass.Idle?
    ensures bob.alias !in ByID(edited.devices[0].store) && bob.alias in ByID(ShadowList(edited.devices[0]))
    ensures 0 in s.devices && s.devices[0] == Device([bob], Some([bob]), 1, Position(1, 0), false, Idle)
  {
    var start := BobSynced(bob);
    edited := Take(start, start, 0, Edit([]));
    ReachMark(start, edited);
    OneContact(bob);
    s := Take(edited, edited, 0, Reset);
    s := BobPulledBack(edited, s, bob);
  }

  /** Bob is deleted while there is no shadow. */
  lemma DeletionWithoutShadowIsUndone(bob: Contact) returns (before: State, edited: State, s: State)
    ensures Reach(before, edited) && 0 in before.devices && 0 in edited.devices
    ensures before.devices[0] == Device([bob], None, 1, Position(0, 0), false, Idle)
    ensures edited.devices[0] == before.devices[0].(store := [], edited := true) && Reach(edited, s)
    ensures 0 in s.devices && s.devices[0] == Device([bob], Some([bob]), 1, Position(1, 0), false, Idle)
  {
    var start := BobSynced(bob);
    before := Take(start, start, 0, Reset);
    ReachMark(start, before);
    edited := Take(before, before, 0, Edit([]));
    ReachMark(before, edited);
    s := BobPulledBack(edited, edited, bob);
  }

  lemma PushNothing(earlier: State, s: State, d: nat) returns (s': State)
    requires Reach(earlier, s) && d in s.devices && s.devices[d].pass.Pulled? && s.devices[d].pass.local.ops == []
    ensures Reach(earlier, s') && Elsewhere(s, s', d) && s'.server == s.server
    ensures var p := s.devices[d].pass; s'.devices[d] == s.devices[d].(pass := Merged(p.remote, p.local, p.base, p.mem))
  {
    s' := Take(earlier, s, d, Push);
    assert s.server.history + [] == s.server.history;
  }
}
