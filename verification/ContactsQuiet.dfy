/** Undisturbed passes: what one contacts sync achieves when nothing runs beside
    it, and that the next one then has nothing to do. */
module ContactsQuiet {
  import opened Wrappers
  import opened OpLog
  import opened ContactsSync
  import opened ContactsTrail

  /** The pass up to the moment its result is saved, run without interruption. */
  function SoloMerge(srv: Server, dev: Device, diff: seq<ContactOp>): Pass
    requires !IdlePath(dev, RemoteOf(srv), diff)
  {
    var p := PushPass(srv, PullPass(srv, BasePass(srv, dev, RemoteOf(srv), diff)));
    if p.Appended? then RepairPass(Append(srv, diff), p) else p
  }

  /** A whole pass, from reading the server state to persisting the positions. */
  ghost predicate Solo(threshold: nat, srv: Server, dev: Device, diff: seq<ContactOp>, list: seq<Contact>,
                       srv': Server, dev': Device)
  {
    && dev.pass.Idle?
    && IsDiff(diff, ByID(ShadowList(dev)), ByID(dev.store))
    && if IdlePath(dev, RemoteOf(srv), diff) then srv' == srv && dev' == dev
       else
         var p := SoloMerge(srv, dev, diff);
         var srv1 := Append(srv, diff);
         var due := p.mem.seqNo - srv.through > threshold;
         && ListOf(list, p.base)
         && srv' == (if due then Compact(srv1, list, p.mem.seqNo, p.mem.snapVersion) else srv1)
         && dev' == Device(list, Some(list), p.mem.seqNo,
                           if due && srv1.version == p.mem.snapVersion
                           then p.mem.(snapVersion := srv'.version) else p.mem, false, Idle)
  }

  lemma PullSolo(srv: Server, p: Pass)
    requires p.Based? && p.remote == RemoteOf(srv) && srv.through <= p.mem.seqNo <= p.at <= |srv.history|
    requires p.base == MeaningAt(srv, p.at)
    ensures PullPass(srv, p) == Pulled(p.remote, p.local, Meaning(srv), p.mem.(seqNo := |srv.history|))
  {
    FetchOps(srv, p.mem.seqNo);
    CatchUp(srv, p.mem.seqNo, p.at);
    assert srv.history[..|srv.history|] == srv.history;
    if p.remote.maxSeq <= p.mem.seqNo {
      assert PullPass(srv, p).base == p.base;
    }
  }

  lemma PushSolo(srv: Server, p: Pass)
    requires p.Pulled? && p.base == Meaning(srv) && p.mem.seqNo == |srv.history|
    ensures var q, ops := PushPass(srv, p), p.local.ops;
      (if q.Appended? then RepairPass(Append(srv, ops), q) else q)
        == Merged(p.remote, p.local, Meaning(Append(srv, ops)), p.mem.(seqNo := |srv.history| + |ops|))
  {
    ReplayConcat(map[], srv.history, p.local.ops);
    assert srv.history + [] == srv.history;
  }

  lemma SoloMerged(srv: Server, dev: Device, diff: seq<ContactOp>)
    requires ServerInv(srv) && DeviceInv(srv, dev) && dev.pass.Idle?
    requires IsDiff(diff, ByID(ShadowList(dev)), ByID(dev.store)) && !IdlePath(dev, RemoteOf(srv), diff)
    ensures SoloMerge(srv, dev, diff) ==
            Merged(RemoteOf(srv), Local(dev.store, diff), Meaning(Append(srv, diff)),
                   Position(|srv.history| + |diff|, srv.version))
  {
    var p := BasePass(srv, dev, RemoteOf(srv), diff);
    PullSolo(srv, p);
    PushSolo(srv, PullPass(srv, p));
  }

  /** An undisturbed pass publishes exactly the device's edits and leaves the
      device holding everything, at the head of the log. */
  lemma SoloPassCatchesUp(threshold: nat, srv: Server, dev: Device, diff: seq<ContactOp>, list: seq<Contact>,
                          srv': Server, dev': Device)
    requires ServerInv(srv) && DeviceInv(srv, dev)
    requires Solo(threshold, srv, dev, diff, list, srv', dev')
    ensures srv'.history == srv.history + diff
    ensures ByID(dev'.store) == ByID(ShadowList(dev')) == Meaning(srv') == Replay(Meaning(srv), diff)
    ensures dev'.pass.Idle? && dev'.shadow.Some? && dev'.pos == Position(|srv'.history|, srv'.version)
  {
    ReplayConcat(map[], srv.history, diff);
    if IdlePath(dev, RemoteOf(srv), diff) {
      assert srv.history + [] == srv.history;
      assert srv.history[..|srv.history|] == srv.history;
      DiffEmptyIff(diff, ByID(ShadowList(dev)), ByID(dev.store));
    } else {
      SoloMerged(srv, dev, diff);
    }
  }

  /** A device with no store and no shadow, bootstrapping from snapshot and tail,
      ends up with what replaying every op ever appended gives. */
  lemma FreshDeviceBootstraps(threshold: nat, srv: Server, dev: Device, diff: seq<ContactOp>, list: seq<Contact>,
                              srv': Server, dev': Device)
    requires ServerInv(srv) && DeviceInv(srv, dev) && Fresh(dev) && dev.store == []
    requires Solo(threshold, srv, dev, diff, list, srv', dev')
    ensures diff == [] && srv'.history == srv.history
    ensures ByID(dev'.store) == Meaning(srv)
  {
    SoloPassCatchesUp(threshold, srv, dev, diff, list, srv', dev');
    DiffEmptyIff(diff, ByID(ShadowList(dev)), ByID(dev.store));
    assert srv.history + [] == srv.history;
  }

  /** Passes go quiet: the pass after an undisturbed one, with nothing changed, emits no op and
      takes the idle path, so it leaves server and device as they are. */
  lemma RepeatedPassIsIdle(threshold: nat, srv: Server, dev: Device, diff: seq<ContactOp>, list: seq<Contact>,
                           srv': Server, dev': Device, again: seq<ContactOp>)
    requires ServerInv(srv) && DeviceInv(srv, dev)
    requires Solo(threshold, srv, dev, diff, list, srv', dev')
    requires IsDiff(again, ByID(ShadowList(dev')), ByID(dev'.store))
    ensures again == [] && IdlePath(dev', RemoteOf(srv'), again)
    ensures Solo(threshold, srv', dev', again, list, srv', dev')
  {
    SoloPassCatchesUp(threshold, srv, dev, diff, list, srv', dev');
    DiffEmptyIff(again, ByID(ShadowList(dev')), ByID(dev'.store));
  }

  /** After a successful pass, with nothing edited and nothing appended since, the next one
      emits no op, downloads nothing, and is idle exactly when no snapshot newer than the
      one recorded has been left behind by a compaction this device lost or did not see. */
  lemma QuietExact(srv: Server, dev: Device, diff: seq<ContactOp>)
    requires ServerInv(srv) && DeviceInv(srv, dev) && dev.pass.Idle? && dev.shadow.Some?
    requires ByID(dev.store) == ByID(dev.shadow.value) && dev.pos.seqNo == |srv.history|
    requires IsDiff(diff, ByID(ShadowList(dev)), ByID(dev.store))
    ensures diff == [] && !NeedsDownload(dev, RemoteOf(srv))
    ensures IdlePath(dev, RemoteOf(srv), diff) <==> srv.version == dev.pos.snapVersion
  {
    DiffEmptyIff(diff, ByID(ShadowList(dev)), ByID(dev.store));
  }

  // ----- passes of the code that nothing disturbs -----

  /** Nobody else writes, nothing is edited and no call fails. */
  ghost predicate Still(net: Network) {
    && (forall k, srv :: net.others(k, srv) == srv)
    && (forall k, list :: net.edits(k, list) == list)
    && (forall k :: !net.fails(k))
  }

  /** Where a pass from srv and dev stands, nothing having disturbed it. */
  ghost predicate OnCourse(t: Trail, srv: Server, dev: Device, diff: seq<ContactOp>) {
    var based := BasePass(srv, dev, RemoteOf(srv), diff);
    var merged := if based.Based? then PushPass(srv, PullPass(srv, based)) else Idle;
    var srv1 := Append(srv, diff);
    match t.dev.pass
    case Idle => t.srv == srv && t.dev == dev && based.Idle?
    case Started(_) => t.srv == srv && t.dev == dev.(pass := Started(RemoteOf(srv)))
    case Based(_, _, _, _, _) => t.srv == srv && t.dev == dev.(pass := based)
    case Pulled(_, _, _, _) => based.Based? && t.srv == srv && t.dev == dev.(pass := PullPass(srv, based))
    case Appended(_, _, _, _, _, _) => t.srv == srv1 && t.dev == dev.(pass := merged)
    case Merged(_, _, _, _) => based.Based? && t.srv == srv1 && t.dev == dev.(pass := SoloMerge(srv, dev, diff))
    case _ => based.Based? && Saving(t, srv, dev, diff)
  }

  /** ... from the moment its result is saved. */
  ghost predicate Saving(t: Trail, srv: Server, dev: Device, diff: seq<ContactOp>)
    requires BasePass(srv, dev, RemoteOf(srv), diff).Based?
  {
    var p, srv1 := SoloMerge(srv, dev, diff), Append(srv, diff);
    && p.Merged?
    && match t.dev.pass
       case StoreSaved(r, list, mem) =>
         && ListOf(list, p.base) && t.srv == srv1
         && t.dev == dev.(store := list, edited := false, pass := StoreSaved(RemoteOf(srv), list, p.mem))
       case ShadowSaved(r, list, mem) =>
         && ListOf(list, p.base) && t.srv == srv1
         && t.dev == Device(list, Some(list), p.mem.seqNo, dev.pos, false, ShadowSaved(RemoteOf(srv), list, p.mem))
       case _ => true
  }

  /** What a stage does to a trail that nothing disturbs. */
  lemma StillStage(net: Network, t: Trail)
    requires Still(net) && Legal(net, t) && t.Act?
    ensures Enabled(t.prev.dev, t.action) && IsStage(t.action)
    ensures t.srv == DoServer(t.prev.srv, t.prev.dev, t.action) && t.dev == DoDevice(t.prev.srv, t.prev.dev, t.action)
  {
  }

  lemma OnCourseStep(net: Network, t: Trail, srv: Server, dev: Device, diff: seq<ContactOp>)
    requires Still(net) && Legal(net, t) && t.Act? && !t.action.Base? && !t.action.TryCompact?
    requires OnCourse(t.prev, srv, dev, diff)
    ensures OnCourse(t, srv, dev, diff)
  {
    StillStage(net, t);
    assert srv.history + [] == srv.history;
  }

  lemma CourseBegins(net: Network, t: Trail, srv: Server, dev: Device)
    requires Still(net) && Legal(net, t) && t.Act? && t.action.Base? && dev.pass.Idle?
    requires t.prev.srv == srv && t.prev.dev == dev.(pass := Started(RemoteOf(srv)))
    ensures OnCourse(t, srv, dev, t.action.diff) && IsDiff(t.action.diff, ByID(ShadowList(dev)), ByID(dev.store))
  {
    var diff := t.action.diff;
    assert BasePass(srv, t.prev.dev, RemoteOf(srv), diff) == BasePass(srv, dev, RemoteOf(srv), diff);
  }

  /** Before the diff is taken the trail has not moved; after that it keeps to the course. */
  lemma {:induction false} StaysOnCourse(net: Network, t: Trail, srv: Server, dev: Device)
    returns (diff: seq<ContactOp>)
    requires Still(net) && Legal(net, t)
    requires Root(t) == Start(srv, dev.(pass := Started(RemoteOf(srv)))) && dev.pass.Idle?
    requires !t.dev.pass.Done?
    ensures t.dev.pass.Started? ==> t.srv == srv && t.dev == dev.(pass := Started(RemoteOf(srv)))
    ensures !t.dev.pass.Started? ==> OnCourse(t, srv, dev, diff) && IsDiff(diff, ByID(ShadowList(dev)), ByID(dev.store))
  {
    diff := [];
    match t
    case Start(_, _) =>
    case Turn(_, _, prev, _) =>
      diff := StaysOnCourse(net, prev, srv, dev);
    case Act(_, _, prev, a) =>
      diff := StaysOnCourse(net, prev, srv, dev);
      if a.Base? {
        diff := a.diff;
        CourseBegins(net, t, srv, dev);
      } else {
        OnCourseStep(net, t, srv, dev, diff);
      }
  }

  /** The device once the run has persisted its position. */
  function Persisted(dev: Device): Device { dev.(pos := MemOf(dev), pass := Idle) }

  lemma LastStage(net: Network, t: Trail, threshold: nat, r: Remote, list: seq<Contact>, mem: Position)
    requires Still(net) && Legal(net, t) && t.Act? && t.dev.pass.Done? && Threshold(t, threshold)
    requires t.prev.dev.pass == ShadowSaved(r, list, mem)
    ensures var srv1, dev1, due := t.prev.srv, t.prev.dev, mem.seqNo - r.through > threshold;
      && t.srv == (if due then Compact(srv1, list, mem.seqNo, mem.snapVersion) else srv1)
      && Persisted(t.dev) == dev1.(pass := Idle, pos := if due && srv1.version == mem.snapVersion
                                                        then mem.(snapVersion := t.srv.version) else mem)
  {
  }

  lemma IdlePassIsSolo(net: Network, t: Trail, threshold: nat, srv: Server, dev: Device)
    requires Still(net) && Legal(net, t) && t.Act? && dev.pass.Idle? && t.dev.pass.Idle?
    requires t.prev == Start(srv, dev.(pass := Started(RemoteOf(srv)))) && t.action == Base([])
    ensures Solo(threshold, srv, dev, [], [], t.srv, Persisted(t.dev))
  {
    CourseBegins(net, t, srv, dev);
  }

  lemma SavedPassIsSolo(net: Network, t: Trail, threshold: nat, srv: Server, dev: Device, diff: seq<ContactOp>)
    requires Still(net) && Legal(net, t) && t.Act? && t.dev.pass.Done? && Threshold(t, threshold) && dev.pass.Idle?
    requires OnCourse(t.prev, srv, dev, diff) && IsDiff(diff, ByID(ShadowList(dev)), ByID(dev.store))
    ensures Solo(threshold, srv, dev, diff, t.prev.dev.store, t.srv, Persisted(t.dev))
  {
    LastStage(net, t, threshold, RemoteOf(srv), t.prev.dev.store, SoloMerge(srv, dev, diff).mem);
  }

  /** A successful pass of the code that nothing disturbs is the undisturbed pass that the
      lemmas above are about. */
  lemma StillPassIsSolo(net: Network, t: Trail, threshold: nat, srv: Server, dev: Device)
    returns (diff: seq<ContactOp>, list: seq<Contact>)
    requires Still(net) && Legal(net, t)
    requires Root(t) == Start(srv, dev.(pass := Started(RemoteOf(srv)))) && dev.pass.Idle?
    requires Succeeded(t) && Threshold(t, threshold)
    ensures Solo(threshold, srv, dev, diff, list, t.srv, Persisted(t.dev))
  {
    if t.dev.pass.Done? {
      diff := StaysOnCourse(net, t.prev, srv, dev);
      list := t.prev.dev.store;
      SavedPassIsSolo(net, t, threshold, srv, dev, diff);
    } else {
      diff, list := [], [];
      IdlePassIsSolo(net, t, threshold, srv, dev);
    }
  }

  /** From srv and dev to srv' and dev' by one undisturbed pass. */
  ghost predicate SoloPass(threshold: nat, srv: Server, dev: Device, srv': Server, dev': Device) {
    exists diff, list :: Solo(threshold, srv, dev, diff, list, srv', dev')
  }

  /** What the trail of a pass tells about its end. */
  lemma PassEnds(net: Network, t: Trail, threshold: nat, srv: Server, dev: Device, r: Remote)
    requires Lawful(net) && Legal(net, t) && Root(t) == Start(srv, dev.(pass := Started(r))) && dev.pass.Idle?
    requires ServerInv(srv) && DeviceInv(srv, dev.(pass := Started(r))) && Threshold(t, threshold)
    ensures Clean(t) ==> ServerInv(t.srv) && DeviceInv(t.srv, t.dev)
    ensures Clean(t) && Succeeded(t) ==>
              && t.dev.shadow.Some? && MemOf(t.dev).seqNo <= |t.srv.history|
              && ByID(t.dev.shadow.value) == MeaningAt(t.srv, MemOf(t.dev).seqNo)
              && (!t.dev.edited ==> ByID(t.dev.store) == MeaningAt(t.srv, MemOf(t.dev).seqNo))
    ensures KeepsVersion(net) && r.version == srv.version ==>
              Clean(t) && (Succeeded(t) ==> MemOf(t.dev).snapVersion == t.srv.version)
    ensures Still(net) && r == RemoteOf(srv) && Succeeded(t) ==> SoloPass(threshold, srv, dev, t.srv, Persisted(t.dev))
  {
    if KeepsVersion(net) && r.version == srv.version {
      QuietTrail(net, t);
      if Succeeded(t) { QuietVersion(net, t); }
    }
    if Clean(t) {
      TrailKeeps(net, t);
      if Succeeded(t) { CleanSuccess(net, t); }
    }
    if Still(net) && r == RemoteOf(srv) && Succeeded(t) {
      var diff, list := StillPassIsSolo(net, t, threshold, srv, dev);
    }
  }
}
