/** The contacts sync protocol: N devices, each running SyncContactsOps one
    network call at a time, against one account op log. */
module ContactsSync {
  import opened Wrappers
  import opened OpLog

  // ----- the server -----

  /** `history` is every op ever appended; the server keeps only the part past
      `through`, the rest having been folded into `snapshot`. The op with
      sequence number n is history[n - 1]. */
  datatype Server = Server(history: seq<ContactOp>, version: nat, through: nat, snapshot: seq<Contact>)

  function FetchSince(srv: Server, since: nat): seq<LoggedOp> {
    var lo := if since < srv.through then srv.through else since;
    if |srv.history| <= lo then []
    else seq(|srv.history| - lo, i requires 0 <= i < |srv.history| - lo => LoggedOp(lo + i + 1, srv.history[lo + i]))
  }

  function Append(srv: Server, ops: seq<ContactOp>): Server {
    srv.(history := srv.history + ops)
  }

  /** Compare-and-swap on the snapshot version. */
  function Compact(srv: Server, list: seq<Contact>, throughSeq: nat, prevVersion: nat): Server {
    if srv.version != prevVersion then srv
    else srv.(version := srv.version + 1, through := throughSeq, snapshot := list)
  }

  /** What the log means: the untruncated history, replayed. */
  function Meaning(srv: Server): Book {
    Replay(map[], srv.history)
  }

  function MeaningAt(srv: Server, n: nat): Book
    requires n <= |srv.history|
  {
    Replay(map[], srv.history[..n])
  }

  // ----- devices -----

  datatype Position = Position(seqNo: nat, snapVersion: nat)

  /** The state summary a run fetches once, up front. */
  datatype Remote = Remote(version: nat, through: nat, maxSeq: nat)

  function RemoteOf(srv: Server): Remote {
    Remote(srv.version, srv.through, |srv.history|)
  }

  /** A device's persisted files, plus where its current pass stands. Two fields are
      bookkeeping: `covers` is the history position the shadow was saved at, `edited` whether
      the store has been edited since a pass last saved it. */
  datatype Device = Device(store: seq<Contact>, shadow: Option<seq<Contact>>, covers: nat, pos: Position,
                           edited: bool, pass: Pass)

  /** The store as a pass loaded it, and its diff against the shadow. */
  datatype Local = Local(loaded: seq<Contact>, ops: seq<ContactOp>)

  /** `mem` is the position a pass updates in place; it reaches `pos` when the
      run persists its positions. `at` is bookkeeping: the history position that
      `base` stands for. */
  datatype Pass =
    | Idle
    | Started(remote: Remote)
    | Based(remote: Remote, local: Local, base: Book, mem: Position, at: nat)
    | Pulled(remote: Remote, local: Local, base: Book, mem: Position)
    | Appended(remote: Remote, local: Local, base: Book, mem: Position, first: nat, last: nat)
    | Merged(remote: Remote, local: Local, base: Book, mem: Position)
    | StoreSaved(remote: Remote, merged: seq<Contact>, mem: Position)
    | ShadowSaved(remote: Remote, merged: seq<Contact>, mem: Position)
    | Done(mem: Position)

  datatype Action =
    | Edit(list: seq<Contact>)
    | Reset
    | Begin
    | Base(diff: seq<ContactOp>)
    | Pull
    | Push
    | Repair
    | SaveStore(list: seq<Contact>)
    | SaveShadow
    | TryCompact(threshold: nat)  // ContactsCompactThreshold, tunable (200 by default)
    | Finish
    | Abort
    | Crash

  function ShadowList(dev: Device): seq<Contact> {
    if dev.shadow.Some? then dev.shadow.value else []
  }

  function MemOf(dev: Device): Position {
    match dev.pass
    case Idle => dev.pos
    case Started(_) => dev.pos
    case _ => dev.pass.mem
  }

  predicate NeedsRebase(dev: Device, r: Remote) {
    r.version != dev.pos.snapVersion || dev.shadow.None?
  }

  predicate NeedsDownload(dev: Device, r: Remote) {
    NeedsRebase(dev, r) && r.version != 0 && (dev.shadow.None? || dev.pos.seqNo < r.through)
  }

  /** Nothing moved on either side. */
  predicate IdlePath(dev: Device, r: Remote, diff: seq<ContactOp>) {
    r.version == dev.pos.snapVersion && r.maxSeq == dev.pos.seqNo && diff == [] && dev.shadow.Some?
  }

  /** A download takes the snapshot the server has now, but the position of the one the
      state summary spoke of. */
  function BasePass(srv: Server, dev: Device, r: Remote, diff: seq<ContactOp>): Pass {
    var local := Local(dev.store, diff);
    if IdlePath(dev, r, diff) then Idle
    else if NeedsDownload(dev, r) then
      Based(r, local, ByID(srv.snapshot), Position(r.through, r.version), srv.through)
    else
      Based(r, local, ByID(ShadowList(dev)), dev.pos.(snapVersion := r.version),
            if dev.shadow.Some? then dev.covers else dev.pos.seqNo)
  }

  /** The ops a pull fetches, if it fetches at all. */
  function Fetched(srv: Server, p: Pass): seq<LoggedOp>
    requires p.Based?
  {
    if p.remote.maxSeq > p.mem.seqNo then FetchSince(srv, p.mem.seqNo) else []
  }

  function PullPass(srv: Server, p: Pass): Pass
    requires p.Based?
  {
    var fetched := Fetched(srv, p);
    Pulled(p.remote, p.local, Replay(p.base, Ops(fetched)),
           if fetched == [] then p.mem else p.mem.(seqNo := fetched[|fetched| - 1].seqNo))
  }

  function PushPass(srv: Server, p: Pass): Pass
    requires p.Pulled?
  {
    var base := Replay(p.base, p.local.ops);
    if p.local.ops == [] then Merged(p.remote, p.local, base, p.mem)
    else Appended(p.remote, p.local, base, p.mem, |srv.history| + 1, |srv.history| + |p.local.ops|)
  }

  /** The ops of others that slipped in between the pull and the append, as far as a fetch
      still delivers them. */
  function Gap(srv: Server, p: Pass): seq<ContactOp>
    requires p.Appended?
  {
    if p.first > p.mem.seqNo + 1 then Raced(FetchSince(srv, p.mem.seqNo), p.first) else []
  }

  function RepairPass(srv: Server, p: Pass): Pass
    requires p.Appended?
  {
    Merged(p.remote, p.local, ReplaySkip(p.base, Gap(srv, p), Ids(p.local.ops)), p.mem.(seqNo := p.last))
  }

  predicate Due(p: Pass, threshold: nat)
    requires p.ShadowSaved?
  {
    p.mem.seqNo - p.remote.through > threshold
  }

  /** When a device can take an action. The store can be edited at any time: the user's
      changes and the pending inbox do not wait for a pass. */
  ghost predicate Enabled(dev: Device, a: Action) {
    match a
    case Edit(list) => Distinct(list)
    case Reset => dev.pass.Idle?
    case Begin => dev.pass.Idle?
    case Base(diff) => dev.pass.Started? && IsDiff(diff, ByID(ShadowList(dev)), ByID(dev.store))
    case Pull => dev.pass.Based?
    case Push => dev.pass.Pulled?
    case Repair => dev.pass.Appended?
    case SaveStore(list) => dev.pass.Merged? && ListOf(list, dev.pass.base)
    case SaveShadow => dev.pass.StoreSaved?
    case TryCompact(_) => dev.pass.ShadowSaved?
    case Finish => dev.pass.Done?
    case Abort => true
    case Crash => true
  }

  ghost function DoServer(srv: Server, dev: Device, a: Action): Server
    requires Enabled(dev, a)
  {
    match a
    case Push => Append(srv, dev.pass.local.ops)
    case TryCompact(threshold) =>
      if Due(dev.pass, threshold) then
        Compact(srv, dev.pass.merged, dev.pass.mem.seqNo, dev.pass.mem.snapVersion)
      else srv
    case _ => srv
  }

  ghost function DoDevice(srv: Server, dev: Device, a: Action): Device
    requires Enabled(dev, a)
  {
    match a
    case Edit(list) => dev.(store := list, edited := true)
    case Reset => dev.(shadow := None, pos := Position(0, 0))
    case Begin => dev.(pass := Started(RemoteOf(srv)))
    case Base(diff) => dev.(pass := BasePass(srv, dev, dev.pass.remote, diff))
    case Pull => dev.(pass := PullPass(srv, dev.pass))
    case Push => dev.(pass := PushPass(srv, dev.pass))
    case Repair => dev.(pass := RepairPass(srv, dev.pass))
    case SaveStore(list) =>
      dev.(store := list, edited := false, pass := StoreSaved(dev.pass.remote, list, dev.pass.mem))
    case SaveShadow =>
      dev.(shadow := Some(dev.pass.merged), covers := dev.pass.mem.seqNo,
           pass := ShadowSaved(dev.pass.remote, dev.pass.merged, dev.pass.mem))
    case TryCompact(threshold) =>
      var p := dev.pass;
      dev.(pass := Done(if Due(p, threshold) && srv.version == p.mem.snapVersion
                        then p.mem.(snapVersion := srv.version + 1) else p.mem))
    case Finish => dev.(pos := dev.pass.mem, pass := Idle)
    case Abort => dev.(pos := MemOf(dev), pass := Idle)  // an error return: the run persists the positions all the same
    case Crash => dev.(pass := Idle)  // the process dies: the in-memory positions are gone
  }

  /** One step of one device. Each reads or writes the server at most once, so
      every interleaving of network calls is a sequence of steps. */
  ghost predicate Step(srv: Server, dev: Device, a: Action, srv': Server, dev': Device) {
    Enabled(dev, a) && srv' == DoServer(srv, dev, a) && dev' == DoDevice(srv, dev, a)
  }

  // ----- what makes a step right -----

  function Max(a: nat, b: nat): nat { if a < b then b else a }

  /** A pull from position `since` onto a base standing at `at`, of a log of n ops truncated
      through `through`: either ops are fetched, and none past the base is missing, or none
      are, and the base stands at the position. */
  predicate PullWhole(n: nat, through: nat, maxSeq: nat, since: nat, at: nat) {
    if maxSeq > since && Max(since, through) < n then Max(since, through) <= at else at == since
  }

  /** A repair of the gap between `since` and an append at `first`. */
  predicate RepairWhole(through: nat, since: nat, first: nat) {
    first > since + 1 ==> through <= since
  }

  /** The position may be resumed from: the shadow, or else the snapshot the next pass
      downloads, covers it. */
  predicate Resumable(dev: Device, pos: Position) {
    if dev.shadow.Some? then pos.seqNo <= dev.covers else pos.seqNo == 0 || pos.snapVersion > 0
  }

  /** The step reads nothing that a compaction has overtaken, a pull does not end behind the
      position persisted before, and an error return leaves a position that can be resumed
      from. Each test is exact: PullExact, FallBehindExact, RepairExact, ResumeExact and
      ResumeWithoutShadowExact. */
  predicate CleanStep(srv: Server, dev: Device, a: Action) {
    match a
    case Pull =>
      dev.pass.Based? ==>
        && PullWhole(|srv.history|, srv.through, dev.pass.remote.maxSeq, dev.pass.mem.seqNo, dev.pass.at)
        && dev.pos.seqNo <= PullPass(srv, dev.pass).mem.seqNo
    case Repair => dev.pass.Appended? ==> RepairWhole(srv.through, dev.pass.mem.seqNo, dev.pass.first)
    case Abort => Resumable(dev, MemOf(dev))
    case _ => true
  }

  // ----- invariant -----

  ghost predicate ServerInv(srv: Server) {
    && KeyedOps(srv.history)
    && srv.through <= |srv.history|
    && (srv.version == 0 ==> srv.through == 0)
    && ByID(srv.snapshot) == MeaningAt(srv, srv.through)
  }

  predicate PosInv(srv: Server, pos: Position) {
    && pos.seqNo <= |srv.history|
    && pos.snapVersion <= srv.version
    && (pos.snapVersion == srv.version ==> srv.through <= pos.seqNo)
  }

  predicate RemoteInv(srv: Server, dev: Device, r: Remote) {
    && dev.pos.snapVersion <= r.version <= srv.version
    && r.through <= r.maxSeq <= |srv.history|
    && r.through <= srv.through
    && dev.pos.seqNo <= r.maxSeq
    && (r.version == 0 ==> r.through == 0)
    && (r.version == srv.version ==> r.through == srv.through)
    && (dev.shadow.Some? ==> dev.covers <= r.maxSeq)
    && (dev.pos.snapVersion == r.version ==> r.through <= dev.pos.seqNo)
  }

  /** The batch is the edits the device had not synced when it loaded its store. */
  ghost predicate LocalBatch(dev: Device, local: Local) {
    IsDiff(local.ops, ByID(ShadowList(dev)), ByID(local.loaded))
  }

  lemma LocalBatchDecides(dev: Device, local: Local)
    requires LocalBatch(dev, local)
    ensures DecidesItsIds(local.ops) && KeyedOps(local.ops)
  {
    DiffReplays(local.ops, ByID(ShadowList(dev)), ByID(local.loaded));
    ByIDKeyed(local.loaded);
  }

  /** The merged set holds the batch. */
  ghost predicate HoldsBatch(base: Book, local: Local) {
    forall k :: k in Ids(local.ops) ==> At(base, k) == At(ByID(local.loaded), k)
  }

  ghost predicate PassInv(srv: Server, dev: Device) {
    match dev.pass
    case Idle => true
    case Started(r) => RemoteInv(srv, dev, r)
    case Based(r, local, base, mem, at) =>
      && RemoteInv(srv, dev, r) && PosInv(srv, mem) && LocalBatch(dev, local)
      && mem.snapVersion == r.version && mem.seqNo <= at <= |srv.history| && base == MeaningAt(srv, at)
      && (r.version == srv.version ==> at <= r.maxSeq)
    case Pulled(r, local, base, mem) =>
      && PosInv(srv, mem) && dev.pos.seqNo <= mem.seqNo && mem.snapVersion == r.version
      && LocalBatch(dev, local) && base == MeaningAt(srv, mem.seqNo)
    case Appended(r, local, base, mem, first, last) =>
      && PosInv(srv, mem) && LocalBatch(dev, local) && mem.snapVersion == r.version
      && local.ops != [] && dev.pos.seqNo <= mem.seqNo < first
      && first + |local.ops| == last + 1 && last <= |srv.history|
      && srv.history[first - 1..last] == local.ops
      && base == Replay(MeaningAt(srv, mem.seqNo), local.ops)
    case Merged(_, local, base, mem) =>
      && PosInv(srv, mem) && dev.pos.seqNo <= mem.seqNo && base == MeaningAt(srv, mem.seqNo)
      && LocalBatch(dev, local) && HoldsBatch(base, local)
    case StoreSaved(_, merged, mem) =>
      && PosInv(srv, mem) && dev.pos.seqNo <= mem.seqNo
      && ListOf(merged, MeaningAt(srv, mem.seqNo)) && (!dev.edited ==> dev.store == merged)
    case ShadowSaved(_, merged, mem) =>
      && PosInv(srv, mem) && ListOf(merged, MeaningAt(srv, mem.seqNo))
      && (!dev.edited ==> dev.store == merged) && dev.shadow == Some(merged) && dev.covers == mem.seqNo
    case Done(mem) =>
      && PosInv(srv, mem) && dev.shadow.Some?
      && (!dev.edited ==> dev.store == dev.shadow.value) && dev.covers == mem.seqNo
  }

  ghost predicate DeviceInv(srv: Server, dev: Device) {
    && Distinct(dev.store)
    && PosInv(srv, dev.pos)
    && Resumable(dev, dev.pos)
    && (dev.shadow.Some? ==> dev.covers <= |srv.history| && ByID(dev.shadow.value) == MeaningAt(srv, dev.covers))
    && PassInv(srv, dev)
  }

  /** What any clean step of any device may do to the server. */
  predicate Grows(srv: Server, srv': Server) {
    && srv.history <= srv'.history
    && srv.version <= srv'.version
    && srv.through <= srv'.through
    && (srv.version == srv'.version ==> srv.through == srv'.through)
  }

  // ----- every step keeps the invariant -----

  lemma MeaningStable(srv: Server, srv': Server, n: nat)
    requires Grows(srv, srv') && n <= |srv.history|
    ensures MeaningAt(srv', n) == MeaningAt(srv, n)
  {
    assert srv'.history[..n] == srv.history[..n];
  }

  lemma MeaningExtend(srv: Server, a: nat, b: nat)
    requires a <= b <= |srv.history|
    ensures MeaningAt(srv, b) == Replay(MeaningAt(srv, a), srv.history[a..b])
  {
    assert srv.history[..b] == srv.history[..a] + srv.history[a..b];
    ReplayConcat(map[], srv.history[..a], srv.history[a..b]);
  }

  /** Other devices' steps do not disturb this one. */
  lemma DeviceFrame(srv: Server, srv': Server, dev: Device)
    requires Grows(srv, srv') && DeviceInv(srv, dev)
    ensures DeviceInv(srv', dev)
  {
    forall n: nat | n <= |srv.history| ensures MeaningAt(srv', n) == MeaningAt(srv, n) {
      MeaningStable(srv, srv', n);
    }
    if dev.pass.Appended? {
      assert srv'.history[dev.pass.first - 1..dev.pass.last] == srv.history[dev.pass.first - 1..dev.pass.last];
    }
  }

  lemma FetchOps(srv: Server, since: nat)
    requires srv.through <= since <= |srv.history|
    ensures Ops(FetchSince(srv, since)) == srv.history[since..]
    ensures var f := FetchSince(srv, since);
            if since < |srv.history| then f != [] && f[|f| - 1].seqNo == |srv.history| else f == []
  {
  }

  lemma {:induction false} RacedPrefix(gap: seq<LoggedOp>, lo: nat, first: nat)
    requires forall i :: 0 <= i < |gap| ==> gap[i].seqNo == lo + i + 1
    requires lo < first <= lo + |gap| + 1
    ensures Raced(gap, first) == Ops(gap[..first - 1 - lo])
    decreases |gap|
  {
    if gap != [] && gap[0].seqNo < first {
      RacedPrefix(gap[1..], lo + 1, first);
      assert gap[..first - 1 - lo] == [gap[0]] + gap[1..][..first - 2 - lo];
    } else {
      assert gap[..first - 1 - lo] == [];
    }
  }

  lemma RacedGap(srv: Server, since: nat, first: nat)
    requires srv.through <= since < first <= |srv.history|
    ensures Raced(FetchSince(srv, since), first) == srv.history[since..first - 1]
  {
    var gap := FetchSince(srv, since);
    RacedPrefix(gap, since, first);
    assert Ops(gap[..first - 1 - since]) == srv.history[since..first - 1];
  }

  lemma BaseKeeps(srv: Server, dev: Device, diff: seq<ContactOp>)
    requires ServerInv(srv) && DeviceInv(srv, dev) && Enabled(dev, Base(diff))
    ensures DeviceInv(srv, DoDevice(srv, dev, Base(diff)))
  {
    assert srv.history[..0] == [];
  }

  /** Catching up from `since` works even on a base that is already ahead of it. */
  lemma CatchUp(srv: Server, since: nat, at: nat)
    requires since <= at <= |srv.history|
    ensures Replay(MeaningAt(srv, at), srv.history[since..]) == MeaningAt(srv, |srv.history|)
  {
    var h := srv.history;
    var a, b, c := h[..since], h[since..at], h[at..];
    assert h[..at] == a + b;
    assert h[since..] == b + c;
    assert h[..|h|] == a + b + c;
    ReplayOverlap(map[], a, b, c);
  }

  /** What a fetch delivers, whether or not a compaction has cut it short. */
  lemma FetchCut(srv: Server, since: nat)
    requires since <= |srv.history| && srv.through <= |srv.history|
    ensures var lo, f := Max(since, srv.through), FetchSince(srv, since);
      && Ops(f) == srv.history[lo..]
      && (if lo < |srv.history| then f != [] && f[|f| - 1].seqNo == |srv.history| else f == [])
  {
  }

  /** What a pull comes to, whether or not it is whole. */
  lemma PullCut(srv: Server, p: Pass)
    requires p.Based? && srv.through <= |srv.history| && p.mem.seqNo <= |srv.history|
    ensures var q, lo := PullPass(srv, p), Max(p.mem.seqNo, srv.through);
      if p.remote.maxSeq > p.mem.seqNo && lo < |srv.history|
      then q.base == Replay(p.base, srv.history[lo..]) && q.mem.seqNo == |srv.history|
      else q.base == p.base && q.mem == p.mem
  {
    FetchCut(srv, p.mem.seqNo);
    assert Ops([]) == [];
  }

  /** A whole pull leaves the meaning of the log at the position it reaches. */
  lemma PullSound(srv: Server, p: Pass)
    requires p.Based? && p.at <= |srv.history| && p.base == MeaningAt(srv, p.at)
    requires srv.through <= |srv.history| && p.mem.seqNo <= |srv.history|
    requires PullWhole(|srv.history|, srv.through, p.remote.maxSeq, p.mem.seqNo, p.at)
    ensures PullPass(srv, p).mem.seqNo <= |srv.history|
    ensures PullPass(srv, p).base == MeaningAt(srv, PullPass(srv, p).mem.seqNo)
  {
    var lo := Max(p.mem.seqNo, srv.through);
    PullCut(srv, p);
    if p.remote.maxSeq > p.mem.seqNo && lo < |srv.history| {
      CatchUp(srv, lo, p.at);
    }
  }

  lemma PullKeeps(srv: Server, dev: Device)
    requires ServerInv(srv) && DeviceInv(srv, dev) && dev.pass.Based? && CleanStep(srv, dev, Pull)
    ensures DeviceInv(srv, dev.(pass := PullPass(srv, dev.pass)))
  {
    PullSound(srv, dev.pass);
    PullCut(srv, dev.pass);
  }

  lemma AppendKeeps(srv: Server, ops: seq<ContactOp>)
    requires ServerInv(srv) && KeyedOps(ops)
    ensures ServerInv(Append(srv, ops)) && Grows(srv, Append(srv, ops))
  {
    MeaningStable(srv, Append(srv, ops), srv.through);
  }

  lemma BatchHeld(m: Book, dev: Device, local: Local)
    requires LocalBatch(dev, local)
    ensures HoldsBatch(Replay(m, local.ops), local)
  {
    LocalBatchDecides(dev, local);
    forall k | k in Ids(local.ops) ensures At(Replay(m, local.ops), k) == At(ByID(local.loaded), k) {
      ReplayAt(m, local.ops, k);
      LastWriteIsDiffOp(local.ops, ByID(local.loaded), k);
    }
  }

  lemma PushKeeps(srv: Server, dev: Device)
    requires ServerInv(srv) && DeviceInv(srv, dev) && dev.pass.Pulled?
    ensures ServerInv(Append(srv, dev.pass.local.ops)) && Grows(srv, Append(srv, dev.pass.local.ops))
    ensures DeviceInv(Append(srv, dev.pass.local.ops), dev.(pass := PushPass(srv, dev.pass)))
  {
    var ops := dev.pass.local.ops;
    var srv' := Append(srv, ops);
    LocalBatchDecides(dev, dev.pass.local);
    AppendKeeps(srv, ops);
    DeviceFrame(srv, srv', dev);
    BatchHeld(dev.pass.base, dev, dev.pass.local);
    if ops != [] {
      assert srv'.history[|srv.history|..|srv.history| + |ops|] == ops;
    }
  }

  lemma RepairMeaning(srv: Server, since: nat, ops: seq<ContactOp>, first: nat, last: nat)
    requires since < first <= last <= |srv.history| && srv.history[first - 1..last] == ops
    requires DecidesItsIds(ops)
    ensures ReplaySkip(Replay(MeaningAt(srv, since), ops), srv.history[since..first - 1], Ids(ops))
            == MeaningAt(srv, last)
  {
    var gap := srv.history[since..first - 1];
    GapRepairSound(MeaningAt(srv, since), gap, ops);
    assert gap + ops == srv.history[since..last];
    MeaningExtend(srv, since, last);
  }

  /** A whole repair leaves the meaning of the log through this device's own append. */
  lemma RepairSound(srv: Server, p: Pass)
    requires p.Appended? && p.mem.seqNo < p.first <= p.last <= |srv.history|
    requires srv.history[p.first - 1..p.last] == p.local.ops && DecidesItsIds(p.local.ops)
    requires p.base == Replay(MeaningAt(srv, p.mem.seqNo), p.local.ops)
    requires RepairWhole(srv.through, p.mem.seqNo, p.first)
    ensures RepairPass(srv, p).base == MeaningAt(srv, p.last)
  {
    RepairMeaning(srv, p.mem.seqNo, p.local.ops, p.first, p.last);
    if p.first > p.mem.seqNo + 1 {
      RacedGap(srv, p.mem.seqNo, p.first);
    } else {
      assert srv.history[p.mem.seqNo..p.first - 1] == [];
    }
  }

  lemma RepairKeeps(srv: Server, dev: Device)
    requires ServerInv(srv) && DeviceInv(srv, dev) && dev.pass.Appended? && CleanStep(srv, dev, Repair)
    ensures DeviceInv(srv, dev.(pass := RepairPass(srv, dev.pass)))
  {
    var p := dev.pass;
    LocalBatchDecides(dev, p.local);
    RepairSound(srv, p);
    BatchHeld(MeaningAt(srv, p.mem.seqNo), dev, p.local);
    forall k | k in Ids(p.local.ops) ensures At(RepairPass(srv, p).base, k) == At(ByID(p.local.loaded), k) {
      ReplaySkipAt(p.base, Gap(srv, p), Ids(p.local.ops), k);
    }
  }

  lemma CompactKeeps(srv: Server, dev: Device, threshold: nat)
    requires ServerInv(srv) && DeviceInv(srv, dev) && Enabled(dev, TryCompact(threshold))
    ensures var srv' := DoServer(srv, dev, TryCompact(threshold));
      ServerInv(srv') && Grows(srv, srv') && DeviceInv(srv', DoDevice(srv, dev, TryCompact(threshold)))
  {
    var srv' := DoServer(srv, dev, TryCompact(threshold));
    MeaningStable(srv, srv', dev.pass.mem.seqNo);
    MeaningStable(srv, srv', srv.through);
    DeviceFrame(srv, srv', dev);
  }

  lemma SaveKeeps(srv: Server, dev: Device, list: seq<Contact>)
    requires ServerInv(srv) && DeviceInv(srv, dev) && Enabled(dev, SaveStore(list))
    ensures DeviceInv(srv, DoDevice(srv, dev, SaveStore(list)))
  {
    ListOfDistinct(list, dev.pass.base);
  }

  lemma StepKeeps(srv: Server, dev: Device, a: Action)
    requires ServerInv(srv) && DeviceInv(srv, dev) && Enabled(dev, a) && CleanStep(srv, dev, a)
    ensures var srv' := DoServer(srv, dev, a);
      ServerInv(srv') && Grows(srv, srv') && DeviceInv(srv', DoDevice(srv, dev, a))
  {
    match a
    case Base(diff) => BaseKeeps(srv, dev, diff);
    case Pull => PullKeeps(srv, dev);
    case Push => PushKeeps(srv, dev);
    case Repair => RepairKeeps(srv, dev);
    case SaveStore(list) => SaveKeeps(srv, dev, list);
    case TryCompact(threshold) => CompactKeeps(srv, dev, threshold);
    case SaveShadow => EndKeeps(srv, dev, a);
    case Finish => EndKeeps(srv, dev, a);
    case Abort => EndKeeps(srv, dev, a);
    case Edit(list) => EditKeeps(srv, dev, list);
    case _ =>
  }

  /** An edit at any point of a pass leaves the pass as it was. */
  lemma EditKeeps(srv: Server, dev: Device, list: seq<Contact>)
    requires DeviceInv(srv, dev) && Distinct(list)
    ensures DeviceInv(srv, dev.(store := list, edited := true))
  {
    var dev' := dev.(store := list, edited := true);
    assert ShadowList(dev') == ShadowList(dev);
    assert PassInv(srv, dev');
  }

  /** The steps that save a shadow or a position. */
  lemma EndKeeps(srv: Server, dev: Device, a: Action)
    requires ServerInv(srv) && DeviceInv(srv, dev) && Enabled(dev, a) && CleanStep(srv, dev, a)
    requires a.SaveShadow? || a.Finish? || a.Abort?
    ensures DoServer(srv, dev, a) == srv && DeviceInv(srv, DoDevice(srv, dev, a))
  {
  }

  /** As long as no one else has compacted since a pass read the server state, all it reads
      is whole. */
  lemma UndisturbedIsClean(srv: Server, dev: Device, a: Action)
    requires ServerInv(srv) && DeviceInv(srv, dev) && Enabled(dev, a) && !a.Abort?
    requires dev.pass.Based? || dev.pass.Appended? ==> srv.version == dev.pass.remote.version
    ensures CleanStep(srv, dev, a)
  {
    if a.Pull? {
      PullCut(srv, dev.pass);
    }
  }

  // ----- runs -----

  datatype State = State(server: Server, devices: map<nat, Device>)

  datatype Event = Event(device: nat, action: Action)

  predicate Fresh(dev: Device) {
    dev.shadow.None? && dev.pos == Position(0, 0) && dev.pass.Idle? && Distinct(dev.store)
  }

  predicate Init(s: State) {
    && s.server == Server([], 0, 0, [])
    && forall d :: d in s.devices ==> Fresh(s.devices[d])
  }

  ghost predicate CanDo(s: State, e: Event) {
    e.device in s.devices && Enabled(s.devices[e.device], e.action)
  }

  ghost function After(s: State, e: Event): State
    requires CanDo(s, e)
  {
    var dev := s.devices[e.device];
    State(DoServer(s.server, dev, e.action), s.devices[e.device := DoDevice(s.server, dev, e.action)])
  }

  ghost predicate Run(states: seq<State>, events: seq<Event>) {
    && |states| == |events| + 1
    && Init(states[0])
    && forall i :: 0 <= i < |events| ==> CanDo(states[i], events[i]) && states[i + 1] == After(states[i], events[i])
  }

  /** No step of the run reads what a compaction has overtaken, and no error return leaves
      a position that cannot be resumed from. */
  ghost predicate CleanRun(states: seq<State>, events: seq<Event>) {
    && Run(states, events)
    && forall i :: 0 <= i < |events| ==>
         CleanStep(states[i].server, states[i].devices[events[i].device], events[i].action)
  }

  ghost predicate Inv(s: State) {
    ServerInv(s.server) && forall d :: d in s.devices ==> DeviceInv(s.server, s.devices[d])
  }

  lemma AfterKeeps(s: State, e: Event)
    requires Inv(s) && CanDo(s, e) && CleanStep(s.server, s.devices[e.device], e.action)
    ensures Inv(After(s, e)) && Grows(s.server, After(s, e).server)
  {
    var s' := After(s, e);
    StepKeeps(s.server, s.devices[e.device], e.action);
    forall d | d in s'.devices ensures DeviceInv(s'.server, s'.devices[d]) {
      if d != e.device {
        DeviceFrame(s.server, s'.server, s.devices[d]);
      }
    }
  }

  lemma {:induction false} RunInv(states: seq<State>, events: seq<Event>, i: nat)
    requires CleanRun(states, events) && i < |states|
    ensures Inv(states[i])
  {
    if i == 0 {
      assert states[0].server.history[..0] == [];
    } else {
      RunInv(states, events, i - 1);
      AfterKeeps(states[i - 1], events[i - 1]);
    }
  }

  /** A pass has just reported success: it ran to its end, or took the idle path. */
  predicate PassSucceeded(e: Event, s': State) {
    e.action.Finish? || (e.action.Base? && e.device in s'.devices && s'.devices[e.device].pass.Idle?)
  }

  /** Whenever a pass succeeds, whatever ran beside it, the device's shadow is the replay of
      the whole log through its recorded position, and so is its store, unless it has been
      edited since the pass saved it. */
  lemma PassReplaysHistory(states: seq<State>, events: seq<Event>, i: nat)
    requires CleanRun(states, events) && i < |events| && PassSucceeded(events[i], states[i + 1])
    ensures events[i].device in states[i + 1].devices
    ensures var srv, dev := states[i + 1].server, states[i + 1].devices[events[i].device];
            && dev.shadow.Some? && dev.pos.seqNo <= |srv.history|
            && ByID(dev.shadow.value) == MeaningAt(srv, dev.pos.seqNo)
            && (!dev.edited || events[i].action.Base? ==> ByID(dev.store) == MeaningAt(srv, dev.pos.seqNo))
  {
    RunInv(states, events, i);
    RunInv(states, events, i + 1);
    var s, e := states[i], events[i];
    assert CanDo(s, e);
    if e.action.Base? {
      DiffEmptyIff(e.action.diff, ByID(ShadowList(s.devices[e.device])), ByID(s.devices[e.device].store));
    }
  }

  /** Two devices whose passes ended at the same position agree. */
  lemma DevicesConverge(states: seq<State>, events: seq<Event>, i: nat, j: nat)
    requires CleanRun(states, events) && i < |events| && j < |events|
    requires PassSucceeded(events[i], states[i + 1]) && PassSucceeded(events[j], states[j + 1])
    requires events[i].device in states[i + 1].devices && events[j].device in states[j + 1].devices
    requires states[i + 1].devices[events[i].device].pos.seqNo == states[j + 1].devices[events[j].device].pos.seqNo
    ensures ByID(ShadowList(states[i + 1].devices[events[i].device]))
            == ByID(ShadowList(states[j + 1].devices[events[j].device]))
  {
    PassReplaysHistory(states, events, i);
    PassReplaysHistory(states, events, j);
    var n := states[i + 1].devices[events[i].device].pos.seqNo;
    if i <= j {
      HistoryGrows(states, events, i + 1, j + 1);
      MeaningStable(states[i + 1].server, states[j + 1].server, n);
    } else {
      HistoryGrows(states, events, j + 1, i + 1);
      MeaningStable(states[j + 1].server, states[i + 1].server, n);
    }
  }

  lemma {:induction false} HistoryGrows(states: seq<State>, events: seq<Event>, i: nat, j: nat)
    requires CleanRun(states, events) && i <= j < |states|
    ensures Grows(states[i].server, states[j].server)
    decreases j
  {
    if i < j {
      HistoryGrows(states, events, i, j - 1);
      RunInv(states, events, j - 1);
      AfterKeeps(states[j - 1], events[j - 1]);
      GrowsTransitive(states[i].server, states[j - 1].server, states[j].server);
    }
  }

  lemma GrowsTransitive(a: Server, b: Server, c: Server)
    requires Grows(a, b) && Grows(b, c)
    ensures Grows(a, c)
  {
  }

  /** Compaction never changes what the log means: in every reachable state the
      snapshot and the retained tail replay to the untruncated history. */
  lemma CompactionPreservesMeaning(states: seq<State>, events: seq<Event>, i: nat)
    requires CleanRun(states, events) && i < |states|
    ensures var srv := states[i].server;
            Replay(ByID(srv.snapshot), Ops(FetchSince(srv, srv.through))) == Meaning(srv)
  {
    RunInv(states, events, i);
    var srv := states[i].server;
    FetchOps(srv, srv.through);
    MeaningExtend(srv, srv.through, |srv.history|);
    assert srv.history[..|srv.history|] == srv.history;
    assert srv.history[srv.through..|srv.history|] == srv.history[srv.through..];
  }
}
