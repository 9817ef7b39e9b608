/** What a contacts sync pass does, as a trail of the protocol's steps: other devices write to
    the server before any of its calls, the user edits the store after any of its stages, and
    any call or file write may fail. */
module ContactsTrail {
  import opened OpLog
  import opened ContactsSync

  /** What happens outside the pass: what the others have done to the server by the time call
      k is made, what the user has made of the store by the end of stage k, and whether call k
      fails. Calls 5 and 6 are the two file writes. */
  datatype Network = Network(others: (nat, Server) -> Server,
                             edits: (nat, seq<Contact>) -> seq<Contact>, fails: nat -> bool)

  /** The others file every contact under its alias. */
  ghost predicate FilesKeyed(net: Network) {
    forall k: nat, srv: Server :: KeyedOps(srv.history) ==> KeyedOps(net.others(k, srv).history)
  }

  ghost predicate Lawful(net: Network) {
    && FilesKeyed(net)
    && (forall k, srv :: ServerInv(srv) ==> ServerInv(net.others(k, srv)) && Grows(srv, net.others(k, srv)))
    && (forall k, list :: Distinct(list) ==> Distinct(net.edits(k, list)))
  }

  // ----- trails -----

  /** What a pass has done so far, with the server and the device it has come to: the others'
      turn before call k, or a stage of the pass. */
  datatype Trail =
    | Start(srv: Server, dev: Device)
    | Turn(srv: Server, dev: Device, prev: Trail, call: nat)
    | Act(srv: Server, dev: Device, prev: Trail, action: Action)

  /** Where the trail began. */
  function Root(t: Trail): Trail {
    if t.Start? then t else Root(t.prev)
  }

  /** The stages of a pass, by the number of the call they may make. */
  function Stage(a: Action): nat {
    match a
    case Base(_) => 0
    case Pull => 1
    case Push => 2
    case Repair => 3
    case TryCompact(_) => 4
    case SaveStore(_) => 5
    case _ => 6
  }

  /** Whether the stage makes its call. */
  predicate Calls(dev: Device, a: Action) {
    match a
    case Base(_) => dev.pass.Started? && NeedsDownload(dev, dev.pass.remote)
    case Pull => dev.pass.Based? && dev.pass.remote.maxSeq > dev.pass.mem.seqNo
    case Push => dev.pass.Pulled? && dev.pass.local.ops != []
    case Repair => dev.pass.Appended? && dev.pass.first > dev.pass.mem.seqNo + 1
    case TryCompact(threshold) => dev.pass.ShadowSaved? && Due(dev.pass, threshold)
    case _ => true
  }

  predicate IsStage(a: Action) {
    a.Base? || a.Pull? || a.Push? || a.Repair? || a.SaveStore? || a.SaveShadow? || a.TryCompact?
  }

  /** The device after the user's turn. */
  function Edited(dev: Device, list: seq<Contact>): Device {
    if list == dev.store then dev else dev.(store := list, edited := true)
  }

  /** The stage can be taken at the end of the trail: it is a step of the protocol, and the
      others have had their turn exactly when it makes its call, which does not fail. */
  ghost predicate Ready(net: Network, t: Trail, a: Action) {
    && IsStage(a) && Enabled(t.dev, a)
    && (if Calls(t.dev, a) then t.Turn? && t.call == Stage(a) && !net.fails(Stage(a)) else !t.Turn?)
  }

  /** Nothing in a trail is left open but what `net` says. */
  ghost predicate Legal(net: Network, t: Trail) {
    match t
    case Start(_, _) => true
    case Turn(srv, dev, prev, k) => Legal(net, prev) && !prev.Turn? && srv == net.others(k, prev.srv) && dev == prev.dev
    case Act(srv, dev, prev, a) =>
      && Legal(net, prev) && Ready(net, prev, a)
      && srv == DoServer(prev.srv, prev.dev, a) && dev == AfterStage(net, prev.srv, prev.dev, a)
  }

  ghost function AfterStage(net: Network, srv: Server, dev: Device, a: Action): Device
    requires Enabled(dev, a)
  {
    var dev' := DoDevice(srv, dev, a);
    Edited(dev', net.edits(Stage(a), dev'.store))
  }

  /** Something came from the server: a snapshot was downloaded, or a pull fetched ops. */
  predicate Brought(t: Trail) {
    match t
    case Start(_, _) => false
    case Turn(_, _, prev, _) => Brought(prev)
    case Act(_, _, prev, a) => Brought(prev) || Brings(prev.srv, prev.dev, a)
  }

  predicate Brings(srv: Server, dev: Device, a: Action) {
    || (a.Base? && dev.pass.Started? && NeedsDownload(dev, dev.pass.remote))
    || (a.Pull? && dev.pass.Based? && Fetched(srv, dev.pass) != [])
  }

  /** The call that is due where the pass stands. */
  predicate Next(dev: Device, k: nat) {
    var p := dev.pass;
    match k
    case 0 => p.Started? && NeedsDownload(dev, p.remote)
    case 1 => p.Based? && p.remote.maxSeq > p.mem.seqNo
    case 2 => p.Pulled? && p.local.ops != []
    case 3 => p.Appended? && p.first > p.mem.seqNo + 1
    case 4 => p.ShadowSaved?
    case 5 => p.Merged?
    case 6 => p.StoreSaved?
    case _ => false
  }

  /** The trail stops at a call that was due and failed. */
  ghost predicate Stuck(net: Network, t: Trail) { t.Turn? && net.fails(t.call) && Next(t.dev, t.call) }

  /** Compaction was tried, or found not due, with this threshold. */
  predicate Threshold(t: Trail, threshold: nat) {
    && (t.Act? && t.action.TryCompact? ==> t.action.threshold == threshold)
    && (t.Turn? && t.call == 4 && t.dev.pass.ShadowSaved? ==> Due(t.dev.pass, threshold))
  }

  /** No stage read what a compaction had overtaken. */
  predicate Clean(t: Trail) {
    match t
    case Start(_, _) => true
    case Turn(_, _, prev, _) => Clean(prev)
    case Act(_, _, prev, a) => Clean(prev) && CleanStep(prev.srv, prev.dev, a)
  }

  lemma EditedKeeps(srv: Server, dev: Device, list: seq<Contact>)
    requires DeviceInv(srv, dev) && Distinct(list)
    ensures DeviceInv(srv, Edited(dev, list))
  {
    EditKeeps(srv, dev, list);
  }

  /** A clean trail keeps the protocol's invariant. */
  lemma {:induction false} TrailKeeps(net: Network, t: Trail)
    requires Lawful(net) && Legal(net, t) && Clean(t)
    requires ServerInv(Root(t).srv) && DeviceInv(Root(t).srv, Root(t).dev)
    ensures ServerInv(t.srv) && DeviceInv(t.srv, t.dev)
  {
    match t
    case Start(_, _) =>
    case Turn(_, _, prev, k) =>
      TrailKeeps(net, prev);
      DeviceFrame(prev.srv, t.srv, prev.dev);
    case Act(_, _, prev, a) =>
      TrailKeeps(net, prev);
      StepKeeps(prev.srv, prev.dev, a);
      var dev := DoDevice(prev.srv, prev.dev, a);
      EditedKeeps(t.srv, dev, net.edits(Stage(a), dev.store));
  }

  /** The others may append, but do not compact. */
  ghost predicate KeepsVersion(net: Network) {
    forall k, srv :: net.others(k, srv).version == srv.version
  }

  /** The server still has the version the pass was told and will record, its own compaction
      included. */
  predicate Current(srv: Server, p: Pass) {
    match p
    case Idle => true
    case Started(r) => r.version == srv.version
    case Done(mem) => mem.snapVersion == srv.version
    case _ => p.remote.version == p.mem.snapVersion == srv.version
  }

  lemma CurrentStep(srv: Server, dev: Device, a: Action)
    requires Current(srv, dev.pass) && IsStage(a) && Enabled(dev, a)
    ensures Current(DoServer(srv, dev, a), DoDevice(srv, dev, a).pass)
  {
  }

  /** Without foreign compactions every trail is clean. */
  lemma {:induction false} QuietTrail(net: Network, t: Trail)
    requires Lawful(net) && KeepsVersion(net) && Legal(net, t)
    requires ServerInv(Root(t).srv) && DeviceInv(Root(t).srv, Root(t).dev) && Current(Root(t).srv, Root(t).dev.pass)
    ensures Clean(t) && Current(t.srv, t.dev.pass)
  {
    match t
    case Start(_, _) =>
    case Turn(_, _, prev, k) => QuietTrail(net, prev);
    case Act(_, _, prev, a) =>
      QuietTrail(net, prev);
      TrailKeeps(net, prev);
      UndisturbedIsClean(prev.srv, prev.dev, a);
      CurrentStep(prev.srv, prev.dev, a);
  }

  /** A pass that succeeds while the others do not compact records the version that the server
      then has. */
  lemma QuietVersion(net: Network, t: Trail)
    requires Lawful(net) && KeepsVersion(net) && Legal(net, t) && Succeeded(t)
    requires ServerInv(Root(t).srv) && DeviceInv(Root(t).srv, Root(t).dev) && Current(Root(t).srv, Root(t).dev.pass)
    requires Root(t).dev.pass.Started?
    ensures MemOf(t.dev).snapVersion == t.srv.version
  {
    QuietTrail(net, t);
    if t.dev.pass.Idle? {
      assert Root(t) == t.prev && Enabled(t.prev.dev, Base([]));
      assert t.dev == Edited(DoDevice(t.prev.srv, t.prev.dev, Base([])), t.dev.store);
    }
  }

  /** The trail has led to srv and dev. */
  ghost predicate Leads(net: Network, t: Trail, srv: Server, dev: Device) {
    Legal(net, t) && t.srv == srv && t.dev == dev
  }

  /** The pass ran to its end, or took the idle path. */
  predicate Succeeded(t: Trail) {
    t.Act? && (t.dev.pass.Done? || (t.prev.Start? && t.action == Base([]) && t.dev.pass.Idle?))
  }

  /** Success, on a clean trail, leaves the replay of the log through the position. */
  lemma CleanSuccess(net: Network, t: Trail)
    requires Lawful(net) && Legal(net, t) && Clean(t) && Succeeded(t)
    requires ServerInv(Root(t).srv) && DeviceInv(Root(t).srv, Root(t).dev)
    ensures var srv, dev := t.srv, t.dev;
      && dev.shadow.Some? && MemOf(dev).seqNo <= |srv.history|
      && ByID(dev.shadow.value) == MeaningAt(srv, MemOf(dev).seqNo)
      && (!dev.edited ==> ByID(dev.store) == MeaningAt(srv, MemOf(dev).seqNo))
  {
    TrailKeeps(net, t);
    if !t.dev.pass.Done? {
      var srv, dev := t.prev.srv, t.prev.dev;
      assert Root(t) == t.prev && Enabled(dev, Base([]));
      assert t.dev == Edited(DoDevice(srv, dev, Base([])), t.dev.store);
      IdleSuccess(srv, dev);
    }
  }

  lemma IdleSuccess(srv: Server, dev: Device)
    requires ServerInv(srv) && DeviceInv(srv, dev) && Enabled(dev, Base([])) && DoDevice(srv, dev, Base([])).pass.Idle?
    ensures dev.shadow.Some? && ByID(dev.shadow.value) == ByID(dev.store) == MeaningAt(srv, dev.pos.seqNo)
  {
    DiffEmptyIff([], ByID(ShadowList(dev)), ByID(dev.store));
  }
}
