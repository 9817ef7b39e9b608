/** SyncIdentities: N devices roaming their identity keys through one cloud blob. */
module Roaming {

  /** How a device merges a pulled set into its own, and the fingerprint of a set. */
  datatype Keys<!V, !D(==)> = Keys(merge: (V, V) -> V, digest: V -> D)

  /** `Old` is a blob in a format that can no longer be imported. */
  datatype Content<V> = Absent | Old | Current(value: V)

  datatype Cloud<V> = Cloud(version: nat, content: Content<V>)

  /** Where a pass stands, one network call at a time. `Retrying` has had its fresh write
      refused, and holds the version it was told and the set it exported. */
  datatype Phase<V, D> = Idle | Pulling(changed: bool) | Pushing(dig: D) | Retrying(dig: D, cur: nat, exported: V)

  /** A device: its identity set, and the version and digest it recorded. */
  datatype Device<V, D> = Device(local: V, version: nat, digest: D, phase: Phase<V, D>)

  datatype Event<V> = Edit(value: V) | Begin | Pull | Put | PutAgain | Fail

  predicate Enabled<V, D>(dev: Device<V, D>, e: Event<V>) {
    match e
    case Edit(_) => true
    case Begin => dev.phase.Idle?
    case Pull => dev.phase.Pulling?
    case Put => dev.phase.Pushing?
    case PutAgain => dev.phase.Retrying?
    case Fail => !dev.phase.Idle?
  }

  /** What a pass sets out to do. */
  function Plan<V, D(==)>(p: Keys<V, D>, c: Cloud<V>, dev: Device<V, D>): Phase<V, D> {
    var moved := c.version != dev.version;
    var changed := p.digest(dev.local) != dev.digest;
    if !moved && !changed then Idle
    else if c.version == 0 then Pushing(p.digest(dev.local))
    else if moved then Pulling(changed)
    else Pushing(p.digest(dev.local))
  }

  function AfterPull<V, D(==)>(p: Keys<V, D>, c: Cloud<V>, dev: Device<V, D>): Device<V, D>
    requires dev.phase.Pulling?
  {
    match c.content
    case Absent => dev.(phase := Idle)
    case Old => dev.(version := c.version, phase := Pushing(p.digest(dev.local)))
    case Current(value) =>
      var merged := p.merge(dev.local, value);
      if dev.phase.changed then dev.(local := merged, version := c.version, phase := Pushing(p.digest(merged)))
      else dev.(local := merged, version := c.version, digest := p.digest(merged), phase := Idle)
  }

  /** The call writes the blob. */
  predicate Writes<V, D>(c: Cloud<V>, dev: Device<V, D>, e: Event<V>) {
    || (e.Put? && dev.phase.Pushing? && c.version == 0)
    || (e.PutAgain? && dev.phase.Retrying? && c.version == dev.phase.cur)
  }

  function Next<V, D(==)>(p: Keys<V, D>, c: Cloud<V>, dev: Device<V, D>, e: Event<V>): Device<V, D>
    requires Enabled(dev, e)
  {
    match e
    case Edit(value) => dev.(local := value)
    case Begin => dev.(phase := Plan(p, c, dev))
    case Pull => AfterPull(p, c, dev)
    case Put =>
      if Writes(c, dev, e) then Device(dev.local, c.version + 1, dev.phase.dig, Idle)
      else dev.(phase := Retrying(dev.phase.dig, c.version, dev.local))
    case PutAgain =>
      if Writes(c, dev, e) then Device(dev.local, c.version + 1, dev.phase.dig, Idle)
      else dev.(phase := Idle)
    case Fail => dev.(phase := Idle)
  }

  function NextCloud<V, D>(c: Cloud<V>, dev: Device<V, D>, e: Event<V>): Cloud<V> {
    if Writes(c, dev, e) then Cloud(c.version + 1, Current(if e.Put? then dev.local else dev.phase.exported)) else c
  }

  // ----- runs -----

  datatype World<V, D> = World(cloud: Cloud<V>, devices: seq<Device<V, D>>)

  /** The blob exists from the first version on, and nobody has recorded a later version or
      is pulling a blob that is not there or retrying at a version still to come. */
  predicate Valid<V, D>(w: World<V, D>) {
    && (w.cloud.content.Absent? <==> w.cloud.version == 0)
    && (forall i :: 0 <= i < |w.devices| ==> w.devices[i].version <= w.cloud.version)
    && (forall i :: 0 <= i < |w.devices| ==> w.devices[i].phase.Pulling? ==> w.cloud.version > 0)
    && (forall i :: 0 <= i < |w.devices| ==> w.devices[i].phase.Retrying? ==> w.devices[i].phase.cur <= w.cloud.version)
  }

  ghost predicate Step<V, D>(p: Keys<V, D>, w: World<V, D>, d: nat, e: Event<V>, w': World<V, D>) {
    && d < |w.devices|
    && Enabled(w.devices[d], e)
    && w' == World(NextCloud(w.cloud, w.devices[d], e), w.devices[d := Next(p, w.cloud, w.devices[d], e)])
  }

  ghost predicate Run<V, D>(p: Keys<V, D>, ws: seq<World<V, D>>, es: seq<(nat, Event<V>)>) {
    && |ws| == |es| + 1
    && forall i :: 0 <= i < |es| ==> Step(p, ws[i], es[i].0, es[i].1, ws[i + 1])
  }

  lemma StepValid<V, D>(p: Keys<V, D>, w: World<V, D>, d: nat, e: Event<V>, w': World<V, D>)
    requires Valid(w) && Step(p, w, d, e, w')
    ensures Valid(w') && |w'.devices| == |w.devices|
    ensures w'.cloud.version == w.cloud.version + if Writes(w.cloud, w.devices[d], e) then 1 else 0
  {
  }

  // ----- what each device still owes -----

  /** A push is in flight that can still succeed, and the digest it will record is not that
      of the set it uploads: the set was edited after the pass took its digest. */
  predicate StaleDigest<V, D(==)>(p: Keys<V, D>, c: Cloud<V>, dev: Device<V, D>) {
    && (dev.phase.Pushing? || (dev.phase.Retrying? && dev.phase.cur == c.version))
    && dev.phase.dig != p.digest(dev.local)
  }

  /** The device will not write again unless it is edited. */
  predicate Settled<V, D(==)>(p: Keys<V, D>, c: Cloud<V>, dev: Device<V, D>) {
    && !c.content.Old?
    && p.digest(dev.local) == dev.digest
    && (dev.phase.Idle? || (dev.phase.Pulling? && !dev.phase.changed))
  }

  /** How many more writes the device can make. */
  function Owed<V, D(==)>(p: Keys<V, D>, c: Cloud<V>, dev: Device<V, D>): nat {
    if StaleDigest(p, c, dev) then 2 else if Settled(p, c, dev) then 0 else 1
  }

  /** How many more passes it can start in earnest while the blob stays as it is. */
  function Pending<V, D(==)>(p: Keys<V, D>, c: Cloud<V>, dev: Device<V, D>): nat {
    match dev.phase
    case Idle => if Plan(p, c, dev).Idle? then 0 else 1
    case Retrying(_, cur, _) => if cur == c.version then 0 else 1
    case _ => 0
  }

  /** A call by a device leaves it owing no more, and one fewer if it wrote. */
  lemma OwnStep<V, D>(p: Keys<V, D>, w: World<V, D>, d: nat, e: Event<V>, w': World<V, D>)
    requires Valid(w) && Step(p, w, d, e, w') && !e.Edit?
    ensures Owed(p, w'.cloud, w'.devices[d]) + (if Writes(w.cloud, w.devices[d], e) then 1 else 0)
         <= Owed(p, w.cloud, w.devices[d])
  {
  }

  lemma OthersStep<V, D>(p: Keys<V, D>, w: World<V, D>, d: nat, e: Event<V>, w': World<V, D>, o: nat)
    requires Valid(w) && Step(p, w, d, e, w') && o < |w.devices| && o != d
    ensures Owed(p, w'.cloud, w'.devices[o]) <= Owed(p, w.cloud, w.devices[o])
    ensures !Writes(w.cloud, w.devices[d], e) ==>
              Pending(p, w'.cloud, w'.devices[o]) == Pending(p, w.cloud, w.devices[o])
  {
  }

  /** Starting a pass in earnest uses up a pending one; other calls add none, except that a
      failure costs one. */
  lemma OwnPending<V, D>(p: Keys<V, D>, w: World<V, D>, d: nat, e: Event<V>, w': World<V, D>)
    requires Valid(w) && Step(p, w, d, e, w') && !e.Edit? && !Writes(w.cloud, w.devices[d], e)
    ensures Pending(p, w'.cloud, w'.devices[d]) + (if Earnest(p, w, d, e) then 1 else 0)
         <= Pending(p, w.cloud, w.devices[d]) + (if e.Fail? then 1 else 0)
  {
  }

  /** The event starts a pass that finds something to do. */
  predicate Earnest<V, D(==)>(p: Keys<V, D>, w: World<V, D>, d: nat, e: Event<V>)
    requires d < |w.devices|
  {
    e.Begin? && !Plan(p, w.cloud, w.devices[d]).Idle?
  }

  // ----- whole runs -----

  predicate NoEdits<V>(es: seq<(nat, Event<V>)>) { forall i :: 0 <= i < |es| ==> !es[i].1.Edit? }

  /** Writes by device d among the first n events. */
  ghost function WritesBy<V, D>(ws: seq<World<V, D>>, es: seq<(nat, Event<V>)>, d: nat, n: nat): nat
    requires n <= |es| && |ws| == |es| + 1
  {
    if n == 0 then 0
    else
      var w, e := ws[n - 1], es[n - 1];
      WritesBy(ws, es, d, n - 1) + if e.0 == d && d < |w.devices| && Writes(w.cloud, w.devices[d], e.1) then 1 else 0
  }

  lemma {:induction false} RunValid<V, D>(p: Keys<V, D>, ws: seq<World<V, D>>, es: seq<(nat, Event<V>)>, n: nat)
    requires Run(p, ws, es) && Valid(ws[0]) && n <= |es|
    ensures Valid(ws[n]) && |ws[n].devices| == |ws[0].devices|
  {
    if n > 0 {
      RunValid(p, ws, es, n - 1);
      StepValid(p, ws[n - 1], es[n - 1].0, es[n - 1].1, ws[n]);
    }
  }

  /** In every run without edits, a device writes at most what it owed at the start. */
  lemma {:induction false} WritesWithinOwed<V, D>(p: Keys<V, D>, ws: seq<World<V, D>>, es: seq<(nat, Event<V>)>,
                                                  d: nat, n: nat)
    requires Run(p, ws, es) && Valid(ws[0]) && NoEdits(es) && n <= |es| && d < |ws[0].devices|
    ensures |ws[n].devices| == |ws[0].devices|
    ensures WritesBy(ws, es, d, n) + Owed(p, ws[n].cloud, ws[n].devices[d]) <= Owed(p, ws[0].cloud, ws[0].devices[d])
  {
    RunValid(p, ws, es, n);
    if n > 0 {
      var e := es[n - 1];
      RunValid(p, ws, es, n - 1);
      WritesWithinOwed(p, ws, es, d, n - 1);
      if e.0 == d {
        OwnStep(p, ws[n - 1], d, e.1, ws[n]);
      } else {
        OthersStep(p, ws[n - 1], e.0, e.1, ws[n], d);
      }
    }
  }

  /** Once nothing is edited, each device pushes at most once more, unless a push was in
      flight whose digest an edit had overtaken; and a settled device, which only pulls,
      never pushes. */
  lemma PushesAtMostOnce<V, D>(p: Keys<V, D>, ws: seq<World<V, D>>, es: seq<(nat, Event<V>)>, d: nat)
    requires Run(p, ws, es) && Valid(ws[0]) && NoEdits(es) && d < |ws[0].devices|
    ensures !StaleDigest(p, ws[0].cloud, ws[0].devices[d]) ==> WritesBy(ws, es, d, |es|) <= 1
    ensures Settled(p, ws[0].cloud, ws[0].devices[d]) ==> WritesBy(ws, es, d, |es|) == 0
    ensures WritesBy(ws, es, d, |es|) <= 2
  {
    WritesWithinOwed(p, ws, es, d, |es|);
  }

  // ----- going quiet -----

  function Sum(s: seq<nat>): nat {
    if s == [] then 0 else Sum(s[..|s| - 1]) + s[|s| - 1]
  }

  lemma {:induction false} SumBound(s: seq<nat>, k: nat)
    requires forall i :: 0 <= i < |s| ==> s[i] <= k
    ensures Sum(s) <= |s| * k
  {
    if s != [] {
      SumBound(s[..|s| - 1], k);
    }
  }

  lemma {:induction false} SumBelow(a: seq<nat>, b: seq<nat>)
    requires |a| == |b| && forall i :: 0 <= i < |a| ==> b[i] <= a[i]
    ensures Sum(b) <= Sum(a)
  {
    if a != [] {
      SumBelow(a[..|a| - 1], b[..|b| - 1]);
    }
  }

  /** Elementwise no more, with `used` given up and `cost` added at d. */
  lemma {:induction false} SumStep(a: seq<nat>, b: seq<nat>, d: nat, used: nat, cost: nat)
    requires |a| == |b| && d < |a|
    requires forall i :: 0 <= i < |a| && i != d ==> b[i] <= a[i]
    requires b[d] + used <= a[d] + cost
    ensures Sum(b) + used <= Sum(a) + cost
  {
    var l := |a| - 1;
    if d == l {
      SumBelow(a[..l], b[..l]);
    } else {
      SumStep(a[..l], b[..l], d, used, cost);
    }
  }

  ghost function Owing<V, D>(p: Keys<V, D>, w: World<V, D>): (s: seq<nat>)
    ensures |s| == |w.devices|
  {
    seq(|w.devices|, i requires 0 <= i < |w.devices| => Owed(p, w.cloud, w.devices[i]))
  }

  ghost function Waiting<V, D>(p: Keys<V, D>, w: World<V, D>): (s: seq<nat>)
    ensures |s| == |w.devices|
  {
    seq(|w.devices|, i requires 0 <= i < |w.devices| => Pending(p, w.cloud, w.devices[i]))
  }

  /** A bound on the passes that can still find something to do: every write can wake every
      device once. */
  ghost function Debt<V, D>(p: Keys<V, D>, w: World<V, D>): nat {
    |w.devices| * Sum(Owing(p, w)) + Sum(Waiting(p, w))
  }

  lemma Scale(n: nat, a: nat, b: nat)
    requires a <= b
    ensures n * a <= n * b
  {
  }

  lemma BoundedProduct(n: nat, a: nat, b: nat)
    requires a <= n * 2 && b <= n
    ensures n * a + b <= n * (2 * n + 1)
  {
    Scale(n, a, n * 2);
    assert n * (n * 2) + n == n * (2 * n + 1);
  }

  /** One unit less owed pays for waking everyone. */
  lemma OneLess(n: nat, a: nat, a': nat, b': nat)
    requires a' + 1 <= a && b' <= n
    ensures n * a' + b' <= n * a
  {
    Scale(n, a' + 1, a);
    assert n * (a' + 1) == n * a' + n;
  }

  lemma DebtBound<V, D>(p: Keys<V, D>, w: World<V, D>)
    ensures Debt(p, w) <= |w.devices| * (2 * |w.devices| + 1)
  {
    SumBound(Owing(p, w), 2);
    SumBound(Waiting(p, w), 1);
    BoundedProduct(|w.devices|, Sum(Owing(p, w)), Sum(Waiting(p, w)));
  }

  lemma OwingStep<V, D>(p: Keys<V, D>, w: World<V, D>, d: nat, e: Event<V>, w': World<V, D>)
    requires Valid(w) && Step(p, w, d, e, w') && !e.Edit?
    ensures Sum(Owing(p, w')) + (if Writes(w.cloud, w.devices[d], e) then 1 else 0) <= Sum(Owing(p, w))
  {
    OwnStep(p, w, d, e, w');
    forall i | 0 <= i < |w.devices| && i != d ensures Owing(p, w')[i] <= Owing(p, w)[i] {
      OthersStep(p, w, d, e, w', i);
    }
    SumStep(Owing(p, w), Owing(p, w'), d, if Writes(w.cloud, w.devices[d], e) then 1 else 0, 0);
  }

  lemma WaitingStep<V, D>(p: Keys<V, D>, w: World<V, D>, d: nat, e: Event<V>, w': World<V, D>)
    requires Valid(w) && Step(p, w, d, e, w') && !e.Edit? && !Writes(w.cloud, w.devices[d], e)
    ensures Sum(Waiting(p, w')) + (if Earnest(p, w, d, e) then 1 else 0)
         <= Sum(Waiting(p, w)) + (if e.Fail? then 1 else 0)
  {
    OwnPending(p, w, d, e, w');
    forall i | 0 <= i < |w.devices| && i != d ensures Waiting(p, w')[i] <= Waiting(p, w)[i] {
      OthersStep(p, w, d, e, w', i);
    }
    SumStep(Waiting(p, w), Waiting(p, w'), d, if Earnest(p, w, d, e) then 1 else 0, if e.Fail? then 1 else 0);
  }

  lemma DebtStep<V, D>(p: Keys<V, D>, w: World<V, D>, d: nat, e: Event<V>, w': World<V, D>)
    requires Valid(w) && Step(p, w, d, e, w') && !e.Edit?
    ensures Debt(p, w') + (if Earnest(p, w, d, e) then 1 else 0) <= Debt(p, w) + (if e.Fail? then 1 else 0)
  {
    var n := |w.devices|;
    OwingStep(p, w, d, e, w');
    if Writes(w.cloud, w.devices[d], e) {
      SumBound(Waiting(p, w'), 1);
      OneLess(n, Sum(Owing(p, w)), Sum(Owing(p, w')), Sum(Waiting(p, w')));
    } else {
      WaitingStep(p, w, d, e, w');
      Scale(n, Sum(Owing(p, w')), Sum(Owing(p, w)));
    }
  }

  /** Passes that found something to do, among the first n events. */
  ghost function EarnestPasses<V, D>(p: Keys<V, D>, ws: seq<World<V, D>>, es: seq<(nat, Event<V>)>, n: nat): nat
    requires Run(p, ws, es) && n <= |es|
  {
    if n == 0 then 0
    else
      assert Step(p, ws[n - 1], es[n - 1].0, es[n - 1].1, ws[n]);
      EarnestPasses(p, ws, es, n - 1) + if Earnest(p, ws[n - 1], es[n - 1].0, es[n - 1].1) then 1 else 0
  }

  function Failures<V>(es: seq<(nat, Event<V>)>, n: nat): nat
    requires n <= |es|
  {
    if n == 0 then 0 else Failures(es, n - 1) + if es[n - 1].1.Fail? then 1 else 0
  }

  lemma {:induction false} DebtPays<V, D>(p: Keys<V, D>, ws: seq<World<V, D>>, es: seq<(nat, Event<V>)>, n: nat)
    requires Run(p, ws, es) && Valid(ws[0]) && NoEdits(es) && n <= |es|
    ensures EarnestPasses(p, ws, es, n) + Debt(p, ws[n]) <= Debt(p, ws[0]) + Failures(es, n)
  {
    if n > 0 {
      DebtPays(p, ws, es, n - 1);
      RunValid(p, ws, es, n - 1);
      DebtStep(p, ws[n - 1], es[n - 1].0, es[n - 1].1, ws[n]);
    }
  }

  /** Roaming goes quiet: in every run of N devices without edits, however long and however
      interleaved, all but N(2N + 1) passes, plus one for each failed call, are up to date. */
  lemma GoesQuiet<V, D>(p: Keys<V, D>, ws: seq<World<V, D>>, es: seq<(nat, Event<V>)>)
    requires Run(p, ws, es) && Valid(ws[0]) && NoEdits(es)
    ensures var n := |ws[0].devices|; EarnestPasses(p, ws, es, |es|) <= n * (2 * n + 1) + Failures(es, |es|)
  {
    DebtPays(p, ws, es, |es|);
    DebtBound(p, ws[0]);
  }

  // ----- nothing pulled is dropped -----

  /** Importing is non-destructive: a merge is above both sets. */
  ghost predicate NonDestructive<V(!new), D>(p: Keys<V, D>, below: (V, V) -> bool) {
    && (forall a :: below(a, a))
    && (forall a, b, c :: below(a, b) && below(b, c) ==> below(a, c))
    && (forall a, b :: below(a, p.merge(a, b)) && below(b, p.merge(a, b)))
  }

  /** Edits of the run only ever add. */
  ghost predicate Growing<V, D>(below: (V, V) -> bool, ws: seq<World<V, D>>, es: seq<(nat, Event<V>)>)
    requires |ws| == |es| + 1
  {
    forall i :: 0 <= i < |es| && es[i].1.Edit? && es[i].0 < |ws[i].devices| ==>
      below(ws[i].devices[es[i].0].local, es[i].1.value)
  }

  /** A device that has recorded the blob's version holds everything in the blob, and one that
      has exported its set holds everything it exported. */
  ghost predicate HoldsBlob<V, D>(below: (V, V) -> bool, c: Cloud<V>, dev: Device<V, D>) {
    && (dev.version == c.version && c.content.Current? ==> below(c.content.value, dev.local))
    && (dev.phase.Retrying? ==> below(dev.phase.exported, dev.local))
  }

  lemma HoldsBlobStep<V(!new), D>(p: Keys<V, D>, below: (V, V) -> bool, w: World<V,
                        D>, d: nat, e: Event<V>, w': World<V, D>, o: nat)
    requires NonDestructive(p, below) && Valid(w) && Step(p, w, d, e, w') && o < |w.devices|
    requires e.Edit? ==> below(w.devices[d].local, e.value)
    requires HoldsBlob(below, w.cloud, w.devices[o])
    ensures HoldsBlob(below, w'.cloud, w'.devices[o]) && below(w.devices[o].local, w'.devices[o].local)
  {
  }

  lemma {:induction false} BlobHeld<V(!new), D>(p: Keys<V, D>, below: (V, V) -> bool, ws: seq<World<V, D>>,
                                                es: seq<(nat, Event<V>)>, n: nat, o: nat)
    requires NonDestructive(p, below) && Run(p, ws, es) && Valid(ws[0]) && Growing(below, ws, es)
    requires n <= |es| && o < |ws[0].devices| && HoldsBlob(below, ws[0].cloud, ws[0].devices[o])
    ensures |ws[n].devices| == |ws[0].devices|
    ensures HoldsBlob(below, ws[n].cloud, ws[n].devices[o]) && below(ws[0].devices[o].local, ws[n].devices[o].local)
  {
    RunValid(p, ws, es, n);
    if n > 0 {
      RunValid(p, ws, es, n - 1);
      BlobHeld(p, below, ws, es, n - 1, o);
      HoldsBlobStep(p, below, ws[n - 1], es[n - 1].0, es[n - 1].1, ws[n], o);
    }
  }

  /** In every run whose edits only add, a device's set only grows, and a device that finds
      itself up to date holds everything in the blob. */
  lemma UpToDateHoldsBlob<V(!new), D>(p: Keys<V, D>, below: (V, V) -> bool, ws: seq<World<V, D>>,
                                      es: seq<(nat, Event<V>)>, n: nat, o: nat)
    requires NonDestructive(p, below) && Run(p, ws, es) && Valid(ws[0]) && Growing(below, ws, es)
    requires n <= |es| && o < |ws[0].devices| && HoldsBlob(below, ws[0].cloud, ws[0].devices[o])
    ensures |ws[n].devices| == |ws[0].devices| && below(ws[0].devices[o].local, ws[n].devices[o].local)
    ensures Plan(p, ws[n].cloud, ws[n].devices[o]).Idle? && ws[n].cloud.content.Current? ==>
              below(ws[n].cloud.content.value, ws[n].devices[o].local)
  {
    BlobHeld(p, below, ws, es, n, o);
  }

  // ----- where the bound of one push is exact, and what a pass can miss -----

  lemma {:induction false} WritesPrefix<V, D>(ws: seq<World<V, D>>, es: seq<(nat, Event<V>)>, d: nat, n: nat,
                                              w: World<V, D>, e: (nat, Event<V>))
    requires n <= |es| && |ws| == |es| + 1
    ensures WritesBy(ws + [w], es + [e], d, n) == WritesBy(ws, es, d, n)
  {
    if n > 0 {
      WritesPrefix(ws, es, d, n - 1, w, e);
    }
  }

  /** One more call by device d. */
  lemma Extend<V, D>(p: Keys<V, D>, ws: seq<World<V, D>>, es: seq<(nat, Event<V>)>, d: nat, e: Event<V>)
    returns (ws': seq<World<V, D>>, es': seq<(nat, Event<V>)>)
    requires Run(p, ws, es) && NoEdits(es) && !e.Edit? && d < |ws[|es|].devices| && Enabled(ws[|es|].devices[d], e)
    ensures Run(p, ws', es') && NoEdits(es') && ws'[0] == ws[0] && |es'| == |es| + 1
    ensures var w, dev := ws[|es|], ws[|es|].devices[d];
      && ws'[|es'|] == World(NextCloud(w.cloud, dev, e), w.devices[d := Next(p, w.cloud, dev, e)])
      && WritesBy(ws', es', d, |es'|) == WritesBy(ws, es, d, |es|) + if Writes(w.cloud, dev, e) then 1 else 0
  {
    var w, dev := ws[|es|], ws[|es|].devices[d];
    var w' := World(NextCloud(w.cloud, dev, e), w.devices[d := Next(p, w.cloud, dev, e)]);
    ws', es' := ws + [w'], es + [(d, e)];
    assert Step(p, w, d, e, w');
    forall i | 0 <= i < |es'| ensures Step(p, ws'[i], es'[i].0, es'[i].1, ws'[i + 1]) {
      if i < |es| {
        assert Step(p, ws[i], es[i].0, es[i].1, ws[i + 1]);
      }
    }
    WritesPrefix(ws, es, d, |es|, w', (d, e));
  }

  /** A push in flight, left alone, goes through. */
  lemma PushNow<V, D>(p: Keys<V, D>, ws: seq<World<V, D>>, es: seq<(nat, Event<V>)>, d: nat)
    returns (ws': seq<World<V, D>>, es': seq<(nat, Event<V>)>)
    requires Run(p, ws, es) && NoEdits(es) && d < |ws[|es|].devices|
    requires var w, ph := ws[|es|], ws[|es|].devices[d].phase;
      ph.Pushing? || (ph.Retrying? && ph.cur == w.cloud.version)
    ensures Run(p, ws', es') && NoEdits(es') && ws'[0] == ws[0]
    ensures var dev, w := ws[|es|].devices[d], ws'[|es'|];
      && |w.devices| == |ws[|es|].devices| && w.cloud.version > 0
      && w.devices[d] == Device(dev.local, w.cloud.version, dev.phase.dig, Idle)
    ensures WritesBy(ws', es', d, |es'|) == WritesBy(ws, es, d, |es|) + 1
  {
    ws', es' := ws, es;
    if ws[|es|].devices[d].phase.Pushing? {
      ws', es' := Extend(p, ws, es, d, Put);
    }
    if ws'[|es'|].devices[d].phase.Retrying? {
      ws', es' := Extend(p, ws', es', d, PutAgain);
    }
  }

  /** With a push in flight whose digest an edit has overtaken, the device can indeed push
      twice more: the bound of one holds exactly when there is none. */
  lemma OvertakenDigestPushesTwice<V, D>(p: Keys<V, D>, w: World<V, D>, d: nat)
    returns (ws: seq<World<V, D>>, es: seq<(nat, Event<V>)>)
    requires Valid(w) && d < |w.devices| && StaleDigest(p, w.cloud, w.devices[d])
    ensures Run(p, ws, es) && NoEdits(es) && ws[0] == w && WritesBy(ws, es, d, |es|) == 2
  {
    ws, es := [w], [];
    ws, es := PushNow(p, ws, es, d);
    ws, es := Extend(p, ws, es, d, Begin);
    ws, es := PushNow(p, ws, es, d);
  }

  /** A failed push after an old-format pull is not retried: the device takes itself to be up
      to date while the blob stays unreadable. */
  lemma OldFormatPushNotRetried<V, D>(p: Keys<V, D>, c: Cloud<V>, dev: Device<V, D>)
    requires c.content.Old? && c.version != dev.version && c.version > 0
    requires dev.phase.Idle? && p.digest(dev.local) == dev.digest
    ensures var d1 := Next(p, c, dev, Begin);
      Enabled(d1, Pull) && var d2 := Next(p, c, d1, Pull);
      d2.phase.Pushing? && Plan(p, c, Next(p, c, d2, Fail)).Idle?
  {
    assert Plan(p, c, dev) == Pulling(false);
  }

  // ----- what becomes of a failed push -----

  /** A call made alone, if it is the next one due. */
  function Alone<V, D(==)>(p: Keys<V, D>, c: Cloud<V>, dev: Device<V, D>, e: Event<V>): (Cloud<V>, Device<V, D>) {
    if Enabled(dev, e) then (NextCloud(c, dev, e), Next(p, c, dev, e)) else (c, dev)
  }

  /** A whole pass, undisturbed. */
  function PassAlone<V, D(==)>(p: Keys<V, D>, c: Cloud<V>, dev: Device<V, D>): (Cloud<V>, Device<V, D>) {
    var (c1, d1) := Alone(p, c, dev, Begin);
    var (c2, d2) := Alone(p, c1, d1, Pull);
    var (c3, d3) := Alone(p, c2, d2, Put);
    Alone(p, c3, d3, PutAgain)
  }

  /** After a failed push the next pass, undisturbed, writes exactly when the set is not the
      recorded one or the device has yet to see that the blob is in the old format. A push that
      was made for the format alone is not made again: the pull before it recorded the blob's
      version. */
  lemma PushRetriedExact<V, D>(p: Keys<V, D>, c: Cloud<V>, dev: Device<V, D>)
    requires (c.content.Absent? <==> c.version == 0) && dev.version <= c.version
    requires dev.phase.Pushing? || dev.phase.Retrying?
    ensures PassAlone(p, c, Next(p, c, dev, Fail)).1.phase.Idle?
    ensures PassAlone(p, c, Next(p, c, dev, Fail)).0 != c <==>
              p.digest(dev.local) != dev.digest || (c.content.Old? && c.version != dev.version)
  {
  }

  // ----- a single pass -----

  /** The calls a pass can still make. */
  function CallsLeft<V, D>(ph: Phase<V, D>): nat {
    match ph
    case Idle => 0
    case Retrying(_, _, _) => 1
    case Pushing(_) => 2
    case Pulling(_) => 3
  }

  /** Every call brings the pass nearer its end, whatever it meets: a pass makes at most three. */
  lemma CallsRunOut<V, D>(p: Keys<V, D>, c: Cloud<V>, dev: Device<V, D>, e: Event<V>)
    requires Enabled(dev, e) && !e.Edit? && !e.Begin? && (c.content.Absent? ==> !dev.phase.Pulling?)
    ensures CallsLeft(Next(p, c, dev, e).phase) < CallsLeft(dev.phase)
  {
  }

  /** No blob is pulled twice: once pulled, it is not pulled again while it stays, whatever becomes
      of the rest of the pass and of the set. */
  lemma PulledOnce<V, D>(p: Keys<V, D>, c: Cloud<V>, dev: Device<V, D>, local: V)
    requires dev.phase.Pulling? && !c.content.Absent?
    ensures !Plan(p, c, Next(p, c, dev, Pull).(local := local, phase := Idle)).Pulling?
  {
  }
}
