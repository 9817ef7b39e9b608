/** What becomes of an edit of the identity set: when a device that takes itself to be up to date
    has really sent it. */
module RoamingEdits {
  import opened Wrappers
  import opened Roaming

  // ----- one device and all others -----

  /** A device and the blob. `synced` is bookkeeping: the set that the recorded digest was
      recorded for, which is the one uploaded, with whatever was pulled since merged in. */
  datatype Spot<V, D> = Spot(cloud: Cloud<V>, dev: Device<V, D>, synced: Option<V>)

  /** An event of the device, or a write by another one. */
  datatype Move<V> = Own(event: Event<V>) | Other(value: V)

  function Track<V, D>(p: Keys<V, D>, st: Spot<V, D>, e: Event<V>): Option<V> {
    var c, ph := st.cloud, st.dev.phase;
    if Writes(c, st.dev, e) then Some(if e.Put? then st.dev.local else ph.exported)
    else if e.Pull? && ph == Pulling(false) && c.content.Current? && st.synced.Some? then
      Some(p.merge(st.synced.value, c.content.value))
    else st.synced
  }

  predicate Can<V, D>(st: Spot<V, D>, m: Move<V>) { m.Own? ==> Enabled(st.dev, m.event) }

  function Take<V, D(==)>(p: Keys<V, D>, st: Spot<V, D>, m: Move<V>): Spot<V, D>
    requires Can(st, m)
  {
    match m
    case Own(e) => Spot(NextCloud(st.cloud, st.dev, e), Next(p, st.cloud, st.dev, e), Track(p, st, e))
    case Other(value) => st.(cloud := Cloud(st.cloud.version + 1, Current(value)))
  }

  predicate Goes<V, D(==)>(p: Keys<V, D>, st: Spot<V, D>, ms: seq<Move<V>>)
    decreases |ms|
  {
    ms == [] || (Can(st, ms[0]) && Goes(p, Take(p, st, ms[0]), ms[1..]))
  }

  function End<V, D(==)>(p: Keys<V, D>, st: Spot<V, D>, ms: seq<Move<V>>): Spot<V, D>
    requires Goes(p, st, ms)
    decreases |ms|
  {
    if ms == [] then st else End(p, Take(p, st, ms[0]), ms[1..])
  }

  lemma GoesOn<V, D>(p: Keys<V, D>, st: Spot<V, D>, m: Move<V>, ms: seq<Move<V>>)
    requires Can(st, m) && Goes(p, Take(p, st, m), ms)
    ensures Goes(p, st, [m] + ms) && End(p, st, [m] + ms) == End(p, Take(p, st, m), ms)
  {
    assert ([m] + ms)[1..] == ms;
  }

  /** The device itself is not edited. */
  predicate Unedited<V>(ms: seq<Move<V>>) { forall i :: 0 <= i < |ms| ==> !(ms[i].Own? && ms[i].event.Edit?) }

  /** The call writes the device's own set as it stands. */
  ghost predicate Uploads<V, D>(c: Cloud<V>, dev: Device<V, D>, e: Event<V>) {
    Writes(c, dev, e) && (e.PutAgain? ==> dev.phase.exported == dev.local)
  }

  ghost predicate UploadsBy<V, D>(st: Spot<V, D>, m: Move<V>) { m.Own? && Uploads(st.cloud, st.dev, m.event) }

  /** Some move of the run uploads the set the device has by then. */
  ghost predicate UploadsIn<V, D>(p: Keys<V, D>, st: Spot<V, D>, ms: seq<Move<V>>)
    requires Goes(p, st, ms)
    decreases |ms|
  {
    ms != [] && (UploadsBy(st, ms[0]) || UploadsIn(p, Take(p, st, ms[0]), ms[1..]))
  }

  predicate ValidSpot<V, D>(st: Spot<V, D>) {
    && (st.cloud.content.Absent? <==> st.cloud.version == 0) && st.dev.version <= st.cloud.version
    && (st.dev.phase.Pulling? ==> st.cloud.version > 0)
    && (st.dev.phase.Retrying? ==> st.dev.phase.cur <= st.cloud.version)
  }

  // ----- what is promised -----

  /** The device has nothing of its own left to push. */
  predicate AtRest<V, D(==)>(p: Keys<V, D>, dev: Device<V, D>) {
    p.digest(dev.local) == dev.digest && (dev.phase.Idle? || dev.phase == Pulling(false))
  }

  /** Its set is, by its digest, the one that the recorded digest was recorded for. */
  predicate Accounted<V, D(==)>(p: Keys<V, D>, st: Spot<V, D>) {
    st.synced.Some? && p.digest(st.synced.value) == p.digest(st.dev.local)
  }

  ghost predicate Broken<V, D>(p: Keys<V, D>, st: Spot<V, D>, ms: seq<Move<V>>) {
    && Goes(p, st, ms) && Unedited(ms)
    && AtRest(p, End(p, st, ms).dev) && !UploadsIn(p, st, ms) && !Accounted(p, End(p, st, ms))
  }

  /** Whatever the device and the others go on to do, a device at rest has uploaded its set in
      the meantime, or has the very set its record stands for. */
  ghost predicate Kept<V(!new), D>(p: Keys<V, D>, st: Spot<V, D>) { forall ms :: !Broken(p, st, ms) }

  // ----- when it holds -----

  function MergeAll<V, D>(p: Keys<V, D>, v: V, vs: seq<V>): V {
    if vs == [] then v else MergeAll(p, p.merge(v, vs[0]), vs[1..])
  }

  /** Merging turns the set, as it is or after some imports, into one with the digest. */
  ghost predicate Reaches<V(!new), D>(p: Keys<V, D>, v: V, dig: D) { exists vs :: p.digest(MergeAll(p, v, vs)) == dig }

  /** Whatever is merged into both, they have one digest then. */
  ghost predicate Alike<V(!new), D>(p: Keys<V, D>, a: V, b: V) {
    forall x :: p.digest(p.merge(a, x)) == p.digest(p.merge(b, x))
  }

  /** The recorded digest is that of another set than the one it was recorded for, and the
      device's set has it or may come to have it. */
  ghost predicate Misrecorded<V(!new), D>(p: Keys<V, D>, st: Spot<V, D>) {
    && !(st.synced.Some? && p.digest(st.synced.value) == st.dev.digest)
    && Reaches(p, st.dev.local, st.dev.digest)
  }

  /** A pass that only pulls is about to record the digest of a set it does not push. */
  ghost predicate PulledUnder<V(!new), D>(p: Keys<V, D>, st: Spot<V, D>) {
    st.dev.phase == Pulling(false) && !(st.synced.Some? && Alike(p, st.synced.value, st.dev.local))
  }

  /** A retry that can still succeed is about to record, for another set than the device's, a
      digest that is not that other set's, but is or may come to be the device's. */
  ghost predicate RetriedOver<V(!new), D>(p: Keys<V, D>, st: Spot<V, D>) {
    var ph := st.dev.phase;
    && ph.Retrying? && ph.cur == st.cloud.version && ph.exported != st.dev.local
    && p.digest(ph.exported) != ph.dig && Reaches(p, st.dev.local, ph.dig)
  }

  ghost predicate Swallowed<V(!new), D>(p: Keys<V, D>, st: Spot<V, D>) {
    Misrecorded(p, st) || PulledUnder(p, st) || RetriedOver(p, st)
  }

  /** Sets with one digest merge into sets with one digest. */
  ghost predicate Congruent<V(!new), D>(p: Keys<V, D>) {
    forall a, b :: p.digest(a) == p.digest(b) ==> Alike(p, a, b)
  }

  lemma ReachesItself<V(!new), D>(p: Keys<V, D>, v: V)
    ensures Reaches(p, v, p.digest(v))
  {
    assert MergeAll(p, v, []) == v;
  }

  lemma ReachesThrough<V(!new), D>(p: Keys<V, D>, v: V, x: V, dig: D)
    requires Reaches(p, p.merge(v, x), dig)
    ensures Reaches(p, v, dig)
  {
    var vs :| p.digest(MergeAll(p, p.merge(v, x), vs)) == dig;
    assert ([x] + vs)[1..] == vs;
    assert MergeAll(p, v, [x] + vs) == MergeAll(p, p.merge(v, x), vs);
  }

  /** An event that uploads nothing does not bring the device into danger. */
  lemma StaysSafe<V(!new), D>(p: Keys<V, D>, st: Spot<V, D>, m: Move<V>)
    requires Congruent(p) && ValidSpot(st) && Can(st, m) && !(m.Own? && m.event.Edit?)
    requires !Swallowed(p, st) && !UploadsBy(st, m)
    ensures ValidSpot(Take(p, st, m)) && !Swallowed(p, Take(p, st, m))
  {
    var v := st.dev.local;
    ReachesItself(p, v);
    if m == Own(Pull) && st.cloud.content.Current? {
      var x := st.cloud.content.value;
      if Reaches(p, p.merge(v, x), st.dev.digest) { ReachesThrough(p, v, x, st.dev.digest); }
      if st.synced.Some? && Alike(p, st.synced.value, v) {
        assert p.digest(p.merge(st.synced.value, x)) == p.digest(p.merge(v, x));
      }
    }
  }

  lemma {:induction false} SafeIsKept<V(!new), D>(p: Keys<V, D>, st: Spot<V, D>, ms: seq<Move<V>>)
    requires Congruent(p) && ValidSpot(st) && !Swallowed(p, st)
    ensures !Broken(p, st, ms)
    decreases |ms|
  {
    if Broken(p, st, ms) {
      if ms == [] {
        ReachesItself(p, st.dev.local);
        assert Misrecorded(p, st);
      } else {
        StaysSafe(p, st, ms[0]);
        SafeIsKept(p, Take(p, st, ms[0]), ms[1..]);
      }
    }
  }

  // ----- when it does not -----

  /** The device settles for good on a set that it has not uploaded. */
  ghost predicate Loses<V, D>(p: Keys<V, D>, st: Spot<V, D>, ms: seq<Move<V>>) {
    Broken(p, st, ms) && Settled(p, End(p, st, ms).cloud, End(p, st, ms).dev)
  }

  lemma LosesLater<V(!new), D>(p: Keys<V, D>, st: Spot<V, D>, m: Move<V>, ms: seq<Move<V>>) returns (all: seq<Move<V>>)
    requires Can(st, m) && !(m.Own? && m.event.Edit?) && !UploadsBy(st, m) && Loses(p, Take(p, st, m), ms)
    ensures Loses(p, st, all)
  {
    all := [m] + ms;
    assert all[1..] == ms;
  }

  /** Imports take the set back to the misrecorded digest, and no push of it ever succeeds. */
  lemma {:induction false} LosesIdle<V(!new), D>(p: Keys<V, D>, st: Spot<V, D>, vs: seq<V>) returns (ms: seq<Move<V>>)
    requires ValidSpot(st) && st.dev.phase.Idle? && p.digest(MergeAll(p, st.dev.local, vs)) == st.dev.digest
    requires !(st.synced.Some? && p.digest(st.synced.value) == st.dev.digest)
    ensures Loses(p, st, ms)
    decreases |vs|
  {
    if p.digest(st.dev.local) == st.dev.digest {
      ms := [];
      if st.cloud.content.Old? {
        assert Loses(p, Take(p, st, Other(st.dev.local)), []);
        ms := LosesLater(p, st, Other(st.dev.local), []);
      }
    } else {
      var s1 := Take(p, st, Other(vs[0]));
      var s2 := Take(p, s1, Own(Begin));
      var s3 := Take(p, s2, Own(Pull));
      ms := LosesIdle(p, Take(p, s3, Own(Fail)), vs[1..]);
      ms := LosesLater(p, s3, Own(Fail), ms);
      ms := LosesLater(p, s2, Own(Pull), ms);
      ms := LosesLater(p, s1, Own(Begin), ms);
      ms := LosesLater(p, st, Other(vs[0]), ms);
    }
  }

  lemma MisrecordedLoses<V(!new), D>(p: Keys<V, D>, st: Spot<V, D>) returns (ms: seq<Move<V>>)
    requires ValidSpot(st) && Misrecorded(p, st)
    ensures Loses(p, st, ms)
  {
    var vs :| p.digest(MergeAll(p, st.dev.local, vs)) == st.dev.digest;
    if st.dev.phase.Idle? {
      ms := LosesIdle(p, st, vs);
    } else {
      ms := LosesIdle(p, Take(p, st, Own(Fail)), vs);
      ms := LosesLater(p, st, Own(Fail), ms);
    }
  }

  lemma PulledUnderLoses<V(!new), D>(p: Keys<V, D>, st: Spot<V, D>) returns (ms: seq<Move<V>>)
    requires ValidSpot(st) && PulledUnder(p, st)
    ensures Loses(p, st, ms)
  {
    var x := st.dev.local;
    if st.synced.Some? {
      x :| p.digest(p.merge(st.synced.value, x)) != p.digest(p.merge(st.dev.local, x));
    }
    var s1 := Take(p, st, Other(x));
    assert Loses(p, Take(p, s1, Own(Pull)), []);
    ms := LosesLater(p, s1, Own(Pull), []);
    ms := LosesLater(p, st, Other(x), ms);
  }

  lemma RetriedOverLoses<V(!new), D>(p: Keys<V, D>, st: Spot<V, D>) returns (ms: seq<Move<V>>)
    requires ValidSpot(st) && RetriedOver(p, st)
    ensures Loses(p, st, ms)
  {
    var vs :| p.digest(MergeAll(p, st.dev.local, vs)) == st.dev.phase.dig;
    ms := LosesIdle(p, Take(p, st, Own(PutAgain)), vs);
    ms := LosesLater(p, st, Own(PutAgain), ms);
  }

  function WithEdit<V, D>(st: Spot<V, D>, edited: V): Spot<V, D> { st.(dev := st.dev.(local := edited)) }

  /** Every edit, at any moment and to any set, is kept whatever the device and the others go on
      to do, exactly when it is made at none of three moments; and at each of these it may be
      lost for good. */
  lemma EditKeptExact<V(!new), D>(p: Keys<V, D>, st: Spot<V, D>, edited: V)
    requires Congruent(p) && ValidSpot(st)
    ensures Kept(p, WithEdit(st, edited)) <==> !Swallowed(p, WithEdit(st, edited))
    ensures Swallowed(p, WithEdit(st, edited)) ==> exists ms :: Loses(p, WithEdit(st, edited), ms)
  {
    var st1 := WithEdit(st, edited);
    if Misrecorded(p, st1) {
      var ms := MisrecordedLoses(p, st1);
    } else if PulledUnder(p, st1) {
      var ms := PulledUnderLoses(p, st1);
    } else if RetriedOver(p, st1) {
      var ms := RetriedOverLoses(p, st1);
    } else {
      forall ms ensures !Broken(p, st1, ms) {
        SafeIsKept(p, st1, ms);
      }
    }
  }

  // ----- the three moments -----

  /** During a pass that only pulls: the edited set's digest is recorded without an upload. */
  lemma EditDuringPullIsSwallowed<V, D>(p: Keys<V, D>, c: Cloud<V>, dev: Device<V, D>, edited: V)
    requires c.content.Current? && dev.phase.Pulling? && !dev.phase.changed
    ensures var d1 := Next(p, c, dev, Edit(edited));
      var d2 := Next(p, c, d1, Pull);
      d2.local == p.merge(edited, c.content.value) && Settled(p, c, d2) && Plan(p, c, d2).Idle?
  {
  }

  /** A push whose retry is due is left with the digest of one set and the bytes of another, if
      an edit comes between the two; a second edit back to the first set is then recorded as
      synced while the blob holds the other. */
  lemma EditBackDuringRetryIsSwallowed<V, D>(p: Keys<V, D>, c: Cloud<V>, dev: Device<V, D>, other: V)
    requires c.version > 0 && c.version == dev.version && dev.phase.Idle? && p.digest(dev.local) != dev.digest
    ensures var d1 := Next(p, c, dev, Begin);
      var d2 := Next(p, c, d1, Edit(other));
      && Enabled(d2, Put) && !Writes(c, d2, Put)
      && var d3 := Next(p, c, d2, Put);
      var d4 := Next(p, c, d3, Edit(dev.local));
      && Enabled(d4, PutAgain) && Writes(c, d4, PutAgain)
      && var c5, d5 := NextCloud(c, d4, PutAgain), Next(p, c, d4, PutAgain);
      && c5.content == Current(other) && d5.local == dev.local && Settled(p, c5, d5) && Plan(p, c5, d5).Idle?
  {
  }

  /** The calls of a push from Idle, with an edit between its digest and its export. */
  function EditedPush<V>(c: Cloud<V>, other: V): seq<Move<V>> {
    [Own(Begin)] + ([Own(Edit(other))] + ([Own(Put)] + if c.version == 0 then [] else [Own(PutAgain)]))
  }

  lemma EditedPushGoes<V, D>(p: Keys<V, D>, st: Spot<V, D>, other: V)
    requires st.cloud.version == 0 || st.cloud.version == st.dev.version
    requires st.dev.phase.Idle? && p.digest(st.dev.local) != st.dev.digest
    ensures Goes(p, st, EditedPush(st.cloud, other))
    ensures var n := st.cloud.version + 1;
      End(p, st, EditedPush(st.cloud, other))
        == Spot(Cloud(n, Current(other)), Device(other, n, p.digest(st.dev.local), Idle), Some(other))
  {
    var s1 := Take(p, st, Own(Begin));
    var s2 := Take(p, s1, Own(Edit(other)));
    var s3 := Take(p, s2, Own(Put));
    var rest: seq<Move<V>> := if st.cloud.version == 0 then [] else [Own(PutAgain)];
    if st.cloud.version != 0 {
      GoesOn(p, s3, Own(PutAgain), []);
      assert rest + [] == rest;
    }
    GoesOn(p, s2, Own(Put), rest);
    GoesOn(p, s1, Own(Edit(other)), [Own(Put)] + rest);
    GoesOn(p, st, Own(Begin), [Own(Edit(other))] + ([Own(Put)] + rest));
  }

  /** At any time after such a push, an edit back to the set whose digest the push took: the
      device takes itself to be up to date, the blob holds the other set, and this one was never
      uploaded. */
  lemma EditBackAfterPushIsSwallowed<V, D>(p: Keys<V, D>, st: Spot<V, D>, other: V)
    requires st.cloud.version == 0 || st.cloud.version == st.dev.version
    requires st.dev.phase.Idle? && p.digest(st.dev.local) != st.dev.digest && p.digest(other) != p.digest(st.dev.local)
    ensures Goes(p, st, EditedPush(st.cloud, other))
    ensures var s1 := WithEdit(End(p, st, EditedPush(st.cloud, other)), st.dev.local);
      && s1.cloud.content == Current(other) && s1.dev.local == st.dev.local
      && Settled(p, s1.cloud, s1.dev) && Plan(p, s1.cloud, s1.dev).Idle? && !Accounted(p, s1)
  {
    EditedPushGoes(p, st, other);
  }

  // ----- runs of N devices -----

  predicate NoEditsBy<V>(es: seq<(nat, Event<V>)>, d: nat) {
    forall i :: 0 <= i < |es| && es[i].0 == d ==> !es[i].1.Edit?
  }

  /** What d's recorded digest stands for after n events, if it stood for `synced` at first. */
  ghost function SyncedBy<V, D>(p: Keys<V, D>, ws: seq<World<V, D>>, es: seq<(nat, Event<V>)>, d: nat,
                                synced: Option<V>, n: nat): Option<V>
    requires n <= |es| && |ws| == |es| + 1 && forall i :: 0 <= i < |ws| ==> d < |ws[i].devices|
  {
    if n == 0 then synced
    else
      var before := SyncedBy(p, ws, es, d, synced, n - 1);
      if es[n - 1].0 == d then Track(p, Spot(ws[n - 1].cloud, ws[n - 1].devices[d], before), es[n - 1].1) else before
  }

  /** Device d uploads its set at some of the first n calls. */
  ghost predicate Uploaded<V, D>(ws: seq<World<V, D>>, es: seq<(nat, Event<V>)>, d: nat, n: nat)
    requires n <= |es| && |ws| == |es| + 1
  {
    exists i :: 0 <= i < n && es[i].0 == d && d < |ws[i].devices| && Uploads(ws[i].cloud, ws[i].devices[d], es[i].1)
  }

  lemma {:induction false} StaysSafeIn<V(!new), D>(p: Keys<V, D>, ws: seq<World<V, D>>, es: seq<(nat, Event<V>)>,
                                                   d: nat, synced: Option<V>, n: nat)
    requires Congruent(p) && Run(p, ws, es) && Valid(ws[0]) && NoEditsBy(es, d) && n <= |es|
    requires forall i :: 0 <= i < |ws| ==> d < |ws[i].devices|
    requires !Swallowed(p, Spot(ws[0].cloud, ws[0].devices[d], synced)) && !Uploaded(ws, es, d, n)
    ensures !Swallowed(p, Spot(ws[n].cloud, ws[n].devices[d], SyncedBy(p, ws, es, d, synced, n)))
  {
    if n > 0 {
      StaysSafeIn(p, ws, es, d, synced, n - 1);
      RunValid(p, ws, es, n - 1);
      var w, e := ws[n - 1], es[n - 1];
      var st := Spot(w.cloud, w.devices[d], SyncedBy(p, ws, es, d, synced, n - 1));
      assert Step(p, w, e.0, e.1, ws[n]);
      if e.0 == d {
        StaysSafe(p, st, Own(e.1));
      } else if Writes(w.cloud, w.devices[e.0], e.1) {
        StaysSafe(p, st, Other(ws[n].cloud.content.value));
      }
    }
  }

  /** In every run of N devices in which d is not edited again, d at rest has uploaded its set
      since, or has the very set its record stands for, unless the edit was made at one of the
      three moments. */
  lemma EditKeptInRuns<V(!new), D>(p: Keys<V,
                         D>, ws: seq<World<V, D>>, es: seq<(nat, Event<V>)>, d: nat, synced: Option<V>)
    requires Congruent(p) && Run(p, ws, es) && Valid(ws[0]) && NoEditsBy(es, d)
    requires forall i :: 0 <= i < |ws| ==> d < |ws[i].devices|
    requires !Swallowed(p, Spot(ws[0].cloud, ws[0].devices[d], synced)) && AtRest(p, ws[|es|].devices[d])
    ensures || Uploaded(ws, es, d, |es|)
            || Accounted(p, Spot(ws[|es|].cloud, ws[|es|].devices[d], SyncedBy(p, ws, es, d, synced, |es|)))
  {
    if !Uploaded(ws, es, d, |es|) {
      StaysSafeIn(p, ws, es, d, synced, |es|);
      ReachesItself(p, ws[|es|].devices[d].local);
    }
  }

  // ----- what reaches the blob -----

  /** The digests a device may hold as recorded without having uploaded the set it has now: the
      one it recorded, and the one that a retry of another set is about to record. */
  ghost function Spoken<V, D>(c: Cloud<V>, dev: Device<V, D>): set<D> {
    {dev.digest} + if dev.phase.Retrying? && dev.phase.cur == c.version && dev.phase.exported != dev.local then
      {dev.phase.dig} else {}
  }

  /** No set that holds everything in this one has such a digest. */
  ghost predicate NewForGood<V(!new), D>(p: Keys<V, D>, below: (V, V) -> bool, c: Cloud<V>, dev: Device<V, D>) {
    forall v :: below(dev.local, v) ==> p.digest(v) !in Spoken(c, dev)
  }

  /** No pass is about to write the set down as synced without uploading it. */
  ghost predicate Unrecorded<V, D>(c: Cloud<V>, dev: Device<V, D>, spoken: set<D>) {
    && dev.digest in spoken && dev.phase != Pulling(false)
    && (dev.phase.Retrying? ==>
          dev.phase.exported == dev.local || dev.phase.dig in spoken || dev.phase.cur < c.version)
  }

  lemma UnrecordedStep<V(!new), D>(p: Keys<V, D>, below: (V, V) -> bool, w: World<V, D>, e: (nat,
                         Event<V>), w': World<V, D>,
                                   d: nat, spoken: set<D>)
    requires NonDestructive(p, below) && Step(p, w, e.0, e.1, w') && d < |w.devices| && (e.0 == d ==> !e.1.Edit?)
    requires p.digest(w.devices[d].local) !in spoken && Unrecorded(w.cloud, w.devices[d], spoken)
    requires e.0 == d ==> !Uploads(w.cloud, w.devices[d], e.1)
    ensures d < |w'.devices| && Unrecorded(w'.cloud, w'.devices[d], spoken)
    ensures below(w.devices[d].local, w'.devices[d].local)
  {
  }

  lemma {:induction false} OnlyGrows<V(!new), D>(p: Keys<V, D>, below: (V, V) -> bool, ws: seq<World<V, D>>,
                                                 es: seq<(nat, Event<V>)>, d: nat, n: nat)
    requires NonDestructive(p, below) && Run(p, ws, es) && NoEditsBy(es, d) && n <= |es| && d < |ws[0].devices|
    ensures d < |ws[n].devices| && below(ws[0].devices[d].local, ws[n].devices[d].local)
  {
    if n > 0 {
      OnlyGrows(p, below, ws, es, d, n - 1);
      assert Step(p, ws[n - 1], es[n - 1].0, es[n - 1].1, ws[n]);
    }
  }

  lemma {:induction false} StaysUnrecorded<V(!new), D>(p: Keys<V, D>, below: (V, V) -> bool, ws: seq<World<V, D>>,
                                                       es: seq<(nat, Event<V>)>, d: nat, n: nat)
    requires NonDestructive(p, below) && Run(p, ws, es) && Valid(ws[0]) && NoEditsBy(es, d) && n <= |es|
    requires d < |ws[0].devices|
    requires NewForGood(p, below, ws[0].cloud, ws[0].devices[d]) && ws[0].devices[d].phase != Pulling(false)
    requires !Uploaded(ws, es, d, n)
    ensures d < |ws[n].devices| && Unrecorded(ws[n].cloud, ws[n].devices[d], Spoken(ws[0].cloud, ws[0].devices[d]))
  {
    if n > 0 {
      StaysUnrecorded(p, below, ws, es, d, n - 1);
      OnlyGrows(p, below, ws, es, d, n - 1);
      UnrecordedStep(p, below, ws[n - 1], es[n - 1], ws[n], d, Spoken(ws[0].cloud, ws[0].devices[d]));
    }
  }

  /** Where importing is non-destructive, and an edit leaves a set that no import takes back to a
      recorded one, a device at rest at the end of any run has put a set into the blob that holds
      everything it had after the edit, unless the edit fell into a pass that only pulls. */
  lemma EditReachesBlob<V(!new), D>(p: Keys<V, D>, below: (V,
                          V) -> bool, ws: seq<World<V, D>>, es: seq<(nat, Event<V>)>, d: nat)
    requires NonDestructive(p, below) && Run(p, ws, es) && Valid(ws[0]) && NoEditsBy(es, d) && d < |ws[0].devices|
    requires NewForGood(p, below, ws[0].cloud, ws[0].devices[d]) && ws[0].devices[d].phase != Pulling(false)
    requires d < |ws[|es|].devices| && AtRest(p, ws[|es|].devices[d])
    ensures exists i :: 0 <= i < |es| && es[i].0 == d && d < |ws[i].devices|
              && Writes(ws[i].cloud, ws[i].devices[d], es[i].1)
              && ws[i + 1].cloud.content.Current? && below(ws[0].devices[d].local, ws[i + 1].cloud.content.value)
  {
    if !Uploaded(ws, es, d, |es|) {
      StaysUnrecorded(p, below, ws, es, d, |es|);
      OnlyGrows(p, below, ws, es, d, |es|);
    }
    var i :| 0 <= i < |es| && es[i].0 == d && d < |ws[i].devices| && Uploads(ws[i].cloud, ws[i].devices[d], es[i].1);
    OnlyGrows(p, below, ws, es, d, i);
    assert Step(p, ws[i], d, es[i].1, ws[i + 1]);
    assert ws[i + 1].cloud.content == Current(ws[i].devices[d].local);
  }
}
