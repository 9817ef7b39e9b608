/** Animated lock QR: splitting a lock into frames and collecting them again. */
module QrFrames {
  import opened Wrappers
  import opened Bytes

  datatype Frame = Frame(version: int, bid: Bytes, index: int, total: int, data: Bytes)

  const FRAME_VERSION := 1
  const CHUNK_SIZE := 256

  datatype Progress = Progress(received: nat, total: nat)

  datatype AddError = NotFrame | UnsupportedVersion | MissingBundleID | BadTotal | BadIndex | NoData
    | TotalConflict | DataConflict

  datatype AddResult = Added(progress: Progress) | Rejected(error: AddError)

  /** The collector's fields. */
  datatype Collected = Collected(bid: Bytes, total: int, chunks: map<int, Bytes>)

  const EMPTY := Collected([], 0, map[])

  /** The checks a payload must pass before the collector is consulted; None is a
      payload that is not frame JSON. */
  function Precheck(p: Option<Frame>): Option<AddError> {
    if p.None? || p.value.version == 0 then Some(NotFrame)
    else if p.value.version != FRAME_VERSION then Some(UnsupportedVersion)
    else if p.value.bid == [] then Some(MissingBundleID)
    else if p.value.total < 1 then Some(BadTotal)
    else if p.value.index < 1 || p.value.index > p.value.total then Some(BadIndex)
    else if p.value.data == [] then Some(NoData)
    else None
  }

  /** The state a well-formed frame meets: its own bundle's, or a fresh one. */
  function Adopt(s: Collected, f: Frame): Collected {
    if s.bid == f.bid then s else Collected(f.bid, f.total, map[])
  }

  /** What Add makes of a payload. */
  function Ingest(s: Collected, p: Option<Frame>): (AddResult, Collected) {
    var bad := Precheck(p);
    if bad.Some? then (Rejected(bad.value), s)
    else
      var f := p.value;
      var t := Adopt(s, f);
      if f.total != t.total then (Rejected(TotalConflict), t)
      else if f.index in t.chunks && t.chunks[f.index] != f.data then (Rejected(DataConflict), t)
      else
        var u := t.(chunks := t.chunks[f.index := f.data]);
        (Added(Progress(|u.chunks|, if u.total < 0 then 0 else u.total)), u)
  }

  ghost predicate Valid(s: Collected) {
    && (s.bid == [] ==> s == EMPTY)
    && (s.bid != [] ==> s.total >= 1)
    && forall k :: k in s.chunks ==> 1 <= k <= s.total && s.chunks[k] != []
  }

  lemma AddValid(s: Collected, p: Option<Frame>)
    requires Valid(s)
    ensures Valid(Ingest(s, p).1)
    ensures Ingest(s, p).0.Rejected? ==> Ingest(s, p).1 == s
  {
  }

  /** A frame of this version that names its bundle and its place in it, and has data. */
  predicate WellFormed(p: Option<Frame>) {
    && p.Some? && p.value.version == 1 && p.value.bid != [] && 1 <= p.value.index <= p.value.total && p.value.data != []
  }

  /** It belongs to the bundle being collected. */
  predicate SameBundle(s: Collected, f: Frame) { s.bid == f.bid }

  /** It says nothing else about that bundle than the frames before it. */
  predicate Consistent(s: Collected, f: Frame) {
    f.total == s.total && (f.index in s.chunks ==> s.chunks[f.index] == f.data)
  }

  /** Which payloads are accepted: the well-formed frames of another bundle, and those of this one
      that are consistent with it. The former start a collection anew, the latter add to it. */
  lemma AddExact(s: Collected, p: Option<Frame>)
    requires Valid(s)
    ensures var (r, s') := Ingest(s, p);
      && (r.Added? <==> WellFormed(p) && (SameBundle(s, p.value) ==> Consistent(s, p.value)))
      && (r.Added? ==>
            && s'.bid == p.value.bid && s'.total == p.value.total && r.progress == Progress(|s'.chunks|, s'.total)
            && s'.chunks == if SameBundle(s, p.value) then s.chunks[p.value.index := p.value.data]
                            else map[p.value.index := p.value.data])
  {
  }

  /** And why the others are not: the first of these that applies. */
  lemma RejectExact(s: Collected, p: Option<Frame>)
    requires Valid(s) && Ingest(s, p).0.Rejected?
    ensures match Ingest(s, p).0.error
            case NotFrame => p.None? || p.value.version == 0
            case UnsupportedVersion => p.Some? && p.value.version !in {0, 1}
            case MissingBundleID => p.Some? && p.value.version == 1 && p.value.bid == []
            case BadTotal => p.Some? && p.value.version == 1 && p.value.bid != [] && p.value.total <= 0
            case BadIndex => p.Some? && p.value.version == 1 && p.value.bid != [] && 0 < p.value.total
                             && !(1 <= p.value.index <= p.value.total)
            case NoData => p.Some? && p.value.version == 1 && p.value.bid != [] && 1 <= p.value.index <= p.value.total
                           && p.value.data == []
            case TotalConflict => WellFormed(p) && SameBundle(s, p.value) && p.value.total != s.total
            case DataConflict => WellFormed(p) && SameBundle(s, p.value) && p.value.total == s.total
                                 && p.value.index in s.chunks && p.value.data != s.chunks[p.value.index]
  {
  }

  // ----- completeness by counting -----

  /** The indices 1..n. */
  function Range(n: nat): (r: set<int>)
    ensures forall k :: k in r <==> 1 <= k <= n
  {
    if n == 0 then {} else Range(n - 1) + {n}
  }

  lemma {:induction false} RangeSize(n: nat)
    ensures |Range(n)| == n
  {
    if n > 0 {
      RangeSize(n - 1);
    }
  }

  lemma {:induction false} SubsetSize<T>(a: set<T>, b: set<T>)
    requires a <= b
    ensures |a| <= |b|
    ensures |a| == |b| ==> a == b
    decreases |a|
  {
    if a != {} {
      var x :| x in a;
      SubsetSize(a - {x}, b - {x});
      assert a == (a - {x}) + {x} && b == (b - {x}) + {x};
    }
  }

  predicate Complete(s: Collected) { s.total > 0 && |s.chunks| == s.total }

  /** Counting suffices: as many chunks as the total means every index 1..total. */
  lemma CompleteHasEveryIndex(s: Collected)
    requires Valid(s)
    ensures Complete(s) <==> s.total > 0 && s.chunks.Keys == Range(s.total)
  {
    if s.total > 0 {
      RangeSize(s.total);
      assert s.chunks.Keys <= Range(s.total);
      assert |s.chunks| == |s.chunks.Keys|;
      if Complete(s) {
        SubsetSize(s.chunks.Keys, Range(s.total));
      }
    }
  }

  // ----- what the collector holds after any sequence of scans -----

  function After(fs: seq<Option<Frame>>, n: nat): Collected
    requires n <= |fs|
  {
    if n == 0 then EMPTY else Ingest(After(fs, n - 1), fs[n - 1]).1
  }

  predicate Accepted(fs: seq<Option<Frame>>, i: nat)
    requires i < |fs|
  {
    Ingest(After(fs, i), fs[i]).0.Added?
  }

  /** The scan that last changed the bundle ID. */
  function Restart(fs: seq<Option<Frame>>, n: nat): (r: nat)
    requires n <= |fs|
    ensures r <= n
  {
    if n == 0 then 0
    else if After(fs, n).bid != After(fs, n - 1).bid then n - 1
    else Restart(fs, n - 1)
  }

  /** Scan i contributed chunk k to the current bundle. */
  predicate Contributed(fs: seq<Option<Frame>>, n: nat, i: int, k: int)
    requires n <= |fs|
  {
    Restart(fs, n) <= i < n && Accepted(fs, i) && fs[i].Some? && fs[i].value.index == k
  }

  lemma {:induction false} AfterValid(fs: seq<Option<Frame>>, n: nat)
    requires n <= |fs|
    ensures Valid(After(fs, n))
  {
    if n > 0 {
      AfterValid(fs, n - 1);
      AddValid(After(fs, n - 1), fs[n - 1]);
    }
  }

  /** One more scan: what counts as contributed afterwards. */
  lemma ContributedStep(fs: seq<Option<Frame>>, n: nat, i: int, k: int)
    requires 0 < n <= |fs|
    ensures Contributed(fs, n, i, k) <==>
            || (After(fs, n).bid == After(fs, n - 1).bid && Contributed(fs, n - 1, i, k))
            || (i == n - 1 && Accepted(fs, n - 1) && fs[n - 1].Some? && fs[n - 1].value.index == k)
  {
  }

  /** One more scan: what the collector holds afterwards. */
  lemma HeldStep(s: Collected, p: Option<Frame>, k: int)
    requires Valid(s)
    ensures var r, s' := Ingest(s, p).0, Ingest(s, p).1;
            && (r.Rejected? ==> s' == s)
            && (r.Added? ==> p.Some? && s'.bid == p.value.bid && s'.total == p.value.total)
            && (s'.bid == s.bid ==> s'.total == s.total)
            && (k in s'.chunks <==> (s'.bid == s.bid && k in s.chunks) || (r.Added? && p.value.index == k))
            && (s'.bid == s.bid && k in s.chunks ==> s'.chunks[k] == s.chunks[k])
            && (r.Added? && p.value.index == k ==> s'.chunks[k] == p.value.data)
  {
  }

  /** The collector holds exactly the chunks accepted since the last change of
      bundle ID, and everything accepted for one index agreed. */
  lemma {:induction false} HoldsAcceptedChunks(fs: seq<Option<Frame>>, n: nat, k: int)
    requires n <= |fs|
    ensures k in After(fs, n).chunks <==> exists i :: Contributed(fs, n, i, k)
    ensures forall i :: Contributed(fs, n, i, k) ==> Agrees(fs, n, i, k)
  {
    if n > 0 {
      HoldsAcceptedChunks(fs, n - 1, k);
      AfterValid(fs, n - 1);
      HeldStep(After(fs, n - 1), fs[n - 1], k);
      var same := After(fs, n).bid == After(fs, n - 1).bid;
      forall i | Contributed(fs, n, i, k) ensures Agrees(fs, n, i, k) {
        ContributedStep(fs, n, i, k);
      }
      if k in After(fs, n).chunks {
        if same && k in After(fs, n - 1).chunks {
          var i :| Contributed(fs, n - 1, i, k);
          ContributedStep(fs, n, i, k);
        } else {
          ContributedStep(fs, n, n - 1, k);
        }
      }
    }
  }

  predicate Agrees(fs: seq<Option<Frame>>, n: nat, i: int, k: int)
    requires n <= |fs| && Contributed(fs, n, i, k)
  {
    var s := After(fs, n);
    k in s.chunks && fs[i].value.data == s.chunks[k] && fs[i].value.bid == s.bid && fs[i].value.total == s.total
  }

  // ----- the collector object -----

  /** JSON of a lock, and the ID hashed from it. */
  datatype Codec<!L> = Codec(marshal: L -> Option<Bytes>, parse: Bytes -> Option<L>, bundleID: Bytes -> Bytes)

  function BundleID<L>(c: Codec<L>, lock: L): Option<Bytes> {
    var data := c.marshal(lock);
    if data.None? then None else Some(c.bundleID(data.value))
  }

  /** The chunks 1..n in order. */
  function Joined(chunks: map<int, Bytes>, n: nat): Bytes {
    if n == 0 then [] else Joined(chunks, n - 1) + (if n in chunks then chunks[n] else [])
  }

  /** Bundle */
  function Bundle<L>(c: Codec<L>, s: Collected): Option<L> {
    if !Complete(s) then None
    else
      var lock := c.parse(Joined(s.chunks, s.total));
      if lock.None? || BundleID(c, lock.value) != Some(s.bid) then None else lock
  }

  class FrameCollector<L> {
    var bid: Bytes
    var total: int
    var chunks: map<int, Bytes>

    ghost function State(): Collected
      reads this
    {
      Collected(bid, total, chunks)
    }

    constructor ()
      ensures State() == EMPTY
    {
      bid, total, chunks := [], 0, map[];
    }

    /** Add */
    method Add(p: Option<Frame>) returns (r: AddResult)
      requires Valid(State())
      modifies this
      ensures (r, State()) == Ingest(old(State()), p)
      ensures Valid(State()) && (r.Rejected? ==> State() == old(State()))
    {
      AddValid(State(), p);
      if p.None? || p.value.version == 0 { return Rejected(NotFrame); }
      var f := p.value;
      if f.version != FRAME_VERSION { return Rejected(UnsupportedVersion); }
      if f.bid == [] { return Rejected(MissingBundleID); }
      if f.total < 1 { return Rejected(BadTotal); }
      if f.index < 1 || f.index > f.total { return Rejected(BadIndex); }
      if f.data == [] { return Rejected(NoData); }
      if bid != [] && bid != f.bid {
        Reset();
      }
      if bid == [] {
        bid, total := f.bid, f.total;
      }
      if f.total != total { return Rejected(TotalConflict); }
      if f.index in chunks && chunks[f.index] != f.data { return Rejected(DataConflict); }
      chunks := chunks[f.index := f.data];
      r := Added(Progress(|chunks|, total));
    }

    method IsComplete() returns (r: bool)
      requires Valid(State())
      ensures r <==> total > 0 && chunks.Keys == Range(total)
    {
      CompleteHasEveryIndex(State());
      r := total > 0 && |chunks| == total;
    }

    /** Bundle */
    method Reassemble(c: Codec<L>) returns (r: Option<L>)
      requires Valid(State())
      ensures r == Bundle(c, State())
    {
      if total == 0 || |chunks| != total { return None; }
      CompleteHasEveryIndex(State());
      var data: Bytes := [];
      for i := 1 to total + 1
        invariant data == Joined(chunks, i - 1)
      {
        assert i in Range(total);
        data := data + chunks[i];
      }
      var lock := c.parse(data);
      if lock.None? { return None; }
      var id := BundleID(c, lock.value);
      if id != Some(bid) { return None; }
      r := lock;
    }

    method Reset()
      modifies this
      ensures State() == EMPTY
    {
      bid, total, chunks := [], 0, map[];
    }
  }

  // ----- splitting -----

  function FrameCount(n: nat): nat { (n + CHUNK_SIZE - 1) / CHUNK_SIZE }

  function ChunkEnd(data: Bytes, i: nat): nat {
    if i * CHUNK_SIZE + CHUNK_SIZE > |data| then |data| else i * CHUNK_SIZE + CHUNK_SIZE
  }

  /** Frame i + 1 of the animation. */
  function FrameAt(data: Bytes, bid: Bytes, i: nat): Frame
    requires i < FrameCount(|data|)
  {
    Frame(FRAME_VERSION, bid, i + 1, FrameCount(|data|), data[i * CHUNK_SIZE..ChunkEnd(data, i)])
  }

  /** MarshalAnimatedQR */
  method MarshalAnimatedQR<L>(c: Codec<L>, lock: L) returns (frames: Option<seq<Frame>>)
    ensures frames.Some? <==> c.marshal(lock).Some? && c.marshal(lock).value != []
    ensures frames.Some? ==>
              var data := c.marshal(lock).value;
              && |frames.value| == FrameCount(|data|)
              && forall i :: 0 <= i < |frames.value| ==> frames.value[i] == FrameAt(data, c.bundleID(data), i)
  {
    var marshaled := c.marshal(lock);
    if marshaled.None? { return None; }
    var data := marshaled.value;
    var bid := c.bundleID(data);
    var total := (|data| + CHUNK_SIZE - 1) / CHUNK_SIZE;
    if total < 1 { return None; }
    var out: seq<Frame> := [];
    for i := 0 to total
      invariant |out| == i
      invariant forall k :: 0 <= k < i ==> out[k] == FrameAt(data, bid, k)
    {
      var start := i * CHUNK_SIZE;
      var end := start + CHUNK_SIZE;
      if end > |data| { end := |data|; }
      out := out + [Frame(FRAME_VERSION, bid, i + 1, total, data[start..end])];
    }
    frames := Some(out);
  }

  // ----- collecting one animation, in any order -----

  /** A scan is one of the lock's frames, or something the collector turns away at
      once. */
  predicate ScanOf(data: Bytes, bid: Bytes, p: Option<Frame>) {
    Precheck(p).Some? || (exists i :: 0 <= i < FrameCount(|data|) && p == Some(FrameAt(data, bid, i)))
  }

  /** Every chunk held is the lock's own. */
  ghost predicate HoldsOnly(s: Collected, data: Bytes, bid: Bytes) {
    && Valid(s)
    && (s == EMPTY || (s.bid == bid && s.total == FrameCount(|data|)))
    && forall k :: k in s.chunks ==> s.chunks[k] == FrameAt(data, bid, k - 1).data
  }

  lemma FramesAreFrames(data: Bytes, bid: Bytes, i: nat)
    requires i < FrameCount(|data|) && bid != []
    ensures Precheck(Some(FrameAt(data, bid, i))).None?
    ensures FrameAt(data, bid, i).data != []
  {
    assert i * CHUNK_SIZE < |data|;
  }

  lemma ScanFrame(s: Collected, data: Bytes, bid: Bytes, i: nat)
    requires HoldsOnly(s, data, bid) && bid != [] && i < FrameCount(|data|)
    ensures var f := FrameAt(data, bid, i);
            && Ingest(s, Some(f)).0.Added?
            && Ingest(s, Some(f)).1 == Collected(bid, f.total, s.chunks[i + 1 := f.data])
  {
    FramesAreFrames(data, bid, i);
  }

  lemma ScanStep(s: Collected, data: Bytes, bid: Bytes, p: Option<Frame>)
    requires HoldsOnly(s, data, bid) && bid != [] && ScanOf(data, bid, p)
    ensures HoldsOnly(Ingest(s, p).1, data, bid)
    ensures Ingest(s, p).1.chunks.Keys == s.chunks.Keys + (if Precheck(p).None? then {p.value.index} else {})
  {
    if Precheck(p).None? {
      var i :| 0 <= i < FrameCount(|data|) && p == Some(FrameAt(data, bid, i));
      ScanFrame(s, data, bid, i);
      HoldsOneMore(s, data, bid, i);
    }
  }

  lemma HoldsOneMore(s: Collected, data: Bytes, bid: Bytes, i: nat)
    requires HoldsOnly(s, data, bid) && bid != [] && i < FrameCount(|data|)
    ensures HoldsOnly(Collected(bid, FrameCount(|data|), s.chunks[i + 1 := FrameAt(data, bid, i).data]), data, bid)
  {
    FramesAreFrames(data, bid, i);
  }

  lemma {:induction false} ScansCollect(data: Bytes, bid: Bytes, fs: seq<Option<Frame>>, n: nat)
    requires n <= |fs| && bid != [] && forall i :: 0 <= i < |fs| ==> ScanOf(data, bid, fs[i])
    ensures HoldsOnly(After(fs, n), data, bid)
    ensures forall k :: k in After(fs, n).chunks <==>
              exists i :: 0 <= i < n && Precheck(fs[i]).None? && fs[i].value.index == k
  {
    if n > 0 {
      ScansCollect(data, bid, fs, n - 1);
      ScanStep(After(fs, n - 1), data, bid, fs[n - 1]);
    }
  }

  function PrefixLen(data: Bytes, n: nat): nat { if n * CHUNK_SIZE > |data| then |data| else n * CHUNK_SIZE }

  lemma {:induction false} JoinedIsPrefix(s: Collected, data: Bytes, bid: Bytes, n: nat)
    requires HoldsOnly(s, data, bid) && n <= FrameCount(|data|) && Range(n) <= s.chunks.Keys
    ensures Joined(s.chunks, n) == data[..PrefixLen(data, n)]
  {
    if n > 0 {
      var a, b := PrefixLen(data, n - 1), PrefixLen(data, n);
      assert n in Range(n) && Range(n - 1) <= Range(n);
      JoinedIsPrefix(s, data, bid, n - 1);
      NextChunk(s, data, bid, n);
      assert data[..b] == data[..a] + data[a..b];
    }
  }

  lemma NextChunk(s: Collected, data: Bytes, bid: Bytes, n: nat)
    requires HoldsOnly(s, data, bid) && 1 <= n <= FrameCount(|data|) && n in s.chunks
    ensures PrefixLen(data, n - 1) <= PrefixLen(data, n) <= |data|
    ensures s.chunks[n] == data[PrefixLen(data, n - 1)..PrefixLen(data, n)]
  {
    PrefixStep(data, n);
    assert s.chunks[n] == FrameAt(data, bid, n - 1).data;
  }

  lemma PrefixStep(data: Bytes, n: nat)
    requires 1 <= n <= FrameCount(|data|)
    ensures PrefixLen(data, n - 1) == (n - 1) * CHUNK_SIZE <= PrefixLen(data, n) == ChunkEnd(data, n - 1) <= |data|
  {
  }

  /** A chunk index is held exactly when its frame has been scanned. */
  lemma HeldIffScanned(data: Bytes, bid: Bytes, fs: seq<Option<Frame>>, i: nat)
    requires bid != [] && i < FrameCount(|data|) && forall j :: 0 <= j < |fs| ==> ScanOf(data, bid, fs[j])
    ensures i + 1 in After(fs, |fs|).chunks <==> Some(FrameAt(data, bid, i)) in fs
  {
    ScansCollect(data, bid, fs, |fs|);
    FramesAreFrames(data, bid, i);
    if i + 1 in After(fs, |fs|).chunks {
      var j :| 0 <= j < |fs| && Precheck(fs[j]).None? && fs[j].value.index == i + 1;
      assert ScanOf(data, bid, fs[j]);
    }
    if Some(FrameAt(data, bid, i)) in fs {
      var j :| 0 <= j < |fs| && fs[j] == Some(FrameAt(data, bid, i));
      assert Precheck(fs[j]).None? && fs[j].value.index == i + 1;
    }
  }

  /** The collector is complete exactly when every frame has been scanned. */
  lemma CompleteIffAllScanned(data: Bytes, bid: Bytes, fs: seq<Option<Frame>>)
    requires data != [] && bid != [] && forall j :: 0 <= j < |fs| ==> ScanOf(data, bid, fs[j])
    ensures Complete(After(fs, |fs|)) <==> forall i :: 0 <= i < FrameCount(|data|) ==> Some(FrameAt(data, bid, i)) in fs
  {
    var s, n := After(fs, |fs|), FrameCount(|data|);
    ScansCollect(data, bid, fs, |fs|);
    CompleteHasEveryIndex(s);
    assert n >= 1;
    if Complete(s) {
      forall i | 0 <= i < n ensures Some(FrameAt(data, bid, i)) in fs {
        HeldIffScanned(data, bid, fs, i);
        assert i + 1 in Range(n);
      }
    }
    if forall i :: 0 <= i < n ==> Some(FrameAt(data, bid, i)) in fs {
      forall k | 1 <= k <= n ensures k in s.chunks {
        HeldIffScanned(data, bid, fs, k - 1);
      }
      EveryIndexHeld(s, data, bid, n);
    }
  }

  lemma EveryIndexHeld(s: Collected, data: Bytes, bid: Bytes, n: nat)
    requires HoldsOnly(s, data, bid) && n == FrameCount(|data|) >= 1
    requires forall k :: 1 <= k <= n ==> k in s.chunks
    ensures s.total > 0 && s.chunks.Keys == Range(s.total)
  {
    assert 1 in s.chunks;
  }

  lemma CompleteJoins(s: Collected, data: Bytes, bid: Bytes)
    requires HoldsOnly(s, data, bid) && Complete(s)
    ensures s.bid == bid && Joined(s.chunks, s.total) == data
  {
    var n := FrameCount(|data|);
    CompleteHasEveryIndex(s);
    JoinedIsPrefix(s, data, bid, n);
    assert PrefixLen(data, n) == |data| && data[..|data|] == data;
  }

  /** Frames of one lock may be scanned in any order, with any repetition and among
      any payloads that are not frames: once every frame has been seen, and no
      earlier, the collector is complete and hands back the lock. */
  lemma AnyOrderReassembles<L>(c: Codec<L>, lock: L, fs: seq<Option<Frame>>)
    requires c.marshal(lock).Some? && c.marshal(lock).value != [] && c.parse(c.marshal(lock).value) == Some(lock)
    requires c.bundleID(c.marshal(lock).value) != []
    requires forall i :: 0 <= i < |fs| ==> ScanOf(c.marshal(lock).value, c.bundleID(c.marshal(lock).value), fs[i])
    ensures var data := c.marshal(lock).value;
            var s := After(fs, |fs|);
            && (Complete(s) <==>
                  forall i :: 0 <= i < FrameCount(|data|) ==> Some(FrameAt(data, c.bundleID(data), i)) in fs)
            && (Complete(s) ==> Bundle(c, s) == Some(lock))
  {
    var data, bid := c.marshal(lock).value, c.bundleID(c.marshal(lock).value);
    CompleteIffAllScanned(data, bid, fs);
    if Complete(After(fs, |fs|)) {
      ScansCollect(data, bid, fs, |fs|);
      CompleteJoins(After(fs, |fs|), data, bid);
    }
  }
}
