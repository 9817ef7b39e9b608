/** SyncMergedBlob: read-merge-write on a version-checked blob shared with other
    writers of the same kind. */
module MergedBlob {
  import opened Wrappers

  /** The merge a resource supplies. It works on plaintexts; `view` is what the
      plaintext stands for, on which merging is a join. */
  datatype Merge<!T, !V> = Merge(merge: (T, T) -> Option<T>, view: T -> V, join: (V, V) -> V)

  ghost predicate Laws<V>(join: (V, V) -> V, a: V, b: V, c: V) {
    && join(a, b) == join(b, a)
    && join(join(a, b), c) == join(a, join(b, c))
    && join(a, a) == a
  }

  ghost predicate Semilattice<V(!new)>(join: (V, V) -> V) {
    forall a, b, c :: Laws(join, a, b, c)
  }

  ghost predicate Convergent<T(!new), V(!new)>(m: Merge<T, V>) {
    && Semilattice(m.join)
    && forall a, b :: m.merge(a, b).Some? ==> m.view(m.merge(a, b).value) == m.join(m.view(a), m.view(b))
  }

  ghost predicate Below<V>(join: (V, V) -> V, a: V, b: V) {
    join(a, b) == b
  }

  lemma BelowOrder<V(!new)>(join: (V, V) -> V, a: V, b: V, c: V)
    requires Semilattice(join)
    ensures Below(join, a, a)
    ensures Below(join, a, b) && Below(join, b, a) ==> a == b
    ensures Below(join, a, b) && Below(join, b, c) ==> Below(join, a, c)
    ensures Below(join, a, join(a, b)) && Below(join, b, join(a, b))
    ensures Below(join, a, c) && Below(join, b, c) ==> Below(join, join(a, b), c)
  {
    assert Laws(join, a, a, b) && Laws(join, a, b, c);
    assert Laws(join, b, b, a) && Laws(join, b, a, c) && Laws(join, b, c, a);
  }

  // ----- the server -----

  datatype Blob<T> = Absent | Present(value: T, version: nat)

  function Version<T>(b: Blob<T>): nat {
    if b.Absent? then 0 else b.version
  }

  ghost predicate ValidBlob<T>(b: Blob<T>) {
    b.Present? ==> b.version > 0
  }

  /** What merging, version-checked writers may do to the blob: its version only
      grows, moves whenever the value does, and its view never decreases. */
  ghost predicate Evolves<T, V>(m: Merge<T, V>, b: Blob<T>, b': Blob<T>) {
    && ValidBlob(b')
    && Version(b) <= Version(b')
    && (Version(b) == Version(b') ==> b == b')
    && (b.Present? ==> b'.Present? && Below(m.join, m.view(b.value), m.view(b'.value)))
  }

  lemma EvolvesTransitive<T(!new), V(!new)>(m: Merge<T, V>, a: Blob<T>, b: Blob<T>, c: Blob<T>)
    requires Convergent(m) && Evolves(m, a, b) && Evolves(m, b, c)
    ensures Evolves(m, a, c)
  {
    if a.Present? {
      BelowOrder(m.join, m.view(a.value), m.view(b.value), m.view(c.value));
    }
  }

  datatype Call = Open | Seal

  /** The rest of the world: what other writers have done by the time a call of
      attempt k is made, and which calls fail outright. */
  datatype Network<!T> = Network(others: (nat, Call, Blob<T>) -> Blob<T>, fails: (nat, Call) -> bool)

  ghost predicate Lawful<T(!new), V>(m: Merge<T, V>, net: Network<T>) {
    forall k, c, b :: ValidBlob(b) ==> Evolves(m, b, net.others(k, c, b))
  }

  class BlobServer<T> {
    var blob: Blob<T>

    constructor (blob: Blob<T>)
      ensures this.blob == blob
    {
      this.blob := blob;
    }

    /** PutBlob: accepted only at the version last read. */
    method Put(value: T, prevVersion: nat) returns (conflict: bool)
      modifies this
      ensures conflict == (Version(old(blob)) != prevVersion)
      ensures blob == if conflict then old(blob) else Present(value, prevVersion + 1)
    {
      conflict := Version(blob) != prevVersion;
      if !conflict {
        blob := Present(value, prevVersion + 1);
      }
    }
  }

  const MAX_ATTEMPTS: nat := 5

  datatype Outcome<T> = Ok(value: T) | NetworkError | MergeError | TooManyConflicts

  /** The blob an attempt reads and the one its write meets, given the one it starts from. */
  function Seen<T>(net: Network<T>, b: Blob<T>, k: nat): Blob<T> { net.others(k, Open, b) }

  function Met<T>(net: Network<T>, b: Blob<T>, k: nat): Blob<T> { net.others(k, Seal, Seen(net, b, k)) }

  /** The attempt loses its race: another write landed between its read and its own. */
  predicate Conflicts<T>(net: Network<T>, b: Blob<T>, k: nat) {
    Version(Met(net, b, k)) != Version(Seen(net, b, k))
  }

  /** The blob attempt k starts from, the attempts before it having left the blob alone. */
  function Left<T>(net: Network<T>, b: Blob<T>, k: nat): Blob<T> {
    if k == 0 then b else Met(net, Left(net, b, k - 1), k - 1)
  }

  /** What k attempts have merged: the original with every blob that they read. */
  function Carried<T, V>(m: Merge<T, V>, net: Network<T>, original: T, b: Blob<T>, k: nat): Option<T> {
    if k == 0 then Some(original)
    else MergedWith(m, Carried(m, net, original, b, k - 1), Seen(net, Left(net, b, k - 1), k - 1))
  }

  function MergedWith<T, V>(m: Merge<T, V>, local: Option<T>, seen: Blob<T>): Option<T> {
    if local.None? || seen.Absent? then local else m.merge(local.value, seen.value)
  }

  /** What attempt k has after its merge. */
  function Merging<T, V>(m: Merge<T, V>, net: Network<T>, original: T, b: Blob<T>, k: nat): Option<T> {
    MergedWith(m, Carried(m, net, original, b, k), Seen(net, Left(net, b, k), k))
  }

  /** The merge gives nothing that is not there already. */
  ghost predicate HoldsAll<T>(seen: Blob<T>, merged: Option<T>) { seen.Present? && merged == Some(seen.value) }

  /** Attempt k gets as far as its write. */
  ghost predicate Writes<T, V>(m: Merge<T, V>, net: Network<T>, original: T, b: Blob<T>, k: nat) {
    && !net.fails(k, Open) && Merging(m, net, original, b, k).Some?
    && !HoldsAll(Seen(net, Left(net, b, k), k), Merging(m, net, original, b, k))
  }

  /** The first k attempts all lose their races. */
  ghost predicate Loses<T, V>(m: Merge<T, V>, net: Network<T>, original: T, b: Blob<T>, k: nat) {
    k == 0 || (Loses(m, net, original, b, k - 1) && LosesRace(m, net, original, b, k - 1))
  }

  ghost predicate LosesRace<T, V>(m: Merge<T, V>, net: Network<T>, original: T, b: Blob<T>, k: nat) {
    Writes(m, net, original, b, k) && !net.fails(k, Seal) && Conflicts(net, Left(net, b, k), k)
  }

  /** What the result must be, given the blob it was merged with. */
  ghost predicate Merges<T, V>(m: Merge<T, V>, original: T, seen: Blob<T>, result: T) {
    if seen.Absent? then result == original
    else m.view(result) == m.join(m.view(original), m.view(seen.value))
  }

  /** How attempt k ends and leaves the blob, the loop having started from b. On success the
      result is the join of the original and of the very blob that was on the server: one found
      to hold it all already is left as it is, with its version; any other is written over,
      nobody having touched it since it was read. */
  ghost predicate Ends<T(!new), V>(out: Outcome<T>, m: Merge<T, V>, net: Network<T>, original: T, b: Blob<T>, k: nat,
                                   b': Blob<T>) {
    var seen, met := Seen(net, Left(net, b, k), k), Met(net, Left(net, b, k), k);
    var merged := Merging(m, net, original, b, k);
    match out
    case Ok(result) =>
      && !net.fails(k, Open) && merged == Some(result) && Merges(m, original, seen, result)
      && (if HoldsAll(seen, merged) then b' == seen
          else !net.fails(k, Seal) && met == seen && b' == Present(result, Version(met) + 1))
    case MergeError => !net.fails(k, Open) && merged.None? && b' == seen
    case NetworkError =>
      if net.fails(k, Open) then b' == seen else Writes(m, net, original, b, k) && net.fails(k, Seal) && b' == met
    case TooManyConflicts => LosesRace(m, net, original, b, k) && b' == met
  }

  /** k attempts have lost their races, and local is what they have merged. */
  ghost predicate Underway<T, V>(m: Merge<T, V>, net: Network<T>, original: T, b: Blob<T>, k: nat, local: T) {
    Loses(m, net, original, b, k) && Carried(m, net, original, b, k) == Some(local)
  }

  /** One read, merge and write; None is a conflict, with the merge to go on from. */
  method Attempt<T(==, !new), V(!new)>(server: BlobServer<T>, original: T, local: T, m: Merge<T, V>, net: Network<T>,
                                       k: nat, ghost start: Blob<T>)
    returns (out: Option<Outcome<T>>, merged: T)
    requires Convergent(m) && Lawful(m, net) && ValidBlob(server.blob) && Folded(m, original, local, server.blob)
    requires server.blob == Left(net, start, k) && Underway(m, net, original, start, k, local)
    modifies server
    ensures Evolves(m, old(server.blob), server.blob)
    ensures out.Some? ==> !out.value.TooManyConflicts?
    ensures out.Some? ==> Ends(out.value, m, net, original, start, k, server.blob)
    ensures out.None? ==> LosesRace(m, net, original, start, k) && server.blob == Left(net, start, k + 1)
    ensures out.None? ==> Folded(m, original, merged, server.blob) && Underway(m, net, original, start, k + 1, merged)
  {
    ghost var b := server.blob;
    merged := local;
    server.blob := net.others(k, Open, server.blob);
    FoldedLater(m, original, local, b, server.blob);
    if net.fails(k, Open) { return Some(NetworkError), merged; }
    var seen := server.blob;
    if seen.Present? {
      var result := m.merge(local, seen.value);
      if result.None? { return Some(MergeError), merged; }
      merged := result.value;
      FoldedMerge(m, original, local, seen.value, merged, seen);
      if merged == seen.value {
        return Some(Ok(merged)), merged;
      }
    }
    server.blob := net.others(k, Seal, server.blob);
    EvolvesTransitive(m, b, seen, server.blob);
    FoldedLater(m, original, merged, seen, server.blob);
    if net.fails(k, Seal) { return Some(NetworkError), merged; }
    ghost var met := server.blob;
    var conflict := server.Put(merged, Version(seen));
    if !conflict {
      WriteEvolves(m, original, b, met, merged);
      return Some(Ok(merged)), merged;
    }
    return None, merged;
  }

  lemma {:induction false} LeftEvolves<T(!new), V(!new)>(m: Merge<T, V>, net: Network<T>, b: Blob<T>, k: nat)
    requires Convergent(m) && Lawful(m, net) && ValidBlob(b)
    ensures Evolves(m, b, Left(net, b, k))
  {
    if k == 0 {
      StaysPut(m, b);
    } else {
      LeftEvolves(m, net, b, k - 1);
      var left := Left(net, b, k - 1);
      EvolvesTransitive(m, b, left, Seen(net, left, k - 1));
      EvolvesTransitive(m, b, Seen(net, left, k - 1), Left(net, b, k));
    }
  }

  /** Attempt k, the first that does not lose its race, decides; None is when all have lost. */
  method Race<T(==, !new), V(!new)>(server: BlobServer<T>, original: T, m: Merge<T, V>, net: Network<T>, limit: nat)
    returns (out: Option<Outcome<T>>, ghost k: nat)
    requires Convergent(m) && Lawful(m, net) && ValidBlob(server.blob)
    modifies server
    ensures Loses(m, net, original, old(server.blob), k)
    ensures out.Some? ==> k < limit && !out.value.TooManyConflicts?
    ensures out.Some? ==> Ends(out.value, m, net, original, old(server.blob), k, server.blob)
    ensures out.Some? ==> Evolves(m, Left(net, old(server.blob), k), server.blob)
    ensures out.None? ==> k == limit && server.blob == Left(net, old(server.blob), k)
  {
    ghost var start := server.blob;
    var local := original;
    StartsFolded(m, original, start);
    for attempt := 0 to limit
      invariant Underway(m, net, original, start, attempt, local) && Folded(m, original, local, server.blob)
      invariant server.blob == Left(net, start, attempt) && ValidBlob(server.blob)
    {
      out, local := Attempt(server, original, local, m, net, attempt, start);
      if out.Some? { return out, attempt; }
    }
    return None, limit;
  }

  method Attempts<T(==, !new), V(!new)>(server: BlobServer<T>, original: T, m: Merge<T, V>, net: Network<T>, limit: nat)
    returns (out: Outcome<T>, ghost k: nat)
    requires Convergent(m) && Lawful(m, net) && ValidBlob(server.blob) && limit > 0
    modifies server
    ensures k < limit && Loses(m, net, original, old(server.blob), k)
    ensures Ends(out, m, net, original, old(server.blob), k, server.blob)
    ensures out.TooManyConflicts? ==> k == limit - 1
    ensures Evolves(m, old(server.blob), server.blob)
  {
    ghost var start := server.blob;
    var ended;
    ended, k := Race(server, original, m, net, limit);
    LeftEvolves(m, net, start, k);
    if ended.None? {
      GivesUp(m, net, original, start, limit, server.blob);
      return TooManyConflicts, limit - 1;
    }
    EvolvesTransitive(m, start, Left(net, start, k), server.blob);
    out := ended.value;
  }

  lemma GivesUp<T(!new), V>(m: Merge<T, V>, net: Network<T>, original: T, b: Blob<T>, n: nat, b': Blob<T>)
    requires n > 0 && Loses(m, net, original, b, n) && b' == Left(net, b, n)
    ensures Loses(m, net, original, b, n - 1) && Ends(TooManyConflicts, m, net, original, b, n - 1, b')
  {
  }

  /** The loop stops after five attempts. */
  method SyncMergedBlob<T(==, !new), V(!new)>(server: BlobServer<T>, original: T, m: Merge<T, V>, net: Network<T>)
    returns (out: Outcome<T>, ghost k: nat)
    requires Convergent(m) && Lawful(m, net) && ValidBlob(server.blob)
    modifies server
    ensures k < MAX_ATTEMPTS && Loses(m, net, original, old(server.blob), k)
    ensures Ends(out, m, net, original, old(server.blob), k, server.blob)
    ensures out.TooManyConflicts? ==> k == MAX_ATTEMPTS - 1
    ensures Evolves(m, old(server.blob), server.blob)
  {
    out, k := Attempts(server, original, m, net, MAX_ATTEMPTS);
  }

  lemma StaysPut<T(!new), V(!new)>(m: Merge<T, V>, b: Blob<T>)
    requires Convergent(m) && ValidBlob(b)
    ensures Evolves(m, b, b)
  {
    if b.Present? {
      BelowOrder(m.join, m.view(b.value), m.view(b.value), m.view(b.value));
    }
  }

  lemma StartsFolded<T(!new), V(!new)>(m: Merge<T, V>, original: T, b: Blob<T>)
    requires Convergent(m) && ValidBlob(b)
    ensures Folded(m, original, original, b)
  {
    BelowOrder(m.join, m.view(original), m.view(original), m.view(original));
    if b.Present? {
      BelowOrder(m.join, m.view(original), m.view(b.value), m.view(original));
    }
  }

  /** Writing the merge of a blob over it is progress. */
  lemma WriteEvolves<T(!new), V(!new)>(m: Merge<T, V>, original: T, start: Blob<T>, met: Blob<T>, merged: T)
    requires Convergent(m) && Evolves(m, start, met) && Merges(m, original, met, merged)
    ensures Evolves(m, met, Present(merged, Version(met) + 1)) && Evolves(m, start, Present(merged, Version(met) + 1))
  {
    if met.Present? {
      BelowOrder(m.join, m.view(original), m.view(met.value), m.view(merged));
    }
    EvolvesTransitive(m, start, met, Present(merged, Version(met) + 1));
  }

  /** The value carried from attempt to attempt holds the original and nothing
      that the server does not hold already. */
  ghost predicate Folded<T, V>(m: Merge<T, V>, original: T, local: T, b: Blob<T>) {
    if b.Absent? then local == original
    else
      && Below(m.join, m.view(original), m.view(local))
      && Below(m.join, m.view(local), m.join(m.view(original), m.view(b.value)))
  }

  lemma FoldedLater<T(!new), V(!new)>(m: Merge<T, V>, original: T, local: T, b: Blob<T>, b': Blob<T>)
    requires Convergent(m) && Evolves(m, b, b') && Folded(m, original, local, b)
    ensures Folded(m, original, local, b')
  {
    var o, l := m.view(original), m.view(local);
    if b'.Present? {
      var y := m.view(b'.value);
      BelowOrder(m.join, o, y, o);
      if b.Present? {
        var x := m.view(b.value);
        BelowOrder(m.join, x, y, m.join(o, y));
        BelowOrder(m.join, y, m.join(o, y), o);
        BelowOrder(m.join, x, m.join(o, y), o);
        BelowOrder(m.join, o, x, m.join(o, y));
        BelowOrder(m.join, l, m.join(o, x), m.join(o, y));
      }
    }
  }

  /** Merging with what was read gives exactly the join of the original and it. */
  lemma FoldedMerge<T(!new), V(!new)>(m: Merge<T, V>, original: T, local: T, seen: T, merged: T, b: Blob<T>)
    requires Convergent(m) && b.Present? && b.value == seen && Folded(m, original, local, b)
    requires m.merge(local, seen) == Some(merged)
    ensures m.view(merged) == m.join(m.view(original), m.view(seen))
    ensures Folded(m, original, merged, b)
  {
    var o, l, s := m.view(original), m.view(local), m.view(seen);
    BelowOrder(m.join, o, l, m.join(l, s));
    BelowOrder(m.join, l, s, o);
    BelowOrder(m.join, o, s, m.join(l, s));
    BelowOrder(m.join, o, s, o);
    BelowOrder(m.join, l, s, m.join(o, s));
    BelowOrder(m.join, m.join(l, s), m.join(o, s), o);
    BelowOrder(m.join, o, m.join(l, s), o);
  }

  // ----- many writers -----

  /** The server's view after a sequence of commits, each writing the join of its
      own contribution and of the view it wrote over. */
  function AfterCommits<V>(join: (V, V) -> V, start: V, commits: seq<V>): V {
    if commits == [] then start
    else join(commits[|commits| - 1], AfterCommits(join, start, commits[..|commits| - 1]))
  }

  /** No update is lost: every contribution is below the result ... */
  lemma {:induction false} CommitsKept<V(!new)>(join: (V, V) -> V, start: V, commits: seq<V>, x: V)
    requires Semilattice(join) && (x == start || x in commits)
    ensures Below(join, x, AfterCommits(join, start, commits))
  {
    if commits == [] {
      BelowOrder(join, x, x, x);
    } else {
      var l := |commits| - 1;
      var prev := AfterCommits(join, start, commits[..l]);
      BelowOrder(join, commits[l], prev, prev);
      if x != commits[l] {
        CommitsKept(join, start, commits[..l], x);
        BelowOrder(join, x, prev, join(commits[l], prev));
      }
    }
  }

  /** ... and none is invented: the result is the least such value. */
  lemma {:induction false} CommitsLeast<V(!new)>(join: (V, V) -> V, start: V, commits: seq<V>, bound: V)
    requires Semilattice(join) && Below(join, start, bound)
    requires forall x :: x in commits ==> Below(join, x, bound)
    ensures Below(join, AfterCommits(join, start, commits), bound)
  {
    if commits != [] {
      var l := |commits| - 1;
      CommitsLeast(join, start, commits[..l], bound);
      assert commits[l] in commits;
      BelowOrder(join, commits[l], AfterCommits(join, start, commits[..l]), bound);
    }
  }

  /** Hence the order in which the writers committed, and how often, is invisible. */
  lemma CommitOrderIrrelevant<V(!new)>(join: (V, V) -> V, start: V, a: seq<V>, b: seq<V>)
    requires Semilattice(join)
    requires forall x :: x in a <==> x in b
    ensures AfterCommits(join, start, a) == AfterCommits(join, start, b)
  {
    CommitsBelow(join, start, a, b);
    CommitsBelow(join, start, b, a);
    BelowOrder(join, AfterCommits(join, start, a), AfterCommits(join, start, b), start);
  }

  lemma CommitsBelow<V(!new)>(join: (V, V) -> V, start: V, a: seq<V>, b: seq<V>)
    requires Semilattice(join)
    requires forall x :: x in a ==> x in b
    ensures Below(join, AfterCommits(join, start, a), AfterCommits(join, start, b))
  {
    var q := AfterCommits(join, start, b);
    CommitsKept(join, start, b, start);
    forall x | x in a ensures Below(join, x, q) {
      CommitsKept(join, start, b, x);
    }
    CommitsLeast(join, start, a, q);
  }
}
