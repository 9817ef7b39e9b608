/** MergeGroups: the contact-groups CRDT. */
module Groups {
  import opened Wrappers
  import opened Lex
  import opened Sorting
  import MB = MergedBlob

  datatype Group = Group(id: string, name: string, members: seq<string>, updatedAt: int)

  datatype GroupData = GroupData(groups: seq<Group>, deleted: seq<string>)

  function JoinWith(parts: seq<string>, sep: string): string {
    if parts == [] then ""
    else if |parts| == 1 then parts[0]
    else parts[0] + sep + JoinWith(parts[1..], sep)
  }

  /** canonical: content with the members in a fixed order. */
  function Canonical(g: Group): string {
    g.name + "\0" + JoinWith(Sort(g.members, AtMost), ",")
  }

  /** Permuting a group's members does not change its canonical content. */
  lemma CanonicalIgnoresMemberOrder(g: Group, members: seq<string>)
    requires multiset(members) == multiset(g.members)
    ensures Canonical(g.(members := members)) == Canonical(g)
  {
    AtMostTotalOrder();
    SortPermutation(members, g.members, AtMost);
  }

  /** What last-writer-wins compares. */
  datatype Stamp = Stamp(updatedAt: int, canonical: string)

  function StampOf(g: Group): Stamp { Stamp(g.updatedAt, Canonical(g)) }

  predicate Later(a: Stamp, b: Stamp) {
    a.updatedAt > b.updatedAt || (a.updatedAt == b.updatedAt && Less(b.canonical, a.canonical))
  }

  predicate WinsOver(g: Group, cur: Group) { Later(StampOf(g), StampOf(cur)) }

  lemma LaterOrder(a: Stamp, b: Stamp, c: Stamp)
    ensures !Later(a, a)
    ensures Later(a, b) || a == b || Later(b, a)
    ensures Later(a, b) ==> !Later(b, a)
    ensures Later(a, b) && Later(b, c) ==> Later(a, c)
  {
    LessIrreflexive(a.canonical);
    LessTotal(a.canonical, b.canonical);
    if Less(a.canonical, b.canonical) { LessAsymmetric(a.canonical, b.canonical); }
    if Less(b.canonical, a.canonical) { LessAsymmetric(b.canonical, a.canonical); }
    if Less(c.canonical, b.canonical) && Less(b.canonical, a.canonical) {
      LessTransitive(c.canonical, b.canonical, a.canonical);
    }
  }

  function Max(a: Stamp, b: Stamp): Stamp { if Later(b, a) then b else a }

  // ----- views -----

  datatype RawView = View(best: map<string, Stamp>, tombs: set<string>)

  /** A sync view: the winning stamp of each live group, and the tombstones. */
  type View = v: RawView | forall id :: id in v.best ==> id !in v.tombs witness View(map[], {})

  function JoinBest(a: View, b: View): map<string, Stamp> {
    map id | id in a.best.Keys + b.best.Keys && id !in a.tombs && id !in b.tombs ::
      if id !in b.best then a.best[id] else if id !in a.best then b.best[id] else Max(a.best[id], b.best[id])
  }

  function JoinViews(a: View, b: View): View {
    View(JoinBest(a, b), a.tombs + b.tombs)
  }

  lemma JoinCommutes(a: View, b: View)
    ensures JoinViews(a, b) == JoinViews(b, a)
  {
    forall id | id in a.best && id in b.best ensures Max(a.best[id], b.best[id]) == Max(b.best[id], a.best[id]) {
      LaterOrder(a.best[id], b.best[id], a.best[id]);
    }
    assert JoinBest(a, b) == JoinBest(b, a);
  }

  lemma MaxAssociates(a: Stamp, b: Stamp, c: Stamp)
    ensures Max(Max(a, b), c) == Max(a, Max(b, c))
  {
    LaterOrder(a, b, c);
    LaterOrder(b, c, a);
    LaterOrder(c, b, a);
    LaterOrder(c, a, b);
    LaterOrder(a, c, b);
    LaterOrder(b, a, c);
  }

  lemma JoinAssociates(a: View, b: View, c: View)
    ensures JoinViews(JoinViews(a, b), c) == JoinViews(a, JoinViews(b, c))
  {
    var l, r := JoinBest(JoinViews(a, b), c), JoinBest(a, JoinViews(b, c));
    forall id ensures (id in l <==> id in r) && (id in l ==> l[id] == r[id]) {
      if id in a.best && id in b.best && id in c.best {
        MaxAssociates(a.best[id], b.best[id], c.best[id]);
      }
    }
    assert l == r;
  }

  lemma JoinIdempotent(a: View)
    ensures JoinViews(a, a) == a
  {
    assert JoinBest(a, a) == a.best;
  }

  lemma ViewsFormSemilattice()
    ensures MB.Semilattice(JoinViews)
  {
    forall a: View, b: View ensures JoinViews(a, b) == JoinViews(b, a) { JoinCommutes(a, b); }
    forall a: View, b: View, c: View ensures JoinViews(JoinViews(a, b), c) == JoinViews(a, JoinViews(b, c)) {
      JoinAssociates(a, b, c);
    }
    forall a: View ensures JoinViews(a, a) == a { JoinIdempotent(a); }
  }

  // ----- merging -----

  function SetOf(s: seq<string>): set<string> { set x | x in s }

  type Book = map<string, Group>

  /** The take loop: the first copy with the greatest stamp stays. */
  function Take(m: Book, gs: seq<Group>, gone: set<string>): Book {
    if gs == [] then m
    else
      var m' := Take(m, gs[..|gs| - 1], gone);
      var g := gs[|gs| - 1];
      if g.id in gone || (g.id in m' && !WinsOver(g, m'[g.id])) then m' else m'[g.id := g]
  }

  /** m holds, for each id among gs not gone, a copy no other copy wins over. */
  ghost predicate IsBest(m: Book, gs: seq<Group>, gone: set<string>) {
    && (forall id :: id in m ==> m[id].id == id && m[id] in gs && id !in gone)
    && (forall g :: g in gs && g.id !in gone ==> g.id in m && !WinsOver(g, m[g.id]))
  }

  lemma {:induction false} TakeBest(m: Book, seen: seq<Group>, gs: seq<Group>, gone: set<string>)
    requires IsBest(m, seen, gone)
    ensures IsBest(Take(m, gs, gone), seen + gs, gone)
  {
    if gs == [] {
      assert seen + gs == seen;
    } else {
      var l := |gs| - 1;
      TakeBest(m, seen, gs[..l], gone);
      var m', g := Take(m, gs[..l], gone), gs[l];
      assert seen + gs == seen + gs[..l] + [g];
      forall x | x in seen + gs && x.id !in gone
        ensures x.id in Take(m, gs, gone) && !WinsOver(x, Take(m, gs, gone)[x.id])
      {
        LaterOrder(StampOf(x), StampOf(g), StampOf(g));
        if x != g && x.id == g.id && WinsOver(g, m'[g.id]) {
          LaterOrder(StampOf(x), StampOf(g), StampOf(m'[g.id]));
        }
      }
    }
  }

  function Stamps(m: Book): map<string, Stamp> {
    map id | id in m :: StampOf(m[id])
  }

  function Best(d: GroupData): Book {
    Take(map[], d.groups, SetOf(d.deleted))
  }

  ghost function ViewOf(d: GroupData): View {
    TakeBest(map[], [], d.groups, SetOf(d.deleted));
    View(Stamps(Best(d)), SetOf(d.deleted))
  }

  /** Some listing of a map's groups, of a set's strings: Go's map order. */
  ghost function ListGroups(m: Book): seq<Group> {
    if m == map[] then [] else var id :| id in m; [m[id]] + ListGroups(m - {id})
  }

  predicate GroupBefore(a: Group, b: Group) {
    Less(a.name, b.name) || (a.name == b.name && AtMost(a.id, b.id))
  }

  ghost function MergedBook(a: GroupData, b: GroupData): Book {
    var gone := SetOf(a.deleted) + SetOf(b.deleted);
    Take(Take(map[], a.groups, gone), b.groups, gone)
  }

  /** What MergeGroups computes. */
  ghost function Merged(a: GroupData, b: GroupData): GroupData {
    GroupData(Sort(ListGroups(MergedBook(a, b)), GroupBefore),
              Sort(ListStrings(SetOf(a.deleted) + SetOf(b.deleted)), AtMost))
  }

  predicate Keyed(m: Book) { forall id :: id in m ==> m[id].id == id }

  predicate Lists(gs: seq<Group>, m: Book) {
    && (forall i, j :: 0 <= i < j < |gs| ==> gs[i].id != gs[j].id)
    && (forall g :: g in gs ==> g.id in m && m[g.id] == g)
    && (forall id :: id in m ==> m[id] in gs)
  }

  lemma {:induction false} ListGroupsOf(m: Book)
    requires Keyed(m)
    ensures Lists(ListGroups(m), m)
    decreases |m|
  {
    if m != map[] {
      var id :| id in m && ListGroups(m) == [m[id]] + ListGroups(m - {id});
      assert (m - {id}).Keys == m.Keys - {id};
      ListGroupsOf(m - {id});
      ListsCons(ListGroups(m - {id}), m, id);
    }
  }

  lemma ListsCons(rest: seq<Group>, m: Book, id: string)
    requires Keyed(m) && id in m && Lists(rest, m - {id})
    ensures Lists([m[id]] + rest, m)
  {
    var gs := [m[id]] + rest;
    forall g | g in gs ensures g.id in m && m[g.id] == g {
      assert g == m[id] || g in rest;
    }
    forall i, j | 0 <= i < j < |gs| ensures gs[i].id != gs[j].id {
      assert gs[j] == rest[j - 1] && rest[j - 1] in rest;
      assert i > 0 ==> gs[i] == rest[i - 1];
    }
    forall x | x in m ensures m[x] in gs {
      assert x != id ==> x in m - {id} && (m - {id})[x] == m[x];
    }
  }

  /** Two listings of one book are permutations of each other. */
  lemma {:induction false} ListsPermute(a: seq<Group>, b: seq<Group>, m: Book)
    requires Keyed(m) && Lists(a, m) && Lists(b, m)
    ensures multiset(a) == multiset(b)
  {
    forall x ensures multiset(a)[x] == multiset(b)[x] {
      assert DistinctKeys(a, (g: Group) => g.id) && DistinctKeys(b, (g: Group) => g.id);
      OnceOnly(a, (g: Group) => g.id, x);
      OnceOnly(b, (g: Group) => g.id, x);
      assert x in a <==> x in b;
    }
  }

  lemma GroupOrdering()
    ensures Ordering(GroupBefore)
  {
    AtMostTotalOrder();
    forall a: Group, b: Group, c: Group
      ensures GroupBefore(a, b) || GroupBefore(b, a)
      ensures GroupBefore(a, b) && GroupBefore(b, c) ==> GroupBefore(a, c)
    {
      LessTotal(a.name, b.name);
      if Less(a.name, b.name) && Less(b.name, c.name) { LessTransitive(a.name, b.name, c.name); }
      assert AtMost(a.id, b.id) || AtMost(b.id, a.id);
      assert AtMost(a.id, b.id) && AtMost(b.id, c.id) ==> AtMost(a.id, c.id);
    }
  }

  lemma ListsTieFree(gs: seq<Group>, m: Book)
    requires Lists(gs, m)
    ensures TieFree(gs, GroupBefore)
  {
    AtMostTotalOrder();
    forall x, y | x in gs && y in gs && GroupBefore(x, y) && GroupBefore(y, x) ensures x == y {
      if Less(x.name, y.name) { LessAsymmetric(x.name, y.name); }
      if Less(y.name, x.name) { LessAsymmetric(y.name, x.name); }
      assert AtMost(x.id, y.id) && AtMost(y.id, x.id) ==> x.id == y.id;
      assert m[x.id] == x && m[y.id] == y;
    }
  }

  lemma ListsSorted(gs: seq<Group>, m: Book)
    requires Lists(gs, m)
    ensures Lists(Sort(gs, GroupBefore), m)
  {
    GroupOrdering();
    SortCorrect(gs, GroupBefore);
    ListsPermuted(gs, Sort(gs, GroupBefore), m);
  }

  lemma ListsPermuted(a: seq<Group>, b: seq<Group>, m: Book)
    requires Lists(a, m) && multiset(a) == multiset(b)
    ensures Lists(b, m)
  {
    assert DistinctKeys(a, (g: Group) => g.id);
    PermutedDistinct(a, b, (g: Group) => g.id);
    forall i, j | 0 <= i < j < |b| ensures b[i].id != b[j].id {
      assert ((g: Group) => g.id)(b[i]) != ((g: Group) => g.id)(b[j]);
    }
    forall g ensures g in b <==> g in a { assert g in multiset(b) <==> g in multiset(a); }
  }

  lemma MergedBookBest(a: GroupData, b: GroupData)
    ensures IsBest(MergedBook(a, b), a.groups + b.groups, SetOf(a.deleted) + SetOf(b.deleted))
  {
    var gone := SetOf(a.deleted) + SetOf(b.deleted);
    TakeBest(map[], [], a.groups, gone);
    assert [] + a.groups == a.groups;
    TakeBest(Take(map[], a.groups, gone), a.groups, b.groups, gone);
  }

  /** The result lists the winning copies and carries every tombstone. */
  lemma MergedContents(a: GroupData, b: GroupData)
    ensures Lists(Merged(a, b).groups, MergedBook(a, b))
    ensures SetOf(Merged(a, b).deleted) == SetOf(a.deleted) + SetOf(b.deleted)
    ensures Sorted(Merged(a, b).groups, GroupBefore) && Sorted(Merged(a, b).deleted, AtMost)
  {
    var m, gone := MergedBook(a, b), SetOf(a.deleted) + SetOf(b.deleted);
    MergedBookBest(a, b);
    ListGroupsOf(m);
    ListsSorted(ListGroups(m), m);
    GroupOrdering();
    SortCorrect(ListGroups(m), GroupBefore);
    ListStringsOf(gone);
    AtMostTotalOrder();
    SortCorrect(ListStrings(gone), AtMost);
    forall x ensures x in Merged(a, b).deleted <==> x in gone {
      assert x in multiset(Merged(a, b).deleted) <==> x in multiset(gone);
    }
  }

  lemma ListedBookIsBest(d: GroupData, m: Book)
    requires Lists(d.groups, m) && Keyed(m) && forall id :: id in m ==> id !in SetOf(d.deleted)
    ensures Best(d) == m
  {
    TakeBest(map[], [], d.groups, SetOf(d.deleted));
    assert [] + d.groups == d.groups;
    var n := Best(d);
    forall id ensures (id in n <==> id in m) && (id in n ==> n[id] == m[id]) {
      if id in m {
        assert m[id] in d.groups;
      }
    }
  }

  lemma BestIsBest(d: GroupData)
    ensures IsBest(Best(d), d.groups, SetOf(d.deleted))
  {
    TakeBest(map[], [], d.groups, SetOf(d.deleted));
    assert [] + d.groups == d.groups;
  }

  lemma MergeAt(a: GroupData, b: GroupData, id: string)
    ensures var m, j := MergedBook(a, b), JoinBest(ViewOf(a), ViewOf(b));
            (id in m <==> id in j) && (id in m ==> StampOf(m[id]) == j[id])
  {
    MergedBookBest(a, b);
    BestIsBest(a);
    BestIsBest(b);
    if id !in SetOf(a.deleted) && id !in SetOf(b.deleted) {
      BestOfBoth(a.groups, b.groups, SetOf(a.deleted), SetOf(b.deleted), MergedBook(a, b), Best(a), Best(b), id);
    }
  }

  lemma BestOfBoth(ga: seq<Group>, gb: seq<Group>, da: set<string>, db: set<string>, m: Book, ma: Book, mb: Book,
                   id: string)
    requires IsBest(m, ga + gb, da + db) && IsBest(ma, ga, da) && IsBest(mb, gb, db)
    requires id !in da && id !in db
    ensures id in m <==> id in ma || id in mb
    ensures id in m ==> StampOf(m[id]) == (if id !in mb then StampOf(ma[id])
                                           else if id !in ma then StampOf(mb[id])
                                           else Max(StampOf(ma[id]), StampOf(mb[id])))
  {
    assert forall g :: g in ga + gb <==> g in ga || g in gb;
    if id in ma { assert ma[id] in ga + gb; }
    if id in mb { assert mb[id] in ga + gb; }
    if id in m {
      var g := m[id];
      assert g in ga || g in gb;
      if id in ma { LaterOrder(StampOf(ma[id]), StampOf(g), StampOf(g)); }
      if id in mb { LaterOrder(StampOf(mb[id]), StampOf(g), StampOf(g)); }
      if id in ma && id in mb { LaterOrder(StampOf(ma[id]), StampOf(mb[id]), StampOf(g)); }
    }
  }

  /** Merging is joining, on views. */
  lemma MergeIsJoin(a: GroupData, b: GroupData)
    ensures ViewOf(Merged(a, b)) == JoinViews(ViewOf(a), ViewOf(b))
  {
    MergedContents(a, b);
    MergedBookBest(a, b);
    ListedBookIsBest(Merged(a, b), MergedBook(a, b));
    forall id ensures var m, j := MergedBook(a, b), JoinBest(ViewOf(a), ViewOf(b));
                      (id in m <==> id in j) && (id in m ==> StampOf(m[id]) == j[id])
    {
      MergeAt(a, b, id);
    }
    assert Stamps(MergedBook(a, b)) == JoinBest(ViewOf(a), ViewOf(b));
  }

  ghost function GroupMerge(): MB.Merge<GroupData, View> {
    MB.Merge((a: GroupData, b: GroupData) => Some(Merged(a, b)), ViewOf, JoinViews)
  }

  /** MergeGroups meets the contract SyncMergedBlob asks of its merge. */
  lemma GroupMergeConvergent()
    ensures MB.Convergent(GroupMerge())
  {
    ViewsFormSemilattice();
    forall a: GroupData, b: GroupData
      ensures GroupMerge().view(Merged(a, b)) == GroupMerge().join(GroupMerge().view(a), GroupMerge().view(b))
    {
      MergeIsJoin(a, b);
    }
  }

  // ----- merge trees -----

  datatype Tree = Leaf(data: GroupData) | Node(left: Tree, right: Tree)

  ghost function Eval(t: Tree): GroupData {
    match t
    case Leaf(d) => d
    case Node(l, r) => Merged(Eval(l), Eval(r))
  }

  function Leaves(t: Tree): seq<GroupData> {
    match t
    case Leaf(d) => [d]
    case Node(l, r) => Leaves(l) + Leaves(r)
  }

  /** However devices merge, the outcome's view holds each input's view ... */
  lemma {:induction false} TreeKeepsLeaves(t: Tree, d: GroupData)
    requires d in Leaves(t)
    ensures MB.Below(JoinViews, ViewOf(d), ViewOf(Eval(t)))
  {
    ViewsFormSemilattice();
    var v := ViewOf(d);
    match t
    case Leaf(_) => MB.BelowOrder(JoinViews, v, v, v);
    case Node(l, r) =>
      MergeIsJoin(Eval(l), Eval(r));
      var vl, vr := ViewOf(Eval(l)), ViewOf(Eval(r));
      MB.BelowOrder(JoinViews, vl, vr, v);
      if d in Leaves(l) {
        TreeKeepsLeaves(l, d);
        MB.BelowOrder(JoinViews, v, vl, JoinViews(vl, vr));
      } else {
        TreeKeepsLeaves(r, d);
        MB.BelowOrder(JoinViews, v, vr, JoinViews(vl, vr));
      }
  }

  /** ... and nothing more. */
  lemma {:induction false} TreeIsLeast(t: Tree, bound: View)
    requires forall d :: d in Leaves(t) ==> MB.Below(JoinViews, ViewOf(d), bound)
    ensures MB.Below(JoinViews, ViewOf(Eval(t)), bound)
  {
    match t
    case Leaf(d) => assert d in Leaves(t);
    case Node(l, r) =>
      TreeIsLeast(l, bound);
      TreeIsLeast(r, bound);
      MergeIsJoin(Eval(l), Eval(r));
      ViewsFormSemilattice();
      MB.BelowOrder(JoinViews, ViewOf(Eval(l)), ViewOf(Eval(r)), bound);
  }

  /** Any two ways of merging the same inputs, in any order, grouping and
      repetition, agree on the view. */
  lemma TreesConverge(s: Tree, t: Tree)
    requires forall d :: d in Leaves(s) <==> d in Leaves(t)
    ensures ViewOf(Eval(s)) == ViewOf(Eval(t))
  {
    forall d | d in Leaves(s) ensures MB.Below(JoinViews, ViewOf(d), ViewOf(Eval(t))) { TreeKeepsLeaves(t, d); }
    forall d | d in Leaves(t) ensures MB.Below(JoinViews, ViewOf(d), ViewOf(Eval(s))) { TreeKeepsLeaves(s, d); }
    TreeIsLeast(s, ViewOf(Eval(t)));
    TreeIsLeast(t, ViewOf(Eval(s)));
    ViewsFormSemilattice();
    MB.BelowOrder(JoinViews, ViewOf(Eval(s)), ViewOf(Eval(t)), ViewOf(Eval(s)));
  }

  /** A deleted group cannot be resurrected: an id tombstoned in any input is
      tombstoned in, and absent from, every merge that input went into. */
  lemma TombstonesStick(t: Tree, d: GroupData, id: string)
    requires t.Node? && d in Leaves(t) && id in d.deleted
    ensures id in Eval(t).deleted
    ensures forall g :: g in Eval(t).groups ==> g.id != id
  {
    TreeKeepsLeaves(t, d);
    assert id in ViewOf(d).tombs;
    assert id in JoinViews(ViewOf(d), ViewOf(Eval(t))).tombs;
    MergedContents(Eval(t.left), Eval(t.right));
    MergedBookBest(Eval(t.left), Eval(t.right));
  }

  // ----- merging is commutative on views, not on the bytes -----

  lemma {:induction false} TakeOver(m: Book, gs: seq<Group>, gone: set<string>, id: string)
    ensures var x, y := Take(m, gs, gone), Take(map[], gs, gone);
            && (id in x <==> id in m || id in y)
            && (id in x ==> x[id] == if id !in m then y[id]
                                     else if id in y && WinsOver(y[id], m[id]) then y[id] else m[id])
  {
    if gs != [] {
      var l := |gs| - 1;
      TakeOver(m, gs[..l], gone, id);
      var g, y := gs[l], Take(map[], gs[..l], gone);
      if g.id == id && id in m && id in y {
        LaterOrder(StampOf(g), StampOf(y[id]), StampOf(m[id]));
        LaterOrder(StampOf(g), StampOf(m[id]), StampOf(y[id]));
        LaterOrder(StampOf(y[id]), StampOf(m[id]), StampOf(g));
        LaterOrder(StampOf(y[id]), StampOf(g), StampOf(m[id]));
      }
    }
  }

  /** Both sides hold a live copy of id whose stamps tie although the copies
      differ, for instance in the order of their members. */
  ghost predicate Undecided(a: GroupData, b: GroupData, id: string) {
    var gone := SetOf(a.deleted) + SetOf(b.deleted);
    var x, y := Take(map[], a.groups, gone), Take(map[], b.groups, gone);
    id in x && id in y && StampOf(x[id]) == StampOf(y[id]) && x[id] != y[id]
  }

  lemma MergedBooksAgree(a: GroupData, b: GroupData, id: string)
    ensures var m, n := MergedBook(a, b), MergedBook(b, a);
            && (id in m <==> id in n)
            && (id in m && !Undecided(a, b, id) ==> m[id] == n[id])
            && (Undecided(a, b, id) ==> id in m && m[id] != n[id])
  {
    var gone := SetOf(a.deleted) + SetOf(b.deleted);
    assert gone == SetOf(b.deleted) + SetOf(a.deleted);
    var x, y := Take(map[], a.groups, gone), Take(map[], b.groups, gone);
    TakeOver(x, b.groups, gone, id);
    TakeOver(y, a.groups, gone, id);
    if id in x && id in y {
      LaterOrder(StampOf(x[id]), StampOf(y[id]), StampOf(x[id]));
    }
  }

  /** The two merge orders produce the same bytes exactly when no tie is left
      undecided. */
  lemma MergeCommutesIff(a: GroupData, b: GroupData)
    ensures Merged(a, b) == Merged(b, a) <==> forall id :: !Undecided(a, b, id)
  {
    var m, n := MergedBook(a, b), MergedBook(b, a);
    forall id ensures (id in m <==> id in n) && (Undecided(a, b, id) ==> id in m && m[id] != n[id])
                      && (id in m && !Undecided(a, b, id) ==> m[id] == n[id]) {
      MergedBooksAgree(a, b, id);
    }
    assert SetOf(a.deleted) + SetOf(b.deleted) == SetOf(b.deleted) + SetOf(a.deleted);
    if Merged(a, b) == Merged(b, a) {
      MergedContents(a, b);
      MergedContents(b, a);
      MergedBookBest(a, b);
      MergedBookBest(b, a);
      ListedBookIsBest(Merged(a, b), m);
      ListedBookIsBest(Merged(b, a), n);
    }
    if forall id :: !Undecided(a, b, id) {
      assert m == n;
    }
  }

  lemma SingleUndecided(g: Group, h: Group)
    requires g.id == h.id && StampOf(g) == StampOf(h) && g != h
    ensures Undecided(GroupData([g], []), GroupData([h], []), g.id)
  {
    assert SetOf([]) + SetOf([]) == {};
    assert [g][..0] == [] && [h][..0] == [];
    assert Take(map[], [g], {}) == map[g.id := g];
    assert Take(map[], [h], {}) == map[h.id := h];
  }

  /** Two copies of a group that list the same members in another order: the
      merges agree on the view and differ in content. */
  lemma PermutedMembersDoNotCommute(g: Group, members: seq<string>)
    requires multiset(members) == multiset(g.members) && members != g.members
    ensures var a, b := GroupData([g], []), GroupData([g.(members := members)], []);
            ViewOf(Merged(a, b)) == ViewOf(Merged(b, a)) && Merged(a, b) != Merged(b, a)
  {
    var h := g.(members := members);
    var a, b := GroupData([g], []), GroupData([h], []);
    CanonicalIgnoresMemberOrder(g, members);
    MergeIsJoin(a, b);
    MergeIsJoin(b, a);
    JoinCommutes(ViewOf(a), ViewOf(b));
    SingleUndecided(g, h);
    MergeCommutesIff(a, b);
  }

  // ----- the code -----

  method MergeGroups(a: GroupData, b: GroupData) returns (out: GroupData)
    ensures out == Merged(a, b)
  {
    var deleted: set<string> := {};
    for i := 0 to |a.deleted|
      invariant deleted == SetOf(a.deleted[..i])
    {
      deleted := deleted + {a.deleted[i]};
    }
    assert a.deleted[..|a.deleted|] == a.deleted;
    for i := 0 to |b.deleted|
      invariant deleted == SetOf(a.deleted) + SetOf(b.deleted[..i])
    {
      deleted := deleted + {b.deleted[i]};
    }
    assert b.deleted[..|b.deleted|] == b.deleted;
    var byID := TakeLoop(map[], a.groups, deleted);
    byID := TakeLoop(byID, b.groups, deleted);
    MergedBookBest(a, b);
    var groups := SortedGroups(byID);
    var tomb := SortedStrings(deleted);
    out := GroupData(groups, tomb);
  }

  method SortedGroups(byID: Book) returns (out: seq<Group>)
    requires Keyed(byID)
    ensures out == Sort(ListGroups(byID), GroupBefore)
  {
    var groups: seq<Group> := [];
    var ids := byID.Keys;
    while ids != {}
      invariant ids <= byID.Keys
      invariant Lists(groups, byID - ids)
      decreases ids
    {
      var id :| id in ids;
      ListsAppend(groups, byID, ids, id);
      groups := groups + [byID[id]];
      ids := ids - {id};
    }
    assert byID - {} == byID;
    out := Sort(groups, GroupBefore);
    SameSort(groups, byID);
  }

  lemma SameSort(groups: seq<Group>, m: Book)
    requires Keyed(m) && Lists(groups, m)
    ensures Sort(groups, GroupBefore) == Sort(ListGroups(m), GroupBefore)
  {
    ListGroupsOf(m);
    ListsPermute(groups, ListGroups(m), m);
    ListsTieFree(groups, m);
    GroupOrdering();
    SortPermutation(groups, ListGroups(m), GroupBefore);
  }

  method TakeLoop(m: Book, gs: seq<Group>, gone: set<string>) returns (byID: Book)
    ensures byID == Take(m, gs, gone)
  {
    byID := m;
    for i := 0 to |gs|
      invariant byID == Take(m, gs[..i], gone)
    {
      assert gs[..i + 1][..i] == gs[..i];
      var g := gs[i];
      if g.id in gone { continue; }
      if g.id !in byID || WinsOver(g, byID[g.id]) {
        byID := byID[g.id := g];
      }
    }
    assert gs[..|gs|] == gs;
  }

  lemma ListsAppend(gs: seq<Group>, m: Book, ids: set<string>, id: string)
    requires Keyed(m) && id in ids && ids <= m.Keys && Lists(gs, m - ids)
    ensures Lists(gs + [m[id]], m - (ids - {id}))
  {
    var out, n := gs + [m[id]], m - (ids - {id});
    forall g | g in out ensures g.id in n && n[g.id] == g {
      assert g == m[id] || g in gs;
    }
    forall i, j | 0 <= i < j < |out| ensures out[i].id != out[j].id {
      assert out[i] == gs[i] && gs[i] in gs;
      assert j < |gs| ==> out[j] == gs[j];
    }
    forall x | x in n ensures n[x] in out {
      assert x != id ==> x in m - ids && (m - ids)[x] == n[x];
    }
  }
}
