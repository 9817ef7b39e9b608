/** Which copy of a group a merge keeps, in terms of time, name and members. */
module GroupWinners {
  import opened Lex
  import opened Sorting
  import opened Groups

  const NUL := '\0'

  /** Names are free of the separator, members non-empty and free of theirs. */
  predicate PlainId(id: string) { id != "" && ',' !in id }

  predicate Plain(g: Group) {
    NUL !in g.name && forall i :: 0 <= i < |g.members| ==> PlainId(g.members[i])
  }

  /** Up to a separator that neither has, strings with one tail after it are compared part by part. */
  lemma SplitUnique(a: string, b: string, x: string, y: string, c: char)
    requires c !in a && c !in b && a + [c] + x == b + [c] + y
    ensures a == b && x == y
  {
    var s, t := a + [c] + x, b + [c] + y;
    assert s[|a|] == c && t[|b|] == c;
    assert |a| == |b|;
    assert s[..|a|] == a && t[..|b|] == b && s[|a| + 1..] == x && t[|b| + 1..] == y;
  }

  lemma NoSeparator(a: string, b: string, y: string, c: char)
    requires c !in a
    ensures a != b + [c] + y
  {
    assert (b + [c] + y)[|b|] == c;
  }

  predicate PlainIds(ids: seq<string>) { forall i :: 0 <= i < |ids| ==> PlainId(ids[i]) }

  lemma {:induction false} JoinInjective(a: seq<string>, b: seq<string>)
    requires PlainIds(a) && PlainIds(b) && JoinWith(a, ",") == JoinWith(b, ",")
    ensures a == b
  {
    if a == [] || b == [] {
      assert a == [] || JoinWith(a, ",") != "";
      assert b == [] || JoinWith(b, ",") != "";
    } else if |a| == 1 && |b| == 1 {
    } else if |a| == 1 {
      NoSeparator(a[0], b[0], JoinWith(b[1..], ","), ',');
    } else if |b| == 1 {
      NoSeparator(b[0], a[0], JoinWith(a[1..], ","), ',');
    } else {
      SplitUnique(a[0], b[0], JoinWith(a[1..], ","), JoinWith(b[1..], ","), ',');
      JoinInjective(a[1..], b[1..]);
      assert a == [a[0]] + a[1..] && b == [b[0]] + b[1..];
    }
  }

  lemma SortedIds(ids: seq<string>)
    requires PlainIds(ids)
    ensures PlainIds(Sort(ids, AtMost)) && multiset(Sort(ids, AtMost)) == multiset(ids)
  {
    AtMostTotalOrder();
    SortCorrect(ids, AtMost);
    forall i | 0 <= i < |Sort(ids, AtMost)| ensures PlainId(Sort(ids, AtMost)[i]) {
      assert Sort(ids, AtMost)[i] in multiset(ids);
    }
  }

  /** Canonical content is the name and the members, in no order. */
  lemma CanonicalExact(g: Group, h: Group)
    requires Plain(g) && Plain(h)
    ensures Canonical(g) == Canonical(h) <==> g.name == h.name && multiset(g.members) == multiset(h.members)
  {
    SortedIds(g.members);
    SortedIds(h.members);
    var x, y := JoinWith(Sort(g.members, AtMost), ","), JoinWith(Sort(h.members, AtMost), ",");
    if Canonical(g) == Canonical(h) {
      SplitUnique(g.name, h.name, x, y, NUL);
      JoinInjective(Sort(g.members, AtMost), Sort(h.members, AtMost));
    }
    if g.name == h.name && multiset(g.members) == multiset(h.members) {
      AtMostTotalOrder();
      SortPermutation(g.members, h.members, AtMost);
    }
  }

  // ----- ties -----

  lemma {:induction false} LessAppended(a: string, b: string, x: string, y: string)
    requires NUL !in a && NUL !in b && Less(a, b)
    ensures Less(a + [NUL] + x, b + [NUL] + y)
  {
    var s, t := a + [NUL] + x, b + [NUL] + y;
    assert s[0] == (if a == [] then NUL else a[0]) && t[0] == b[0] && b[0] in b;
    if a != [] && a[0] == b[0] {
      LessAppended(a[1..], b[1..], x, y);
      assert s[1..] == a[1..] + [NUL] + x && t[1..] == b[1..] + [NUL] + y;
    }
  }

  lemma {:induction false} LessSamePrefix(a: string, x: string, y: string)
    ensures Less(a + x, a + y) <==> Less(x, y)
  {
    if a == [] {
      assert a + x == x && a + y == y;
    } else {
      LessSamePrefix(a[1..], x, y);
      assert (a + x)[1..] == a[1..] + x && (a + y)[1..] == a[1..] + y;
    }
  }

  /** The members in order, as compared. */
  function Listed(g: Group): string { JoinWith(Sort(g.members, AtMost), ",") }

  /** The later copy wins; of two made at one time, the one with the greater name; of two with one
      name, the one with the greater list of members. */
  lemma WinsOverExact(g: Group, cur: Group)
    requires NUL !in g.name && NUL !in cur.name
    ensures WinsOver(g, cur) <==>
              || g.updatedAt > cur.updatedAt
              || (g.updatedAt == cur.updatedAt && Less(cur.name, g.name))
              || (g.updatedAt == cur.updatedAt && cur.name == g.name && Less(Listed(cur), Listed(g)))
  {
    if Less(cur.name, g.name) {
      LessAppended(cur.name, g.name, Listed(cur), Listed(g));
    } else if cur.name == g.name {
      LessSamePrefix(g.name + [NUL], Listed(cur), Listed(g));
    } else {
      LessTotal(cur.name, g.name);
      LessAppended(g.name, cur.name, Listed(g), Listed(cur));
      LessAsymmetric(Canonical(g), Canonical(cur));
      LessAsymmetric(g.name, cur.name);
    }
  }

  /** No copy of g among the inputs is newer; of those as new, none has a greater name, and none
      with its name a greater list of members. */
  ghost predicate Newest(g: Group, gs: seq<Group>) {
    forall h :: h in gs && h.id == g.id ==>
      && h.updatedAt <= g.updatedAt
      && (h.updatedAt == g.updatedAt ==> AtMost(h.name, g.name))
      && (h.updatedAt == g.updatedAt && h.name == g.name ==> AtMost(Listed(h), Listed(g)))
  }

  predicate PlainNames(d: GroupData) { forall g :: g in d.groups ==> NUL !in g.name }

  /** What a merge keeps: of every id that neither side has deleted, one copy, and that the
      newest. */
  lemma MergeKeepsNewest(a: GroupData, b: GroupData, id: string)
    requires PlainNames(a) && PlainNames(b)
    ensures (exists g :: g in Merged(a, b).groups && g.id == id) <==>
              id !in a.deleted && id !in b.deleted && exists g :: g in a.groups + b.groups && g.id == id
    ensures forall g :: g in Merged(a, b).groups ==> g in a.groups + b.groups && Newest(g, a.groups + b.groups)
  {
    var m, gone := MergedBook(a, b), SetOf(a.deleted) + SetOf(b.deleted);
    MergedContents(a, b);
    MergedBookBest(a, b);
    forall g | g in Merged(a, b).groups ensures g in a.groups + b.groups && Newest(g, a.groups + b.groups) {
      forall h | h in a.groups + b.groups && h.id == g.id
        ensures !WinsOver(h, g) && NUL !in h.name && NUL !in g.name
      {
        assert m[g.id] == g;
      }
      forall h | h in a.groups + b.groups && h.id == g.id
        ensures h.updatedAt <= g.updatedAt
        ensures h.updatedAt == g.updatedAt ==> AtMost(h.name, g.name)
        ensures h.updatedAt == g.updatedAt && h.name == g.name ==> AtMost(Listed(h), Listed(g))
      {
        WinsOverExact(h, g);
      }
    }
    if id in m {
      assert m[id] in Merged(a, b).groups && m[id].id == id;
    }
  }

  /** The same group, however its members are listed. */
  predicate SameGroup(g: Group, h: Group) {
    g.id == h.id && g.updatedAt == h.updatedAt && g.name == h.name && multiset(g.members) == multiset(h.members)
  }

  /** Both merge orders keep the same groups. */
  lemma MergeOrdersAgree(a: GroupData, b: GroupData, g: Group)
    requires (forall x :: x in a.groups + b.groups ==> Plain(x)) && g in Merged(a, b).groups
    ensures exists h :: h in Merged(b, a).groups && SameGroup(g, h)
  {
    var m, n := MergedBook(a, b), MergedBook(b, a);
    MergedContents(a, b);
    MergedContents(b, a);
    MergedBookBest(a, b);
    MergedBookBest(b, a);
    MergeAt(a, b, g.id);
    MergeAt(b, a, g.id);
    JoinCommutes(ViewOf(a), ViewOf(b));
    var h := n[g.id];
    assert forall x :: x in b.groups + a.groups ==> x in a.groups + b.groups;
    assert StampOf(g) == StampOf(h);
    CanonicalExact(g, h);
    assert h in Merged(b, a).groups;
  }

  /** Of two copies that tie although they differ, the first side's stays. */
  lemma TiesKeepFirst(a: GroupData, b: GroupData, id: string)
    requires Undecided(a, b, id)
    ensures var gone := SetOf(a.deleted) + SetOf(b.deleted);
      && id in MergedBook(a, b) && MergedBook(a, b)[id] == Take(map[], a.groups, gone)[id]
      && MergedBook(a, b)[id] in a.groups
  {
    var gone := SetOf(a.deleted) + SetOf(b.deleted);
    var x, y := Take(map[], a.groups, gone), Take(map[], b.groups, gone);
    TakeOver(x, b.groups, gone, id);
    LaterOrder(StampOf(y[id]), StampOf(x[id]), StampOf(x[id]));
    TakeBest(map[], [], a.groups, gone);
    assert [] + a.groups == a.groups;
  }

  /** Groups are listed by name, those of one name by id; tombstones in order. */
  lemma ListedInOrder(a: GroupData, b: GroupData, i: nat, j: nat)
    ensures var gs := Merged(a, b).groups;
      i < j < |gs| ==>
        && gs[i].id != gs[j].id
        && (Less(gs[i].name, gs[j].name) || (gs[i].name == gs[j].name && Less(gs[i].id, gs[j].id)))
    ensures var ds := Merged(a, b).deleted; i < j < |ds| ==> Less(ds[i], ds[j]) || ds[i] == ds[j]
  {
    MergedContents(a, b);
    var gs, ds := Merged(a, b).groups, Merged(a, b).deleted;
    if i < j < |gs| {
      assert GroupBefore(gs[i], gs[j]);
      LessTotal(gs[i].id, gs[j].id);
    }
    if i < j < |ds| {
      assert AtMost(ds[i], ds[j]);
      LessTotal(ds[i], ds[j]);
    }
  }
}
