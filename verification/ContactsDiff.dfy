/** diffContacts and contactsSorted as loops over maps and lists. */
module ContactsDiff {
  import opened Lex
  import opened Sorting
  import opened OpLog

  predicate OpBefore(a: ContactOp, b: ContactOp) { AtMost(a.id, b.id) }

  predicate ContactBefore(a: Contact, b: Contact) { AtMost(a.alias, b.alias) }

  /** The unsorted batch once the aliases in done have been looked at. */
  ghost predicate RawDiff(raw: seq<ContactOp>, prev: Book, cur: Book, done: set<string>) {
    && (forall i, j :: 0 <= i < j < |raw| ==> raw[i].id != raw[j].id)
    && (forall i :: 0 <= i < |raw| ==>
          raw[i].id in done && At(prev, raw[i].id) != At(cur, raw[i].id) && raw[i] == DiffOp(cur, raw[i].id))
    && (forall k :: k in done && At(prev, k) != At(cur, k) ==> k in Ids(raw))
  }

  lemma RawStep(raw: seq<ContactOp>, prev: Book, cur: Book, done: set<string>, k: string)
    requires RawDiff(raw, prev, cur, done) && k !in done
    ensures At(prev, k) == At(cur, k) ==> RawDiff(raw, prev, cur, done + {k})
    ensures At(prev, k) != At(cur, k) ==> RawDiff(raw + [DiffOp(cur, k)], prev, cur, done + {k})
  {
    if At(prev, k) != At(cur, k) {
      var r := raw + [DiffOp(cur, k)];
      assert r[|raw|].id == k;
      forall x | x in done + {k} && At(prev, x) != At(cur, x) ensures x in Ids(r) {
        if x != k {
          var i :| 0 <= i < |raw| && raw[i].id == x;
          assert r[i].id == x;
        }
      }
    }
  }

  lemma SortedRawAscends(raw: seq<ContactOp>, out: seq<ContactOp>)
    requires (forall i, j :: 0 <= i < j < |raw| ==> raw[i].id != raw[j].id)
    requires Sorted(out, OpBefore) && multiset(out) == multiset(raw)
    ensures forall i, j :: 0 <= i < j < |out| ==> Less(out[i].id, out[j].id)
  {
    PermutedDistinct(raw, out, (op: ContactOp) => op.id);
    forall i, j | 0 <= i < j < |out| ensures Less(out[i].id, out[j].id) {
      assert OpBefore(out[i], out[j]);
      LessTotal(out[i].id, out[j].id);
    }
  }

  lemma SortedRawHolds(raw: seq<ContactOp>, out: seq<ContactOp>, op: ContactOp)
    requires multiset(out) == multiset(raw)
    ensures op in out <==> op in raw
  {
    assert op in multiset(out) <==> op in multiset(raw);
  }

  lemma SortedRawIsDiff(raw: seq<ContactOp>, out: seq<ContactOp>, prev: Book, cur: Book, done: set<string>)
    requires RawDiff(raw, prev, cur, done) && prev.Keys <= done && cur.Keys <= done
    requires out == Sort(raw, OpBefore)
    ensures IsDiff(out, prev, cur)
  {
    AtMostTotalOrder();
    SortCorrect(raw, OpBefore);
    SortedRawAscends(raw, out);
    forall i | 0 <= i < |out|
      ensures At(prev, out[i].id) != At(cur, out[i].id) && out[i] == DiffOp(cur, out[i].id)
    {
      SortedRawHolds(raw, out, out[i]);
    }
    forall k | At(prev, k) != At(cur, k) ensures k in Ids(out) {
      var i :| 0 <= i < |raw| && raw[i].id == k;
      SortedRawHolds(raw, out, raw[i]);
    }
  }

  /** diffContacts: puts for new or changed contacts, tombstones for removed
      ones, sorted by id. With distinct local aliases it is the diff. */
  method DiffContacts(shadow: seq<Contact>, local: seq<Contact>) returns (out: seq<ContactOp>)
    ensures Distinct(local) ==> IsDiff(out, ByID(shadow), ByID(local))
  {
    var prev := ContactsByID(shadow);
    ghost var cur := ByID(local);
    var raw: seq<ContactOp> := [];
    var seen: set<string> := {};
    if Distinct(local) { ByIDDistinct(local); }
    for i := 0 to |local|
      invariant seen == set j | 0 <= j < i :: local[j].alias
      invariant Distinct(local) ==> RawDiff(raw, prev, cur, seen)
    {
      var ct := local[i];
      if Distinct(local) { RawStep(raw, prev, cur, seen, ct.alias); }
      seen := seen + {ct.alias};
      if !(ct.alias in prev && prev[ct.alias] == ct) {
        raw := raw + [Put(ct.alias, ct)];
      }
    }
    ByIDKeyed(local);
    var todo := prev.Keys;
    while todo != {}
      invariant todo <= prev.Keys
      invariant Distinct(local) ==> RawDiff(raw, prev, cur, seen + (prev.Keys - todo))
      decreases todo
    {
      var id :| id in todo;
      ghost var done := seen + (prev.Keys - todo);
      todo := todo - {id};
      if id !in seen {
        if Distinct(local) { RawStep(raw, prev, cur, done, id); }
        raw := raw + [Del(id)];
      }
      assert seen + (prev.Keys - todo) == done + {id};
      assert id in seen ==> done + {id} == done;
    }
    out := Sort(raw, OpBefore);
    if Distinct(local) {
      SortedRawIsDiff(raw, out, prev, cur, seen + (prev.Keys - todo));
    }
  }

  /** contactsSorted */
  method ContactsSorted(m: Book) returns (out: seq<Contact>)
    ensures Keyed(m) ==> ListOf(out, m)
  {
    var raw: seq<Contact> := [];
    var todo := m.Keys;
    while todo != {}
      invariant todo <= m.Keys
      invariant Keyed(m) ==> Distinct(raw)
      invariant Keyed(m) ==> forall c :: c in raw <==> c.alias in m.Keys - todo && m[c.alias] == c
      decreases todo
    {
      var k :| k in todo;
      todo := todo - {k};
      raw := raw + [m[k]];
    }
    out := Sort(raw, ContactBefore);
    if Keyed(m) {
      SortedListOf(raw, out, m);
    }
  }

  lemma SortedListOf(raw: seq<Contact>, out: seq<Contact>, m: Book)
    requires Distinct(raw) && Keyed(m) && out == Sort(raw, ContactBefore)
    requires forall c :: c in raw <==> c.alias in m && m[c.alias] == c
    ensures ListOf(out, m)
  {
    AtMostTotalOrder();
    SortCorrect(raw, ContactBefore);
    PermutedDistinct(raw, out, (c: Contact) => c.alias);
    assert forall c :: c in out <==> c in raw by {
      forall c ensures c in out <==> c in raw { assert c in multiset(out) <==> c in multiset(raw); }
    }
    forall i, j | 0 <= i < j < |out| ensures Less(out[i].alias, out[j].alias) {
      assert ContactBefore(out[i], out[j]);
      LessTotal(out[i].alias, out[j].alias);
    }
    ByIDDistinct(out);
    ByIDKeyed(out);
    forall k ensures At(ByID(out), k) == At(m, k) {
      if k in m {
        assert m[k] in out;
        var i :| 0 <= i < |out| && out[i] == m[k];
      }
    }
    SameBook(ByID(out), m);
  }
}
