/** The contact op log: what one op does, what a log means, how a store is
    diffed against its shadow, and how ops that raced an append are repaired. */
module OpLog {
  import opened Wrappers
  import opened Lex
  import opened Sorting

  /** A contact as the engine sees it: its alias (the store's key) and the rest
      of its JSON. Two contacts are equal exactly when their JSON is. */
  datatype Contact = Contact(alias: string, data: string)

  /** A decrypted op envelope. `Noise` is an envelope with an unknown verb or an
      unparsable contact, which the engine skips. */
  datatype ContactOp = Put(id: string, contact: Contact) | Del(id: string) | Noise(id: string)

  type Book = map<string, Contact>

  /** applyPlainOp */
  function Apply(m: Book, op: ContactOp): Book {
    match op
    case Put(id, c) => m[id := c]
    case Del(id) => m - {id}
    case Noise(_) => m
  }

  /** In-order application: what a stretch of log means on top of m. */
  function Replay(m: Book, ops: seq<ContactOp>): Book {
    if ops == [] then m else Apply(Replay(m, ops[..|ops| - 1]), ops[|ops| - 1])
  }

  /** In-order application that ignores the ids in skip. */
  function ReplaySkip(m: Book, ops: seq<ContactOp>, skip: set<string>): Book {
    if ops == [] then m
    else
      var rest := ReplaySkip(m, ops[..|ops| - 1], skip);
      var op := ops[|ops| - 1];
      if op.id in skip then rest else Apply(rest, op)
  }

  function Ids(ops: seq<ContactOp>): set<string> {
    set i | 0 <= i < |ops| :: ops[i].id
  }

  /** The op decides its id's value. */
  predicate Decisive(op: ContactOp) { !op.Noise? }

  function At(m: Book, k: string): Option<Contact> {
    if k in m then Some(m[k]) else None
  }

  /** What the last decisive op on k leaves there, if there is one. */
  function LastWrite(ops: seq<ContactOp>, k: string): Option<Option<Contact>> {
    if ops == [] then None
    else
      var op := ops[|ops| - 1];
      if op.id == k && Decisive(op) then Some(if op.Put? then Some(op.contact) else None)
      else LastWrite(ops[..|ops| - 1], k)
  }

  /** Last writer wins: replay at one alias is its last decisive op. */
  lemma {:induction false} ReplayAt(m: Book, ops: seq<ContactOp>, k: string)
    ensures At(Replay(m, ops), k) ==
            (if LastWrite(ops, k).Some? then LastWrite(ops, k).value else At(m, k))
  {
    if ops != [] {
      ReplayAt(m, ops[..|ops| - 1], k);
    }
  }

  lemma {:induction false} ReplaySkipAt(m: Book, ops: seq<ContactOp>, skip: set<string>, k: string)
    ensures At(ReplaySkip(m, ops, skip), k) ==
            (if k !in skip && LastWrite(ops, k).Some? then LastWrite(ops, k).value else At(m, k))
  {
    if ops != [] {
      ReplaySkipAt(m, ops[..|ops| - 1], skip, k);
    }
  }

  lemma SameBook(a: Book, b: Book)
    requires forall k :: At(a, k) == At(b, k)
    ensures a == b
  {
    forall k ensures (k in a <==> k in b) && (k in a ==> a[k] == b[k]) {
      assert At(a, k) == At(b, k);
    }
  }

  lemma {:induction false} ReplayConcat(m: Book, a: seq<ContactOp>, b: seq<ContactOp>)
    ensures Replay(m, a + b) == Replay(Replay(m, a), b)
  {
    if b == [] {
      assert a + b == a;
    } else {
      assert (a + b)[..|a + b| - 1] == a + b[..|b| - 1];
      ReplayConcat(m, a, b[..|b| - 1]);
    }
  }

  lemma {:induction false} LastWriteConcat(a: seq<ContactOp>, b: seq<ContactOp>, k: string)
    ensures LastWrite(a + b, k) == (if LastWrite(b, k).Some? then LastWrite(b, k) else LastWrite(a, k))
  {
    if b == [] {
      assert a + b == a;
    } else {
      assert (a + b)[..|a + b| - 1] == a + b[..|b| - 1];
      LastWriteConcat(a, b[..|b| - 1], k);
    }
  }

  /** Replaying a stretch again, or from any earlier point, changes nothing: a
      store that already holds `a + b` may safely be fed `b + c`. */
  lemma ReplayOverlap(m: Book, a: seq<ContactOp>, b: seq<ContactOp>, c: seq<ContactOp>)
    ensures Replay(Replay(m, a + b), b + c) == Replay(m, a + b + c)
  {
    var l, r := Replay(Replay(m, a + b), b + c), Replay(m, a + b + c);
    forall k ensures At(l, k) == At(r, k) {
      ReplayAt(Replay(m, a + b), b + c, k);
      ReplayAt(m, a + b, k);
      ReplayAt(m, a + b + c, k);
      LastWriteConcat(a, b, k);
      LastWriteConcat(b, c, k);
      LastWriteConcat(a + b, c, k);
    }
    SameBook(l, r);
  }

  /** Every id the batch touches is decided by the batch. */
  ghost predicate DecidesItsIds(local: seq<ContactOp>) {
    forall k :: k in Ids(local) ==> LastWrite(local, k).Some?
  }

  lemma {:induction false} DecisiveDecides(ops: seq<ContactOp>)
    requires forall i :: 0 <= i < |ops| ==> Decisive(ops[i])
    ensures DecidesItsIds(ops)
  {
    if ops != [] {
      DecisiveDecides(ops[..|ops| - 1]);
      forall k | k in Ids(ops) ensures LastWrite(ops, k).Some? {
        if ops[|ops| - 1].id != k {
          assert k in Ids(ops[..|ops| - 1]);
        }
      }
    }
  }

  lemma {:induction false} LastWriteTouches(ops: seq<ContactOp>, k: string)
    ensures LastWrite(ops, k).Some? ==> k in Ids(ops)
  {
    if ops != [] && !(ops[|ops| - 1].id == k && Decisive(ops[|ops| - 1])) {
      LastWriteTouches(ops[..|ops| - 1], k);
      assert forall x :: x in Ids(ops[..|ops| - 1]) ==> x in Ids(ops);
    }
  }

  /** Race-gap repair. Local ops are applied first and the ops that slipped in
      ahead of them afterwards, skipping touched ids; log order would be the other
      way round. */
  lemma GapRepairSound(m: Book, gap: seq<ContactOp>, local: seq<ContactOp>)
    requires DecidesItsIds(local)
    ensures ReplaySkip(Replay(m, local), gap, Ids(local)) == Replay(m, gap + local)
  {
    var l, r := ReplaySkip(Replay(m, local), gap, Ids(local)), Replay(m, gap + local);
    forall k ensures At(l, k) == At(r, k) {
      ReplaySkipAt(Replay(m, local), gap, Ids(local), k);
      ReplayAt(m, local, k);
      ReplayAt(m, gap + local, k);
      LastWriteConcat(gap, local, k);
      LastWriteTouches(local, k);
    }
    SameBook(l, r);
  }

  /** ... and it is sound for every store and every gap only for such batches. */
  lemma GapRepairExact(local: seq<ContactOp>)
    ensures (forall m: Book, gap: seq<ContactOp> ::
               ReplaySkip(Replay(m, local), gap, Ids(local)) == Replay(m, gap + local))
            <==> DecidesItsIds(local)
  {
    if DecidesItsIds(local) {
      forall m: Book, gap: seq<ContactOp>
        ensures ReplaySkip(Replay(m, local), gap, Ids(local)) == Replay(m, gap + local)
      {
        GapRepairSound(m, gap, local);
      }
    } else {
      var k :| k in Ids(local) && LastWrite(local, k).None?;
      var gap := [Put(k, Contact(k, ""))];
      var m: Book := map[];
      ReplaySkipAt(Replay(m, local), gap, Ids(local), k);
      ReplayAt(m, local, k);
      ReplayAt(m, gap + local, k);
      LastWriteConcat(gap, local, k);
      assert At(ReplaySkip(Replay(m, local), gap, Ids(local)), k) == None;
      assert gap[..0] == [];
      assert LastWrite(gap, k) == Some(Some(Contact(k, "")));
    }
  }

  // ----- lists and books -----

  /** contactsByID: a later duplicate replaces an earlier one. */
  function ByID(list: seq<Contact>): Book {
    if list == [] then map[]
    else ByID(list[..|list| - 1])[list[|list| - 1].alias := list[|list| - 1]]
  }

  predicate Distinct(list: seq<Contact>) {
    forall i, j :: 0 <= i < j < |list| ==> list[i].alias != list[j].alias
  }

  predicate Keyed(m: Book) {
    forall k :: k in m ==> m[k].alias == k
  }

  predicate KeyedOps(ops: seq<ContactOp>) {
    forall i :: 0 <= i < |ops| && ops[i].Put? ==> ops[i].contact.alias == ops[i].id
  }

  lemma {:induction false} ByIDKeyed(list: seq<Contact>)
    ensures Keyed(ByID(list))
    ensures forall k :: k in ByID(list) ==> ByID(list)[k] in list
    ensures forall i :: 0 <= i < |list| ==> list[i].alias in ByID(list)
  {
    if list != [] {
      ByIDKeyed(list[..|list| - 1]);
    }
  }

  lemma {:induction false} ByIDDistinct(list: seq<Contact>)
    requires Distinct(list)
    ensures forall i :: 0 <= i < |list| ==> list[i].alias in ByID(list) && ByID(list)[list[i].alias] == list[i]
  {
    if list != [] {
      ByIDDistinct(list[..|list| - 1]);
    }
  }

  lemma {:induction false} ReplayKeyed(m: Book, ops: seq<ContactOp>)
    requires Keyed(m) && KeyedOps(ops)
    ensures Keyed(Replay(m, ops))
  {
    if ops != [] {
      ReplayKeyed(m, ops[..|ops| - 1]);
    }
  }

  /** The list contactsSorted produces for a book: aliases ascending. */
  ghost predicate ListOf(list: seq<Contact>, m: Book) {
    && (forall i, j :: 0 <= i < j < |list| ==> Less(list[i].alias, list[j].alias))
    && ByID(list) == m
  }

  lemma ListOfDistinct(list: seq<Contact>, m: Book)
    requires ListOf(list, m)
    ensures Distinct(list)
  {
    forall i, j | 0 <= i < j < |list| ensures list[i].alias != list[j].alias {
      LessIrreflexive(list[i].alias);
    }
  }

  // ----- diff -----

  /** ops turns prev into cur, one op for each alias whose contact changed and
      none for the others, in alias order. */
  ghost predicate IsDiff(ops: seq<ContactOp>, prev: Book, cur: Book) {
    && (forall i, j :: 0 <= i < j < |ops| ==> Less(ops[i].id, ops[j].id))
    && (forall i :: 0 <= i < |ops| ==>
          At(prev, ops[i].id) != At(cur, ops[i].id) && ops[i] == DiffOp(cur, ops[i].id))
    && (forall k :: At(prev, k) != At(cur, k) ==> k in Ids(ops))
  }

  function DiffOp(cur: Book, k: string): ContactOp {
    if k in cur then Put(k, cur[k]) else Del(k)
  }

  /** Diff and replay are inverse. */
  lemma DiffReplays(ops: seq<ContactOp>, prev: Book, cur: Book)
    requires IsDiff(ops, prev, cur)
    ensures Replay(prev, ops) == cur
    ensures DecidesItsIds(ops)
    ensures Keyed(cur) ==> KeyedOps(ops)
    ensures forall i, j :: 0 <= i < j < |ops| ==> ops[i].id != ops[j].id
  {
    DecisiveDecides(ops);
    forall i, j | 0 <= i < j < |ops| ensures ops[i].id != ops[j].id {
      LessIrreflexive(ops[i].id);
    }
    forall k ensures At(Replay(prev, ops), k) == At(cur, k) {
      ReplayAt(prev, ops, k);
      LastWriteTouches(ops, k);
      LastWriteIsDiffOp(ops, cur, k);
    }
    SameBook(Replay(prev, ops), cur);
  }

  lemma {:induction false} LastWriteIsDiffOp(ops: seq<ContactOp>, cur: Book, k: string)
    requires forall i :: 0 <= i < |ops| ==> ops[i] == DiffOp(cur, ops[i].id)
    ensures LastWrite(ops, k).Some? ==> LastWrite(ops, k).value == At(cur, k)
  {
    if ops != [] {
      LastWriteIsDiffOp(ops[..|ops| - 1], cur, k);
    }
  }

  /** An unchanged store yields no op, and only an unchanged store does. */
  lemma DiffEmptyIff(ops: seq<ContactOp>, prev: Book, cur: Book)
    requires IsDiff(ops, prev, cur)
    ensures ops == [] <==> prev == cur
  {
    if ops == [] {
      forall k ensures At(prev, k) == At(cur, k) {
        assert k !in Ids(ops);
      }
      SameBook(prev, cur);
    } else {
      assert At(prev, ops[0].id) != At(cur, ops[0].id);
    }
  }

  predicate Ascending(a: seq<string>) {
    forall i, j :: 0 <= i < j < |a| ==> Less(a[i], a[j])
  }

  /** An ascending list is determined by its set of members. */
  lemma {:induction false} AscendingUnique(a: seq<string>, b: seq<string>)
    requires Ascending(a) && Ascending(b)
    requires forall x :: x in a <==> x in b
    ensures a == b
  {
    assert a != [] ==> a[0] in a;
    assert b != [] ==> b[0] in b;
    if a != [] && b != [] {
      SameHead(a, b);
      forall x ensures x in a[1..] <==> x in b[1..] {
        LessIrreflexive(a[0]);
        assert x in a <==> x in b;
        assert a[0] !in a[1..] && b[0] !in b[1..];
        assert x in a <==> x == a[0] || x in a[1..];
        assert x in b <==> x == b[0] || x in b[1..];
      }
      AscendingUnique(a[1..], b[1..]);
      assert a == [a[0]] + a[1..] && b == [b[0]] + b[1..];
    }
  }

  lemma SameHead(a: seq<string>, b: seq<string>)
    requires a != [] && b != [] && Ascending(a) && Ascending(b)
    requires a[0] in b && b[0] in a
    ensures a[0] == b[0]
  {
    if a[0] != b[0] {
      assert Less(a[0], b[0]) && Less(b[0], a[0]);
      LessAsymmetric(a[0], b[0]);
    }
  }

  /** The batch is determined by the two books: two devices with the same shadow
      and the same store push the same ops. */
  lemma DiffUnique(a: seq<ContactOp>, b: seq<ContactOp>, prev: Book, cur: Book)
    requires IsDiff(a, prev, cur) && IsDiff(b, prev, cur)
    ensures a == b
  {
    var p := seq(|a|, i requires 0 <= i < |a| => a[i].id);
    var q := seq(|b|, i requires 0 <= i < |b| => b[i].id);
    forall x ensures x in p <==> x in q {
      assert x in p <==> x in Ids(a) by { if x in Ids(a) { var i :| 0 <= i < |a| && a[i].id == x; assert p[i] == x; } }
      assert x in q <==> x in Ids(b) by { if x in Ids(b) { var i :| 0 <= i < |b| && b[i].id == x; assert q[i] == x; } }
      assert x in Ids(a) <==> x in Ids(b);
    }
    AscendingUnique(p, q);
    forall i | 0 <= i < |a| ensures a[i] == b[i] {
      assert p[i] == q[i];
    }
  }

  // ----- the code's loops -----

  method ContactsByID(list: seq<Contact>) returns (m: Book)
    ensures m == ByID(list)
  {
    m := map[];
    for i := 0 to |list|
      invariant m == ByID(list[..i])
    {
      m := m[list[i].alias := list[i]];
      assert list[..i + 1][..i] == list[..i];
    }
    assert list[..|list|] == list;
  }

  /** An op as the server returns it. */
  datatype LoggedOp = LoggedOp(seqNo: nat, op: ContactOp)

  function Ops(log: seq<LoggedOp>): seq<ContactOp> {
    seq(|log|, i requires 0 <= i < |log| => log[i].op)
  }

  /** The fetched ops that precede our own append. */
  function Raced(gap: seq<LoggedOp>, firstSeq: nat): seq<ContactOp> {
    if gap == [] || gap[0].seqNo >= firstSeq then [] else [gap[0].op] + Raced(gap[1..], firstSeq)
  }

  /** applyGapOps: stops at the first op of our own append and skips ids we just
      wrote. */
  method ApplyGapOps(base: Book, gap: seq<LoggedOp>, firstSeq: nat, skip: set<string>) returns (m: Book)
    ensures m == ReplaySkip(base, Raced(gap, firstSeq), skip)
  {
    m := base;
    var i := 0;
    while i < |gap|
      invariant 0 <= i <= |gap|
      invariant m == ReplaySkip(base, Ops(gap[..i]), skip)
      invariant Raced(gap, firstSeq) == Ops(gap[..i]) + Raced(gap[i..], firstSeq)
    {
      if gap[i].seqNo >= firstSeq { break; }
      if gap[i].op.id !in skip {
        m := Apply(m, gap[i].op);
      }
      assert Ops(gap[..i + 1])[..i] == Ops(gap[..i]);
      assert gap[i..][1..] == gap[i + 1..];
      i := i + 1;
    }
    assert Raced(gap[i..], firstSeq) == [];
    assert Ops(gap[..i]) + [] == Ops(gap[..i]);
  }
}
