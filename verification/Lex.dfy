/** Strings in Go's order: byte-wise on UTF-8, which is code-point order. */
module Lex {
  import opened Sorting

  /** a comes strictly before b. */
  predicate Less(a: string, b: string) {
    b != [] && (a == [] || a[0] < b[0] || (a[0] == b[0] && Less(a[1..], b[1..])))
  }

  /** They first differ at k, where a ends or has the lower character. */
  predicate DiffersAt(a: string, b: string, k: nat) {
    && k < |b| && k <= |a| && a[..k] == b[..k]
    && (k == |a| || a[k] < b[k])
  }

  /** What that order is. */
  lemma {:induction false} LessExact(a: string, b: string)
    ensures Less(a, b) <==> exists k: nat :: DiffersAt(a, b, k)
  {
    if a != [] && b != [] && a[0] == b[0] {
      LessExact(a[1..], b[1..]);
      if k: nat :| DiffersAt(a[1..], b[1..], k) {
        assert a[..k + 1] == [a[0]] + a[1..][..k] && b[..k + 1] == [b[0]] + b[1..][..k];
        assert DiffersAt(a, b, k + 1);
      }
      if k: nat :| DiffersAt(a, b, k) {
        assert k > 0;
        assert a[1..][..k - 1] == a[..k][1..] && b[1..][..k - 1] == b[..k][1..];
        assert DiffersAt(a[1..], b[1..], k - 1);
      }
    } else if b != [] && (a == [] || a[0] < b[0]) {
      assert DiffersAt(a, b, 0);
    }
  }

  lemma {:induction false} LessIrreflexive(a: string)
    ensures !Less(a, a)
  {
    if a != [] {
      LessIrreflexive(a[1..]);
    }
  }

  lemma {:induction false} LessTransitive(a: string, b: string, c: string)
    requires Less(a, b) && Less(b, c)
    ensures Less(a, c)
  {
    if a != [] && a[0] == b[0] == c[0] {
      LessTransitive(a[1..], b[1..], c[1..]);
    }
  }

  lemma {:induction false} LessTotal(a: string, b: string)
    ensures Less(a, b) || a == b || Less(b, a)
  {
    if a != [] && b != [] && a[0] == b[0] {
      LessTotal(a[1..], b[1..]);
      assert a == [a[0]] + a[1..] && b == [b[0]] + b[1..];
    }
  }

  lemma LessAsymmetric(a: string, b: string)
    requires Less(a, b)
    ensures !Less(b, a)
  {
    if Less(b, a) {
      LessTransitive(a, b, a);
      LessIrreflexive(a);
    }
  }

  /** a comes before b or equals it. */
  predicate AtMost(a: string, b: string) { !Less(b, a) }

  lemma AtMostTotalOrder()
    ensures TotalOrder(AtMost)
  {
    forall a: string, b: string, c: string
      ensures AtMost(a, b) || AtMost(b, a)
      ensures AtMost(a, b) && AtMost(b, a) ==> a == b
      ensures AtMost(a, b) && AtMost(b, c) ==> AtMost(a, c)
    {
      LessTotal(a, b);
      LessTotal(b, c);
      if Less(a, b) { LessAsymmetric(a, b); }
      if Less(c, a) && Less(a, b) { LessTransitive(c, a, b); }
    }
  }

  /** The members of s in some order. */
  ghost function ListStrings(s: set<string>): seq<string> {
    if s == {} then [] else var x :| x in s; [x] + ListStrings(s - {x})
  }

  lemma {:induction false} ListStringsOf(s: set<string>)
    ensures multiset(ListStrings(s)) == multiset(s)
    decreases |s|
  {
    if s != {} {
      var x :| x in s && ListStrings(s) == [x] + ListStrings(s - {x});
      ListStringsOf(s - {x});
      assert multiset(s) == multiset{x} + multiset(s - {x});
    }
  }

  /** sort.Strings over the members of s, however they were gathered. */
  method SortedStrings(s: set<string>) returns (out: seq<string>)
    ensures out == Sort(ListStrings(s), AtMost)
  {
    var listed: seq<string> := [];
    var rest := s;
    while rest != {}
      invariant rest <= s
      invariant multiset(listed) == multiset(s - rest)
      decreases rest
    {
      var x :| x in rest;
      assert s - (rest - {x}) == (s - rest) + {x};
      listed := listed + [x];
      rest := rest - {x};
    }
    assert s - {} == s;
    ListStringsOf(s);
    AtMostTotalOrder();
    SortPermutation(listed, ListStrings(s), AtMost);
    out := Sort(listed, AtMost);
  }
}
