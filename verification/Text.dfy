/** The functions of Go's strings package that armor is built from, on code points. */
module Text {

  /** Unicode White_Space. */
  predicate IsSpace(c: char) {
    var u := c as int;
    9 <= u <= 13 || u == 0x20 || u == 0x85 || u == 0xA0 || u == 0x1680 || 0x2000 <= u <= 0x200A
    || u == 0x2028 || u == 0x2029 || u == 0x202F || u == 0x205F || u == 0x3000
  }

  /** Which characters those are. */
  lemma SpacesListed(c: char)
    ensures IsSpace(c) <==>
      c in "\t\n\U{B}\U{C}\r \U{85}\U{A0}\U{1680}"
        + "\U{2000}\U{2001}\U{2002}\U{2003}\U{2004}\U{2005}\U{2006}\U{2007}\U{2008}\U{2009}\U{200A}"
        + "\U{2028}\U{2029}\U{202F}\U{205F}\U{3000}"
  {
  }

  function TrimLeft(s: string): string {
    if s != "" && IsSpace(s[0]) then TrimLeft(s[1..]) else s
  }

  function TrimRight(s: string): string {
    if s != "" && IsSpace(s[|s| - 1]) then TrimRight(s[..|s| - 1]) else s
  }

  lemma {:induction false} TrimLeftSpec(s: string)
    ensures var t := TrimLeft(s); |t| <= |s| && t == s[|s| - |t|..] && (t == "" || !IsSpace(t[0]))
  {
    if s != "" && IsSpace(s[0]) {
      TrimLeftSpec(s[1..]);
    }
  }

  lemma {:induction false} TrimRightSpec(s: string)
    ensures var t := TrimRight(s); |t| <= |s| && t == s[..|t|] && (t == "" || !IsSpace(t[|t| - 1]))
  {
    if s != "" && IsSpace(s[|s| - 1]) {
      TrimRightSpec(s[..|s| - 1]);
    }
  }

  function TrimSpace(s: string): string { TrimRight(TrimLeft(s)) }

  /** No space at either end. */
  predicate Trimmed(s: string) { s == "" || (!IsSpace(s[0]) && !IsSpace(s[|s| - 1])) }

  lemma TrimSpaceTrims(s: string)
    ensures Trimmed(TrimSpace(s))
  {
    TrimLeftSpec(s);
    TrimRightSpec(TrimLeft(s));
  }

  lemma TrimNewline(s: string)
    requires s != "" && Trimmed(s)
    ensures TrimSpace(s + "\n") == s
  {
    var t := s + "\n";
    assert TrimLeft(t) == t;
    assert t[..|t| - 1] == s && t[|t| - 1] == '\n';
    assert TrimRight(t) == TrimRight(s);
  }

  /** What is trimmed is a stretch of the original. */
  lemma TrimSpaceWithin(s: string) returns (i: nat, j: nat)
    ensures i <= j <= |s| && TrimSpace(s) == s[i..j]
  {
    var t := TrimLeft(s);
    TrimLeftSpec(s);
    TrimRightSpec(t);
    i := |s| - |t|;
    j := i + |TrimRight(t)|;
  }

  /** The first index of c, or the length. */
  function IndexOf(s: string, c: char): (i: nat)
    ensures i <= |s|
  {
    if s == "" || s[0] == c then 0 else 1 + IndexOf(s[1..], c)
  }

  lemma {:induction false} IndexOfSpec(s: string, c: char)
    ensures c !in s[..IndexOf(s, c)] && (IndexOf(s, c) < |s| ==> s[IndexOf(s, c)] == c)
  {
    if s != "" && s[0] != c {
      IndexOfSpec(s[1..], c);
      assert s[..IndexOf(s, c)] == [s[0]] + s[1..][..IndexOf(s[1..], c)];
    }
  }

  lemma {:induction false} IndexOfAt(s: string, c: char, t: string)
    requires c !in s
    ensures IndexOf(s + [c] + t, c) == |s|
  {
    if s != "" {
      assert (s + [c] + t)[1..] == s[1..] + [c] + t;
      IndexOfAt(s[1..], c, t);
    }
  }

  lemma IndexOfAbsent(s: string, c: char)
    requires c !in s
    ensures IndexOf(s, c) == |s|
  {
    IndexOfSpec(s, c);
  }

  /** strings.Split(s, "\n"). */
  function Split(s: string): (lines: seq<string>)
    ensures |lines| >= 1
    decreases |s|
  {
    var i := IndexOf(s, '\n');
    if i == |s| then [s] else [s[..i]] + Split(s[i + 1..])
  }

  lemma {:induction false} SplitLines(s: string)
    ensures forall l :: l in Split(s) ==> '\n' !in l
    decreases |s|
  {
    var i := IndexOf(s, '\n');
    IndexOfSpec(s, '\n');
    if i < |s| {
      SplitLines(s[i + 1..]);
    } else {
      assert s[..i] == s;
    }
  }

  /** strings.Join(lines, "\n"). */
  function Join(lines: seq<string>): string {
    if lines == [] then "" else if |lines| == 1 then lines[0] else lines[0] + "\n" + Join(lines[1..])
  }

  lemma SplitFirst(l: string, rest: string)
    requires '\n' !in l
    ensures Split(l + "\n" + rest) == [l] + Split(rest)
  {
    var s := l + ['\n'] + rest;
    IndexOfAt(l, '\n', rest);
    assert s[..|l|] == l && s[|l| + 1..] == rest;
    assert l + "\n" + rest == s;
  }

  lemma {:induction false} SplitJoin(lines: seq<string>)
    requires lines != [] && forall l :: l in lines ==> '\n' !in l
    ensures Split(Join(lines)) == lines
  {
    if |lines| == 1 {
      IndexOfAbsent(lines[0], '\n');
    } else {
      SplitFirst(lines[0], Join(lines[1..]));
      SplitJoin(lines[1..]);
    }
  }

  lemma {:induction false} JoinEnds(lines: seq<string>)
    requires lines != [] && lines[0] != "" && lines[|lines| - 1] != ""
    ensures var s, l := Join(lines), lines[|lines| - 1]; s != "" && s[0] == lines[0][0] && s[|s| - 1] == l[|l| - 1]
  {
    if |lines| > 1 {
      JoinLast(lines[1..]);
    }
  }

  lemma {:induction false} JoinLast(lines: seq<string>)
    requires lines != [] && lines[|lines| - 1] != ""
    ensures var s, l := Join(lines), lines[|lines| - 1]; s != "" && s[|s| - 1] == l[|l| - 1]
  {
    if |lines| > 1 {
      JoinLast(lines[1..]);
    }
  }

  /** The lines, each ended by a newline, as they are written out. */
  function Lines(lines: seq<string>): string {
    if lines == [] then "" else Lines(lines[..|lines| - 1]) + lines[|lines| - 1] + "\n"
  }

  lemma {:induction false} LinesConcat(a: seq<string>, b: seq<string>)
    ensures Lines(a + b) == Lines(a) + Lines(b)
  {
    if b == [] {
      assert a + b == a;
    } else {
      assert (a + b)[..|a + b| - 1] == a + b[..|b| - 1];
      LinesConcat(a, b[..|b| - 1]);
    }
  }

  lemma LinesNext(lines: seq<string>, i: nat)
    requires i < |lines|
    ensures Lines(lines[..i + 1]) == Lines(lines[..i]) + lines[i] + "\n"
  {
    assert lines[..i + 1][..i] == lines[..i];
  }

  lemma LinesOne(l: string)
    ensures Lines([l]) == l + "\n"
  {
    assert [l][..0] == [];
    assert Lines([]) == "";
  }

  lemma {:induction false} LinesJoin(lines: seq<string>)
    requires lines != []
    ensures Lines(lines) == Join(lines) + "\n"
  {
    if |lines| == 1 {
      LinesOne(lines[0]);
      assert lines == [lines[0]];
    } else {
      LinesConcat([lines[0]], lines[1..]);
      LinesOne(lines[0]);
      LinesJoin(lines[1..]);
      assert lines == [lines[0]] + lines[1..];
    }
  }

  /** strings.Join(lines, ""). */
  function Flatten(lines: seq<string>): string {
    if lines == [] then "" else lines[0] + Flatten(lines[1..])
  }

  lemma {:induction false} FlattenConcat(a: seq<string>, b: seq<string>)
    ensures Flatten(a + b) == Flatten(a) + Flatten(b)
  {
    if a == [] {
      assert a + b == b;
    } else {
      assert (a + b)[1..] == a[1..] + b;
      FlattenConcat(a[1..], b);
    }
  }

  /** strings.ReplaceAll(s, "\r\n", "\n"). */
  function UnixBreaks(s: string): string {
    if s == "" then ""
    else if |s| >= 2 && s[0] == '\r' && s[1] == '\n' then "\n" + UnixBreaks(s[2..])
    else [s[0]] + UnixBreaks(s[1..])
  }

  /** The same text with CRLF line ends. */
  function DosBreaks(s: string): string {
    if s == "" then "" else (if s[0] == '\n' then "\r\n" else [s[0]]) + DosBreaks(s[1..])
  }

  lemma {:induction false} BreaksRoundTrip(s: string)
    ensures UnixBreaks(DosBreaks(s)) == s
    ensures s != "" ==> DosBreaks(s) != "" && DosBreaks(s)[0] != '\n'
  {
    if s != "" {
      var rest := DosBreaks(s[1..]);
      BreaksRoundTrip(s[1..]);
      if s[0] == '\n' {
        assert DosBreaks(s)[2..] == rest;
      } else {
        assert DosBreaks(s)[1..] == rest;
      }
    }
  }

  predicate NoCrlf(s: string) { forall i :: 0 <= i < |s| - 1 ==> !(s[i] == '\r' && s[i + 1] == '\n') }

  lemma {:induction false} UnixAlready(s: string)
    requires NoCrlf(s)
    ensures UnixBreaks(s) == s
  {
    if s != "" {
      assert NoCrlf(s[1..]) by {
        forall i | 0 <= i < |s[1..]| - 1 ensures !(s[1..][i] == '\r' && s[1..][i + 1] == '\n') {
          assert s[1..][i] == s[i + 1] && s[1..][i + 1] == s[i + 2];
        }
      }
      UnixAlready(s[1..]);
    }
  }

  /** Lines that neither hold a newline nor end in a carriage return hold no CRLF together. */
  lemma {:induction false} LinesNoCrlf(lines: seq<string>)
    requires forall l :: l in lines ==> '\n' !in l && (l != "" ==> l[|l| - 1] != '\r')
    ensures NoCrlf(Lines(lines))
    ensures lines != [] ==> Lines(lines) != "" && Lines(lines)[|Lines(lines)| - 1] == '\n'
  {
    if lines != [] {
      var n := |lines| - 1;
      var a, l := Lines(lines[..n]), lines[n];
      LinesNoCrlf(lines[..n]);
      var s := a + l + "\n";
      forall i | 0 <= i < |s| - 1 ensures !(s[i] == '\r' && s[i + 1] == '\n') {
        if i + 1 < |a| {
          assert s[i] == a[i] && s[i + 1] == a[i + 1];
        } else if |a| <= i + 1 < |a| + |l| {
          assert s[i + 1] == l[i + 1 - |a|];
        }
      }
    }
  }

  /** The length of s in UTF-8. */
  function Utf8Len(s: string): nat {
    if s == "" then 0 else
      (if s[0] as int < 0x80 then 1 else if s[0] as int < 0x800 then 2 else if s[0] as int < 0x1_0000 then 3 else 4)
      + Utf8Len(s[1..])
  }

  /** One to four bytes a character, the fewest that hold its 7, 11, 16 or 21 bits. */
  lemma Utf8LenOne(c: char)
    ensures 1 <= Utf8Len([c]) <= 4
    ensures Utf8Len([c]) <= 1 <==> (c as int) / 128 == 0
    ensures Utf8Len([c]) <= 2 <==> (c as int) / 2048 == 0
    ensures Utf8Len([c]) <= 3 <==> (c as int) / 65536 == 0
  {
    assert Utf8Len([c][1..]) == 0;
  }

  lemma {:induction false} Utf8LenConcat(a: string, b: string)
    ensures Utf8Len(a + b) == Utf8Len(a) + Utf8Len(b)
  {
    if a == "" {
      assert a + b == b;
    } else {
      assert (a + b)[1..] == a[1..] + b;
      Utf8LenConcat(a[1..], b);
    }
  }

  lemma Utf8LenPart(s: string, i: nat, j: nat)
    requires i <= j <= |s|
    ensures Utf8Len(s[i..j]) <= Utf8Len(s)
  {
    assert s[..j] == s[..i] + s[i..j];
    Utf8LenConcat(s[..i], s[i..j]);
    assert s == s[..j] + s[j..];
    Utf8LenConcat(s[..j], s[j..]);
  }

  lemma TrimmedIsShorter(s: string)
    ensures Utf8Len(TrimSpace(s)) <= Utf8Len(s)
  {
    var i, j := TrimSpaceWithin(s);
    Utf8LenPart(s, i, j);
  }
}
