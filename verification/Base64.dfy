/** Standard base64 with padding, section 4 of RFC 4648, as Go's StdEncoding reads and writes it. */
module Base64 {
  import opened Wrappers
  import opened Bytes

  type Sextet = i: int | 0 <= i < 64

  function Letter(v: Sextet): char {
    if v < 26 then ('A' as int + v) as char
    else if v < 52 then ('a' as int + v - 26) as char
    else if v < 62 then ('0' as int + v - 52) as char
    else if v == 62 then '+'
    else '/'
  }

  function ValueOf(c: char): Option<Sextet> {
    if 'A' <= c <= 'Z' then Some(c as int - 'A' as int)
    else if 'a' <= c <= 'z' then Some(c as int - 'a' as int + 26)
    else if '0' <= c <= '9' then Some(c as int - '0' as int + 52)
    else if c == '+' then Some(62)
    else if c == '/' then Some(63)
    else None
  }

  lemma LetterValue(v: Sextet)
    ensures ValueOf(Letter(v)) == Some(v)
  {
  }

  // The four sextets of three bytes.
  function First(a: Byte): Sextet { a / 4 }
  function Second(a: Byte, b: Byte): Sextet { a % 4 * 16 + b / 16 }
  function Third(b: Byte, c: Byte): Sextet { b % 16 * 4 + c / 64 }
  function Fourth(c: Byte): Sextet { c % 64 }

  function Letters(w: Sextet, x: Sextet, y: Sextet, z: Sextet): (q: string)
    ensures |q| == 4
  {
    [Letter(w), Letter(x), Letter(y), Letter(z)]
  }

  function Quad(a: Byte, b: Byte, c: Byte): (q: string)
    ensures |q| == 4
  {
    Letters(First(a), Second(a, b), Third(b, c), Fourth(c))
  }

  function Encode(d: Bytes): string {
    if d == [] then ""
    else if |d| == 1 then Quad(d[0], 0, 0)[..2] + "=="
    else if |d| == 2 then Quad(d[0], d[1], 0)[..3] + "="
    else Quad(d[0], d[1], d[2]) + Encode(d[3..])
  }

  // ----- what is written -----

  /** The bytes in base 256, most significant first. */
  function Number(d: Bytes): nat { if d == [] then 0 else Number(d[..|d| - 1]) * 256 + d[|d| - 1] }

  /** q writes one to three bytes as digits in base 64, most significant first: the number they
      form, with two or four zero bits behind it where the digits need them, and padding. */
  predicate Digits(q: string, d: Bytes, w: Sextet, x: Sextet, y: Sextet, z: Sextet) {
    || (|d| == 1 && q == [Letter(w), Letter(x), '=', '='] && w * 64 + x == Number(d) * 16)
    || (|d| == 2 && q == [Letter(w), Letter(x), Letter(y), '='] && (w * 64 + x) * 64 + y == Number(d) * 4)
    || (|d| == 3 && q == [Letter(w), Letter(x), Letter(y), Letter(z)] && ((w * 64 + x) * 64 + y) * 64 + z == Number(d))
  }

  ghost predicate WritesGroup(q: string, d: Bytes) { exists w, x, y, z :: Digits(q, d, w, x, y, z) }

  /** Group by group, three bytes in four characters, and the last one or two. */
  ghost predicate WritesAll(s: string, d: Bytes) {
    if d == [] then s == ""
    else if |d| <= 3 then WritesGroup(s, d)
    else |s| >= 4 && WritesGroup(s[..4], d[..3]) && WritesAll(s[4..], d[3..])
  }

  lemma QuadValue(a: Byte, b: Byte, c: Byte)
    ensures First(a) * 64 + Second(a, b) == a * 16 + b / 16
    ensures (First(a) * 64 + Second(a, b)) * 64 + Third(b, c) == (a * 256 + b) * 4 + c / 64
    ensures ((First(a) * 64 + Second(a, b)) * 64 + Third(b, c)) * 64 + Fourth(c) == (a * 256 + b) * 256 + c
  {
  }

  lemma NumberMore(d: Bytes, b: Byte)
    ensures Number(d + [b]) == Number(d) * 256 + b
  {
    assert (d + [b])[..|d|] == d;
  }

  lemma Numbers(a: Byte, b: Byte, c: Byte)
    ensures Number([a]) == a && Number([a, b]) == a * 256 + b && Number([a, b, c]) == (a * 256 + b) * 256 + c
  {
    NumberMore([], a);
    NumberMore([a], b);
    NumberMore([a, b], c);
    assert [] + [a] == [a] && [a] + [b] == [a, b] && [a, b] + [c] == [a, b, c];
  }

  lemma EncodeGroup(d: Bytes, w: Sextet, x: Sextet, y: Sextet, z: Sextet)
    requires 1 <= |d| <= 3
    requires w == First(d[0]) && x == Second(d[0], if |d| > 1 then d[1] else 0)
    requires y == Third(if |d| > 1 then d[1] else 0, if |d| > 2 then d[2] else 0)
    requires z == Fourth(if |d| > 2 then d[2] else 0)
    ensures |d| == 1 ==> Encode(d) == [Letter(w), Letter(x), '=', '=']
    ensures |d| == 2 ==> Encode(d) == [Letter(w), Letter(x), Letter(y), '=']
    ensures |d| == 3 ==> Encode(d) == [Letter(w), Letter(x), Letter(y), Letter(z)]
  {
    var q := Letters(w, x, y, z);
    if |d| == 1 {
      assert Encode(d) == q[..2] + "==";
    } else if |d| == 2 {
      assert Encode(d) == q[..3] + "=";
    } else {
      assert d[3..] == [] && Encode([]) == "";
      assert Encode(d) == q;
    }
  }

  lemma NumberOf(d: Bytes, a: Byte, b: Byte, c: Byte)
    requires 1 <= |d| <= 3 && a == d[0] && (|d| > 1 ==> b == d[1]) && (|d| > 2 ==> c == d[2])
    ensures Number(d) == if |d| == 1 then a else if |d| == 2 then a * 256 + b else (a * 256 + b) * 256 + c
  {
    Numbers(a, b, c);
    assert d == if |d| == 1 then [a] else if |d| == 2 then [a, b] else [a, b, c];
  }

  lemma DigitsWrite(q: string, d: Bytes, w: Sextet, x: Sextet, y: Sextet, z: Sextet)
    requires Digits(q, d, w, x, y, z)
    ensures WritesGroup(q, d)
  {
  }

  lemma GroupWritten(d: Bytes)
    requires 1 <= |d| <= 3
    ensures WritesGroup(Encode(d), d)
  {
    var a: Byte, b: Byte, c: Byte := d[0], if |d| > 1 then d[1] else 0, if |d| > 2 then d[2] else 0;
    var w, x, y, z := First(a), Second(a, b), Third(b, c), Fourth(c);
    NumberOf(d, a, b, c);
    QuadValue(a, b, c);
    EncodeGroup(d, w, x, y, z);
    DigitsWrite(Encode(d), d, w, x, y, z);
  }

  lemma {:induction false} EncodeExact(d: Bytes)
    ensures WritesAll(Encode(d), d)
  {
    if 0 < |d| <= 3 {
      GroupWritten(d);
    } else if |d| > 3 {
      GroupWritten(d[..3]);
      EncodeExact(d[3..]);
      assert Encode(d)[..4] == Encode(d[..3]) by { assert d[..3][3..] == [] && Encode([]) == ""; }
      assert Encode(d)[4..] == Encode(d[3..]);
    }
  }

  // The three bytes of four sextets.
  function High(w: Sextet, x: Sextet): Byte { w * 4 + x / 16 }
  function Middle(x: Sextet, y: Sextet): Byte { x % 16 * 16 + y / 4 }
  function Low(y: Sextet, z: Sextet): Byte { y % 4 * 64 + z }

  /** Four letters. */
  function DecodeGroup(q: string): Option<Bytes>
    requires |q| == 4
  {
    var w, x, y, z := ValueOf(q[0]), ValueOf(q[1]), ValueOf(q[2]), ValueOf(q[3]);
    if w.None? || x.None? || y.None? || z.None? then None
    else Some([High(w.value, x.value), Middle(x.value, y.value), Low(y.value, z.value)])
  }

  /** The last four characters, where padding may stand. */
  function DecodeLast(q: string): Option<Bytes>
    requires |q| == 4
  {
    var w, x, y := ValueOf(q[0]), ValueOf(q[1]), ValueOf(q[2]);
    if w.Some? && x.Some? && q[2] == '=' && q[3] == '=' then Some([High(w.value, x.value)])
    else if w.Some? && x.Some? && y.Some? && q[3] == '=' then Some([High(w.value, x.value), Middle(x.value, y.value)])
    else DecodeGroup(q)
  }

  /** Decodes text without line breaks. Padding ends the text; the unused bits of the
      last letter are not looked at. */
  function Decode(s: string): Option<Bytes> {
    if s == "" then Some([])
    else if |s| < 4 then None
    else if |s| == 4 then DecodeLast(s)
    else
      var group := DecodeGroup(s[..4]);
      var rest := Decode(s[4..]);
      if group.None? || rest.None? then None else Some(group.value + rest.value)
  }

  /** The decoder passes over line breaks wherever they stand. */
  function WithoutBreaks(s: string): string {
    if s == "" then ""
    else (if s[0] == '\r' || s[0] == '\n' then "" else [s[0]]) + WithoutBreaks(s[1..])
  }

  function DecodeString(s: string): Option<Bytes> { Decode(WithoutBreaks(s)) }

  predicate Symbol(c: char) { ValueOf(c).Some? || c == '=' }

  predicate Symbols(s: string) { forall i :: 0 <= i < |s| ==> Symbol(s[i]) }

  lemma Carry16(hi: nat, lo: nat)
    requires lo < 16
    ensures (hi * 16 + lo) / 16 == hi && (hi * 16 + lo) % 16 == lo
  {
  }

  lemma Carry4(hi: nat, lo: nat)
    requires lo < 4
    ensures (hi * 4 + lo) / 4 == hi && (hi * 4 + lo) % 4 == lo
  {
  }

  lemma FirstByte(a: Byte, b: Byte)
    ensures High(First(a), Second(a, b)) == a
  {
    Carry16(a % 4, b / 16);
  }

  lemma SecondByte(a: Byte, b: Byte, c: Byte)
    ensures Middle(Second(a, b), Third(b, c)) == b
  {
    Carry16(a % 4, b / 16);
    Carry4(b % 16, c / 64);
  }

  lemma ThirdByte(b: Byte, c: Byte)
    ensures Low(Third(b, c), Fourth(c)) == c
  {
    Carry4(b % 16, c / 64);
  }

  lemma LettersDecode(w: Sextet, x: Sextet, y: Sextet, z: Sextet)
    ensures DecodeGroup(Letters(w, x, y, z)) == Some([High(w, x), Middle(x, y), Low(y, z)])
    ensures DecodeLast(Letters(w, x, y, z)) == DecodeGroup(Letters(w, x, y, z))
  {
    LetterValue(w);
    LetterValue(x);
    LetterValue(y);
    LetterValue(z);
  }

  lemma PaddedDecode(w: Sextet, x: Sextet, y: Sextet, z: Sextet)
    ensures DecodeLast(Letters(w, x, y, z)[..2] + "==") == Some([High(w, x)])
    ensures DecodeLast(Letters(w, x, y, z)[..3] + "=") == Some([High(w, x), Middle(x, y)])
  {
    LetterValue(w);
    LetterValue(x);
    LetterValue(y);
  }

  /** Three bytes decode to themselves, and a cut and padded group to its leading bytes. */
  lemma QuadDecodes(a: Byte, b: Byte, c: Byte)
    ensures DecodeGroup(Quad(a, b, c)) == DecodeLast(Quad(a, b, c)) == Some([a, b, c])
    ensures DecodeLast(Quad(a, b, c)[..3] + "=") == Some([a, b])
    ensures DecodeLast(Quad(a, b, c)[..2] + "==") == Some([a])
  {
    LettersDecode(First(a), Second(a, b), Third(b, c), Fourth(c));
    PaddedDecode(First(a), Second(a, b), Third(b, c), Fourth(c));
    FirstByte(a, b);
    SecondByte(a, b, c);
    ThirdByte(b, c);
  }

  lemma QuadSymbols(a: Byte, b: Byte, c: Byte)
    ensures Symbols(Quad(a, b, c))
  {
  }

  lemma {:induction false} EncodeSymbols(d: Bytes)
    ensures Symbols(Encode(d))
  {
    if |d| >= 3 {
      EncodeSymbols(d[3..]);
      QuadSymbols(d[0], d[1], d[2]);
    } else if d != [] {
      QuadSymbols(d[0], if |d| == 2 then d[1] else 0, 0);
    }
  }

  lemma DecodeMore(q: string, rest: string, group: Bytes)
    requires |q| == 4 && DecodeGroup(q) == DecodeLast(q) == Some(group) && Decode(rest).Some?
    ensures Decode(q + rest) == Some(group + Decode(rest).value)
  {
    if rest == "" {
      assert q + rest == q && group + [] == group;
    } else {
      assert (q + rest)[4..] == rest && (q + rest)[..4] == q;
    }
  }

  lemma DecodeOne(d: Bytes)
    requires |d| == 1
    ensures Decode(Encode(d)) == Some(d)
  {
    QuadDecodes(d[0], 0, 0);
    assert d == [d[0]];
  }

  lemma DecodeTwo(d: Bytes)
    requires |d| == 2
    ensures Decode(Encode(d)) == Some(d)
  {
    QuadDecodes(d[0], d[1], 0);
    assert d == [d[0], d[1]];
  }

  lemma {:induction false} DecodeEncode(d: Bytes)
    ensures Decode(Encode(d)) == Some(d)
  {
    if |d| == 1 {
      DecodeOne(d);
    } else if |d| == 2 {
      DecodeTwo(d);
    } else if d != [] {
      DecodeEncode(d[3..]);
      QuadDecodes(d[0], d[1], d[2]);
      DecodeMore(Quad(d[0], d[1], d[2]), Encode(d[3..]), [d[0], d[1], d[2]]);
      assert d == [d[0], d[1], d[2]] + d[3..];
    }
  }

  lemma {:induction false} SymbolsHaveNoBreaks(s: string)
    requires Symbols(s)
    ensures WithoutBreaks(s) == s
  {
    if s != "" {
      SymbolsHaveNoBreaks(s[1..]);
      assert Symbol(s[0]);
    }
  }

  /** Decoding undoes encoding. */
  lemma Base64RoundTrip(d: Bytes)
    ensures DecodeString(Encode(d)) == Some(d)
  {
    EncodeSymbols(d);
    SymbolsHaveNoBreaks(Encode(d));
    DecodeEncode(d);
  }

  /** A character outside the alphabet, other than a line break, makes decoding fail. */
  lemma {:induction false} StrayCharacterFails(s: string, i: nat)
    requires i < |s| && !Symbol(s[i])
    ensures Decode(s) == None
  {
    if i >= 4 {
      StrayCharacterFails(s[4..], i - 4);
    }
  }

  lemma {:induction false} BreaksKeepStray(s: string, i: nat) returns (j: nat)
    requires i < |s| && !Symbol(s[i]) && s[i] != '\r' && s[i] != '\n'
    ensures j < |WithoutBreaks(s)| && !Symbol(WithoutBreaks(s)[j])
  {
    if i == 0 {
      j := 0;
    } else {
      j := BreaksKeepStray(s[1..], i - 1);
      if s[0] != '\r' && s[0] != '\n' {
        j := j + 1;
      }
    }
  }

  lemma StrayStringFails(s: string, i: nat)
    requires i < |s| && !Symbol(s[i]) && s[i] != '\r' && s[i] != '\n'
    ensures DecodeString(s) == None
  {
    var j := BreaksKeepStray(s, i);
    StrayCharacterFails(WithoutBreaks(s), j);
  }
}
