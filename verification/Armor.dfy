/** PEM-style armor with headers. */
module Armor {
  import opened Bytes
  import opened Text
  import opened Lex
  import opened Sorting
  import Base64

  const BEGIN := "-----BEGIN "
  const END := "-----END "
  const DASHES := "-----"
  const LINE_LEN := 76

  datatype Armored = Armored(payload: Bytes, title: string, headers: map<string, string>)

  datatype ArmorError = EmptyInput | TooFewLines | InvalidHeader | FooterMismatch | InvalidBase64

  datatype Result = Ok(value: Armored) | Err(error: ArmorError)

  // ----- the text -----

  function HeaderLine(key: string, value: string): string { key + ": " + value }

  function HeaderLines(keys: seq<string>, headers: map<string, string>): (ls: seq<string>)
    requires forall k :: k in keys ==> k in headers
    ensures |ls| == |keys|
  {
    seq(|keys|, i requires 0 <= i < |keys| => assert keys[i] in keys; HeaderLine(keys[i], headers[keys[i]]))
  }

  /** The text cut into lines of 76 characters. */
  function Wrap(e: string): seq<string> {
    if e == "" then [] else [e[..LineEnd(e)]] + Wrap(e[LineEnd(e)..])
  }

  function LineEnd(e: string): (n: nat)
    ensures n <= |e| && (e != "" ==> n > 0)
  {
    if LINE_LEN > |e| then |e| else LINE_LEN
  }

  ghost function SortedKeys(headers: map<string, string>): (keys: seq<string>)
    ensures forall k :: k in keys <==> k in headers
  {
    KeysListed(headers);
    Sort(ListStrings(headers.Keys), AtMost)
  }

  lemma KeysListed(headers: map<string, string>)
    ensures var keys := Sort(ListStrings(headers.Keys), AtMost); forall k :: k in keys <==> k in headers
  {
    var ids := headers.Keys;
    ListStringsOf(ids);
    AtMostTotalOrder();
    SortCorrect(ListStrings(ids), AtMost);
    forall k ensures k in Sort(ListStrings(ids), AtMost) <==> k in headers {
      assert k in multiset(Sort(ListStrings(ids), AtMost)) <==> k in multiset(ids);
    }
  }

  ghost function HeaderBlock(headers: map<string, string>): seq<string> {
    if headers == map[] then [] else HeaderLines(SortedKeys(headers), headers) + [""]
  }

  ghost function Body(d: Armored): seq<string> { HeaderBlock(d.headers) + Wrap(Base64.Encode(d.payload)) }

  /** Lines between the BEGIN and the END line. */
  function Framed(title: string, body: seq<string>): seq<string> {
    [BEGIN + title + DASHES] + body + [END + title + DASHES]
  }

  /** What the encoder writes. */
  ghost function ArmorLines(d: Armored): seq<string> { Framed(d.title, Body(d)) }

  // ----- reading -----

  predicate Blank(l: string) { TrimSpace(l) == "" }

  /** The index of the first line that p holds of, or the number of lines. */
  function FirstWhere(lines: seq<string>, p: string -> bool): (i: nat)
    ensures i <= |lines| && (i < |lines| ==> p(lines[i]))
    ensures forall k :: 0 <= k < i ==> !p(lines[k])
  {
    if lines == [] || p(lines[0]) then 0 else 1 + FirstWhere(lines[1..], p)
  }

  function FirstBlank(lines: seq<string>): (i: nat)
    ensures i <= |lines|
  {
    FirstWhere(lines, Blank)
  }

  /** A colon, not in front, within the first 65 bytes. */
  predicate HeaderShaped(l: string) {
    var i := IndexOf(l, ':');
    0 < i < |l| && Utf8Len(l[..i]) <= 64
  }

  predicate LooksLikeHeaders(lines: seq<string>) {
    lines != [] && forall i :: 0 <= i < |lines| ==> HeaderShaped(lines[i])
  }

  function KeyOf(l: string): string { TrimSpace(l[..IndexOf(l, ':')]) }

  function ValueOf(l: string): string {
    var i := IndexOf(l, ':');
    if i < |l| then TrimSpace(l[i + 1..]) else ""
  }

  /** The map that header lines build up, a later line winning. */
  function Gather(lines: seq<string>, key: string -> string, value: string -> string): map<string, string> {
    if lines == [] then map[]
    else
      var n := |lines| - 1;
      Gather(lines[..n], key, value)[key(lines[n]) := value(lines[n])]
  }

  function ReadHeaders(lines: seq<string>): map<string, string> { Gather(lines, KeyOf, ValueOf) }

  /** How many lines of the body are headers. */
  function HeaderCount(body: seq<string>): (n: nat)
    ensures n == 0 || n < |body|
  {
    var b := FirstBlank(body);
    if 0 < b < |body| && LooksLikeHeaders(body[..b]) then b else 0
  }

  function DecodeBody(title: string, body: seq<string>): Result {
    var h := HeaderCount(body);
    var payload := Base64.DecodeString(Flatten(if h > 0 then body[h + 1..] else body));
    if payload.None? then Err(InvalidBase64)
    else Ok(Armored(payload.value, title, if h > 0 then ReadHeaders(body[..h]) else map[]))
  }

  predicate HasSuffix(s: string, t: string) { |s| >= |t| && s[|s| - |t|..] == t }

  predicate BeginLine(l: string) { BEGIN <= l && HasSuffix(l, DASHES) }

  /** The prefix and the suffix of a BEGIN line never overlap, so the label between them is in bounds. */
  lemma LabelInBounds(l: string)
    requires BeginLine(l)
    ensures |BEGIN| <= |l| - |DASHES|
  {
    assert l[10] == BEGIN[10];
    forall j | |l| - 5 <= j < |l| ensures l[j] == '-' {
      assert l[j] == l[|l| - 5..][j - (|l| - 5)];
    }
  }

  function LabelOf(l: string): string
    requires BeginLine(l)
  {
    LabelInBounds(l);
    l[|BEGIN|..|l| - |DASHES|]
  }

  function DecodeLines(lines: seq<string>): Result {
    var n := |lines|;
    if n < 2 then Err(TooFewLines)
    else if !BeginLine(lines[0]) then Err(InvalidHeader)
    else
      var title := LabelOf(lines[0]);
      if lines[n - 1] != END + title + DASHES then Err(FooterMismatch)
      else DecodeBody(title, lines[1..n - 1])
  }

  /** What the decoder makes of a text. */
  function Decode(text: string): Result {
    var s := TrimSpace(UnixBreaks(text));
    if s == "" then Err(EmptyInput) else DecodeLines(Split(s))
  }

  // ----- decoding undoes encoding -----

  /** A key that can stand before a colon. */
  predicate PlainKey(k: string) { Trimmed(k) && ':' !in k && '\n' !in k && Utf8Len(k) <= 64 }

  predicate PlainValue(v: string) { Trimmed(v) && '\n' !in v }

  predicate Plain(d: Armored) {
    && '\n' !in d.title
    && forall k :: k in d.headers ==> PlainKey(k) && PlainValue(d.headers[k])
  }

  lemma {:induction false} WrapFlattens(e: string)
    ensures Flatten(Wrap(e)) == e
  {
    if e != "" {
      WrapFlattens(e[LineEnd(e)..]);
      assert Wrap(e)[1..] == Wrap(e[LineEnd(e)..]);
    }
  }

  lemma {:induction false} WrapLines(e: string)
    requires Base64.Symbols(e)
    ensures forall l :: l in Wrap(e) ==> l != "" && Base64.Symbols(l)
  {
    if e != "" {
      var l, rest := e[..LineEnd(e)], e[LineEnd(e)..];
      assert forall i :: 0 <= i < |rest| ==> Base64.Symbol(rest[i]);
      WrapLines(rest);
      assert forall i :: 0 <= i < |l| ==> Base64.Symbol(l[i]);
    }
  }

  lemma {:induction false} NotBlankLeft(l: string, i: nat)
    requires i < |l| && !IsSpace(l[i])
    ensures TrimLeft(l) != ""
  {
    if IsSpace(l[0]) {
      NotBlankLeft(l[1..], i - 1);
    }
  }

  lemma {:induction false} NotBlankRight(l: string)
    requires l != "" && !IsSpace(l[0])
    ensures TrimRight(l) != ""
  {
    if IsSpace(l[|l| - 1]) {
      NotBlankRight(l[..|l| - 1]);
    }
  }

  lemma NotBlank(l: string, i: nat)
    requires i < |l| && !IsSpace(l[i])
    ensures !Blank(l)
  {
    NotBlankLeft(l, i);
    TrimLeftSpec(l);
    NotBlankRight(TrimLeft(l));
  }

  lemma HeaderColon(k: string, v: string)
    requires ':' !in k
    ensures var l := HeaderLine(k, v); IndexOf(l, ':') == |k| < |l| && l[..|k|] == k && l[|k| + 1..] == [' '] + v
  {
    assert HeaderLine(k, v) == k + [':'] + ([' '] + v);
    IndexOfAt(k, ':', [' '] + v);
  }

  lemma SpacedValue(v: string)
    requires Trimmed(v)
    ensures TrimSpace([' '] + v) == v
  {
    var s := [' '] + v;
    assert s[1..] == v;
    assert TrimLeft(s) == TrimLeft(v);
  }

  lemma HeaderNotBlank(k: string, v: string)
    ensures !Blank(HeaderLine(k, v))
  {
    NotBlank(HeaderLine(k, v), |k|);
  }

  lemma HeaderLineShaped(k: string, v: string)
    requires PlainKey(k)
    ensures HeaderShaped(HeaderLine(k, v)) <==> k != ""
  {
    HeaderColon(k, v);
  }

  lemma HeaderLineReads(k: string, v: string)
    requires PlainKey(k) && PlainValue(v)
    ensures KeyOf(HeaderLine(k, v)) == k && ValueOf(HeaderLine(k, v)) == v
  {
    HeaderColon(k, v);
    SpacedValue(v);
  }

  lemma {:induction false} FirstBlankAt(a: seq<string>, b: seq<string>)
    requires (forall l :: l in a ==> !Blank(l)) && (b == [] || Blank(b[0]))
    ensures FirstBlank(a + b) == |a|
  {
    if a == [] {
      assert a + b == b;
    } else {
      assert (a + b)[1..] == a[1..] + b;
      FirstBlankAt(a[1..], b);
    }
  }

  /** Reading header lines back, whatever order the keys were written in. */
  lemma {:induction false} GatherWritten(keys: seq<string>, headers: map<string, string>, key: string -> string,
                                         value: string -> string)
    requires forall k :: k in keys ==> k in headers
    requires forall k :: k in keys ==>
               key(HeaderLine(k, headers[k])) == k && value(HeaderLine(k, headers[k])) == headers[k]
    ensures Gather(HeaderLines(keys, headers), key, value) == map k | k in keys :: headers[k]
  {
    if keys != [] {
      var n := |keys| - 1;
      var lines := HeaderLines(keys, headers);
      assert keys[n] in keys;
      assert lines[..n] == HeaderLines(keys[..n], headers);
      GatherWritten(keys[..n], headers, key, value);
      assert keys == keys[..n] + [keys[n]];
    }
  }

  lemma NoHeadersWithoutColon(body: seq<string>, l: string)
    requires body != [] && l == body[0] && ':' !in l
    ensures HeaderCount(body) == 0
  {
    IndexOfAbsent(l, ':');
    var b := FirstBlank(body);
    if b > 0 {
      assert body[..b][0] == l;
    }
  }

  /** A body of base64 lines, with blank lines anywhere, is never taken for headers. */
  lemma Base64IsNotHeaders(body: seq<string>)
    requires forall i :: 0 <= i < |body| ==> Base64.Symbols(body[i]) || Blank(body[i])
    ensures HeaderCount(body) == 0
  {
    if body != [] && !Blank(body[0]) {
      NoHeadersWithoutColon(body, body[0]);
    }
  }

  lemma WrittenBodyWithoutHeaders(d: Armored)
    requires d.headers == map[]
    ensures DecodeBody(d.title, Body(d)) == Ok(d)
  {
    var e := Base64.Encode(d.payload);
    Base64.EncodeSymbols(d.payload);
    WrapLines(e);
    assert Body(d) == Wrap(e);
    Base64IsNotHeaders(Wrap(e));
    WrapFlattens(e);
    Base64.Base64RoundTrip(d.payload);
  }

  lemma HeaderLinesReadBack(headers: map<string, string>)
    requires forall k :: k in headers ==> PlainKey(k) && PlainValue(headers[k])
    ensures ReadHeaders(HeaderLines(SortedKeys(headers), headers)) == headers
  {
    var keys := SortedKeys(headers);
    forall k | k in keys
      ensures KeyOf(HeaderLine(k, headers[k])) == k && ValueOf(HeaderLine(k, headers[k])) == headers[k]
    {
      HeaderLineReads(k, headers[k]);
    }
    GatherWritten(keys, headers, KeyOf, ValueOf);
    assert (map k | k in keys :: headers[k]) == headers;
  }

  lemma HeaderLinesShaped(headers: map<string, string>)
    requires forall k :: k in headers ==> PlainKey(k)
    ensures NoneBlank(HeaderLines(SortedKeys(headers), headers))
    ensures headers != map[] ==>
      (LooksLikeHeaders(HeaderLines(SortedKeys(headers), headers)) <==> "" !in headers)
  {
    var keys := SortedKeys(headers);
    var lines := HeaderLines(keys, headers);
    forall i | 0 <= i < |keys| ensures !Blank(lines[i]) && (HeaderShaped(lines[i]) <==> keys[i] != "") {
      assert keys[i] in keys;
      HeaderNotBlank(keys[i], headers[keys[i]]);
      HeaderLineShaped(keys[i], headers[keys[i]]);
    }
    assert headers != map[] ==> exists k :: k in headers && k in keys;
  }

  predicate NoneBlank(lines: seq<string>) { forall i :: 0 <= i < |lines| ==> !Blank(lines[i]) }

  lemma CountBeforeBlank(lines: seq<string>, rest: seq<string>)
    requires lines != [] && NoneBlank(lines)
    ensures HeaderCount(lines + [""] + rest) == if LooksLikeHeaders(lines) then |lines| else 0
  {
    var body := lines + [""] + rest;
    assert body == lines + ([""] + rest);
    FirstBlankAt(lines, [""] + rest);
    assert body[..|lines|] == lines;
  }

  /** Where the written headers end. */
  lemma WrittenHeaderCount(d: Armored)
    requires Plain(d) && d.headers != map[]
    ensures HeaderCount(Body(d)) == if "" in d.headers then 0 else |SortedKeys(d.headers)|
  {
    var lines := HeaderLines(SortedKeys(d.headers), d.headers);
    HeaderLinesShaped(d.headers);
    CountBeforeBlank(lines, Wrap(Base64.Encode(d.payload)));
  }

  lemma WrittenBodyWithHeaders(d: Armored)
    requires Plain(d) && d.headers != map[] && "" !in d.headers
    ensures DecodeBody(d.title, Body(d)) == Ok(d)
  {
    var e := Base64.Encode(d.payload);
    var lines := HeaderLines(SortedKeys(d.headers), d.headers);
    var h := |lines|;
    WrittenHeaderCount(d);
    HeaderLinesReadBack(d.headers);
    assert Body(d)[..h] == lines && Body(d)[h + 1..] == Wrap(e);
    WrapFlattens(e);
    Base64.Base64RoundTrip(d.payload);
  }

  /** The line of an empty key keeps the headers from being seen, and its colon is no base64. */
  lemma EmptyKeyFails(d: Armored)
    requires Plain(d) && "" in d.headers
    ensures DecodeBody(d.title, Body(d)) == Err(InvalidBase64)
  {
    var keys := SortedKeys(d.headers);
    WrittenHeaderCount(d);
    var i :| 0 <= i < |keys| && keys[i] == "";
    var l := HeaderLine(keys[i], d.headers[keys[i]]);
    assert Body(d)[i] == l;
    var at := FlattenAt(Body(d), i);
    Base64.StrayStringFails(Flatten(Body(d)), at);
  }

  lemma FlattenAt(lines: seq<string>, i: nat) returns (at: nat)
    requires i < |lines| && lines[i] != ""
    ensures at < |Flatten(lines)| && Flatten(lines)[at] == lines[i][0]
  {
    var l := lines[i];
    assert lines == lines[..i] + ([l] + lines[i + 1..]);
    FlattenConcat(lines[..i], [l] + lines[i + 1..]);
    at := |Flatten(lines[..i])|;
  }

  // ----- the frame -----

  /** A line that can be written: no newline, and no carriage return before the one that ends it. */
  predicate Writable(l: string) { '\n' !in l && (l != "" ==> l[|l| - 1] != '\r') }

  lemma SymbolsWritable(l: string)
    requires Base64.Symbols(l)
    ensures Writable(l)
  {
    assert forall i :: 0 <= i < |l| ==> Base64.Symbol(l[i]);
  }

  lemma BodyWritable(d: Armored, l: string)
    requires Plain(d) && l in Body(d)
    ensures Writable(l)
  {
    if l in Wrap(Base64.Encode(d.payload)) {
      Base64.EncodeSymbols(d.payload);
      WrapLines(Base64.Encode(d.payload));
      SymbolsWritable(l);
    } else if l != "" {
      var keys := SortedKeys(d.headers);
      var i :| 0 <= i < |keys| && l == HeaderLines(keys, d.headers)[i];
      assert keys[i] in keys;
    }
  }

  lemma FramedTextSplits(title: string, body: seq<string>)
    requires '\n' !in title && forall l :: l in body ==> Writable(l)
    ensures var text := Lines(Framed(title, body));
      NoCrlf(text) && TrimSpace(text) != "" && Split(TrimSpace(text)) == Framed(title, body)
  {
    var lines := Framed(title, body);
    LinesNoCrlf(lines);
    LinesJoin(lines);
    assert lines[0] == BEGIN + title + DASHES && lines[0][0] == BEGIN[0];
    var last := END + title + DASHES;
    assert lines[|lines| - 1] == last && last[|last| - 1] == DASHES[4];
    JoinEnds(lines);
    TrimNewline(Join(lines));
    SplitJoin(lines);
  }

  /** Framed lines are read back as a body. */
  lemma FramedDecodes(title: string, body: seq<string>)
    requires '\n' !in title && forall l :: l in body ==> Writable(l)
    ensures Decode(Lines(Framed(title, body))) == DecodeBody(title, body)
  {
    FramedTextSplits(title, body);
    UnixAlready(Lines(Framed(title, body)));
  }

  /** The encoder's output. */
  ghost function Encode(d: Armored): string { Lines(ArmorLines(d)) }

  /** Decoding undoes encoding, with or without headers and whatever the payload, exactly
      when no header key is empty; an empty one makes the text undecodable. */
  lemma ArmorRoundTripExact(d: Armored)
    requires Plain(d)
    ensures Decode(Encode(d)) == if "" in d.headers then Err(InvalidBase64) else Ok(d)
  {
    forall l | l in Body(d) ensures Writable(l) { BodyWritable(d, l); }
    FramedDecodes(d.title, Body(d));
    if "" in d.headers {
      EmptyKeyFails(d);
    } else if d.headers == map[] {
      WrittenBodyWithoutHeaders(d);
    } else {
      WrittenBodyWithHeaders(d);
    }
  }

  /** Line ends rewritten to CRLF make no difference. */
  lemma CrlfTolerated(text: string)
    requires NoCrlf(text)
    ensures Decode(DosBreaks(text)) == Decode(text)
  {
    BreaksRoundTrip(text);
    UnixAlready(text);
  }

  // ----- what is decoded can be encoded again -----

  predicate PlainHeader(l: string) { PlainKey(KeyOf(l)) && PlainValue(ValueOf(l)) }

  lemma TrimLacks(s: string, c: char)
    requires c !in s
    ensures c !in TrimSpace(s)
  {
    var i, j := TrimSpaceWithin(s);
  }

  lemma HeaderIsPlain(l: string)
    requires HeaderShaped(l) && '\n' !in l
    ensures PlainHeader(l)
  {
    var i := IndexOf(l, ':');
    var k, v := l[..i], l[i + 1..];
    IndexOfSpec(l, ':');
    TrimSpaceTrims(k);
    TrimSpaceTrims(v);
    TrimLacks(k, ':');
    TrimLacks(k, '\n');
    TrimLacks(v, '\n');
    TrimmedIsShorter(k);
  }

  lemma {:induction false} GatherWithin(lines: seq<string>, key: string -> string, value: string -> string, k: string)
    returns (i: nat)
    requires k in Gather(lines, key, value)
    ensures i < |lines| && k == key(lines[i]) && Gather(lines, key, value)[k] == value(lines[i])
  {
    i := |lines| - 1;
    if k != key(lines[i]) {
      i := GatherWithin(lines[..i], key, value, k);
    }
  }

  lemma DecodedBodyIsPlain(title: string, body: seq<string>)
    requires '\n' !in title && forall l :: l in body ==> '\n' !in l
    ensures var r := DecodeBody(title, body); r.Ok? ==> Plain(r.value)
  {
    var h := HeaderCount(body);
    var m := ReadHeaders(body[..h]);
    forall k | h > 0 && k in m ensures PlainKey(k) && PlainValue(m[k]) {
      var i := GatherWithin(body[..h], KeyOf, ValueOf, k);
      assert body[i] in body && HeaderShaped(body[..h][i]);
      HeaderIsPlain(body[i]);
    }
  }

  lemma DecodedIsPlain(text: string)
    ensures var r := Decode(text); r.Ok? ==> Plain(r.value)
  {
    var s := TrimSpace(UnixBreaks(text));
    if s != "" && DecodeLines(Split(s)).Ok? {
      var lines := Split(s);
      SplitLines(s);
      assert lines[0] in lines;
      LabelInBounds(lines[0]);
      DecodedBodyIsPlain(LabelOf(lines[0]), lines[1..|lines| - 1]);
    }
  }

  /** Encoding what was decoded and decoding again changes nothing exactly when the text had
      no header with an empty key; such a header is accepted but cannot be written back. */
  lemma ReencodeExact(text: string)
    ensures var r := Decode(text);
      r.Ok? ==> (Decode(Encode(r.value)) == r <==> "" !in r.value.headers)
  {
    if Decode(text).Ok? {
      DecodedIsPlain(text);
      ArmorRoundTripExact(Decode(text).value);
    }
  }

  /** Such a text: a line that begins with a blank and a colon. */
  function EmptyKeyLine(value: string): string { " : " + value }

  lemma EmptyKeyLineReads(value: string)
    requires PlainValue(value)
    ensures var l := EmptyKeyLine(value);
      !Blank(l) && HeaderShaped(l) && KeyOf(l) == "" && ValueOf(l) == value && Writable(l)
  {
    var l := EmptyKeyLine(value);
    assert l == [' '] + [':'] + ([' '] + value);
    IndexOfAt([' '], ':', [' '] + value);
    NotBlank(l, 1);
    assert l[..1] == [' '] && l[2..] == [' '] + value;
    SpacedValue(value);
    SpacedValue("");
    assert [' '] + "" == [' '];
    assert Utf8Len([' ']) == 1 + Utf8Len("");
    assert l[|l| - 1] == if value == "" then ' ' else value[|value| - 1];
  }

  /** It is accepted, with the empty key among its headers, and what it decodes to cannot be
      written back. */
  lemma EmptyKeyAccepted(payload: Bytes, title: string, value: string)
    requires '\n' !in title && PlainValue(value)
    ensures var text := Lines(Framed(title, [EmptyKeyLine(value), ""] + Wrap(Base64.Encode(payload))));
      var d := Armored(payload, title, map["" := value]);
      Decode(text) == Ok(d) && Decode(Encode(d)) == Err(InvalidBase64)
  {
    var l, rest := EmptyKeyLine(value), Wrap(Base64.Encode(payload));
    var body := [l, ""] + rest;
    EmptyKeyLineReads(value);
    EmptyKeyBody(payload, title, value);
    Base64.EncodeSymbols(payload);
    WrapLines(Base64.Encode(payload));
    forall x | x in body ensures Writable(x) {
      if x in rest { SymbolsWritable(x); }
    }
    FramedDecodes(title, body);
    ArmorRoundTripExact(Armored(payload, title, map["" := value]));
  }

  lemma EmptyKeyBody(payload: Bytes, title: string, value: string)
    requires PlainValue(value)
    ensures DecodeBody(title, [EmptyKeyLine(value), ""] + Wrap(Base64.Encode(payload)))
         == Ok(Armored(payload, title, map["" := value]))
  {
    var l, rest := EmptyKeyLine(value), Wrap(Base64.Encode(payload));
    var body := [l, ""] + rest;
    EmptyKeyLineReads(value);
    CountBeforeBlank([l], rest);
    assert body == [l] + [""] + rest;
    assert body[..1] == [l] && body[2..] == rest;
    assert [l][..0] == [];
    assert Gather([l], KeyOf, ValueOf) == map["" := value];
    WrapFlattens(Base64.Encode(payload));
    Base64.Base64RoundTrip(payload);
  }

  // ----- the loops -----

  method WriteHeaders(headers: map<string, string>) returns (buf: string)
    ensures buf == Lines(HeaderBlock(headers))
  {
    buf := "";
    if headers == map[] {
      return;
    }
    var keys := SortedStrings(headers.Keys);
    KeysListed(headers);
    ghost var lines := HeaderLines(SortedKeys(headers), headers);
    for i := 0 to |keys|
      invariant buf == Lines(lines[..i])
    {
      var k := keys[i];
      assert k in keys;
      LinesNext(lines, i);
      assert lines[i] == HeaderLine(k, headers[k]);
      buf := buf + (k + ": " + headers[k]) + "\n";
    }
    buf := buf + "\n";
    assert lines[..|keys|] == lines;
    LinesConcat(lines, [""]);
    LinesOne("");
  }

  ghost function Wrapped(e: string): string { Lines(Wrap(e)) }

  lemma WrapStep(buf: string, e: string)
    requires e != ""
    ensures buf + Wrapped(e) == buf + e[..LineEnd(e)] + "\n" + Wrapped(e[LineEnd(e)..])
  {
    var l, rest := e[..LineEnd(e)], e[LineEnd(e)..];
    LinesConcat([l], Wrap(rest));
    LinesOne(l);
    assert buf + (l + "\n" + Wrapped(rest)) == buf + l + "\n" + Wrapped(rest);
  }

  method WriteWrapped(e: string) returns (buf: string)
    ensures buf == Wrapped(e)
  {
    buf := "";
    var encoded := e;
    while |encoded| > 0
      invariant buf + Wrapped(encoded) == Wrapped(e)
      decreases |encoded|
    {
      var end := LINE_LEN;
      if end > |encoded| {
        end := |encoded|;
      }
      WrapStep(buf, encoded);
      buf := buf + encoded[..end] + "\n";
      encoded := encoded[end..];
    }
  }

  method ArmorEncodeWithHeaders(payload: Bytes, title: string, headers: map<string, string>) returns (buf: string)
    ensures buf == Encode(Armored(payload, title, headers))
  {
    ghost var d := Armored(payload, title, headers);
    var head := WriteHeaders(headers);
    var body := WriteWrapped(Base64.Encode(payload));
    buf := (BEGIN + title + DASHES + "\n") + head + body + (END + title + DASHES + "\n");
    FramedLines(d);
  }

  lemma FramedLines(d: Armored)
    ensures Encode(d) == (BEGIN + d.title + DASHES + "\n") + Lines(HeaderBlock(d.headers))
      + Lines(Wrap(Base64.Encode(d.payload))) + (END + d.title + DASHES + "\n")
  {
    LinesConcat([BEGIN + d.title + DASHES] + Body(d), [END + d.title + DASHES]);
    LinesConcat([BEGIN + d.title + DASHES], Body(d));
    LinesConcat(HeaderBlock(d.headers), Wrap(Base64.Encode(d.payload)));
    LinesOne(BEGIN + d.title + DASHES);
    LinesOne(END + d.title + DASHES);
  }

  method IndexBlankLine(lines: seq<string>) returns (i: int)
    ensures i == if FirstBlank(lines) < |lines| then FirstBlank(lines) else -1
  {
    for k := 0 to |lines|
      invariant FirstBlank(lines) == k + FirstBlank(lines[k..])
    {
      if TrimSpace(lines[k]) == "" {
        return k;
      }
      assert lines[k..][1..] == lines[k + 1..];
    }
    return -1;
  }

  method HeadersLook(lines: seq<string>) returns (ok: bool)
    ensures ok == LooksLikeHeaders(lines)
  {
    if |lines| == 0 {
      return false;
    }
    for k := 0 to |lines|
      invariant forall i :: 0 <= i < k ==> HeaderShaped(lines[i])
    {
      var shaped := ShapedLine(lines[k]);
      if !shaped {
        return false;
      }
    }
    return true;
  }

  method ShapedLine(l: string) returns (ok: bool)
    ensures ok == HeaderShaped(l)
  {
    var colon := IndexOf(l, ':');
    if colon == |l| || colon == 0 {
      return false;
    }
    return Utf8Len(l[..colon]) <= 64;
  }

  method CollectHeaders(lines: seq<string>) returns (headers: map<string, string>)
    requires LooksLikeHeaders(lines)
    ensures headers == ReadHeaders(lines)
  {
    headers := map[];
    for k := 0 to |lines|
      invariant headers == Gather(lines[..k], KeyOf, ValueOf)
    {
      var key, value := HeaderParts(lines[k]);
      headers := headers[key := value];
      assert lines[..k + 1][..k] == lines[..k];
    }
    assert lines[..|lines|] == lines;
  }

  /** The decoder's own test for a missing or leading colon never fires here. */
  method HeaderParts(l: string) returns (key: string, value: string)
    requires HeaderShaped(l)
    ensures key == KeyOf(l) && value == ValueOf(l)
  {
    var colon := IndexOf(l, ':');
    assert 0 < colon < |l|;
    key := TrimSpace(l[..colon]);
    value := TrimSpace(l[colon + 1..]);
  }

  method DecodeBodyLines(title: string, body: seq<string>) returns (r: Result)
    ensures r == DecodeBody(title, body)
  {
    var bodyLines := body;
    var headers: map<string, string> := map[];
    var blank := IndexBlankLine(body);
    if blank > 0 {
      var look := HeadersLook(body[..blank]);
      if look {
        headers := CollectHeaders(body[..blank]);
        bodyLines := body[blank + 1..];
      }
    }
    var payload := Base64.DecodeString(Flatten(bodyLines));
    return if payload.None? then Err(InvalidBase64) else Ok(Armored(payload.value, title, headers));
  }

  method ArmorDecodeWithHeaders(text: string) returns (r: Result)
    ensures r == Decode(text)
  {
    var s := TrimSpace(UnixBreaks(text));
    if s == "" {
      return Err(EmptyInput);
    }
    var lines := Split(s);
    if |lines| < 2 {
      return Err(TooFewLines);
    }
    var header := lines[0];
    if !(BEGIN <= header) || !HasSuffix(header, DASHES) {
      return Err(InvalidHeader);
    }
    LabelInBounds(header);
    var title := header[|BEGIN|..|header| - |DASHES|];
    if lines[|lines| - 1] != END + title + DASHES {
      return Err(FooterMismatch);
    }
    r := DecodeBodyLines(title, lines[1..|lines| - 1]);
  }
}
