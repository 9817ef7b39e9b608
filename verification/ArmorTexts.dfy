/** Which texts armor decoding accepts, what it makes of them, and why it refuses the others. */
module ArmorTexts {
  import opened Wrappers
  import opened Bytes
  import opened Lex
  import opened Sorting
  import opened Text
  import opened Armor
  import Base64

  // ----- lines -----

  predicate Spaces(s: string) { forall i :: 0 <= i < |s| ==> IsSpace(s[i]) }

  lemma {:induction false} TrimLeftExact(s: string)
    ensures var t := TrimLeft(s); |t| <= |s| && Spaces(s[..|s| - |t|])
  {
    if s != "" && IsSpace(s[0]) {
      TrimLeftExact(s[1..]);
      assert forall i :: 0 < i < |s| ==> s[i] == s[1..][i - 1];
    }
  }

  lemma {:induction false} TrimRightExact(s: string)
    ensures var t := TrimRight(s); |t| <= |s| && Spaces(s[|t|..])
  {
    if s != "" && IsSpace(s[|s| - 1]) {
      TrimRightExact(s[..|s| - 1]);
      TrimRightSpec(s[..|s| - 1]);
      var t := TrimRight(s);
      assert forall i :: |t| <= i < |s| - 1 ==> s[i] == s[..|s| - 1][|t|..][i - |t|];
    }
  }

  /** Trimming takes the spaces off both ends, and nothing else. */
  lemma TrimSpaceExact(s: string) returns (a: string, b: string)
    ensures s == a + TrimSpace(s) + b && Spaces(a) && Spaces(b) && Trimmed(TrimSpace(s))
  {
    var t := TrimLeft(s);
    TrimLeftSpec(s);
    TrimLeftExact(s);
    TrimRightSpec(t);
    TrimRightExact(t);
    a, b := s[..|s| - |t|], t[|TrimRight(t)|..];
    TrimSpaceTrims(s);
  }

  lemma NotAllSpaces(s: string)
    requires TrimSpace(s) != ""
    ensures !Spaces(s)
  {
    var a, b := TrimSpaceExact(s);
    assert s[|a|] == TrimSpace(s)[0];
  }

  /** Splitting a text and joining its lines gives the text back. */
  lemma {:induction false} JoinSplit(s: string)
    ensures Join(Split(s)) == s
    decreases |s|
  {
    var i := IndexOf(s, '\n');
    IndexOfSpec(s, '\n');
    if i < |s| {
      JoinSplit(s[i + 1..]);
      assert s == s[..i] + "\n" + s[i + 1..];
    }
  }

  // ----- headers -----

  /** A colon, after at least one character and at most 64 bytes of others. */
  predicate ColonAt(l: string, i: int) {
    0 < i < |l| && l[i] == ':' && ':' !in l[..i] && Utf8Len(l[..i]) <= 64
  }

  /** The first n lines are headers, and a blank line follows them. */
  ghost predicate HeadersEndAt(body: seq<string>, n: nat) {
    && 0 < n < |body| && Blank(body[n])
    && forall k :: 0 <= k < n ==> !Blank(body[k]) && exists i :: ColonAt(body[k], i)
  }

  lemma HeaderShapedExact(l: string)
    ensures HeaderShaped(l) <==> exists i :: ColonAt(l, i)
  {
    var j := IndexOf(l, ':');
    IndexOfSpec(l, ':');
    if i :| ColonAt(l, i) {
      assert l == l[..i] + [':'] + l[i + 1..];
      IndexOfAt(l[..i], ':', l[i + 1..]);
    }
    if HeaderShaped(l) {
      assert ColonAt(l, j);
    }
  }

  lemma NoHeadersMissed(body: seq<string>, n: nat)
    requires HeadersEndAt(body, n)
    ensures HeaderCount(body) == n
  {
    forall k | 0 <= k < |body| ensures HeaderShaped(body[k]) <==> exists i :: ColonAt(body[k], i) {
      HeaderShapedExact(body[k]);
    }
    assert FirstBlank(body) == n;
    assert forall k :: 0 <= k < n ==> body[..n][k] == body[k];
  }

  /** The body has headers exactly when such lines come first. */
  lemma HeaderCountExact(body: seq<string>)
    ensures HeaderCount(body) > 0 ==> HeadersEndAt(body, HeaderCount(body))
    ensures HeaderCount(body) == 0 ==> forall n: nat :: !HeadersEndAt(body, n)
  {
    var b := FirstBlank(body);
    forall k | 0 <= k < |body| ensures HeaderShaped(body[k]) <==> exists i :: ColonAt(body[k], i) {
      HeaderShapedExact(body[k]);
    }
    if HeaderCount(body) == 0 {
      forall n: nat ensures !HeadersEndAt(body, n) {
        if HeadersEndAt(body, n) {
          NoHeadersMissed(body, n);
          assert false;
        }
      }
    } else {
      assert forall k :: 0 <= k < b ==> body[..b][k] == body[k];
    }
  }

  /** What a header line says: trimmed, up to its first colon and after it. */
  ghost predicate Says(l: string, key: string, value: string) {
    exists i :: ColonAt(l, i) && key == TrimSpace(l[..i]) && value == TrimSpace(l[i + 1..])
  }

  lemma ReadsWhatItSays(l: string)
    requires HeaderShaped(l)
    ensures Says(l, KeyOf(l), ValueOf(l))
  {
    IndexOfSpec(l, ':');
    assert ColonAt(l, IndexOf(l, ':'));
  }

  /** Line k is the last with that key. */
  predicate LastWithKey(lines: seq<string>, k: nat, key: string) {
    k < |lines| && KeyOf(lines[k]) == key && forall j :: k < j < |lines| ==> KeyOf(lines[j]) != key
  }

  lemma LastBefore(lines: seq<string>, k: nat, key: string)
    requires lines != [] && KeyOf(lines[|lines| - 1]) != key
    ensures LastWithKey(lines, k, key) <==> LastWithKey(lines[..|lines| - 1], k, key)
  {
    var n := |lines| - 1;
    if LastWithKey(lines[..n], k, key) {
      forall j | k < j < |lines| ensures KeyOf(lines[j]) != key {
        assert j < n ==> lines[..n][j] == lines[j];
      }
    }
  }

  /** A header has the value of the last line with its key. */
  lemma {:induction false} GatherExact(lines: seq<string>, key: string) returns (k: nat)
    ensures key in Gather(lines, KeyOf, ValueOf) <==> LastWithKey(lines, k, key)
    ensures LastWithKey(lines, k, key) ==> Gather(lines, KeyOf, ValueOf)[key] == ValueOf(lines[k])
    ensures !LastWithKey(lines, k, key) ==> forall j :: 0 <= j < |lines| ==> KeyOf(lines[j]) != key
  {
    if lines == [] {
      k := 0;
    } else {
      var n := |lines| - 1;
      k := GatherExact(lines[..n], key);
      if KeyOf(lines[n]) == key {
        k := n;
      } else {
        LastBefore(lines, k, key);
      }
    }
  }

  // ----- what is written -----

  lemma {:induction false} WrapExact(e: string, k: nat)
    requires k < |Wrap(e)|
    ensures 0 < |Wrap(e)[k]| <= 76 && (k < |Wrap(e)| - 1 ==> |Wrap(e)[k]| == 76)
  {
    if k > 0 {
      WrapExact(e[LineEnd(e)..], k - 1);
    } else if |Wrap(e)| > 1 {
      assert e[LineEnd(e)..] != "";
    }
  }

  lemma SortedKeysExact(headers: map<string, string>)
    ensures forall i, j :: 0 <= i < j < |SortedKeys(headers)| ==> AtMost(SortedKeys(headers)[i], SortedKeys(headers)[j])
    ensures multiset(SortedKeys(headers)) == multiset(headers.Keys)
  {
    ListStringsOf(headers.Keys);
    AtMostTotalOrder();
    SortCorrect(ListStrings(headers.Keys), AtMost);
  }

  /** What a header is written as. */
  ghost predicate IsHeaderOf(l: string, key: string, headers: map<string, string>) {
    key in headers && l == key + ": " + headers[key]
  }

  lemma NoKeysIff(keys: seq<string>, headers: map<string, string>)
    requires multiset(keys) == multiset(headers.Keys)
    ensures keys == [] <==> headers == map[]
  {
    if keys != [] {
      assert keys[0] in multiset(keys);
    }
    if headers != map[] {
      var k :| k in headers;
      assert k in multiset(keys);
    }
  }

  lemma HeaderLinesExact(keys: seq<string>, headers: map<string, string>)
    requires forall k :: k in keys ==> k in headers
    ensures forall i :: 0 <= i < |keys| ==> IsHeaderOf(HeaderLines(keys, headers)[i], keys[i], headers)
  {
  }

  /** Every line but the last has 76 characters, and none is empty. */
  ghost predicate Wrapped(body: seq<string>) {
    forall k :: 0 <= k < |body| ==> 0 < |body[k]| <= 76 && (k < |body| - 1 ==> |body[k]| == 76)
  }

  lemma WrapIsWrapped(e: string)
    ensures Wrapped(Wrap(e))
  {
    forall k | 0 <= k < |Wrap(e)| ensures 0 < |Wrap(e)[k]| <= 76 && (k < |Wrap(e)| - 1 ==> |Wrap(e)[k]| == 76) {
      WrapExact(e, k);
    }
  }

  /** The text written: the BEGIN line, the headers in the order of their keys and a blank line if
      there are any, base64 in lines of 76 characters, the END line. */
  lemma ArmorTextExact(d: Armored) returns (keys: seq<string>, head: seq<string>, body: seq<string>)
    ensures multiset(keys) == multiset(d.headers.Keys)
    ensures forall i, j :: 0 <= i < j < |keys| ==> AtMost(keys[i], keys[j])
    ensures |head| == |keys| && forall i :: 0 <= i < |keys| ==> IsHeaderOf(head[i], keys[i], d.headers)
    ensures Flatten(body) == Base64.Encode(d.payload) && Wrapped(body)
    ensures ArmorLines(d) == ["-----BEGIN " + d.title + "-----"]
                             + ((if head == [] then [] else head + [""]) + body) + ["-----END " + d.title + "-----"]
  {
    keys, body := SortedKeys(d.headers), Wrap(Base64.Encode(d.payload));
    head := HeaderLines(keys, d.headers);
    SortedKeysExact(d.headers);
    HeaderLinesExact(keys, d.headers);
    NoKeysIff(keys, d.headers);
    WrapFlattens(Base64.Encode(d.payload));
    WrapIsWrapped(Base64.Encode(d.payload));
  }

  // ----- whole texts -----

  /** The text's lines, without carriage returns before line breaks and spaces around it all. */
  function LinesOf(text: string): seq<string> { Split(TrimSpace(UnixBreaks(text))) }

  predicate Begins(lines: seq<string>, title: string) { lines != [] && lines[0] == "-----BEGIN " + title + "-----" }

  predicate Ends(lines: seq<string>, title: string) {
    lines != [] && lines[|lines| - 1] == "-----END " + title + "-----"
  }

  /** What follows the headers, or all if there are none. */
  function Content(body: seq<string>): seq<string> {
    if HeaderCount(body) > 0 then body[HeaderCount(body) + 1..] else body
  }

  function Payload(body: seq<string>): Option<Bytes> { Base64.DecodeString(Flatten(Content(body))) }

  /** Lines[0] is a BEGIN line with that label. */
  lemma LabelExact(l: string, title: string)
    ensures l == BEGIN + title + DASHES <==> BeginLine(l) && LabelOf(l) == title
  {
    if l == BEGIN + title + DASHES {
      assert l[..|BEGIN|] == BEGIN && l[|l| - |DASHES|..] == DASHES;
      LabelInBounds(l);
    }
    if BeginLine(l) && LabelOf(l) == title {
      LabelInBounds(l);
      assert l == l[..|BEGIN|] + l[|BEGIN|..|l| - |DASHES|] + l[|l| - |DASHES|..];
    }
  }

  /** A text decodes exactly when its first and last lines frame it with one label and what they
      frame, headers aside, is base64. The label, the headers and the payload are those. */
  lemma DecodeExact(text: string)
    ensures Decode(text).Ok? <==>
              && |LinesOf(text)| >= 2
              && (exists title :: Begins(LinesOf(text), title) && Ends(LinesOf(text), title))
              && Payload(LinesOf(text)[1..|LinesOf(text)| - 1]).Some?
    ensures Decode(text).Ok? ==>
              var d, lines := Decode(text).value, LinesOf(text);
              && |lines| >= 2 && Begins(lines, d.title) && Ends(lines, d.title)
              && var body := lines[1..|lines| - 1];
              && Payload(body) == Some(d.payload)
              && d.headers == if HeaderCount(body) > 0 then ReadHeaders(body[..HeaderCount(body)]) else map[]
  {
    var lines := LinesOf(text);
    forall title ensures Begins(lines, title) <==> BeginLine(lines[0]) && LabelOf(lines[0]) == title {
      LabelExact(lines[0], title);
    }
    if BeginLine(lines[0]) {
      assert Begins(lines, LabelOf(lines[0]));
    }
  }

  /** Why the others are refused. */
  lemma RefusalExact(text: string)
    requires Decode(text).Err?
    ensures var lines := LinesOf(text);
      match Decode(text).error
      case EmptyInput => Spaces(UnixBreaks(text))
      case TooFewLines => !Spaces(UnixBreaks(text)) && |lines| < 2
      case InvalidHeader => |lines| >= 2 && forall title :: !Begins(lines, title)
      case FooterMismatch => |lines| >= 2 && exists title :: Begins(lines, title) && !Ends(lines, title)
      case InvalidBase64 => |lines| >= 2 && (exists title :: Begins(lines, title) && Ends(lines, title))
                            && Payload(lines[1..|lines| - 1]).None?
  {
    var lines, s := LinesOf(text), UnixBreaks(text);
    forall title ensures Begins(lines, title) <==> BeginLine(lines[0]) && LabelOf(lines[0]) == title {
      LabelExact(lines[0], title);
    }
    if BeginLine(lines[0]) {
      assert Begins(lines, LabelOf(lines[0]));
    }
    if TrimSpace(s) == "" {
      var a, b := TrimSpaceExact(s);
    } else {
      NotAllSpaces(s);
    }
  }
}
