/**
 The connection loop beside what RFC 9112 asks of it: how long a body is (section 6.3), and
 whether the connection persists after a response (section 9.3). The server reads neither
 lists nor transfer encodings nor the version; the lemmas say exactly when that shows.
 */
module HttpStandard {
  import opened BasicTypes
  import opened Text
  import opened Http

  // ----- Header values -----

  /** The values of a header, in order, whatever the case of its name. */
  function Values(hs: seq<(string, string)>, name: string): seq<string> {
    if hs == [] then [] else (if ToLower(hs[0].0) == name then [hs[0].1] else []) + Values(hs[1..], name)
  }

  predicate IsOptionalSpace(c: char) {
    c == ' ' || c == '\t'
  }

  function WithoutSpace(s: string): string {
    if s != [] && IsOptionalSpace(s[0]) then WithoutSpace(s[1..])
    else if s != [] && IsOptionalSpace(s[|s| - 1]) then WithoutSpace(s[..|s| - 1])
    else s
  }

  function NonEmpty(parts: seq<string>): seq<string> {
    if parts == [] then []
    else (if WithoutSpace(parts[0]) == [] then [] else [WithoutSpace(parts[0])]) + NonEmpty(parts[1..])
  }

  /** The elements of a list header: its values in order, cut at commas, blank elements dropped. */
  function Elements(values: seq<string>): seq<string> {
    if values == [] then [] else NonEmpty(SplitAll(values[0], ",")) + Elements(values[1..])
  }

  /** The header map keeps the last value. */
  lemma {:induction false} MapHasLast(acc: map<string, string>, hs: seq<(string, string)>, name: string)
    ensures var m, values := HeaderMap(acc, hs), Values(hs, name);
      && (name in m <==> name in acc || values != [])
      && (name in m ==> m[name] == if values != [] then values[|values| - 1] else acc[name])
    decreases |hs|
  {
    if hs != [] {
      hide ToLower;
      MapHasLast(acc[ToLower(hs[0].0) := hs[0].1], hs[1..], name);
    }
  }

  lemma {:induction false} LastElements(values: seq<string>)
    requires values != []
    ensures var last := NonEmpty(SplitAll(values[|values| - 1], ","));
      |last| <= |Elements(values)| && Elements(values)[|Elements(values)| - |last|..] == last
  {
    hide NonEmpty, SplitAll;
    if |values| == 1 {
      assert values[1..] == [];
      assert Elements(values) == NonEmpty(SplitAll(values[0], ","));
    } else {
      LastElements(values[1..]);
    }
  }

  /** A value that is one element, as it is. */
  predicate OneElement(s: string) {
    s != [] && ',' !in s && !IsOptionalSpace(s[0]) && !IsOptionalSpace(s[|s| - 1])
  }

  lemma NothingMore(part: string)
    ensures NonEmpty([part]) == if WithoutSpace(part) == [] then [] else [WithoutSpace(part)]
  {
    assert [part][1..] == [];
    hide WithoutSpace;
  }

  lemma OneElementAlone(s: string)
    requires OneElement(s)
    ensures NonEmpty(SplitAll(s, ",")) == [s]
  {
    NoCommaNoCut(s);
    assert WithoutSpace(s) == s;
    hide SplitAll, NonEmpty, WithoutSpace;
    NothingMore(s);
  }

  lemma NoCommaNoCut(s: string)
    requires ',' !in s
    ensures SplitAll(s, ",") == [s]
  {
    CommasSplit([s]);
    hide SplitAll;
    assert Join([s], ",") == s;
  }

  /** If the last value is one element, it is the last element. */
  lemma LastElement(values: seq<string>)
    requires values != [] && OneElement(values[|values| - 1])
    ensures var elements := Elements(values);
      elements != [] && elements[|elements| - 1] == values[|values| - 1]
  {
    LastElements(values);
    OneElementAlone(values[|values| - 1]);
    hide Elements, NonEmpty, SplitAll;
    var elements := Elements(values);
    assert elements[|elements| - 1..][0] == elements[|elements| - 1];
  }

  // ----- How long a body is -----

  datatype Framing = Length(n: nat) | Encoded | Unframeable

  /** The server takes the last content length, or none; it does not look at any transfer encoding. */
  function ServerFraming(hs: seq<(string, string)>): Framing {
    match ContentLength(HeaderMap(map[], hs)) case Some(n) => Length(n) case None => Unframeable
  }

  /** There are numbers, and they are all equal. */
  predicate OneLength(elements: seq<string>) {
    && elements != []
    && (forall i | 0 <= i < |elements| :: AllDigits(elements[i]))
    && (forall i | 0 <= i < |elements| :: DigitsValue(elements[i]) == DigitsValue(elements[0]))
  }

  /**
   Section 6.3 of RFC 9112: a transfer encoding overrides any content length; content lengths
   must be one number, which a list may repeat; and without either there is no body.
   */
  function StandardFraming(hs: seq<(string, string)>): Framing {
    var lengths := Values(hs, "content-length");
    var elements := Elements(lengths);
    if Values(hs, "transfer-encoding") != [] then Encoded
    else if lengths == [] then Length(0)
    else if OneLength(elements) then Length(DigitsValue(elements[0]))
    else Unframeable
  }

  /** No content length, or the last one a number by itself that fits a machine word. */
  predicate PlainLength(lengths: seq<string>) {
    lengths == [] ||
      var last := lengths[|lengths| - 1];
      AllDigits(last) && DigitsValue(last) < USIZE_LIMIT
  }

  lemma ReadableIsOneElement(s: string)
    requires ParseUsize(s).Some?
    ensures OneElement(s)
  {
    var digits := if s != [] && s[0] == '+' then s[1..] else s;
    hide DigitsValue;
    assert AllDigits(digits);
    assert s == digits || s == "+" + digits;
  }

  lemma DigitsParse(s: string)
    requires AllDigits(s)
    ensures ParseUsize(s) == if DigitsValue(s) < USIZE_LIMIT then Some(DigitsValue(s)) else None
  {
    assert IsDigit(s[0]);
    hide DigitsValue;
  }

  /** Of content lengths that are one number, the server can read the last if and only if it is plain. */
  lemma LastOfOneLength(lengths: seq<string>)
    requires lengths != [] && OneLength(Elements(lengths))
    ensures ParseUsize(lengths[|lengths| - 1]) ==
      if PlainLength(lengths) then Some(DigitsValue(Elements(lengths)[0])) else None
  {
    var last, elements := lengths[|lengths| - 1], Elements(lengths);
    hide DigitsValue, Elements;
    if ParseUsize(last).Some? {
      ReadableIsOneElement(last);
      LastElement(lengths);
      assert AllDigits(last);
    }
    hide ParseUsize;
    if AllDigits(last) {
      DigitsParse(last);
      assert OneElement(last) by { DigitsAreOneElement(last); }
      LastElement(lengths);
    }
  }

  lemma DigitsAreOneElement(s: string)
    requires AllDigits(s)
    ensures OneElement(s)
  {
    assert IsDigit(s[0]) && IsDigit(s[|s| - 1]);
  }

  lemma ServerFramingIs(hs: seq<(string, string)>)
    ensures var lengths := Values(hs, "content-length");
      ServerFraming(hs) ==
      if lengths == [] then Length(0)
      else match ParseUsize(lengths[|lengths| - 1]) case Some(n) => Length(n) case None => Unframeable
  {
    MapHasLast(map[], hs, "content-length");
    hide Values, HeaderMap, ParseUsize;
  }

  /**
   The server's framing is that of section 6.3 exactly if no transfer encoding is given and the
   content lengths are absent; or one number, the last value being that number by itself and
   fitting a machine word; or not one number, and the last value unreadable.
   */
  lemma FramingAgreesExactlyWhen(hs: seq<(string, string)>)
    ensures var lengths := Values(hs, "content-length");
      ServerFraming(hs) == StandardFraming(hs) <==>
      && Values(hs, "transfer-encoding") == []
      && if lengths == [] || OneLength(Elements(lengths)) then PlainLength(lengths)
         else ParseUsize(lengths[|lengths| - 1]).None?
  {
    var lengths := Values(hs, "content-length");
    ServerFramingIs(hs);
    hide Values, ServerFraming, DigitsValue, Elements, OneLength, ParseUsize;
    if lengths != [] && OneLength(Elements(lengths)) {
      LastOfOneLength(lengths);
    }
  }

  function Decimal(n: nat): string {
    if n < 10 then [Digit(n)] else Decimal(n / 10) + [Digit(n % 10)]
  }

  function Digit(n: nat): char
    requires n < 10
  {
    ('0' as int + n) as char
  }

  lemma {:induction false} DecimalParses(n: nat)
    ensures AllDigits(Decimal(n)) && DigitsValue(Decimal(n)) == n
  {
    if n >= 10 {
      DecimalParses(n / 10);
      var d := Decimal(n);
      assert d[..|d| - 1] == Decimal(n / 10) && d[|d| - 1] == Digit(n % 10);
    }
  }

  lemma {:induction false} ValuesConcat(a: seq<(string, string)>, b: seq<(string, string)>, name: string)
    ensures Values(a + b, name) == Values(a, name) + Values(b, name)
  {
    hide ToLower;
    if a == [] {
      assert a + b == b;
    } else {
      assert (a + b)[1..] == a[1..] + b;
      ValuesConcat(a[1..], b, name);
    }
  }

  lemma {:induction false} NoValues(hs: seq<(string, string)>, name: string)
    requires forall h | h in hs :: ToLower(h.0) != name
    ensures Values(hs, name) == []
  {
    if hs != [] {
      assert hs[0] in hs && forall h | h in hs[1..] :: h in hs;
      NoValues(hs[1..], name);
    }
  }

  /** The only content length of a request, wherever it stands and however its name is cased. */
  predicate OnlyLength(before: seq<(string, string)>, name: string, after: seq<(string, string)>) {
    && ToLower(name) == "content-length"
    && forall h | h in before + after :: ToLower(h.0) != "content-length" && ToLower(h.0) != "transfer-encoding"
  }

  lemma OnlyLengthFound(before: seq<(string, string)>, name: string, value: string, after: seq<(string, string)>)
    requires OnlyLength(before, name, after)
    ensures var hs := before + [(name, value)] + after;
      Values(hs, "content-length") == [value] && Values(hs, "transfer-encoding") == []
  {
    hide ToLower;
    var own := [(name, value)];
    assert own[1..] == [];
    forall n: string | n == "content-length" || n == "transfer-encoding"
      ensures Values(before + own + after, n) == if n == "content-length" then [value] else []
    {
      ValuesConcat(before + own, after, n);
      ValuesConcat(before, own, n);
      NoValues(before, n);
      NoValues(after, n);
    }
  }

  /** A written content length frames its body by section 6.3, and the server frames it so as well. */
  lemma WrittenLengthFrames(before: seq<(string, string)>, name: string, n: nat, after: seq<(string, string)>)
    requires OnlyLength(before, name, after)
    ensures var hs := before + [(name, Decimal(n))] + after;
      StandardFraming(hs) == Length(n) && (n < USIZE_LIMIT <==> ServerFraming(hs) == Length(n))
  {
    var hs := before + [(name, Decimal(n))] + after;
    OnlyLengthFound(before, name, Decimal(n), after);
    DecimalParses(n);
    DigitsAreOneElement(Decimal(n));
    OneElementAlone(Decimal(n));
    FramingAgreesExactlyWhen(hs);
    hide ServerFraming, Values, Decimal, DigitsValue, NonEmpty, SplitAll, OnlyLength;
    assert [Decimal(n)][1..] == [];
    assert Elements([Decimal(n)]) == [Decimal(n)];
  }

  /** A list that repeats the length frames the body by section 6.3 as well; the server cannot read it. */
  lemma ListedLengthIsUnreadable(before: seq<(string, string)>, name: string, n: nat, after: seq<(string, string)>)
    requires OnlyLength(before, name, after)
    ensures var hs := before + [(name, Decimal(n) + ", " + Decimal(n))] + after;
      StandardFraming(hs) == Length(n) && ServerFraming(hs) == Unframeable
  {
    var list := Decimal(n) + ", " + Decimal(n);
    OnlyLengthFound(before, name, list, after);
    DecimalParses(n);
    ListedTwice(n);
    ServerFramingIs(before + [(name, list)] + after);
    TwiceIsOneLength(Decimal(n));
    assert list[|Decimal(n)|] == ',';
    hide Values, Decimal, DigitsValue, Elements, OnlyLength, OneLength, ServerFraming;
    if ParseUsize(list).Some? {
      ReadableIsOneElement(list);
      assert false;
    }
  }

  lemma TwiceIsOneLength(d: string)
    requires AllDigits(d)
    ensures OneLength([d, d])
  {
    hide DigitsValue, AllDigits;
  }

  /** Two elements in one value. */
  lemma TwoElements(a: string, gap: string, b: string)
    requires OneElement(a) && OneElement(b) && (gap == "" || gap == " ")
    ensures Elements([a + "," + (gap + b)]) == [a, b]
  {
    hide NonEmpty, OneElement;
    SpaceDropped("", a);
    SpaceDropped(gap, b);
    SplitInTwo(a, gap + b);
    assert "" + a == a;
    NothingMore(gap + b);
    OneMore(a, [gap + b]);
    hide WithoutSpace, SplitAll;
    assert [a + "," + (gap + b)][1..] == [];
    assert [a] + [b] == [a, b];
  }

  lemma ListedTwice(n: nat)
    ensures Elements([Decimal(n) + ", " + Decimal(n)]) == [Decimal(n), Decimal(n)]
  {
    var d := Decimal(n);
    DecimalParses(n);
    DigitsAreOneElement(d);
    hide Elements, Decimal, DigitsValue;
    TwoElements(d, " ", d);
    CommaAndSpace(d);
  }

  lemma CommaAndSpace(d: string)
    ensures d + ", " + d == d + "," + (" " + d)
  {
  }

  lemma SplitInTwo(a: string, b: string)
    requires OneElement(a) && ',' !in b
    ensures SplitAll(a + "," + b, ",") == [a] + [b]
  {
    CommasSplit([a, b]);
    hide SplitAll;
    JoinCons(a, [b]);
    assert [a] + [b] == [a, b];
  }

  lemma SpaceDropped(gap: string, s: string)
    requires OneElement(s) && (gap == "" || gap == " ")
    ensures WithoutSpace(gap + s) == s != [] && ',' !in gap + s
  {
    if gap == "" {
      assert gap + s == s;
    } else {
      assert (gap + s)[1..] == s;
    }
  }

  lemma OneMore(part: string, later: seq<string>)
    ensures NonEmpty([part] + later) ==
      (if WithoutSpace(part) == [] then [] else [WithoutSpace(part)]) + NonEmpty(later)
  {
    assert ([part] + later)[1..] == later;
    hide WithoutSpace;
  }

  // ----- Whether the connection persists -----

  predicate HasOption(hs: seq<(string, string)>, option: string) {
    var options := Elements(Values(hs, "connection"));
    exists i | 0 <= i < |options| :: ToLower(options[i]) == option
  }

  predicate FromVersion11(version: string) {
    && |version| == 8 && version[..5] == "HTTP/" && IsDigit(version[5]) && version[6] == '.' && IsDigit(version[7])
    && (version[5] > '1' || (version[5] == '1' && version[7] >= '1'))
  }

  /** HTTP/1.1 or later; or HTTP/1.0 with the option to keep the connection. */
  predicate MayPersist(r: WireRequest) {
    FromVersion11(r.version) || (r.version == "HTTP/1.0" && HasOption(r.headers, "keep-alive"))
  }

  /** Section 9.3 of RFC 9112: a close option ends the connection; without one the version decides. */
  predicate Persists(r: WireRequest) {
    !HasOption(r.headers, "close") && MayPersist(r)
  }

  lemma CloseIsOneElement(s: string)
    requires ToLower(s) == "close"
    ensures OneElement(s)
  {
    forall i | 0 <= i < |s| ensures LowerChar(s[i]) == "close"[i] {
      LowerAt(s, i);
    }
    hide ToLower;
  }

  /** Whether the server ends the connection for this request. */
  predicate Closes(r: WireRequest) {
    RequestsClose(Received(r))
  }

  lemma ClosesByLast(r: WireRequest)
    ensures var values := Values(r.headers, "connection");
      Closes(r) <==> values != [] && ToLower(values[|values| - 1]) == "close"
  {
    MapHasLast(map[], r.headers, "connection");
    hide ToLower, Values, HeaderMap;
  }

  lemma ClosesForAnOption(r: WireRequest)
    requires Closes(r)
    ensures HasOption(r.headers, "close")
  {
    ClosesByLast(r);
    var values := Values(r.headers, "connection");
    CloseIsOneElement(values[|values| - 1]);
    LastElement(values);
    hide ToLower, Values, Elements;
    var options := Elements(values);
    assert ToLower(options[|options| - 1]) == "close";
  }

  /** A close option is the whole of its header's last value; without one the version allows to go on. */
  predicate PlainConnection(r: WireRequest) {
    var values := Values(r.headers, "connection");
    if HasOption(r.headers, "close") then values != [] && ToLower(values[|values| - 1]) == "close" else MayPersist(r)
  }

  /**
   The server keeps the connection just as section 9.3 says exactly if a close option, should
   there be one, is the whole last value of its header, and the version allows keeping it
   should there be none.
   */
  lemma PersistenceAgreesExactlyWhen(r: WireRequest)
    ensures Closes(r) == !Persists(r) <==> PlainConnection(r)
  {
    ClosesByLast(r);
    if Closes(r) {
      ClosesForAnOption(r);
    }
    hide ToLower, Values, HasOption, Closes, MayPersist;
  }

  // ----- Whole connections -----

  /** A request whose body is as long as section 6.3 says. */
  ghost predicate WellFormed(r: WireRequest, maxBody: nat) {
    Shaped(r) && StandardFraming(r.headers) == Length(|r.body|) && |r.body| <= maxBody
  }

  /** The request alone decides, but for the server's own limit on requests. */
  predicate Continues(r: WireRequest, served: nat) {
    Persists(r) && served < KEEPALIVE_REQUEST_LIMIT
  }

  /** What the standard asks for: every request answered, in order, up to one after which the connection ends. */
  function StandardReplies(rs: seq<WireRequest>, served: nat): seq<Reply>
    decreases |rs|
  {
    if rs == [] then [] else
    [Routed(Received(rs[0]), Continues(rs[0], served + 1))] +
      if Continues(rs[0], served + 1) then StandardReplies(rs[1..], served + 1) else []
  }

  /** What the server reads of this request's headers is all there is to them; `served` counts it. */
  predicate Plain(r: WireRequest, served: nat) {
    PlainLength(Values(r.headers, "content-length")) && (served < KEEPALIVE_REQUEST_LIMIT ==> PlainConnection(r))
  }

  /** So it is with every request up to one after which the connection ends. */
  predicate AllPlain(rs: seq<WireRequest>, served: nat)
    decreases |rs|
  {
    rs == [] || (Plain(rs[0], served + 1) && (Continues(rs[0], served + 1) ==> AllPlain(rs[1..], served + 1)))
  }

  lemma WellFormedIsFramedExactlyWhen(r: WireRequest, maxBody: nat)
    requires WellFormed(r, maxBody)
    ensures Framed(r, maxBody) <==> PlainLength(Values(r.headers, "content-length"))
    ensures !Framed(r, maxBody) ==> ContentLength(HeaderMap(map[], r.headers)).None?
  {
    var lengths := Values(r.headers, "content-length");
    MapHasLast(map[], r.headers, "content-length");
    hide Shaped, Values, HeaderMap, DigitsValue, Elements, OneLength, ParseUsize, PlainLength;
    if lengths != [] {
      LastOfOneLength(lengths);
    } else {
      NoLengthIsPlain();
    }
  }

  lemma NoLengthIsPlain()
    ensures PlainLength([])
  {
  }

  /** What the server answers to a request and the ones after it. */
  function Answered(r: WireRequest, served: nat, later: Session): Session {
    if !PlainLength(Values(r.headers, "content-length")) then Session([InvalidContentLength], Closed)
    else if ShouldKeepAlive(Closes(r), served) then Session([Routed(Received(r), true)] + later.replies, later.outcome)
    else Session([Routed(Received(r), false)], Closed)
  }

  lemma AnswersExactlyWhen(r: WireRequest, served: nat, later: Session, standard: seq<Reply>)
    ensures var replies := [Routed(Received(r), Continues(r, served))] + if Continues(r, served) then standard else [];
      Answered(r, served, later) == Session(replies, Closed) <==>
      Plain(r, served) && (Continues(r, served) ==> later == Session(standard, Closed))
  {
    PersistenceAgreesExactlyWhen(r);
    hide PlainLength, PlainConnection, Values, Received, Persists, Closes;
    var first := Routed(Received(r), true);
    assert ([first] + later.replies)[1..] == later.replies && ([first] + standard)[1..] == standard;
    assert ([first] + later.replies)[0] == first;
    assert Answered(r, served, later).replies != [];
    assert [Routed(Received(r), false)] + [] == [Routed(Received(r), false)];
  }

  /** One well-formed request and what follows it, on the connection. */
  lemma ServeWellFormed(r: WireRequest, more: string, maxBody: nat, served: nat)
    requires WellFormed(r, maxBody)
    ensures Serve(Wire(r) + more, EndOfStream, maxBody, served) ==
      Answered(r, served + 1, Serve(more, EndOfStream, maxBody, served + 1))
  {
    WellFormedIsFramedExactlyWhen(r, maxBody);
    if Framed(r, maxBody) {
      RequestCutExactly(r, more, EndOfStream, maxBody, served);
      hide ParseRequest, Serve, Framed, WellFormed, Values, PlainLength, Wire, Received, RequestsClose;
      ServeReady(Wire(r) + more, EndOfStream, maxBody, served, Received(r), more);
    } else {
      HeadRead(r, more, EndOfStream, maxBody, served);
      hide ParseRequest, Framed, WellFormed, Values, PlainLength, Wire, Received, RequestsClose;
    }
  }

  /**
   A connection of requests that section 6.3 frames with a length is answered as the standard
   says exactly if, of every request that is answered, the last content length and the last
   connection header are plain.
   */
  lemma {:induction false} StandardSessionExactlyWhen(rs: seq<WireRequest>, maxBody: nat, served: nat)
    requires forall i | 0 <= i < |rs| :: WellFormed(rs[i], maxBody)
    ensures Serve(WireAll(rs), EndOfStream, maxBody, served) == Session(StandardReplies(rs, served), Closed) <==>
      AllPlain(rs, served)
    decreases |rs|
  {
    if rs != [] {
      hide WellFormed, Serve, Wire, Plain, Continues;
      assert WellFormed(rs[0], maxBody);
      ServeWellFormed(rs[0], WireAll(rs[1..]), maxBody, served);
      StandardSessionExactlyWhen(rs[1..], maxBody, served + 1);
      AnswersExactlyWhen(rs[0], served + 1, Serve(WireAll(rs[1..]), EndOfStream, maxBody, served + 1),
                         StandardReplies(rs[1..], served + 1));
    }
  }

  // ----- Transfer encodings -----

  /** Without a content length, the encoded body of a request is read as what follows the request. */
  lemma EncodedBodyIsNotRead(r: WireRequest, encoded: string, tail: Tail, maxBody: nat, served: nat)
    requires Shaped(r) && r.body == [] && Values(r.headers, "content-length") == []
    ensures ParseRequest(Wire(r) + encoded, tail, maxBody, served) == Ready(Received(r), encoded)
  {
    hide Shaped;
    MapHasLast(map[], r.headers, "content-length");
    RequestCutExactly(r, encoded, tail, maxBody, served);
  }

  function ChunkedPost(): WireRequest {
    WireRequest("POST", "/a", "HTTP/1.1", [("transfer-encoding", "chunked")], [])
  }

  lemma {:induction false} LowerIsLower(s: string)
    requires forall i | 0 <= i < |s| :: !('A' <= s[i] <= 'Z')
    ensures ToLower(s) == s
  {
    if s != [] {
      LowerIsLower(s[1..]);
    }
  }

  lemma OnlyHeader(k: string, v: string, name: string)
    requires ToLower(k) == k
    ensures Values([(k, v)], name) == if k == name then [v] else []
    ensures HeaderMap(map[], [(k, v)]) == map[k := v]
  {
    hide ToLower;
    assert [(k, v)][1..] == [];
  }

  lemma EncodingNameIsLower()
    ensures ToLower("transfer-encoding") == "transfer-encoding"
  {
    LowerIsLower("transfer-encoding");
  }

  /** Visible ASCII characters other than the colon. */
  predicate Visible(s: string) {
    s != [] && forall i | 0 <= i < |s| :: '!' <= s[i] <= '~' && s[i] != ':'
  }

  lemma VisibleIsPlain(s: string)
    requires Visible(s)
    ensures NoSpace(s) && NoLineBreak(s) && Trimmed(s) && ':' !in s
  {
  }

  lemma VisibleHeader(k: string, v: string)
    requires Visible(k) && Visible(v) && |k| + |v| <= 1000
    ensures WellFormedHeader((k, v))
  {
    VisibleIsPlain(k);
    VisibleIsPlain(v);
    hide Visible, NoSpace, Trimmed;
    assert |HeaderLine((k, v))| == |k| + |v| + 4;
  }

  lemma VisibleIsShaped(r: WireRequest, k: string, v: string)
    requires Visible(r.verb) && Visible(r.target) && Visible(k) && Visible(v) && ToLower(k) == k
    requires |r.verb| + |r.target| + |k| + |v| <= 1000 && r.headers == [(k, v)] && r.version == "HTTP/1.1"
    ensures Shaped(r)
  {
    hide Visible, RequestLine, HeaderMap, HeaderLines, ToLower, NoSpace, NoLineBreak, WellFormedHeader;
    VisibleIsPlain(r.verb);
    VisibleIsPlain(r.target);
    VisibleHeader(k, v);
    VersionIsPlain();
    OnlyHeader(k, v, k);
    OneHeaderBlock(k, v);
    RequestLineLength(r);
    OneName(k, v);
  }

  lemma VersionIsPlain()
    ensures NoLineBreak("HTTP/1.1") && |"HTTP/1.1"| == 8
  {
  }

  lemma OneName(k: string, v: string)
    ensures |map[k := v]| == 1
  {
    assert map[k := v].Keys == {k};
  }

  lemma RequestLineLength(r: WireRequest)
    ensures |RequestLine(r)| == |r.verb| + |r.target| + |r.version| + 4
  {
  }

  lemma ChunkedPostIsShaped()
    ensures Shaped(ChunkedPost())
  {
    EncodingNameIsLower();
    hide ToLower, Shaped;
    VisibleIsShaped(ChunkedPost(), "transfer-encoding", "chunked");
  }

  lemma OneHeaderBlock(k: string, v: string)
    ensures |HeaderLines([(k, v)])| == |k| + |v| + 6
  {
    assert [(k, v)][1..] == [];
    assert HeaderLines([]) == "\r\n";
  }

  lemma LastChunkParses(maxBody: nat)
    ensures ParseRequest("0\r\n\r\n", EndOfStream, maxBody, 1) == Ready(Request("0", "/", map[], []), [])
  {
    var s, line := "0\r\n\r\n", "0\r\n";
    assert s == "0\r" + "\n" + "\r\n" && line == "0\r" + "\n";
    LineOfTerminated("0\r", "\r\n");
    assert s[|line|..] == "\r\n" + "";
    EmptyBlockRead("", EndOfStream, map[], 0);
    LastChunkWords();
    hide LineOf, ReadHeaders, FirstWords;
  }

  lemma LastChunkWords()
    ensures FirstWords("0\r\n") == ("0", "")
  {
    var line := "0\r\n";
    assert line == "0" + "\r\n" && TrimStart(line) == line;
    WordOf("0", "\r\n");
    assert line[1..] == "\r\n" && "\r\n"[1..] == "\n" && "\n"[1..] == "";
    assert TrimStart("\r\n") == TrimStart("\n") == TrimStart("") == "";
  }

  /** An empty chunked body: its last-chunk line becomes the verb of a second request. */
  lemma ChunkedBodyIsReadAsRequest(maxBody: nat)
    ensures StandardFraming(ChunkedPost().headers) == Encoded
    ensures Serve(Wire(ChunkedPost()) + "0\r\n\r\n", EndOfStream, maxBody, 0) ==
      Session([Routed(Received(ChunkedPost()), true), Routed(Request("0", "/", map[], []), true)], Closed)
  {
    hide Wire, Shaped, ParseRequest, Values, HeaderMap, ToLower;
    var r, encoded := ChunkedPost(), "0\r\n\r\n";
    ChunkedPostIsShaped();
    EncodingNameIsLower();
    OnlyHeader("transfer-encoding", "chunked", "content-length");
    OnlyHeader("transfer-encoding", "chunked", "transfer-encoding");
    EncodedBodyIsNotRead(r, encoded, EndOfStream, maxBody, 0);
    LastChunkParses(maxBody);
    EndServes(maxBody);
    hide Serve;
    ServeReady(Wire(r) + encoded, EndOfStream, maxBody, 0, Received(r), encoded);
    ServeReady(encoded, EndOfStream, maxBody, 1, Request("0", "/", map[], []), []);
  }

  lemma EndServes(maxBody: nat)
    ensures Serve([], EndOfStream, maxBody, 2) == Session([], Closed)
  {
  }

  // ----- A close option in a list -----

  function ListedClose(): WireRequest {
    WireRequest("GET", "/a", "HTTP/1.1", [("connection", "close,te")], [])
  }

  lemma ListedCloseOptions()
    ensures Elements(["close,te"]) == ["close", "te"]
  {
    hide Elements;
    TwoElements("close", "", "te");
    assert "close" + "," + ("" + "te") == "close,te";
  }

  lemma ListedCloseIsLower()
    ensures ToLower("close") == "close" && ToLower("close,te") == "close,te" && ToLower("connection") == "connection"
  {
    hide ToLower;
    LowerIsLower("close");
    LowerIsLower("close,te");
    LowerIsLower("connection");
  }

  lemma ListedCloseIsShaped()
    ensures Shaped(ListedClose())
  {
    ListedCloseIsLower();
    hide ToLower, Shaped;
    VisibleIsShaped(ListedClose(), "connection", "close,te");
  }

  lemma ListedCloseValues()
    ensures var hs := ListedClose().headers;
      && Values(hs, "connection") == ["close,te"]
      && Values(hs, "content-length") == [] && Values(hs, "transfer-encoding") == []
  {
    ListedCloseIsLower();
    hide ToLower, Values, HeaderMap;
    OnlyHeader("connection", "close,te", "connection");
    OnlyHeader("connection", "close,te", "content-length");
    OnlyHeader("connection", "close,te", "transfer-encoding");
  }

  lemma ListedCloseIsWellFormed(maxBody: nat)
    ensures WellFormed(ListedClose(), maxBody)
    ensures PlainLength(Values(ListedClose().headers, "content-length"))
  {
    ListedCloseIsShaped();
    ListedCloseValues();
    hide Shaped, Values, Elements, OneLength;
  }

  lemma ListedCloseIsMissed()
    ensures !Persists(ListedClose()) && !Closes(ListedClose())
  {
    ListedCloseIsLower();
    ListedCloseOptions();
    ListedCloseValues();
    ClosesByLast(ListedClose());
    hide ToLower, Values, Elements, MayPersist, Closes;
    assert ToLower(["close", "te"][0]) == "close";
    assert HasOption(ListedClose().headers, "close");
  }

  /** A close option in a list ends the connection by section 9.3; the server goes on to answer. */
  lemma ListedCloseIsIgnored(maxBody: nat)
    ensures var r := ListedClose();
      && WellFormed(r, maxBody) && !Persists(r)
      && Serve(WireAll([r, r]), EndOfStream, maxBody, 0) ==
         Session([Routed(Received(r), true), Routed(Received(r), true)], Closed)
  {
    var r := ListedClose();
    ListedCloseIsWellFormed(maxBody);
    ListedCloseIsMissed();
    EndServes(maxBody);
    hide WellFormed, Serve, Wire, Received, Persists, Closes, Values, PlainLength;
    ServeWellFormed(r, WireAll([r]), maxBody, 0);
    ServeWellFormed(r, [], maxBody, 1);
    assert [r, r][1..] == [r] && [r][1..] == [];
    assert WireAll([r]) == Wire(r) + [];
  }
}
