/**
 The HTTP/1.1 connection loop (`src/http/server.rs`, `src/http/parser.rs`).

 `Serve` says what one connection answers as a function of the bytes it receives in all.
 One character stands for one byte, so what is trimmed and folded in a header is what the
 source trims and folds if the header is ASCII; bodies are any bytes. `HandleStream` is the
 loop over a buffered reader that gets those bytes in arbitrary chunks, and is proved to give
 `Serve` of their concatenation: how the bytes arrive makes no difference.
 */
module Http {
  import opened BasicTypes
  import opened Text

  const MAX_REQUEST_LINE_BYTES: nat := 8 * 1024
  const MAX_HEADER_LINE_BYTES: nat := 8 * 1024
  const MAX_HEADER_BYTES: nat := 64 * 1024
  const MAX_HEADER_COUNT: nat := 100
  const KEEPALIVE_REQUEST_LIMIT: nat := 10_000
  const USIZE_LIMIT: nat := 0x1_0000_0000_0000_0000

  /** What follows the last byte: the peer has closed, or reading fails. */
  datatype Tail = EndOfStream | Breaks(timedOut: bool)

  // ----- Lines -----

  /** Everything through the first newline, or all of it. */
  function LineOf(s: string): (l: string)
    ensures l <= s
    ensures s != [] ==> l != []
  {
    if s == [] then [] else if s[0] == '\n' then [s[0]] else [s[0]] + LineOf(s[1..])
  }

  predicate EndsLine(l: string) {
    l != [] && l[|l| - 1] == '\n'
  }

  datatype LineRead = Line(text: string) | TooLong | LineFailed

  function ReadLine(s: string, tail: Tail, max: nat): (r: LineRead)
    ensures r.Line? ==> r.text <= s && (s != [] ==> r.text != [])
    ensures r.LineFailed? ==> tail.Breaks?
  {
    var l := LineOf(s);
    if |l| > max then TooLong
    else if EndsLine(l) || tail.EndOfStream? then Line(l)
    else LineFailed
  }

  // ----- Requests -----

  datatype Request = Request(verb: string, target: string, headers: map<string, string>, body: string)

  function Word(s: string): (w: string)
    ensures w <= s
  {
    if s == [] || IsSpace(s[0]) then [] else [s[0]] + Word(s[1..])
  }

  function FirstWords(line: string): (string, string) {
    var a := TrimStart(line);
    var first := Word(a);
    (first, Word(TrimStart(a[|first|..])))
  }

  function TrimEol(line: string): (t: string)
    ensures t <= line
  {
    if line != [] && (line[|line| - 1] == '\r' || line[|line| - 1] == '\n') then TrimEol(line[..|line| - 1]) else line
  }

  function AddHeader(headers: map<string, string>, line: string): map<string, string> {
    match SplitOnce(line, ":")
    case Some((k, v)) => headers[ToLower(Trim(k)) := Trim(v)]
    case None => headers
  }

  datatype HeaderBlock =
    | Headers(headers: map<string, string>, bytes: nat, rest: string)
    | OverLimit
    | HeadersFailed

  /** The header lines up to the first empty one; the limits are tested after every line. */
  function ReadHeaders(s: string, tail: Tail, headers: map<string, string>, bytes: nat): (h: HeaderBlock)
    ensures h.Headers? ==> |h.rest| <= |s|
    decreases |s|
  {
    match ReadLine(s, tail, MAX_HEADER_LINE_BYTES)
    case LineFailed => HeadersFailed
    case TooLong => OverLimit
    case Line(line) =>
      var total := bytes + |line|;
      if total > MAX_HEADER_BYTES || |headers| >= MAX_HEADER_COUNT then OverLimit else
      var trimmed := TrimEol(line);
      if trimmed == [] then Headers(headers, total, s[|line|..])
      else ReadHeaders(s[|line|..], tail, AddHeader(headers, trimmed), total)
  }

  predicate IsDigit(c: char) { '0' <= c <= '9' }

  predicate AllDigits(s: string) {
    s != [] && forall i | 0 <= i < |s| :: IsDigit(s[i])
  }

  function DigitsValue(s: string): nat
    requires forall i | 0 <= i < |s| :: IsDigit(s[i])
  {
    if s == [] then 0 else
    var last := s[|s| - 1];
    assert IsDigit(last);
    DigitsValue(s[..|s| - 1]) * 10 + (last as int - '0' as int)
  }

  /** Parsing an unsigned machine word: an optional plus sign, then at least one digit, no overflow. */
  function ParseUsize(s: string): Option<nat> {
    var digits := if s != [] && s[0] == '+' then s[1..] else s;
    if !AllDigits(digits) || DigitsValue(digits) >= USIZE_LIMIT then None else Some(DigitsValue(digits))
  }

  // ----- The connection -----

  datatype Reply = Routed(request: Request, keepAlive: bool) | HeadersTooLarge | InvalidContentLength | PayloadTooLarge
  datatype Outcome = Closed | IdleTimeout | IoFailed
  datatype Session = Session(replies: seq<Reply>, outcome: Outcome)

  datatype Parsed = Ready(request: Request, rest: string) | Refused(reply: Reply) | Stopped(outcome: Outcome)

  function ContentLength(headers: map<string, string>): Option<nat> {
    if "content-length" in headers then ParseUsize(headers["content-length"]) else Some(0)
  }

  function ParseRequest(s: string, tail: Tail, maxBody: nat, served: nat): (p: Parsed)
    ensures p.Ready? ==> |p.rest| < |s|
  {
    match ReadLine(s, tail, MAX_REQUEST_LINE_BYTES)
    case LineFailed => Stopped(if served > 0 && tail.timedOut then IdleTimeout else IoFailed)
    case TooLong => Refused(HeadersTooLarge)
    case Line(first) =>
      if first == [] then Stopped(Closed) else
      match ReadHeaders(s[|first|..], tail, map[], 0)
      case HeadersFailed => Stopped(IoFailed)
      case OverLimit => Refused(HeadersTooLarge)
      case Headers(headers, _, rest) =>
        match ContentLength(headers)
        case None => Refused(InvalidContentLength)
        case Some(n) =>
          if n > maxBody then Refused(PayloadTooLarge)
          else if n > |rest| then Stopped(IoFailed)
          else
            var (verb, target) := FirstWords(first);
            Ready(Request(verb, if target == [] then "/" else target, headers, rest[..n]), rest[n..])
  }

  predicate ShouldKeepAlive(clientRequestedClose: bool, served: nat) {
    !clientRequestedClose && served < KEEPALIVE_REQUEST_LIMIT
  }

  predicate RequestsClose(r: Request) {
    "connection" in r.headers && ToLower(r.headers["connection"]) == "close"
  }

  function Serve(s: string, tail: Tail, maxBody: nat, served: nat): Session
    decreases |s|
  {
    match ParseRequest(s, tail, maxBody, served)
    case Stopped(outcome) => Session([], outcome)
    case Refused(reply) => Session([reply], Closed)
    case Ready(request, rest) =>
      var keepAlive := ShouldKeepAlive(RequestsClose(request), served + 1);
      if !keepAlive then Session([Routed(request, false)], Closed) else
      var later := Serve(rest, tail, maxBody, served + 1);
      Session([Routed(request, true)] + later.replies, later.outcome)
  }

  // ----- What every connection keeps to -----

  /** The block's lines are a prefix of the stream, within both limits. */
  ghost predicate BlockWithinLimits(s: string, bytes: nat, h: HeaderBlock) {
    h.Headers? ==>
      && |h.headers| < MAX_HEADER_COUNT && bytes <= h.bytes <= MAX_HEADER_BYTES
      && h.bytes - bytes <= |s| && h.rest == s[h.bytes - bytes..]
  }

  lemma ReadHeadersOnce(s: string, tail: Tail, headers: map<string, string>, bytes: nat)
    ensures ReadHeaders(s, tail, headers, bytes) ==
      match ReadLine(s, tail, MAX_HEADER_LINE_BYTES)
      case LineFailed => HeadersFailed
      case TooLong => OverLimit
      case Line(line) =>
        if bytes + |line| > MAX_HEADER_BYTES || |headers| >= MAX_HEADER_COUNT then OverLimit
        else if TrimEol(line) == [] then Headers(headers, bytes + |line|, s[|line|..])
        else ReadHeaders(s[|line|..], tail, AddHeader(headers, TrimEol(line)), bytes + |line|)
  {
    hide LineOf, TrimEol, AddHeader;
  }

  lemma {:induction false} HeadersWithinLimits(s: string, tail: Tail, headers: map<string, string>, bytes: nat)
    ensures BlockWithinLimits(s, bytes, ReadHeaders(s, tail, headers, bytes))
    decreases |s|
  {
    ReadHeadersOnce(s, tail, headers, bytes);
    var l := ReadLine(s, tail, MAX_HEADER_LINE_BYTES);
    hide ReadHeaders, LineOf, TrimEol, AddHeader, ReadLine;
    if l.Line? && TrimEol(l.text) != [] {
      var n, more := |l.text|, AddHeader(headers, TrimEol(l.text));
      HeadersWithinLimits(s[n..], tail, more, bytes + n);
      BlockExtends(s, n, bytes, ReadHeaders(s[n..], tail, more, bytes + n));
    }
  }

  lemma BlockExtends(s: string, n: nat, bytes: nat, h: HeaderBlock)
    requires n <= |s| && BlockWithinLimits(s[n..], bytes + n, h)
    ensures BlockWithinLimits(s, bytes, h)
  {
    if h.Headers? {
      assert s[n..][h.bytes - (bytes + n)..] == s[h.bytes - bytes..];
    }
  }

  lemma ReadyWithinLimits(s: string, tail: Tail, maxBody: nat, served: nat)
    ensures var p := ParseRequest(s, tail, maxBody, served);
      && (p.Ready? ==> |p.request.headers| < MAX_HEADER_COUNT && |p.request.body| <= maxBody)
      && (p.Refused? ==> !p.reply.Routed?)
  {
    hide LineOf, ReadHeaders, ContentLength, FirstWords;
    HeadersWithinLimits(s[|LineOf(s)|..], tail, map[], 0);
  }

  /** What holds of the reply at a position of the connection, counted from its start. */
  predicate WithinLimits(r: Reply, position: nat, maxBody: nat) {
    r.Routed? ==>
      && position < KEEPALIVE_REQUEST_LIMIT
      && (r.keepAlive <==> !RequestsClose(r.request) && position + 1 < KEEPALIVE_REQUEST_LIMIT)
      && |r.request.headers| < MAX_HEADER_COUNT && |r.request.body| <= maxBody
  }

  /**
   On every byte stream: one reply per request and in order, each but the last a routed
   response that keeps the connection alive; at most 10,000 requests are served; the
   keep-alive mark is set exactly when the client did not ask to close and the limit is
   not reached; every routed request has fewer than 100 header names and a body within the
   configured size.
   */
  lemma {:induction false} RepliesKeepToLimits(s: string, tail: Tail, maxBody: nat, served: nat)
    requires served < KEEPALIVE_REQUEST_LIMIT
    ensures SessionWithinLimits(Serve(s, tail, maxBody, served).replies, served, maxBody)
    decreases |s|
  {
    hide ParseRequest, RequestsClose;
    var p := ParseRequest(s, tail, maxBody, served);
    ReadyWithinLimits(s, tail, maxBody, served);
    if p.Ready? && ShouldKeepAlive(RequestsClose(p.request), served + 1) {
      var later := Serve(p.rest, tail, maxBody, served + 1);
      RepliesKeepToLimits(p.rest, tail, maxBody, served + 1);
      assert Serve(s, tail, maxBody, served).replies == [Routed(p.request, true)] + later.replies;
      OneMoreReply(Routed(p.request, true), later.replies, served, maxBody);
    }
  }

  ghost predicate SessionWithinLimits(replies: seq<Reply>, served: nat, maxBody: nat) {
    && (forall i | 0 <= i < |replies| - 1 :: replies[i].Routed? && replies[i].keepAlive)
    && (forall i | 0 <= i < |replies| :: WithinLimits(replies[i], served + i, maxBody))
  }

  lemma OneMoreReply(first: Reply, later: seq<Reply>, served: nat, maxBody: nat)
    requires SessionWithinLimits(later, served + 1, maxBody)
    requires WithinLimits(first, served, maxBody) && first.Routed? && first.keepAlive
    ensures SessionWithinLimits([first] + later, served, maxBody)
  {
    var all := [first] + later;
    forall i | 1 <= i < |all| ensures WithinLimits(all[i], served + i, maxBody) {
      assert all[i] == later[i - 1];
      assert WithinLimits(later[i - 1], served + 1 + (i - 1), maxBody);
    }
  }

  // ----- Well-formed requests are cut exactly -----

  /** A request as a client writes it. */
  datatype WireRequest = WireRequest(verb: string, target: string, version: string, headers: seq<(string, string)>,
                                     body: string)

  function RequestLine(r: WireRequest): string {
    r.verb + " " + r.target + " " + r.version + "\r\n"
  }

  function HeaderLine(h: (string, string)): string {
    h.0 + ": " + h.1 + "\r\n"
  }

  function HeaderLines(hs: seq<(string, string)>): string {
    if hs == [] then "\r\n" else HeaderLine(hs[0]) + HeaderLines(hs[1..])
  }

  function Wire(r: WireRequest): string {
    RequestLine(r) + HeaderLines(r.headers) + r.body
  }

  function WireAll(rs: seq<WireRequest>): string {
    if rs == [] then [] else Wire(rs[0]) + WireAll(rs[1..])
  }

  predicate NoSpace(s: string) {
    s != [] && forall i | 0 <= i < |s| :: !IsSpace(s[i])
  }

  predicate NoLineBreak(s: string) {
    '\r' !in s && '\n' !in s
  }

  predicate WellFormedHeader(h: (string, string)) {
    && h.0 != [] && ':' !in h.0 && NoLineBreak(h.0) && NoLineBreak(h.1) && Trimmed(h.0) && Trimmed(h.1)
    && |HeaderLine(h)| <= MAX_HEADER_LINE_BYTES
  }

  /** The parts of the request are separable and keep to the limits; its body is not looked at. */
  ghost predicate Shaped(r: WireRequest) {
    && NoSpace(r.verb) && NoSpace(r.target) && NoLineBreak(r.version) && |RequestLine(r)| <= MAX_REQUEST_LINE_BYTES
    && (forall i | 0 <= i < |r.headers| :: WellFormedHeader(r.headers[i]))
    && |HeaderMap(map[], r.headers)| < MAX_HEADER_COUNT
    && |HeaderLines(r.headers)| <= MAX_HEADER_BYTES
  }

  /** The header map: names in lower case, the last of equal names winning. */
  function HeaderMap(acc: map<string, string>, hs: seq<(string, string)>): map<string, string>
    decreases |hs|
  {
    if hs == [] then acc else HeaderMap(acc[ToLower(hs[0].0) := hs[0].1], hs[1..])
  }

  function Received(r: WireRequest): Request {
    Request(r.verb, r.target, HeaderMap(map[], r.headers), r.body)
  }

  // ----- Cutting -----

  /** A request whose body is as long as the server takes it to be. */
  ghost predicate Framed(r: WireRequest, maxBody: nat) {
    Shaped(r) && ContentLength(HeaderMap(map[], r.headers)) == Some(|r.body|) && |r.body| <= maxBody
  }

  /** Each request answered in order, up to the first close or the request limit. */
  function ExpectedReplies(rs: seq<WireRequest>, served: nat): seq<Reply>
    decreases |rs|
  {
    if rs == [] then [] else
    var keepAlive := ShouldKeepAlive(RequestsClose(Received(rs[0])), served + 1);
    [Routed(Received(rs[0]), keepAlive)] + if keepAlive then ExpectedReplies(rs[1..], served + 1) else []
  }

  lemma {:induction false} LineOfTerminated(t: string, rest: string)
    requires '\n' !in t
    ensures LineOf(t + "\n" + rest) == t + "\n"
  {
    if t != [] {
      assert (t + "\n" + rest)[1..] == t[1..] + "\n" + rest;
      LineOfTerminated(t[1..], rest);
    }
  }

  lemma {:induction false} WordOf(w: string, rest: string)
    requires forall i | 0 <= i < |w| :: !IsSpace(w[i])
    requires rest == [] || IsSpace(rest[0])
    ensures Word(w + rest) == w
  {
    if w != [] {
      assert (w + rest)[1..] == w[1..] + rest;
      WordOf(w[1..], rest);
    } else {
      assert w + rest == rest;
    }
  }

  lemma RequestLineWords(r: WireRequest)
    requires NoSpace(r.verb) && NoSpace(r.target)
    ensures FirstWords(RequestLine(r)) == (r.verb, r.target)
  {
    var line := RequestLine(r);
    var afterTarget := " " + r.version + "\r\n";
    var afterVerb := " " + r.target + afterTarget;
    assert line == r.verb + afterVerb && line[0] == r.verb[0] && TrimStart(line) == line;
    WordOf(r.verb, afterVerb);
    assert line[|r.verb|..] == afterVerb;
    assert afterVerb[1..] == r.target + afterTarget && (r.target + afterTarget)[0] == r.target[0];
    assert TrimStart(afterVerb) == TrimStart(afterVerb[1..]) == r.target + afterTarget;
    WordOf(r.target, afterTarget);
  }

  lemma TrimEolOf(t: string)
    requires t == [] || (t[|t| - 1] != '\r' && t[|t| - 1] != '\n')
    ensures TrimEol(t + "\r\n") == t
  {
    var s, u := t + "\r\n", t + "\r";
    assert s[..|s| - 1] == u && TrimEol(s) == TrimEol(u);
    assert u[..|u| - 1] == t && TrimEol(u) == TrimEol(t);
    assert TrimEol(t) == t;
  }

  /** A header line is read back as its name, in lower case, and its value. */
  lemma HeaderLineParses(h: (string, string), headers: map<string, string>)
    requires WellFormedHeader(h)
    ensures TrimEol(HeaderLine(h)) != []
    ensures AddHeader(headers, TrimEol(HeaderLine(h))) == headers[ToLower(h.0) := h.1]
  {
    var t := h.0 + ": " + h.1;
    assert HeaderLine(h) == t + "\r\n";
    assert t[|t| - 1] == if h.1 == [] then ' ' else h.1[|h.1| - 1];
    TrimEolOf(t);
    HeaderTextParses(h.0, h.1, headers);
  }

  lemma HeaderTextParses(k: string, v: string, headers: map<string, string>)
    requires ':' !in k && Trimmed(k) && Trimmed(v)
    ensures AddHeader(headers, k + ": " + v) == headers[ToLower(k) := v]
  {
    assert k + ": " + v == k + ":" + (" " + v);
    FindAfter(k, ":", " " + v);
    TrimIdentity(k);
    TrimPadded(" ", v, "");
    assert " " + v + "" == " " + v;
    hide SplitOnce, Trim, ToLower;
  }

  lemma HeaderLineRead(h: (string, string), rest: string, tail: Tail)
    requires WellFormedHeader(h)
    ensures ReadLine(HeaderLine(h) + rest, tail, MAX_HEADER_LINE_BYTES) == Line(HeaderLine(h))
  {
    var t := h.0 + ": " + h.1 + "\r";
    assert HeaderLine(h) == t + "\n" && HeaderLine(h) + rest == t + "\n" + rest;
    LineOfTerminated(t, rest);
  }

  lemma {:induction false} MapGrows(acc: map<string, string>, hs: seq<(string, string)>)
    ensures acc.Keys <= HeaderMap(acc, hs).Keys && |acc| <= |HeaderMap(acc, hs)|
    decreases |hs|
  {
    if hs != [] {
      MapGrows(acc[ToLower(hs[0].0) := hs[0].1], hs[1..]);
    }
    SubsetSize(acc.Keys, HeaderMap(acc, hs).Keys);
  }

  lemma {:induction false} SubsetSize<T>(a: set<T>, b: set<T>)
    requires a <= b
    ensures |a| <= |b|
  {
    if a != {} {
      var x :| x in a;
      SubsetSize(a - {x}, b - {x});
    }
  }

  /** Any header block within the limits is read back, however many lines repeat a name. */
  lemma {:induction false} HeaderBlockRead(hs: seq<(string, string)>, rest: string, tail: Tail,
                                          acc: map<string, string>, bytes: nat)
    requires forall i | 0 <= i < |hs| :: WellFormedHeader(hs[i])
    requires |HeaderMap(acc, hs)| < MAX_HEADER_COUNT && bytes + |HeaderLines(hs)| <= MAX_HEADER_BYTES
    ensures ReadHeaders(HeaderLines(hs) + rest, tail, acc, bytes)
         == Headers(HeaderMap(acc, hs), bytes + |HeaderLines(hs)|, rest)
    decreases |hs|
  {
    hide ReadHeaders, ReadLine, LineOf, AddHeader, TrimEol, HeaderLine, WellFormedHeader;
    var s := HeaderLines(hs) + rest;
    if hs == [] {
      EmptyBlockRead(rest, tail, acc, bytes);
    } else {
      var line, later := HeaderLine(hs[0]), HeaderLines(hs[1..]) + rest;
      assert s == line + later;
      HeaderLineRead(hs[0], later, tail);
      HeaderLineParses(hs[0], acc);
      assert s[|line|..] == later;
      var acc' := acc[ToLower(hs[0].0) := hs[0].1];
      MapGrows(acc, hs);
      assert |HeaderLines(hs)| == |line| + |HeaderLines(hs[1..])|;
      HeaderStep(line, later, tail, acc, bytes);
      HeaderBlockRead(hs[1..], rest, tail, acc', bytes + |line|);
    }
  }

  lemma HeaderStep(line: string, later: string, tail: Tail, acc: map<string, string>, bytes: nat)
    requires ReadLine(line + later, tail, MAX_HEADER_LINE_BYTES) == Line(line) && TrimEol(line) != []
    requires bytes + |line| <= MAX_HEADER_BYTES && |acc| < MAX_HEADER_COUNT
    ensures ReadHeaders(line + later, tail, acc, bytes)
         == ReadHeaders(later, tail, AddHeader(acc, TrimEol(line)), bytes + |line|)
  {
    ReadHeadersOnce(line + later, tail, acc, bytes);
    hide ReadHeaders, ReadLine, TrimEol, AddHeader;
    assert (line + later)[|line|..] == later;
  }

  lemma EmptyBlockRead(rest: string, tail: Tail, acc: map<string, string>, bytes: nat)
    requires |acc| < MAX_HEADER_COUNT && bytes + 2 <= MAX_HEADER_BYTES
    ensures ReadHeaders("\r\n" + rest, tail, acc, bytes) == Headers(acc, bytes + 2, rest)
  {
    ReadHeadersOnce("\r\n" + rest, tail, acc, bytes);
    EmptyLineRead(rest, tail);
    hide ReadHeaders, ReadLine, TrimEol;
    assert ("\r\n" + rest)[2..] == rest;
  }

  lemma EmptyLineRead(rest: string, tail: Tail)
    ensures ReadLine("\r\n" + rest, tail, MAX_HEADER_LINE_BYTES) == Line("\r\n")
    ensures TrimEol("\r\n") == []
  {
    assert "\r\n" == "\r" + "\n" && "\r\n" + rest == "\r" + "\n" + rest;
    LineOfTerminated("\r", rest);
    TrimEolOf("");
    assert "" + "\r\n" == "\r\n";
  }

  /** The head of a shaped request is read whole; its content length then decides about the bytes after it. */
  lemma HeadRead(r: WireRequest, more: string, tail: Tail, maxBody: nat, served: nat)
    requires Shaped(r)
    ensures ParseRequest(Wire(r) + more, tail, maxBody, served) ==
      (var after, headers := r.body + more, HeaderMap(map[], r.headers);
       match ContentLength(headers)
       case None => Refused(InvalidContentLength)
       case Some(n) =>
         if n > maxBody then Refused(PayloadTooLarge)
         else if n > |after| then Stopped(IoFailed)
         else Ready(Request(r.verb, r.target, headers, after[..n]), after[n..]))
  {
    var line, block := RequestLine(r), HeaderLines(r.headers) + (r.body + more);
    WireSplits(r, more);
    RequestLineRead(r, block, tail);
    RequestLineWords(r);
    hide HeaderLines, FirstWords, LineOf, RequestLine, WellFormedHeader, ReadHeaders, ContentLength, HeaderMap, Wire;
    HeaderBlockRead(r.headers, r.body + more, tail, map[], 0);
    assert (line + block)[|line|..] == block;
  }

  /** A framed request at the front of the stream is cut off exactly, whatever follows. */
  lemma RequestCutExactly(r: WireRequest, more: string, tail: Tail, maxBody: nat, served: nat)
    requires Framed(r, maxBody)
    ensures ParseRequest(Wire(r) + more, tail, maxBody, served) == Ready(Received(r), more)
  {
    HeadRead(r, more, tail, maxBody, served);
    hide Shaped, ParseRequest, ContentLength, HeaderMap, Wire;
    assert (r.body + more)[..|r.body|] == r.body && (r.body + more)[|r.body|..] == more;
  }

  lemma WireSplits(r: WireRequest, more: string)
    ensures Wire(r) + more == RequestLine(r) + (HeaderLines(r.headers) + (r.body + more))
  {
  }

  lemma RequestLineRead(r: WireRequest, block: string, tail: Tail)
    requires NoSpace(r.verb) && NoSpace(r.target) && NoLineBreak(r.version)
    requires |RequestLine(r)| <= MAX_REQUEST_LINE_BYTES
    ensures ReadLine(RequestLine(r) + block, tail, MAX_REQUEST_LINE_BYTES) == Line(RequestLine(r))
    ensures RequestLine(r) != []
  {
    var t := r.verb + " " + r.target + " " + r.version + "\r";
    assert RequestLine(r) == t + "\n";
    assert RequestLine(r) + block == t + "\n" + block;
    LineOfTerminated(t, block);
  }

  /**
   Any concatenation of framed requests is answered by exactly those requests, with exactly
   their bodies, in order, up to the first that asks to close or the 10,000th.
   */
  lemma {:induction false} ConcatenationCutExactly(rs: seq<WireRequest>, maxBody: nat, served: nat)
    requires forall i | 0 <= i < |rs| :: Framed(rs[i], maxBody)
    ensures Serve(WireAll(rs), EndOfStream, maxBody, served) == Session(ExpectedReplies(rs, served), Closed)
    decreases |rs|
  {
    hide Wire, Received, RequestsClose, Framed;
    if rs != [] {
      hide ParseRequest, Serve;
      var r, more := rs[0], WireAll(rs[1..]);
      RequestCutExactly(r, more, EndOfStream, maxBody, served);
      ConcatenationCutExactly(rs[1..], maxBody, served + 1);
      ServeReady(WireAll(rs), EndOfStream, maxBody, served, Received(r), more);
    }
  }

  lemma ServeReady(s: string, tail: Tail, maxBody: nat, served: nat, request: Request, rest: string)
    requires ParseRequest(s, tail, maxBody, served) == Ready(request, rest)
    ensures Serve(s, tail, maxBody, served) ==
      if ShouldKeepAlive(RequestsClose(request), served + 1) then
        var later := Serve(rest, tail, maxBody, served + 1);
        Session([Routed(request, true)] + later.replies, later.outcome)
      else Session([Routed(request, false)], Closed)
  {
    hide ParseRequest, RequestsClose;
  }
}
