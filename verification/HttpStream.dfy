/**
 The connection loop over a buffered reader (`src/http/server.rs:166-284`,
 `src/http/parser.rs:15-44`). The reader's buffer is refilled with one non-empty chunk at
 a time, cut anywhere; after the last chunk the stream ends or breaks.
 */
module HttpStream {
  import opened BasicTypes
  import opened Http

  function Concat(chunks: seq<string>): string {
    if chunks == [] then [] else chunks[0] + Concat(chunks[1..])
  }

  class BufReader {
    var chunks: seq<string>
    const tail: Tail

    ghost predicate Valid()
      reads this
    {
      forall i | 0 <= i < |chunks| :: chunks[i] != []
    }

    /** All bytes not yet consumed. */
    ghost function Rest(): string
      reads this
    {
      Concat(chunks)
    }

    constructor (chunks: seq<string>, tail: Tail)
      requires forall i | 0 <= i < |chunks| :: chunks[i] != []
      ensures Valid() && this.chunks == chunks && this.tail == tail
    {
      this.chunks := chunks;
      this.tail := tail;
    }

    /** What is buffered now; empty only at the end of the stream. */
    method FillBuf() returns (available: string, failed: bool)
      requires Valid()
      ensures available <= Rest()
      ensures available == [] <==> Rest() == []
      ensures available != [] <==> chunks != []
      ensures chunks != [] ==> available == chunks[0]
      ensures failed <==> chunks == [] && tail.Breaks?
    {
      if chunks == [] {
        return [], tail.Breaks?;
      }
      return chunks[0], false;
    }

    method Consume(n: nat)
      requires Valid() && chunks != [] && n <= |chunks[0]|
      modifies this
      ensures Valid() && old(Rest()) == old(chunks[0][..n]) + Rest()
    {
      if n == |chunks[0]| {
        chunks := chunks[1..];
      } else {
        chunks := [chunks[0][n..]] + chunks[1..];
      }
    }
  }

  // ----- Lines across chunks -----

  /** A prefix without a newline only delays the end of the line. */
  lemma {:induction false} LineOfPrefixed(out: string, rest: string)
    requires '\n' !in out
    ensures LineOf(out + rest) == out + LineOf(rest)
  {
    if out == [] {
      assert out + rest == rest;
    } else {
      assert (out + rest)[1..] == out[1..] + rest;
      LineOfPrefixed(out[1..], rest);
    }
  }

  lemma LineOfCons(c: char, rest: string)
    ensures LineOf([c] + rest) == if c == '\n' then [c] else [c] + LineOf(rest)
  {
    assert ([c] + rest)[1..] == rest;
  }

  lemma {:induction false} LineWithin(chunk: string, more: string)
    requires '\n' in chunk
    ensures LineOf(chunk + more) == LineOf(chunk)
    ensures EndsLine(LineOf(chunk))
  {
    var c, rest := chunk[0], chunk[1..];
    assert chunk == [c] + rest && chunk + more == [c] + (rest + more);
    LineOfCons(c, rest + more);
    LineOfCons(c, rest);
    hide LineOf;
    if c != '\n' {
      LineWithin(rest, more);
    }
  }

  /** The line ends inside the chunk if the chunk has a newline, and runs on otherwise. */
  lemma LineOfChunk(chunk: string, more: string)
    ensures LineOf(chunk + more) == if '\n' in chunk then LineOf(chunk) else chunk + LineOf(more)
    ensures EndsLine(LineOf(chunk)) <==> '\n' in chunk
    ensures '\n' !in chunk ==> LineOf(chunk) == chunk
  {
    if '\n' in chunk {
      LineWithin(chunk, more);
    } else {
      LineOfPrefixed(chunk, more);
      LineOfPrefixed(chunk, []);
      assert chunk + [] == chunk;
      hide LineOf;
    }
  }

  /**
   Reads one line of at most `max` bytes. Whatever the chunks, the result is a function of
   the bytes: too long exactly when the line through its newline, or to the end of the
   stream, exceeds the bound, and otherwise exactly that line, which is consumed.
   */
  method ReadBoundedLine(reader: BufReader, max: nat) returns (r: LineRead)
    requires reader.Valid()
    modifies reader
    ensures reader.Valid()
    ensures r == ReadLine(old(reader.Rest()), reader.tail, max)
    ensures r.Line? ==> old(reader.Rest()) == r.text + reader.Rest()
  {
    hide LineOf, EndsLine, ReadLine, Concat;
    ghost var s := reader.Rest();
    var out: string := [];
    while true
      invariant reader.Valid() && s == out + reader.Rest() && '\n' !in out && |out| <= max
      decreases |reader.Rest()|
    {
      var available, failed := reader.FillBuf();
      if failed || available == [] {
        NoMoreChunks(out, reader.tail, max);
        assert s == out;
        return if failed then LineFailed else Line(out);
      }
      var take := |LineOf(available)|;
      ChunkDecides(out, available, reader.Rest(), reader.tail, max);
      if |out| + take > max {
        return TooLong;
      }
      ghost var rest := reader.Rest();
      reader.Consume(take);
      assert rest == available[..take] + reader.Rest();
      assert s == out + available[..take] + reader.Rest();
      out := out + available[..take];
      if EndsLine(out) {
        return Line(out);
      }
    }
  }

  lemma NoMoreChunks(out: string, tail: Tail, max: nat)
    requires '\n' !in out && |out| <= max
    ensures ReadLine(out, tail, max) == if tail.Breaks? then LineFailed else Line(out)
  {
    LineOfPrefixed(out, []);
    assert out + [] == out;
  }

  /** What the next chunk says about the line whose beginning has been read. */
  lemma ChunkDecides(out: string, chunk: string, rest: string, tail: Tail, max: nat)
    requires '\n' !in out && chunk != [] && chunk <= rest
    ensures var l := LineOf(chunk);
      && l == chunk[..|l|] && l != []
      && (|out| + |l| > max ==> ReadLine(out + rest, tail, max) == TooLong)
      && (if EndsLine(out + l) then |out| + |l| <= max ==> ReadLine(out + rest, tail, max) == Line(out + l)
          else '\n' !in out + l)
  {
    LineBegun(out, chunk, rest);
    hide LineOf, EndsLine, ReadLine;
    var l, line := LineOf(chunk), LineOf(out + rest);
    EndOfBoth(out, l);
    if |out| + |l| > max {
      TooLongAlready(out + rest, tail, max, |out| + |l|);
    } else if EndsLine(l) {
      EndsLineReads(out + rest, tail, max);
    }
  }

  lemma EndOfBoth(out: string, l: string)
    requires l != []
    ensures EndsLine(out + l) <==> EndsLine(l)
    ensures '\n' !in out && '\n' !in l ==> '\n' !in out + l
  {
    assert (out + l)[|out + l| - 1] == l[|l| - 1];
  }

  lemma TooLongAlready(s: string, tail: Tail, max: nat, read: nat)
    requires |LineOf(s)| >= read > max
    ensures ReadLine(s, tail, max) == TooLong
  {
    hide LineOf;
  }

  lemma EndsLineReads(s: string, tail: Tail, max: nat)
    requires EndsLine(LineOf(s)) && |LineOf(s)| <= max
    ensures ReadLine(s, tail, max) == Line(LineOf(s))
  {
    hide LineOf;
  }

  lemma LineBegun(out: string, chunk: string, rest: string)
    requires '\n' !in out && chunk <= rest
    ensures |LineOf(out + rest)| >= |out| + |LineOf(chunk)|
    ensures EndsLine(LineOf(chunk)) ==> LineOf(out + rest) == out + LineOf(chunk)
    ensures !EndsLine(LineOf(chunk)) ==> '\n' !in LineOf(chunk)
  {
    var more := rest[|chunk|..];
    assert rest == chunk + more;
    LineOfPrefixed(out, rest);
    LineOfChunk(chunk, more);
    hide LineOf, EndsLine;
  }

  /** Exactly n bytes, or nothing if the stream does not have them. */
  method ReadExact(reader: BufReader, n: nat) returns (body: Option<string>)
    requires reader.Valid()
    modifies reader
    ensures reader.Valid()
    ensures body.Some? <==> n <= |old(reader.Rest())|
    ensures body.Some? ==> |body.value| == n && old(reader.Rest()) == body.value + reader.Rest()
  {
    hide Concat;
    ghost var s := reader.Rest();
    var out: string := [];
    while |out| < n
      invariant reader.Valid() && |out| <= n && s == out + reader.Rest()
    {
      var available, failed := reader.FillBuf();
      if failed || available == [] {
        return None;
      }
      var take := if |available| <= n - |out| then |available| else n - |out|;
      reader.Consume(take);
      out := out + available[..take];
    }
    return Some(out);
  }

  method ReadHeaderBlock(reader: BufReader) returns (headers: map<string, string>, done: bool, overLimit: bool)
    requires reader.Valid()
    modifies reader
    ensures reader.Valid()
    ensures var h := ReadHeaders(old(reader.Rest()), reader.tail, map[], 0);
      && done == h.Headers? && overLimit == h.OverLimit?
      && (done ==> headers == h.headers && reader.Rest() == h.rest)
  {
    hide ReadHeaders, ReadLine, AddHeader, TrimEol, Concat;
    ghost var h := ReadHeaders(reader.Rest(), reader.tail, map[], 0);
    var headerBytes: nat := 0;
    headers, done, overLimit := map[], false, false;
    while true
      invariant reader.Valid() && !done && !overLimit
      invariant h == ReadHeaders(reader.Rest(), reader.tail, headers, headerBytes)
      decreases |reader.Rest()|
    {
      ghost var s := reader.Rest();
      ReadHeadersOnce(s, reader.tail, headers, headerBytes);
      var line := ReadBoundedLine(reader, MAX_HEADER_LINE_BYTES);
      if line.LineFailed? { return; }
      if line.TooLong? { overLimit := true; return; }
      assert s[|line.text|..] == reader.Rest();
      headerBytes := headerBytes + |line.text|;
      if headerBytes > MAX_HEADER_BYTES || |headers| >= MAX_HEADER_COUNT {
        overLimit := true;
        return;
      }
      var trimmed := TrimEol(line.text);
      if trimmed == [] { done := true; return; }
      headers := AddHeader(headers, trimmed);
    }
  }

  datatype Turn = Got(request: Request) | Refuse(reply: Reply) | Stop(outcome: Outcome)

  /** One request off the connection: request line, headers, body. */
  method NextRequest(reader: BufReader, maxBody: nat, served: nat) returns (turn: Turn)
    requires reader.Valid()
    modifies reader
    ensures reader.Valid()
    ensures match ParseRequest(old(reader.Rest()), reader.tail, maxBody, served)
      case Ready(request, rest) => turn == Got(request) && reader.Rest() == rest
      case Refused(reply) => turn == Refuse(reply)
      case Stopped(outcome) => turn == Stop(outcome)
  {
    hide ReadHeaders, ReadLine, FirstWords, ParseUsize, Concat;
    ghost var s := reader.Rest();
    var first := ReadBoundedLine(reader, MAX_REQUEST_LINE_BYTES);
    assert first.Line? ==> s[|first.text|..] == reader.Rest();
    match first {
      case TooLong => return Refuse(HeadersTooLarge);
      case LineFailed =>
        return Stop(if served > 0 && reader.tail == Breaks(true) then IdleTimeout else IoFailed);
      case Line(text) =>
        if text == [] { return Stop(Closed); }
        var headers, done, overLimit := ReadHeaderBlock(reader);
        if overLimit { return Refuse(HeadersTooLarge); }
        if !done { return Stop(IoFailed); }
        var length := ContentLength(headers);
        if length.None? { return Refuse(InvalidContentLength); }
        if length.value > maxBody { return Refuse(PayloadTooLarge); }
        ghost var rest := reader.Rest();
        var body := ReadExact(reader, length.value);
        assert body.Some? ==> body.value == rest[..length.value] && reader.Rest() == rest[length.value..];
        if body.None? { return Stop(IoFailed); }
        var (verb, target) := FirstWords(text);
        return Got(Request(verb, if target == [] then "/" else target, headers, body.value));
    }
  }

  /** The connection loop; `replies` is what it wrote, in order. */
  method HandleStream(reader: BufReader, maxBody: nat) returns (replies: seq<Reply>, outcome: Outcome)
    requires reader.Valid()
    modifies reader
    ensures Session(replies, outcome) == Serve(old(reader.Rest()), reader.tail, maxBody, 0)
  {
    hide ParseRequest, RequestsClose;
    ghost var s := reader.Rest();
    var requests := 0;
    replies := [];
    while true
      invariant reader.Valid()
      invariant var later := Serve(reader.Rest(), reader.tail, maxBody, requests);
        Serve(s, reader.tail, maxBody, 0) == Session(replies + later.replies, later.outcome)
      decreases |reader.Rest()|
    {
      var turn := NextRequest(reader, maxBody, requests);
      match turn {
        case Stop(o) => return replies, o;
        case Refuse(reply) => return replies + [reply], Closed;
        case Got(request) =>
          requests := requests + 1;
          var keepAlive := ShouldKeepAlive(RequestsClose(request), requests);
          replies := replies + [Routed(request, keepAlive)];
          if !keepAlive {
            return replies, Closed;
          }
      }
    }
  }

  /** However the same bytes are cut into chunks, the connection answers the same. */
  method SameBytesSameAnswers(chunks1: seq<string>, chunks2: seq<string>, tail: Tail, maxBody: nat)
    returns (replies1: seq<Reply>, outcome1: Outcome, replies2: seq<Reply>, outcome2: Outcome)
    requires forall i | 0 <= i < |chunks1| :: chunks1[i] != []
    requires forall i | 0 <= i < |chunks2| :: chunks2[i] != []
    requires Concat(chunks1) == Concat(chunks2)
    ensures replies1 == replies2 && outcome1 == outcome2
  {
    var reader1 := new BufReader(chunks1, tail);
    replies1, outcome1 := HandleStream(reader1, maxBody);
    var reader2 := new BufReader(chunks2, tail);
    replies2, outcome2 := HandleStream(reader2, maxBody);
  }

  /** Framed requests over any fragmentation are answered one by one, in order. */
  method FragmentedRequests(rs: seq<WireRequest>, chunks: seq<string>, maxBody: nat)
    returns (replies: seq<Reply>, outcome: Outcome)
    requires forall i | 0 <= i < |chunks| :: chunks[i] != []
    requires forall i | 0 <= i < |rs| :: Framed(rs[i], maxBody)
    requires Concat(chunks) == WireAll(rs)
    ensures replies == ExpectedReplies(rs, 0) && outcome == Closed
  {
    var reader := new BufReader(chunks, EndOfStream);
    replies, outcome := HandleStream(reader, maxBody);
    ConcatenationCutExactly(rs, maxBody, 0);
  }
}
