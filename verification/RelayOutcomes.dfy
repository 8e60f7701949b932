/**
 What the relay makes of the answers of its sockets, in terms of those answers alone: which
 bytes it reads and delivers, what it takes for an end of input, and when it fails.
 */
module RelayOutcomes {
  import opened BasicTypes
  import opened Relay

  // ----- One direction -----

  /** A write is followed by a flush, if there is one, unless it failed. */
  ghost predicate Flushes(l: Lane, raw: RawWrite) {
    l.spins && (raw.WriteError? ==> Retried(raw.kind))
  }

  /** What a move offers to write: what was pending, or else what it has just read. */
  function Offered(l: Lane): seq<byte> {
    l.pending + if Asks(l) then BytesOf(l.gives(l.readAt)) else []
  }

  /** A move reads only when nothing is pending and the source has not ended. */
  predicate Asks(l: Lane) {
    l.pending == [] && !l.srcEof
  }

  /** The bytes and indexes after a move, in terms of what its sockets answered to at most one read and one write. */
  ghost predicate MovesBy(l: Lane, m: WriteResult) {
    var read, write, offered := l.gives(l.readAt), l.takes(l.writeAt), Offered(l);
    var taken := if offered != [] then TakenOf(write, |offered|) else 0;
    && m.lane.gives == l.gives && m.lane.takes == l.takes && m.lane.flushes == l.flushes && m.lane.spins == l.spins
    && m.lane.received == l.received + (if Asks(l) then BytesOf(read) else [])
    && m.lane.delivered == l.delivered + offered[..taken]
    && m.lane.pending == offered[taken..]
    && m.lane.readAt == l.readAt + (if Asks(l) then 1 else 0)
    && m.lane.writeAt == l.writeAt + (if offered != [] then 1 else 0)
    && m.lane.flushAt == l.flushAt + (if offered != [] && Flushes(l, write) then 1 else 0)
         + (if l.spins && m.lane.closed && !l.closed then 1 else 0)
    && (m.lane.srcEof <==> l.srcEof || (Asks(l) && EndsInput(read)))
    && (m.hit <==> offered != [] && Refuses(write))
    && (m.lane.closed <==> l.closed || (m.error == None && m.lane.srcEof && m.lane.pending == []))
  }

  /** A move fails exactly on an outcome that is neither to be retried nor of a peer that is gone. */
  ghost predicate FailsWith(l: Lane, kind: ErrorKind) {
    || (Asks(l) && l.gives(l.readAt) == ReadError(kind) && Fatal(kind))
    || (Offered(l) != [] && l.takes(l.writeAt) == WriteError(kind) && Fatal(kind))
    || (Offered(l) != [] && Flushes(l, l.takes(l.writeAt)) && l.flushes(l.flushAt) == FlushError(kind))
  }

  lemma ReadByOutcome(l: Lane)
    ensures var (l', e) := ReadPhase(l); var raw := l.gives(l.readAt);
      if l.pending == [] && !l.srcEof then
        && l' == l.(readAt := l.readAt + 1, received := l.received + BytesOf(raw), pending := BytesOf(raw),
                    srcEof := EndsInput(raw))
        && (forall kind :: e == Some(kind) <==> raw == ReadError(kind) && Fatal(kind))
      else l' == l && e == None
  {
    var raw := l.gives(l.readAt);
    assert l.received + [] == l.received;
    assert raw.Got? && raw.data == [] ==> raw == Got([]);
  }

  lemma WriteByOutcome(l: Lane)
    ensures var w := WritePhase(l); var raw := l.takes(l.writeAt);
      var taken := if l.pending == [] then 0 else TakenOf(raw, |l.pending|);
      && w.lane.delivered == l.delivered + l.pending[..taken] && w.lane.pending == l.pending[taken..]
      && w.lane.received == l.received && w.lane.readAt == l.readAt && w.lane.srcEof == l.srcEof
      && w.lane.closed == l.closed && w.lane.spins == l.spins
      && w.lane.gives == l.gives && w.lane.takes == l.takes && w.lane.flushes == l.flushes
      && w.lane.flushAt == l.flushAt + (if l.pending != [] && Flushes(l, raw) then 1 else 0)
      && w.lane.writeAt == l.writeAt + (if l.pending == [] then 0 else 1)
      && (w.hit <==> l.pending != [] && Refuses(raw))
  {
    if l.pending != [] {
      var raw := l.takes(l.writeAt);
      assert l.pending[..0] == [] && l.pending[0..] == l.pending;
      assert l.delivered + [] == l.delivered;
    }
  }

  /** The write fails with this kind, or the flush after it does. */
  ghost predicate WriteFails(l: Lane, kind: ErrorKind) {
    var raw := l.takes(l.writeAt);
    l.pending != [] &&
      (|| (raw == WriteError(kind) && Fatal(kind))
       || (Flushes(l, raw) && l.flushes(l.flushAt) == FlushError(kind)))
  }

  lemma WriteErrorsByOutcome(l: Lane, kind: ErrorKind)
    ensures WritePhase(l).error == Some(kind) <==> WriteFails(l, kind)
  {
  }

  /**
   A move reads only when nothing is pending, takes exactly the read's bytes and delivers
   exactly what the write took of them; it marks the source as ended, hits, fails and
   half-closes exactly on the outcomes that call for it.
   */
  lemma MoveByOutcomes(l: Lane)
    ensures MovesBy(l, Move(l))
  {
    ReadByOutcome(l);
    var l' := ReadPhase(l).0;
    WriteByOutcome(l');
    ReadIsOffered(l);
    assert l.received + [] == l.received && l.delivered + Offered(l)[..0] == l.delivered;
    hide ReadPhase, WritePhase, TakenOf, EndsInput, Refuses, Flushes, Fatal, Offered;
  }

  lemma ReadIsOffered(l: Lane)
    ensures ReadPhase(l).0.pending == Offered(l) && Offered(l)[0..] == Offered(l)
    ensures ReadPhase(l).1.Some? ==> Offered(l) == []
  {
    ReadByOutcome(l);
    hide ReadPhase;
  }

  lemma MoveFailsByOutcome(l: Lane, kind: ErrorKind)
    ensures Move(l).error == Some(kind) <==> FailsWith(l, kind)
  {
    ReadByOutcome(l);
    ReadIsOffered(l);
    WriteErrorsByOutcome(ReadPhase(l).0, kind);
    hide ReadPhase, WritePhase, EndsInput, Refuses, Fatal;
  }

  // ----- Whole runs -----

  /** Some of the first n reads ended the input. */
  predicate EndSeen(gives: nat -> RawRead, n: nat) {
    n > 0 && (EndSeen(gives, n - 1) || EndsInput(gives(n - 1)))
  }

  predicate RefusalSeen(takes: nat -> RawWrite, n: nat) {
    n > 0 && (RefusalSeen(takes, n - 1) || Refuses(takes(n - 1)))
  }

  predicate FatalReadSeen(gives: nat -> RawRead, n: nat, kind: ErrorKind) {
    n > 0 && (FatalReadSeen(gives, n - 1, kind) || (gives(n - 1) == ReadError(kind) && Fatal(kind)))
  }

  predicate FatalWriteSeen(takes: nat -> RawWrite, n: nat, kind: ErrorKind) {
    n > 0 && (FatalWriteSeen(takes, n - 1, kind) || (takes(n - 1) == WriteError(kind) && Fatal(kind)))
  }

  predicate FlushErrorSeen(flushes: nat -> RawFlush, n: nat, kind: ErrorKind) {
    n > 0 && (FlushErrorSeen(flushes, n - 1, kind) || flushes(n - 1) == FlushError(kind))
  }

  /** The flushes that follow writes; the one that closes is not among them. */
  function WriteFlushes(l: Lane): nat {
    if l.closed && l.flushAt > 0 then l.flushAt - 1 else l.flushAt
  }

  /** A read or a write of this direction failed for good, or the flush after a write did. */
  ghost predicate FatalSeen(l: Lane, kind: ErrorKind) {
    || FatalReadSeen(l.gives, l.readAt, kind)
    || FatalWriteSeen(l.takes, l.writeAt, kind)
    || (l.spins && FlushErrorSeen(l.flushes, WriteFlushes(l), kind))
  }

  ghost predicate ClosedIsDone(l: Lane) {
    l.closed ==> l.srcEof && l.pending == [] && (l.spins ==> l.flushAt > 0)
  }

  /** The move reads, and the read ends the input. */
  predicate EndsNow(l: Lane) {
    Asks(l) && EndsInput(l.gives(l.readAt))
  }

  /** What a move adds to the outcomes seen so far is what it reports. */
  lemma MoveSees(l: Lane)
    requires ClosedIsDone(l)
    ensures var m := Move(l);
      && ClosedIsDone(m.lane)
      && (RefusalSeen(m.lane.takes, m.lane.writeAt) <==> RefusalSeen(l.takes, l.writeAt) || m.hit)
      && (EndSeen(m.lane.gives, m.lane.readAt) <==> EndSeen(l.gives, l.readAt) || EndsNow(l))
      && (m.lane.srcEof <==> l.srcEof || EndsNow(l))
  {
    MoveByOutcomes(l);
    hide Move, TakenOf, BytesOf, Flushes, Fatal;
  }

  lemma MoveSeesErrors(l: Lane, kind: ErrorKind)
    requires ClosedIsDone(l)
    ensures FatalSeen(Move(l).lane, kind) <==> FatalSeen(l, kind) || Move(l).error == Some(kind)
  {
    MoveByOutcomes(l);
    MoveFailsByOutcome(l, kind);
    var m := Move(l);
    hide Move;
    var writes := m.lane.writeAt > l.writeAt;
    assert FatalReadSeen(l.gives, m.lane.readAt, kind) <==>
      FatalReadSeen(l.gives, l.readAt, kind) || (Asks(l) && l.gives(l.readAt) == ReadError(kind) && Fatal(kind));
    assert FatalWriteSeen(l.takes, m.lane.writeAt, kind) <==>
      FatalWriteSeen(l.takes, l.writeAt, kind) || (writes && l.takes(l.writeAt) == WriteError(kind) && Fatal(kind));
    FlushesSeen(l, m, kind);
    hide FatalReadSeen, FatalWriteSeen, FlushErrorSeen, TakenOf, BytesOf, EndsInput, Refuses, Flushes, Fatal;
  }

  lemma FlushesSeen(l: Lane, m: WriteResult, kind: ErrorKind)
    requires ClosedIsDone(l) && MovesBy(l, m)
    ensures m.lane.spins ==>
      (FlushErrorSeen(l.flushes, WriteFlushes(m.lane), kind) <==>
        FlushErrorSeen(l.flushes, WriteFlushes(l), kind) ||
          (m.lane.writeAt > l.writeAt && Flushes(l, l.takes(l.writeAt)) && l.flushes(l.flushAt) == FlushError(kind)))
  {
    hide TakenOf, BytesOf, EndsInput, Refuses, Fatal;
  }

  /** Its own source has ended, or the other direction was refused by the same peer. */
  ghost predicate EofExplained(l: Lane, other: Lane) {
    l.srcEof <==> EndSeen(l.gives, l.readAt) || RefusalSeen(other.takes, other.writeAt)
  }

  ghost predicate PumpExplained(p: Pump, kind: ErrorKind) {
    && EofExplained(p.up, p.down) && EofExplained(p.down, p.up)
    && (p.status == Failed(kind) <==> FatalSeen(p.up, kind) || FatalSeen(p.down, kind))
    && (p.status.Failed? || (ClosedIsDone(p.up) && ClosedIsDone(p.down)))
  }

  lemma HalfPassSees(a: Lane, b: Lane, kind: ErrorKind)
    requires ClosedIsDone(a) && ClosedIsDone(b) && EofExplained(a, b) && EofExplained(b, a)
    ensures var h := HalfPass(a, b);
      && ClosedIsDone(h.active) && ClosedIsDone(h.other)
      && EofExplained(h.active, h.other) && EofExplained(h.other, h.active)
      && (FatalSeen(h.active, kind) <==> FatalSeen(a, kind) || h.error == Some(kind))
      && (FatalSeen(h.other, kind) <==> FatalSeen(b, kind))
  {
    MoveSees(a);
    MoveSeesErrors(a, kind);
    MoveByOutcomes(a);
    hide Move, EndSeen, RefusalSeen, FatalReadSeen, FatalWriteSeen, FlushErrorSeen, EndsNow, TakenOf, BytesOf,
      EndsInput, Refuses, Flushes, Fatal;
  }

  lemma PassSees(p: Pump, kind: ErrorKind)
    requires p.status == Running && PumpExplained(p, kind)
    ensures PumpExplained(Pass(p), kind)
  {
    HalfPassSees(p.up, p.down, kind);
    var h := HalfPass(p.up, p.down);
    hide HalfPass, FatalSeen, EofExplained;
    if h.error == None {
      HalfPassSees(h.other, h.active, kind);
    }
  }

  /**
   At every moment of every run: a source is marked as ended exactly if one of its reads gave
   nothing or found the peer gone, or a write towards that peer did; and the relay has failed
   with an error exactly if some read, write, or flush after a write answered with it, and it
   is neither to be retried nor of a peer that is gone.
   */
  lemma {:induction false} OutcomesDecide(client: Script, backend: Script, n: nat, kind: ErrorKind)
    ensures PumpExplained(Run(Start(client, backend), n), kind)
  {
    if n > 0 {
      OutcomesDecide(client, backend, n - 1, kind);
      var p := Run(Start(client, backend), n - 1);
      if p.status == Running {
        PassSees(p, kind);
      }
    }
  }
}
