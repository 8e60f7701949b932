/**
 When the relay of `Relay` completes, and what it has then delivered. Both are stated for
 sockets whose scripts are well behaved: their input ends, and they stall finitely often.
 */
module RelayDelivery {
  import opened BasicTypes
  import opened Relay

  // ----- Well-behaved scripts -----

  /** A read that hands out bytes, or is to be tried again. */
  predicate Delays(raw: RawRead) {
    if raw.Got? then raw.data != [] else Retried(raw.kind)
  }

  /** A write that neither moves a byte nor fails. */
  predicate Stalls(raw: RawWrite) {
    raw == Took(0) || (raw.WriteError? && Retried(raw.kind))
  }

  /**
   A source that ends after `end` reads and a destination that stops stalling after
   `calm` writes, never fails for an unknown reason, and once closed stays closed.
   */
  ghost predicate WellBehaved(gives: nat -> RawRead, takes: nat -> RawWrite, end: nat, calm: nat) {
    && (forall k: nat | k < end :: Delays(gives(k)))
    && EndsInput(gives(end))
    && (forall k: nat :: takes(k).Took? || Stalls(takes(k)) || Refuses(takes(k)))
    && (forall k: nat | k >= calm :: !Stalls(takes(k)))
    && (forall j: nat, k: nat | j <= k && Refuses(takes(j)) :: Refuses(takes(k)))
  }

  ghost predicate FlushesSucceed(flushes: nat -> RawFlush) {
    forall k: nat :: flushes(k) == Flushed
  }

  /** How far it is from `at` to `bound`. */
  function Left(at: nat, bound: nat): nat {
    if at < bound then bound - at else 0
  }

  /**
   The scripts of one direction, looked at on their own: starting at read r and write w
   with `backlog` bytes to write, the destination takes everything up to the source's
   end before it reports that it is closed.
   */
  ghost predicate Deliverable(gives: nat -> RawRead, takes: nat -> RawWrite, end: nat, calm: nat,
                              r: nat, w: nat, backlog: nat)
    requires WellBehaved(gives, takes, end, calm)
    decreases Left(r, end + 1), backlog, Left(w, calm)
  {
    if backlog > 0 then
      assert takes(w).Took? || Stalls(takes(w)) || Refuses(takes(w));
      !Refuses(takes(w)) && Deliverable(gives, takes, end, calm, r, w + 1, backlog - TakenOf(takes(w), backlog))
    else r >= end || Deliverable(gives, takes, end, calm, r + 1, w, |BytesOf(gives(r))|)
  }

  ghost predicate LaneOk(l: Lane, end: nat, calm: nat) {
    && WellBehaved(l.gives, l.takes, end, calm)
    && (l.spins ==> FlushesSucceed(l.flushes))
    && (!l.srcEof ==> l.readAt <= end)
  }

  /** The end-of-input flag, if set, was set by this direction's own reads. */
  ghost predicate OwnEof(l: Lane, end: nat) {
    l.srcEof <==> l.readAt == end + 1
  }

  ghost predicate CanFinish(l: Lane, end: nat, calm: nat)
    requires LaneOk(l, end, calm)
  {
    OwnEof(l, end) && Deliverable(l.gives, l.takes, end, calm, l.readAt, l.writeAt, |l.pending|)
  }

  ghost predicate StuckOnClosed(l: Lane) {
    l.pending != [] && Refuses(l.takes(l.writeAt))
  }

  ghost predicate CannotFinish(l: Lane, end: nat, calm: nat)
    requires LaneOk(l, end, calm)
  {
    || StuckOnClosed(l)
    || (OwnEof(l, end) && !Deliverable(l.gives, l.takes, end, calm, l.readAt, l.writeAt, |l.pending|))
  }

  ghost function Unread(l: Lane, end: nat): nat {
    if l.srcEof || l.readAt > end then 0 else end + 1 - l.readAt
  }

  ghost function StallsLeft(l: Lane, calm: nat): nat {
    if l.writeAt < calm then calm - l.writeAt else 0
  }

  /** No further from its end than before. */
  ghost predicate NoFurther(l: Lane, l': Lane, end: nat, calm: nat) {
    && Unread(l', end) <= Unread(l, end)
    && StallsLeft(l', calm) <= StallsLeft(l, calm)
    && (Unread(l', end) == Unread(l, end) ==> |l'.pending| <= |l.pending|)
  }

  ghost predicate Closer(l: Lane, l': Lane, end: nat, calm: nat) {
    && NoFurther(l, l', end, calm)
    && (|| Unread(l', end) < Unread(l, end)
        || |l'.pending| < |l.pending|
        || StallsLeft(l', calm) < StallsLeft(l, calm))
  }

  lemma ReadFinishes(l: Lane, end: nat, calm: nat)
    requires LaneOk(l, end, calm) && CanFinish(l, end, calm)
    ensures var (l', e) := ReadPhase(l);
      && e == None && LaneOk(l', end, calm) && CanFinish(l', end, calm) && NoFurther(l, l', end, calm)
      && (if l.pending == [] && !l.srcEof then Closer(l, l', end, calm) else l' == l)
  {
    if l.pending == [] && !l.srcEof {
      assert Delays(l.gives(l.readAt)) || EndsInput(l.gives(l.readAt));
    }
  }

  lemma WriteFinishes(l: Lane, end: nat, calm: nat)
    requires LaneOk(l, end, calm) && CanFinish(l, end, calm)
    ensures var w := WritePhase(l);
      && w.error == None && !w.hit && LaneOk(w.lane, end, calm) && CanFinish(w.lane, end, calm)
      && w.lane.srcEof == l.srcEof && w.lane.readAt == l.readAt
      && (if l.pending == [] then w.lane == l else Closer(l, w.lane, end, calm))
  {
    if l.pending != [] {
      var raw := l.takes(l.writeAt);
      assert raw.Took? || Stalls(raw) || Refuses(raw);
    }
  }

  /** A direction that can finish still can after its half pass, and has come closer. */
  lemma HalfPassFinishes(a: Lane, b: Lane, end: nat, calm: nat)
    requires LaneOk(a, end, calm) && CanFinish(a, end, calm)
    ensures var h := HalfPass(a, b);
      && h.error == None && h.other == b
      && LaneOk(h.active, end, calm) && CanFinish(h.active, end, calm)
      && (Drained(h.active) ==> h.active.closed)
      && NoFurther(a, h.active, end, calm)
      && (if Drained(a) then Drained(h.active) else Closer(a, h.active, end, calm))
  {
    hide Deliverable, ReadPhase, WritePhase;
    ReadFinishes(a, end, calm);
    WriteFinishes(ReadPhase(a).0, end, calm);
  }

  lemma ReadStaysStuck(l: Lane, end: nat, calm: nat)
    requires LaneOk(l, end, calm)
    ensures var (l', e) := ReadPhase(l);
      && e == None && LaneOk(l', end, calm)
      && (CannotFinish(l, end, calm) ==> CannotFinish(l', end, calm))
  {
    if l.pending == [] && !l.srcEof {
      assert Delays(l.gives(l.readAt)) || EndsInput(l.gives(l.readAt));
    }
  }

  lemma WriteStaysStuck(l: Lane, end: nat, calm: nat)
    requires LaneOk(l, end, calm)
    ensures var w := WritePhase(l);
      && w.error == None && LaneOk(w.lane, end, calm)
      && (w.hit ==> StuckOnClosed(w.lane))
      && (CannotFinish(l, end, calm) ==> CannotFinish(w.lane, end, calm))
  {
    if l.pending != [] {
      var raw := l.takes(l.writeAt);
      assert raw.Took? || Stalls(raw) || Refuses(raw);
      if Refuses(raw) {
        assert Refuses(l.takes(l.writeAt + 1));
      }
    }
  }

  /** If either direction cannot finish, then after a half pass still one of them cannot. */
  lemma HalfPassStaysStuck(a: Lane, b: Lane, endA: nat, calmA: nat, endB: nat, calmB: nat)
    requires LaneOk(a, endA, calmA) && LaneOk(b, endB, calmB)
    requires CannotFinish(a, endA, calmA) || CannotFinish(b, endB, calmB)
    ensures var h := HalfPass(a, b);
      && h.error == None
      && LaneOk(h.active, endA, calmA) && LaneOk(h.other, endB, calmB)
      && (CannotFinish(h.active, endA, calmA) || CannotFinish(h.other, endB, calmB))
  {
    hide Deliverable, ReadPhase, WritePhase;
    ReadStaysStuck(a, endA, calmA);
    WriteStaysStuck(ReadPhase(a).0, endA, calmA);
  }

  lemma {:induction false} Finishes(p: Pump, endU: nat, calmU: nat, endD: nat, calmD: nat) returns (n: nat)
    requires p.status == Running
    requires LaneOk(p.up, endU, calmU) && CanFinish(p.up, endU, calmU)
    requires LaneOk(p.down, endD, calmD) && CanFinish(p.down, endD, calmD)
    ensures Run(p, n).status == Done
    decreases Unread(p.up, endU) + Unread(p.down, endD),
              |p.up.pending| + |p.down.pending|,
              StallsLeft(p.up, calmU) + StallsLeft(p.down, calmD)
  {
    hide HalfPass, LaneOk, CanFinish;
    HalfPassFinishes(p.up, p.down, endU, calmU);
    var h1 := HalfPass(p.up, p.down);
    HalfPassFinishes(p.down, h1.active, endD, calmD);
    var q := Pass(p);
    assert Run(p, 1) == Pass(Run(p, 0));
    if q.status == Done {
      n := 1;
    } else {
      var m := Finishes(q, endU, calmU, endD, calmD);
      RunAfterPass(p, m);
      n := m + 1;
    }
  }

  lemma {:induction false} RunAfterPass(p: Pump, n: nat)
    ensures Run(Pass(p), n) == Run(p, n + 1)
  {
    if n > 0 {
      RunAfterPass(p, n - 1);
    } else {
      assert Run(p, 1) == Pass(Run(p, 0));
    }
  }

  lemma CannotFinishNotDrained(l: Lane, end: nat, calm: nat)
    requires LaneOk(l, end, calm)
    ensures CannotFinish(l, end, calm) ==> !Drained(l)
  {
  }

  lemma PassStaysStuck(p: Pump, endU: nat, calmU: nat, endD: nat, calmD: nat)
    requires p.status == Running
    requires LaneOk(p.up, endU, calmU) && LaneOk(p.down, endD, calmD)
    requires CannotFinish(p.up, endU, calmU) || CannotFinish(p.down, endD, calmD)
    ensures var q := Pass(p);
      && q.status == Running
      && LaneOk(q.up, endU, calmU) && LaneOk(q.down, endD, calmD)
      && (CannotFinish(q.up, endU, calmU) || CannotFinish(q.down, endD, calmD))
  {
    hide HalfPass, LaneOk, CannotFinish;
    HalfPassStaysStuck(p.up, p.down, endU, calmU, endD, calmD);
    var h1 := HalfPass(p.up, p.down);
    HalfPassStaysStuck(h1.other, h1.active, endD, calmD, endU, calmU);
    var h2 := HalfPass(h1.other, h1.active);
    CannotFinishNotDrained(h2.other, endU, calmU);
    CannotFinishNotDrained(h2.active, endD, calmD);
  }

  lemma {:induction false} NeverFinishes(p: Pump, endU: nat, calmU: nat, endD: nat, calmD: nat, n: nat)
    requires p.status == Running
    requires LaneOk(p.up, endU, calmU) && LaneOk(p.down, endD, calmD)
    requires CannotFinish(p.up, endU, calmU) || CannotFinish(p.down, endD, calmD)
    ensures var q := Run(p, n);
      && q.status == Running
      && LaneOk(q.up, endU, calmU) && LaneOk(q.down, endD, calmD)
      && (CannotFinish(q.up, endU, calmU) || CannotFinish(q.down, endD, calmD))
  {
    hide Pass, LaneOk, CannotFinish;
    if n > 0 {
      NeverFinishes(p, endU, calmU, endD, calmD, n - 1);
      PassStaysStuck(Run(p, n - 1), endU, calmU, endD, calmD);
    }
  }

  ghost predicate Terminates(client: Script, backend: Script) {
    exists n: nat :: Run(Start(client, backend), n).status == Done
  }

  /**
   Against two well-behaved sockets the loop breaks exactly when, in each direction on its
   own, the destination takes the source's whole stream before it reports that it closed.
   Otherwise the loop keeps running: a peer-closed write error marks the other direction's
   input as ended but leaves the unwritten bytes in place, so the exit test never holds.
   */
  lemma BreaksExactlyWhenDeliverable(client: Script, backend: Script,
                                     endU: nat, calmU: nat, endD: nat, calmD: nat)
    requires WellBehaved(client.gives, backend.takes, endU, calmU)
    requires WellBehaved(backend.gives, client.takes, endD, calmD)
    requires FlushesSucceed(client.flushes)
    ensures Terminates(client, backend) <==>
            && Deliverable(client.gives, backend.takes, endU, calmU, 0, 0, 0)
            && Deliverable(backend.gives, client.takes, endD, calmD, 0, 0, 0)
    ensures !Terminates(client, backend) ==> forall n: nat :: Run(Start(client, backend), n).status == Running
  {
    var p := Start(client, backend);
    if CanFinish(p.up, endU, calmU) && CanFinish(p.down, endD, calmD) {
      var n := Finishes(p, endU, calmU, endD, calmD);
    } else {
      forall n: nat ensures Run(p, n).status == Running {
        NeverFinishes(p, endU, calmU, endD, calmD, n);
      }
    }
  }

  lemma DrainedDelivered(l: Lane, end: nat)
    requires LaneInv(l) && Drained(l) && OwnEof(l, end) && EndsInput(l.gives(end))
    ensures l.delivered == Stream(l.gives, end)
  {
    assert BytesOf(l.gives(end)) == [] && Stream(l.gives, end) + [] == Stream(l.gives, end);
  }

  /** Whenever the loop breaks, every byte of both streams is at the other side, both half-closes done. */
  lemma FullDelivery(client: Script, backend: Script,
                     endU: nat, calmU: nat, endD: nat, calmD: nat, n: nat)
    requires WellBehaved(client.gives, backend.takes, endU, calmU)
    requires WellBehaved(backend.gives, client.takes, endD, calmD)
    requires FlushesSucceed(client.flushes)
    requires Run(Start(client, backend), n).status == Done
    ensures var q := Run(Start(client, backend), n);
      && q.up.delivered == Stream(client.gives, endU) && q.up.closed
      && q.down.delivered == Stream(backend.gives, endD) && q.down.closed
  {
    EveryByteAccountedFor(client, backend, n);
    var p, q := Start(client, backend), Run(Start(client, backend), n);
    assert && CanFinish(p.up, endU, calmU) && CanFinish(p.down, endD, calmD) by {
      BreaksExactlyWhenDeliverable(client, backend, endU, calmU, endD, calmD);
    }
    assert && LaneOk(q.up, endU, calmU) && CanFinish(q.up, endU, calmU) && Drained(q.up) && q.up.closed
           && LaneOk(q.down, endD, calmD) && CanFinish(q.down, endD, calmD) && Drained(q.down) && q.down.closed by {
      DoneIsDrained(p, endU, calmU, endD, calmD, n);
    }
    DrainedDelivered(q.up, endU);
    DrainedDelivered(q.down, endD);
  }

  lemma {:induction false} DoneIsDrained(p: Pump, endU: nat, calmU: nat, endD: nat, calmD: nat, n: nat)
    requires p.status == Running
    requires LaneOk(p.up, endU, calmU) && CanFinish(p.up, endU, calmU)
    requires LaneOk(p.down, endD, calmD) && CanFinish(p.down, endD, calmD)
    ensures var q := Run(p, n);
      && !q.status.Failed?
      && LaneOk(q.up, endU, calmU) && CanFinish(q.up, endU, calmU)
      && LaneOk(q.down, endD, calmD) && CanFinish(q.down, endD, calmD)
      && (q.status == Done ==> Drained(q.up) && Drained(q.down) && q.up.closed && q.down.closed)
  {
    hide HalfPass, LaneOk, CanFinish;
    if n > 0 {
      DoneIsDrained(p, endU, calmU, endD, calmD, n - 1);
      var q := Run(p, n - 1);
      if q.status == Running {
        HalfPassFinishes(q.up, q.down, endU, calmU);
        var h1 := HalfPass(q.up, q.down);
        HalfPassFinishes(q.down, h1.active, endD, calmD);
      }
    }
  }

  /** A client that sends one byte and ends. */
  ghost function OneByteClient(): Script {
    Script((k: nat) => if k == 0 then Got([7]) else Got([]), (k: nat) => Took(1), (k: nat) => Flushed)
  }

  /** A backend that ends and refuses every write. */
  ghost function RefusingBackend(): Script {
    Script((k: nat) => Got([]), (k: nat) => WriteError(BrokenPipe), (k: nat) => Flushed)
  }

  /** Between these two the byte stays pending and the loop runs on, however often it is repeated. */
  lemma RefusedByteKeepsLoopRunning(n: nat)
    ensures Run(Start(OneByteClient(), RefusingBackend()), n).status == Running
  {
    var client, backend := OneByteClient(), RefusingBackend();
    assert WellBehaved(client.gives, backend.takes, 1, 0);
    assert WellBehaved(backend.gives, client.takes, 0, 0);
    assert !Deliverable(client.gives, backend.takes, 1, 0, 0, 0, 0) by {
      assert !Deliverable(client.gives, backend.takes, 1, 0, 1, 0, 1);
    }
    BreaksExactlyWhenDeliverable(client, backend, 1, 0, 0, 0);
  }

  /** A destination that never reports itself closed takes whatever is sent. */
  lemma {:induction false} OpenDestinationTakesAll(gives: nat -> RawRead, takes: nat -> RawWrite, end: nat, calm: nat,
                                                  r: nat, w: nat, backlog: nat)
    requires WellBehaved(gives, takes, end, calm)
    requires forall k: nat :: !Refuses(takes(k))
    ensures Deliverable(gives, takes, end, calm, r, w, backlog)
    decreases Left(r, end + 1), backlog, Left(w, calm)
  {
    if backlog > 0 {
      assert takes(w).Took? || Stalls(takes(w)) || Refuses(takes(w));
      OpenDestinationTakesAll(gives, takes, end, calm, r, w + 1, backlog - TakenOf(takes(w), backlog));
    } else if r < end {
      OpenDestinationTakesAll(gives, takes, end, calm, r + 1, w, |BytesOf(gives(r))|);
    }
  }

  /** Between two well-behaved sockets that never report themselves closed, the relay always completes. */
  lemma OpenSocketsComplete(client: Script, backend: Script, endU: nat, calmU: nat, endD: nat, calmD: nat)
    requires WellBehaved(client.gives, backend.takes, endU, calmU)
    requires WellBehaved(backend.gives, client.takes, endD, calmD)
    requires FlushesSucceed(client.flushes)
    requires forall k: nat :: !Refuses(client.takes(k)) && !Refuses(backend.takes(k))
    ensures exists n: nat :: var q := Run(Start(client, backend), n);
      && q.status == Done
      && q.up.delivered == Stream(client.gives, endU)
      && q.down.delivered == Stream(backend.gives, endD)
  {
    OpenDestinationTakesAll(client.gives, backend.takes, endU, calmU, 0, 0, 0);
    OpenDestinationTakesAll(backend.gives, client.takes, endD, calmD, 0, 0, 0);
    BreaksExactlyWhenDeliverable(client, backend, endU, calmU, endD, calmD);
    var n: nat :| Run(Start(client, backend), n).status == Done;
    FullDelivery(client, backend, endU, calmU, endD, calmD, n);
  }
}
