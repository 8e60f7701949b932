/**
 The byte pump of the TLS terminator (`src/tls.rs`): one thread relays bytes both
 ways between a TLS client and a plaintext backend over non-blocking sockets.

 Each socket is a `Script`: for every k, what the k-th read, write or flush on it
 answers. A script is an arbitrary function, so a pump run against all scripts is
 a pump run against every behaviour of the network, including the ones that never
 stop blocking.

 `Lane` is one direction of the relay as a value, `Pass` one iteration of the loop
 and `Run(p, n)` the first n iterations. `ProxyConnection` is the loop itself, over
 mutable sockets and `Pending` buffers, proved to compute `Run`.
 */
module Relay {
  import opened BasicTypes

  const BUF_BYTES: nat := 32 * 1024

  datatype ErrorKind =
    | WouldBlock | Interrupted
    | BrokenPipe | ConnectionReset | ConnectionAborted | UnexpectedEof
    | OtherError

  predicate PeerClosed(kind: ErrorKind) {
    kind.BrokenPipe? || kind.ConnectionReset? || kind.ConnectionAborted? || kind.UnexpectedEof?
  }

  // ----- What the operating system answers, and how the pump classifies it -----

  /** At most one scratch buffer full of bytes. */
  type Chunk = s: seq<byte> | |s| <= BUF_BYTES

  datatype RawRead = Got(data: Chunk) | ReadError(kind: ErrorKind)
  datatype RawWrite = Took(n: nat) | WriteError(kind: ErrorKind)
  /** The answer of a whole flush spin: it retries while blocked or interrupted. */
  datatype RawFlush = Flushed | FlushError(kind: ErrorKind)

  datatype Script = Script(gives: nat -> RawRead, takes: nat -> RawWrite, flushes: nat -> RawFlush)

  datatype ReadState = Data(data: seq<byte>) | Eof | ReadBlocked | ReadErr(kind: ErrorKind)
  datatype WriteState = Wrote(n: nat) | WriteBlocked | WriteErr(kind: ErrorKind)

  function ReadInto(raw: RawRead): ReadState {
    match raw
    case Got(data) => if data == [] then Eof else Data(data)
    case ReadError(kind) => if kind.WouldBlock? || kind.Interrupted? then ReadBlocked else ReadErr(kind)
  }

  /** A write never takes more than it is offered. */
  function WriteSome(raw: RawWrite, offered: nat): (w: WriteState)
    ensures w.Wrote? ==> w.n <= offered
  {
    match raw
    case Took(n) => Wrote(if n <= offered then n else offered)
    case WriteError(kind) => if kind.WouldBlock? || kind.Interrupted? then WriteBlocked else WriteErr(kind)
  }

  // ----- One direction -----

  /**
   One direction of the relay: its source and destination scripts with the next index
   of each, every byte read so far, every byte written so far, the bytes in between,
   the source's end-of-input flag and the destination's half-close flag.
   `spins` says whether writes to the destination are followed by a flush spin.
   */
  datatype Lane = Lane(
    gives: nat -> RawRead, takes: nat -> RawWrite, flushes: nat -> RawFlush, spins: bool,
    readAt: nat, writeAt: nat, flushAt: nat,
    received: seq<byte>, delivered: seq<byte>, pending: seq<byte>,
    srcEof: bool, closed: bool)

  ghost function ReadPhase(l: Lane): (Lane, Option<ErrorKind>) {
    if l.pending != [] || l.srcEof then (l, None) else
    var l' := l.(readAt := l.readAt + 1);
    match ReadInto(l.gives(l.readAt))
    case Data(data) => (l'.(received := l.received + data, pending := data), None)
    case Eof => (l'.(srcEof := true), None)
    case ReadBlocked => (l', None)
    case ReadErr(kind) => if PeerClosed(kind) then (l'.(srcEof := true), None) else (l', Some(kind))
  }

  /** Result of a write phase; `hit` is a peer-closed error, which ends the other direction's input. */
  datatype WriteResult = WriteResult(lane: Lane, hit: bool, error: Option<ErrorKind>)

  ghost function Flush(l: Lane): WriteResult {
    if !l.spins then WriteResult(l, false, None) else
    var l' := l.(flushAt := l.flushAt + 1);
    match l.flushes(l.flushAt)
    case Flushed => WriteResult(l', false, None)
    case FlushError(kind) => WriteResult(l', false, Some(kind))
  }

  ghost function WritePhase(l: Lane): WriteResult {
    if l.pending == [] then WriteResult(l, false, None) else
    var l' := l.(writeAt := l.writeAt + 1);
    match WriteSome(l.takes(l.writeAt), |l.pending|)
    case Wrote(n) => Flush(l'.(delivered := l.delivered + l.pending[..n], pending := l.pending[n..]))
    case WriteBlocked => Flush(l')
    case WriteErr(kind) =>
      if PeerClosed(kind) then WriteResult(l', true, None) else WriteResult(l', false, Some(kind))
  }

  /** Half-close; the close-notify flush spin ignores its result. */
  ghost function ClosePhase(l: Lane): Lane {
    if l.srcEof && l.pending == [] && !l.closed then
      l.(closed := true, flushAt := if l.spins then l.flushAt + 1 else l.flushAt)
    else l
  }

  // ----- Both directions -----

  datatype Status = Running | Done | Failed(kind: ErrorKind)

  /** `up` carries client bytes to the backend, `down` backend bytes to the client. */
  datatype Pump = Pump(up: Lane, down: Lane, status: Status)

  datatype Half = Half(active: Lane, other: Lane, error: Option<ErrorKind>)

  /** The read, write and half-close of one direction, as the loop body does them in turn. */
  ghost function Move(l: Lane): WriteResult {
    var (l', e) := ReadPhase(l);
    if e.Some? then WriteResult(l', false, e) else
    var w := WritePhase(l');
    if w.error.Some? then w else w.(lane := ClosePhase(w.lane))
  }

  /** One direction moves; if its destination reports that it closed, the other direction's input is taken as ended. */
  ghost function HalfPass(active: Lane, other: Lane): Half {
    var m := Move(active);
    Half(m.lane, if m.hit then other.(srcEof := true) else other, m.error)
  }

  predicate Drained(l: Lane) {
    l.srcEof && l.pending == []
  }

  ghost function Pass(p: Pump): Pump {
    if p.status != Running then p else
    var h1 := HalfPass(p.up, p.down);
    if h1.error.Some? then Pump(h1.active, h1.other, Failed(h1.error.value)) else
    var h2 := HalfPass(h1.other, h1.active);
    if h2.error.Some? then Pump(h2.other, h2.active, Failed(h2.error.value)) else
    Pump(h2.other, h2.active, if Drained(h2.other) && Drained(h2.active) then Done else Running)
  }

  ghost function Run(p: Pump, n: nat): Pump {
    if n == 0 then p else Pass(Run(p, n - 1))
  }

  ghost function FreshLane(source: Script, destination: Script, spins: bool): Lane {
    Lane(source.gives, destination.takes, destination.flushes, spins, 0, 0, 0, [], [], [], false, false)
  }

  ghost function Start(client: Script, backend: Script): Pump {
    Pump(FreshLane(client, backend, false), FreshLane(backend, client, true), Running)
  }

  // ----- What the raw outcomes decide -----

  /** Errors after which a peer is taken to be gone. */
  predicate Gone(kind: ErrorKind) {
    kind in {BrokenPipe, ConnectionReset, ConnectionAborted, UnexpectedEof}
  }

  /** Errors after which a call is tried again. */
  predicate Retried(kind: ErrorKind) {
    kind in {WouldBlock, Interrupted}
  }

  predicate Fatal(kind: ErrorKind) {
    !Gone(kind) && !Retried(kind)
  }

  /** No bytes, or a peer that is gone. */
  predicate EndsInput(raw: RawRead) {
    raw == Got([]) || (raw.ReadError? && Gone(raw.kind))
  }

  predicate Refuses(raw: RawWrite) {
    raw.WriteError? && Gone(raw.kind)
  }

  function BytesOf(raw: RawRead): seq<byte> {
    if raw.Got? then raw.data else []
  }

  /** How many of the offered bytes a write takes. */
  function TakenOf(raw: RawWrite, offered: nat): (n: nat)
    ensures n <= offered
  {
    if raw.WriteError? then 0 else if raw.n < offered then raw.n else offered
  }

  // ----- Safety: nothing is lost, duplicated or reordered; half-close is final -----

  /** The bytes the first n reads of a script hand out. */
  function Stream(gives: nat -> RawRead, n: nat): seq<byte> {
    if n == 0 then [] else
    Stream(gives, n - 1) + BytesOf(gives(n - 1))
  }

  ghost predicate LaneInv(l: Lane) {
    && l.received == Stream(l.gives, l.readAt)
    && l.received == l.delivered + l.pending
    && (l.closed ==> Drained(l))
  }

  /** What one direction may do in any number of passes. */
  ghost predicate LaneStep(l: Lane, l': Lane) {
    && l'.gives == l.gives && l'.takes == l.takes && l'.flushes == l.flushes && l'.spins == l.spins
    && l.received <= l'.received
    && l.delivered <= l'.delivered
    && (l.srcEof ==> l'.srcEof && l'.received == l.received)
    && (l.closed ==> l'.closed && l'.delivered == l.delivered && l'.writeAt == l.writeAt)
  }

  lemma StreamGrows(gives: nat -> RawRead, n: nat)
    ensures Stream(gives, n + 1) == Stream(gives, n) + BytesOf(gives(n))
  {
  }

  lemma ReadSafe(l: Lane)
    requires LaneInv(l)
    ensures LaneInv(ReadPhase(l).0) && LaneStep(l, ReadPhase(l).0)
  {
    hide Stream;
    if l.pending == [] && !l.srcEof {
      StreamGrows(l.gives, l.readAt);
      assert l.received == l.delivered;
    }
  }

  lemma WriteSafe(l: Lane)
    requires LaneInv(l)
    ensures LaneInv(WritePhase(l).lane) && LaneStep(l, WritePhase(l).lane)
  {
    hide Stream;
    if l.pending != [] {
      var w := WriteSome(l.takes(l.writeAt), |l.pending|);
      if w.Wrote? {
        assert l.delivered + l.pending == l.delivered + l.pending[..w.n] + l.pending[w.n..];
      }
    }
  }

  lemma HalfPassSafe(a: Lane, b: Lane)
    requires LaneInv(a) && LaneInv(b)
    ensures var h := HalfPass(a, b);
            LaneInv(h.active) && LaneInv(h.other) && LaneStep(a, h.active) && LaneStep(b, h.other)
  {
    hide ReadPhase, WritePhase, Stream;
    ReadSafe(a);
    WriteSafe(ReadPhase(a).0);
  }

  lemma PassSafe(p: Pump)
    requires LaneInv(p.up) && LaneInv(p.down)
    ensures var q := Pass(p);
            LaneInv(q.up) && LaneInv(q.down) && LaneStep(p.up, q.up) && LaneStep(p.down, q.down)
  {
    hide HalfPass, Stream;
    if p.status == Running {
      HalfPassSafe(p.up, p.down);
      var h1 := HalfPass(p.up, p.down);
      HalfPassSafe(h1.other, h1.active);
    }
  }

  /**
   In every state the pump reaches, against any two sockets and whatever errors they
   report, each direction has read exactly a prefix of its source's stream and split it
   into delivered bytes followed by the unwritten ones, and a direction is half-closed
   only when its source is marked ended and its buffer is drained.
   */
  lemma {:induction false} EveryByteAccountedFor(client: Script, backend: Script, n: nat)
    ensures var p := Run(Start(client, backend), n);
            LaneInv(p.up) && LaneInv(p.down) && p.up.gives == client.gives && p.down.gives == backend.gives
            && p.up.takes == backend.takes && p.down.takes == client.takes
            && p.up.flushes == backend.flushes && p.down.flushes == client.flushes
            && !p.up.spins && p.down.spins
  {
    if n > 0 {
      EveryByteAccountedFor(client, backend, n - 1);
      PassSafe(Run(Start(client, backend), n - 1));
    }
  }

  /**
   From any reachable state onwards a direction only ever extends what it read and
   delivered, and after its half-close not one more byte is written, nor is a write tried.
   */
  lemma {:induction false} HalfCloseIsFinal(client: Script, backend: Script, m: nat, n: nat)
    requires m <= n
    ensures var p := Run(Start(client, backend), m); var q := Run(Start(client, backend), n);
            LaneStep(p.up, q.up) && LaneStep(p.down, q.down)
    decreases n
  {
    if m < n {
      HalfCloseIsFinal(client, backend, m, n - 1);
      EveryByteAccountedFor(client, backend, n - 1);
      PassSafe(Run(Start(client, backend), n - 1));
    }
  }

  /** A run that has stopped stays as it is. */
  lemma {:induction false} StoppedStays(p: Pump, m: nat, n: nat)
    requires m <= n
    ensures Run(p, m).status != Running ==> Run(p, n) == Run(p, m)
    decreases n
  {
    if m < n {
      StoppedStays(p, m, n - 1);
    }
  }

  // ----- The loop over mutable sockets and buffers -----

  /** A partially written chunk. */
  class Pending {
    var buf: seq<byte>
    var start: nat

    ghost predicate Valid()
      reads this
    {
      start <= |buf|
    }

    constructor ()
      ensures Valid() && Unwritten() == []
    {
      buf, start := [], 0;
    }

    predicate IsEmpty()
      reads this
    {
      start >= |buf|
    }

    function Unwritten(): seq<byte>
      reads this
      requires Valid()
    {
      buf[start..]
    }

    method Set(data: seq<byte>)
      modifies this
      ensures Valid() && Unwritten() == data
    {
      buf, start := data, 0;
    }

    method Advance(n: nat)
      requires Valid() && n <= |Unwritten()|
      modifies this
      ensures Valid() && Unwritten() == old(Unwritten())[n..]
    {
      start := start + n;
      if IsEmpty() {
        buf, start := [], 0;
      }
    }
  }

  /** A socket: its script, how far each side of it has been played, and the bytes exchanged. */
  class Socket {
    const script: Script
    var readAt: nat
    var writeAt: nat
    var flushAt: nat
    var received: seq<byte>
    var delivered: seq<byte>

    constructor (script: Script)
      ensures this.script == script && Untouched()
    {
      this.script := script;
      readAt, writeAt, flushAt, received, delivered := 0, 0, 0, [], [];
    }

    ghost predicate Untouched()
      reads this
    {
      readAt == writeAt == flushAt == 0 && received == delivered == []
    }

    method Read() returns (r: ReadState)
      modifies `readAt, `received
      ensures r == ReadInto(script.gives(old(readAt))) && readAt == old(readAt) + 1
      ensures received == old(received) + BytesOf(script.gives(old(readAt)))
      ensures received == if r.Data? then old(received) + r.data else old(received)
    {
      r := ReadInto(script.gives(readAt));
      readAt := readAt + 1;
      if r.Data? {
        received := received + r.data;
      }
    }

    method Write(data: seq<byte>) returns (w: WriteState)
      modifies `writeAt, `delivered
      ensures w == WriteSome(script.takes(old(writeAt)), |data|) && writeAt == old(writeAt) + 1
      ensures delivered == old(delivered) + data[..TakenOf(script.takes(old(writeAt)), |data|)]
      ensures delivered == if w.Wrote? then old(delivered) + data[..w.n] else old(delivered)
    {
      w := WriteSome(script.takes(writeAt), |data|);
      writeAt := writeAt + 1;
      if w.Wrote? {
        delivered := delivered + data[..w.n];
      }
    }

    method FlushSpin() returns (f: RawFlush)
      modifies `flushAt
      ensures f == script.flushes(old(flushAt)) && flushAt == old(flushAt) + 1
    {
      f := script.flushes(flushAt);
      flushAt := flushAt + 1;
    }
  }

  ghost function View(source: Socket, destination: Socket, spins: bool, buf: Pending, eof: bool, closed: bool): Lane
    reads source, destination, buf
    requires buf.Valid()
  {
    Lane(source.script.gives, destination.script.takes, destination.script.flushes, spins,
         source.readAt, destination.writeAt, destination.flushAt,
         source.received, destination.delivered, buf.Unwritten(), eof, closed)
  }

  method ReadSide(source: Socket, destination: Socket, spins: bool, buf: Pending, eof: bool, closed: bool)
    returns (eof': bool, error: Option<ErrorKind>)
    requires buf.Valid() && source != destination
    modifies source`readAt, source`received, buf
    ensures buf.Valid()
    ensures (View(source, destination, spins, buf, eof', closed), error)
            == ReadPhase(old(View(source, destination, spins, buf, eof, closed)))
  {
    eof', error := eof, None;
    if buf.IsEmpty() && !eof {
      var r := source.Read();
      match r
      case Data(data) => buf.Set(data);
      case Eof => eof' := true;
      case ReadBlocked =>
      case ReadErr(kind) => if PeerClosed(kind) { eof' := true; } else { error := Some(kind); }
    }
  }

  method WriteSide(source: Socket, destination: Socket, spins: bool, buf: Pending, eof: bool, closed: bool)
    returns (hit: bool, error: Option<ErrorKind>)
    requires buf.Valid() && source != destination
    modifies destination`writeAt, destination`delivered, destination`flushAt, buf
    ensures buf.Valid()
    ensures WriteResult(View(source, destination, spins, buf, eof, closed), hit, error)
            == WritePhase(old(View(source, destination, spins, buf, eof, closed)))
  {
    hit, error := false, None;
    if !buf.IsEmpty() {
      var w := destination.Write(buf.Unwritten());
      if w.WriteErr? {
        if PeerClosed(w.kind) { hit := true; } else { error := Some(w.kind); }
        return;
      }
      if w.Wrote? {
        buf.Advance(w.n);
      }
      if spins {
        var f := destination.FlushSpin();
        if f.FlushError? {
          error := Some(f.kind);
        }
      }
    }
  }

  method CloseSide(source: Socket, destination: Socket, spins: bool, buf: Pending, eof: bool, closed: bool)
    returns (closed': bool)
    requires buf.Valid() && source != destination
    modifies destination`flushAt
    ensures View(source, destination, spins, buf, eof, closed')
            == ClosePhase(old(View(source, destination, spins, buf, eof, closed)))
  {
    closed' := closed;
    if eof && buf.IsEmpty() && !closed {
      if spins {
        var _ := destination.FlushSpin();
      }
      closed' := true;
    }
  }

  /** The read, write and half-close of one direction. */
  method HalfPassOn(source: Socket, destination: Socket, spins: bool, buf: Pending, eof: bool, closed: bool)
    returns (eof': bool, closed': bool, hit: bool, error: Option<ErrorKind>)
    requires buf.Valid() && source != destination
    modifies source`readAt, source`received, destination`writeAt, destination`delivered, destination`flushAt, buf
    ensures buf.Valid()
    ensures WriteResult(View(source, destination, spins, buf, eof', closed'), hit, error)
            == Move(old(View(source, destination, spins, buf, eof, closed)))
  {
    closed', hit := closed, false;
    eof', error := ReadSide(source, destination, spins, buf, eof, closed);
    if error.Some? { return; }
    hit, error := WriteSide(source, destination, spins, buf, eof', closed);
    if error.Some? { return; }
    closed' := CloseSide(source, destination, spins, buf, eof', closed);
  }

  /** The pump as a value: both sockets, both buffers and the four flags. */
  ghost function Snapshot(client: Socket, backend: Socket, c2b: Pending, b2c: Pending,
                          clientEof: bool, backendEof: bool, backendWrClosed: bool, clientWrClosed: bool,
                          status: Status): Pump
    reads client, backend, c2b, b2c
    requires c2b.Valid() && b2c.Valid()
  {
    Pump(View(client, backend, false, c2b, clientEof, backendWrClosed),
         View(backend, client, true, b2c, backendEof, clientWrClosed), status)
  }

  /** One iteration of the relay loop. */
  method OnePass(client: Socket, backend: Socket, c2b: Pending, b2c: Pending,
                 clientEof: bool, backendEof: bool, backendWrClosed: bool, clientWrClosed: bool)
    returns (clientEof': bool, backendEof': bool, backendWrClosed': bool, clientWrClosed': bool, status: Status)
    requires client != backend && c2b != b2c && c2b.Valid() && b2c.Valid()
    modifies client, backend, c2b, b2c
    ensures c2b.Valid() && b2c.Valid()
    ensures Snapshot(client, backend, c2b, b2c, clientEof', backendEof', backendWrClosed', clientWrClosed', status)
      == Pass(old(Snapshot(client, backend, c2b, b2c, clientEof, backendEof, backendWrClosed, clientWrClosed, Running)))
  {
    ghost var p := Snapshot(client, backend, c2b, b2c, clientEof, backendEof, backendWrClosed, clientWrClosed, Running);
    ghost var h1 := HalfPass(p.up, p.down);
    var hit, error;
    clientEof', backendWrClosed', hit, error :=
      HalfPassOn(client, backend, false, c2b, clientEof, backendWrClosed);
    assert p.down == View(backend, client, true, b2c, backendEof, clientWrClosed);
    backendEof', clientWrClosed' := backendEof || hit, clientWrClosed;
    if error.Some? {
      status := Failed(error.value);
    } else {
      ghost var h2 := HalfPass(h1.other, h1.active);
      backendEof', clientWrClosed', hit, error :=
        HalfPassOn(backend, client, true, b2c, backendEof', clientWrClosed);
      assert h1.active == View(client, backend, false, c2b, clientEof', backendWrClosed');
      clientEof' := clientEof' || hit;
      if error.Some? {
        status := Failed(error.value);
      } else {
        status := if clientEof' && backendEof' && c2b.IsEmpty() && b2c.IsEmpty() then Done else Running;
      }
      assert h2 == Half(View(backend, client, true, b2c, backendEof', clientWrClosed'),
                        View(client, backend, false, c2b, clientEof', backendWrClosed'), error);
    }
  }

  /** The relay loop, observed for at most `passes` iterations. */
  method ProxyConnection(client: Socket, backend: Socket, passes: nat) returns (status: Status)
    requires client != backend && client.Untouched() && backend.Untouched()
    modifies client, backend
    ensures var p := Run(Start(client.script, backend.script), passes);
      && status == p.status
      && client.received == p.up.received && backend.delivered == p.up.delivered
      && backend.received == p.down.received && client.delivered == p.down.delivered
      && client.readAt == p.up.readAt && backend.writeAt == p.up.writeAt
      && backend.readAt == p.down.readAt && client.writeAt == p.down.writeAt
  {
    var c2b := new Pending();
    var b2c := new Pending();
    var clientEof, backendEof, backendWrClosed, clientWrClosed := false, false, false, false;
    ghost var start := Start(client.script, backend.script);
    status := Running;
    var i := 0;
    while i < passes && status == Running
      invariant 0 <= i <= passes
      invariant c2b.Valid() && b2c.Valid() && fresh(c2b) && fresh(b2c) && c2b != b2c
      invariant Run(start, i)
        == Snapshot(client, backend, c2b, b2c, clientEof, backendEof, backendWrClosed, clientWrClosed, status)
    {
      clientEof, backendEof, backendWrClosed, clientWrClosed, status :=
        OnePass(client, backend, c2b, b2c, clientEof, backendEof, backendWrClosed, clientWrClosed);
      i := i + 1;
    }
    StoppedStays(start, i, passes);
  }
}
