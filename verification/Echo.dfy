/** The network measurement: a client that pings and then streams through the
    host's echo server, as a transition system over bounded buffers. Stream
    elements stand for bytes and may be told apart. */
module Echo {
  import opened Wrappers

  /** Capacities: client-to-server buffer, the server's copy buffer,
      server-to-client buffer, and the drain's sink. */
  datatype Caps = Caps(up: nat, hold: nat, down: nat, sink: nat)

  predicate Positive(c: Caps) {
    c.up > 0 && c.hold > 0 && c.down > 0 && c.sink > 0
  }

  /** What the client is doing: about to write ping k, waiting to read it back,
      streaming with the drain goroutine reading, or done: it closes the
      connection as soon as its last write has returned. */
  datatype Phase = PingWrite(k: nat) | PingRead(k: nat) | Streaming | Closed

  datatype State<T> = State(
    phase: Phase, unsent: seq<T>, up: seq<T>, hold: seq<T>, down: seq<T>, received: seq<T>)

  /** One system call's worth of progress. Closing ends the run: what is in
      flight then is lost. */
  datatype Step = ClientWrite(n: nat) | ServerRead(n: nat) | ServerWrite(n: nat) | ClientRead(n: nat) | Close

  /** A configuration: capacities, number of pings, and whether the drain
      goroutine was started. */
  datatype Setup = Setup(caps: Caps, pings: nat, drain: bool)

  predicate CanStep<T>(c: Setup, s: State<T>, l: Step) {
    match l
    case ClientWrite(n) =>
      && 0 < n <= |s.unsent| && |s.up| + n <= c.caps.up
      && (s.phase.Streaming? || (s.phase.PingWrite? && n == 1))
    case ServerRead(n) =>
      // io.Copy reads only once its buffer has been written out.
      !s.phase.Closed? && s.hold == [] && 0 < n <= |s.up| && n <= c.caps.hold
    case ServerWrite(n) =>
      !s.phase.Closed? && 0 < n <= |s.hold| && |s.down| + n <= c.caps.down
    case ClientRead(n) =>
      && 0 < n <= |s.down|
      && ((s.phase.Streaming? && c.drain && n <= c.caps.sink) || (s.phase.PingRead? && n == 1))
    case Close =>
      s.phase.Streaming? && s.unsent == []
  }

  function PingOrStream(c: Setup, k: nat): Phase {
    if k < c.pings then PingWrite(k) else Streaming
  }

  function After<T>(c: Setup, s: State<T>, l: Step): State<T>
    requires CanStep(c, s, l)
  {
    match l
    case ClientWrite(n) =>
      s.(unsent := s.unsent[n..], up := s.up + s.unsent[..n],
         phase := if s.phase.PingWrite? then PingRead(s.phase.k) else s.phase)
    case ServerRead(n) => s.(up := s.up[n..], hold := s.up[..n])
    case ServerWrite(n) => s.(hold := s.hold[n..], down := s.down + s.hold[..n])
    case ClientRead(n) =>
      s.(down := s.down[n..], received := s.received + s.down[..n],
         phase := if s.phase.PingRead? then PingOrStream(c, s.phase.k + 1) else s.phase)
    case Close => s.(phase := Closed)
  }

  function Init<T>(c: Setup, stream: seq<T>): State<T> {
    State(PingOrStream(c, 0), stream, [], [], [], [])
  }

  /** The state after a schedule, if every step of it was possible. */
  function Exec<T>(c: Setup, s: State<T>, steps: seq<Step>): Option<State<T>>
    decreases |steps|
  {
    if steps == [] then Some(s)
    else if CanStep(c, s, steps[0]) then Exec(c, After(c, s, steps[0]), steps[1..])
    else None
  }

  // ----- what every schedule keeps -----

  predicate InFlight<T>(s: State<T>, n: nat) {
    |s.up| + |s.hold| + |s.down| == n
  }

  ghost predicate Inv<T>(c: Setup, stream: seq<T>, s: State<T>) {
    Contents(s) == stream && Bounds(c, s)
  }

  /** What was received, what is in flight, and what is still to be sent. */
  function Contents<T>(s: State<T>): seq<T> {
    s.received + s.down + s.hold + s.up + s.unsent
  }

  predicate Bounds<T>(c: Setup, s: State<T>) {
    && |s.up| <= c.caps.up && |s.hold| <= c.caps.hold && |s.hold| <= c.caps.up && |s.down| <= c.caps.down
    && (s.phase.PingWrite? ==> s.phase.k < c.pings && |s.received| == s.phase.k && InFlight(s, 0))
    && (s.phase.PingRead? ==> s.phase.k < c.pings && |s.received| == s.phase.k && InFlight(s, 1))
    && (s.phase.Streaming? || s.phase.Closed? ==> |s.received| >= c.pings && (!c.drain ==> |s.received| == c.pings))
    && (s.phase.Closed? ==> s.unsent == [])
  }

  lemma {:induction false} Regroup<T>(a: seq<T>, b: seq<T>, n: nat)
    requires n <= |b|
    ensures a + b == a + b[..n] + b[n..]
  {
    assert b == b[..n] + b[n..];
  }

  lemma {:induction false} StepKeepsStream<T>(c: Setup, s: State<T>, l: Step)
    requires CanStep(c, s, l)
    ensures Contents(After(c, s, l)) == Contents(s)
  {
    match l
    case ClientWrite(n) => Regroup(s.received + s.down + s.hold + s.up, s.unsent, n);
    case ServerRead(n) => Regroup(s.received + s.down, s.up, n);
    case ServerWrite(n) => Regroup(s.received + s.down, s.hold, n);
    case ClientRead(n) => Regroup(s.received, s.down, n);
    case Close =>
  }

  lemma {:induction false} StepKeepsBounds<T>(c: Setup, s: State<T>, l: Step)
    requires Bounds(c, s) && CanStep(c, s, l)
    ensures Bounds(c, After(c, s, l))
  {
  }

  lemma {:induction false} StepKeepsInv<T>(c: Setup, stream: seq<T>, s: State<T>, l: Step)
    requires Inv(c, stream, s) && CanStep(c, s, l)
    ensures Inv(c, stream, After(c, s, l))
  {
    StepKeepsStream(c, s, l);
    StepKeepsBounds(c, s, l);
    hide Contents, Bounds, CanStep, After;
  }

  /** Bytes are never lost, duplicated or reordered, buffers never overflow,
      and at most one ping is outstanding - in every schedule. */
  lemma {:induction false} ExecKeepsInv<T>(c: Setup, stream: seq<T>, s: State<T>, steps: seq<Step>)
    requires Inv(c, stream, s) && Exec(c, s, steps).Some?
    ensures Inv(c, stream, Exec(c, s, steps).value)
    decreases |steps|
  {
    if steps != [] {
      StepKeepsInv(c, stream, s, steps[0]);
      ExecKeepsInv(c, stream, After(c, s, steps[0]), steps[1..]);
    }
  }

  lemma {:induction false} InitInv<T>(c: Setup, stream: seq<T>)
    requires |stream| >= c.pings
    ensures Inv(c, stream, Init(c, stream))
  {
  }

  /** A ping's read returns that ping's own byte, and the last one leaves every
      buffer empty: streaming starts from the clean state. */
  lemma {:induction false} PingReadsItsOwnByte<T>(c: Setup, stream: seq<T>, s: State<T>, l: Step)
    requires Inv(c, stream, s) && s.phase.PingRead? && l.ClientRead? && CanStep(c, s, l)
    ensures s.phase.k < |stream| && s.down == [stream[s.phase.k]]
    ensures After(c, s, l).received == stream[..s.phase.k + 1]
    ensures InFlight(After(c, s, l), 0)
    ensures s.phase.k + 1 == c.pings ==>
      After(c, s, l) == State(Streaming, stream[c.pings..], [], [], [], stream[..c.pings])
  {
    var k, t := s.phase.k, After(c, s, l);
    assert |s.down| == 1 && s.hold == [] && s.up == [];
    assert s.received + s.down + s.unsent == stream;
    assert stream[k] == s.down[0];
    assert t.received == stream[..k + 1];
    assert t.unsent == stream[k + 1..];
  }

  // ----- progress -----

  /** Each element counts the buffers still ahead of it; closing is left. */
  function Work<T>(s: State<T>): nat {
    4 * |s.unsent| + 3 * |s.up| + 2 * |s.hold| + |s.down| + (if s.phase.Closed? then 0 else 1)
  }

  lemma {:induction false} StepReducesWork<T>(c: Setup, s: State<T>, l: Step)
    requires CanStep(c, s, l)
    ensures Work(After(c, s, l)) < Work(s)
  {
  }

  /** Some step is possible until the client has closed; while it has bytes to
      stream, the drain is what makes this hold. */
  lemma {:induction false} Progress<T>(c: Setup, stream: seq<T>, s: State<T>) returns (l: Step)
    requires Positive(c.caps) && Inv(c, stream, s) && |stream| >= c.pings
    requires !s.phase.Closed?
    requires c.drain || !s.phase.Streaming? || s.unsent == []
    ensures CanStep(c, s, l)
  {
    if s.phase.Streaming? && s.unsent == [] {
      l := Close;
    } else if s.down != [] && !s.phase.PingWrite? {
      l := ClientRead(1);
    } else if s.hold != [] {
      l := ServerWrite(1);
    } else if s.up != [] {
      l := ServerRead(1);
    } else {
      assert s.unsent == [] ==> s.received == stream;
      l := ClientWrite(1);
    }
  }

  ghost predicate Halted<T>(c: Setup, s: State<T>) {
    forall l :: !CanStep(c, s, l)
  }

  lemma {:induction false} ScheduleBound<T>(c: Setup, s: State<T>, steps: seq<Step>)
    requires Exec(c, s, steps).Some?
    ensures |steps| + Work(Exec(c, s, steps).value) <= Work(s)
    decreases |steps|
  {
    if steps != [] {
      StepReducesWork(c, s, steps[0]);
      ScheduleBound(c, After(c, s, steps[0]), steps[1..]);
    }
  }

  /** What can be in flight at once: both network buffers, and what one read
      can move into the server. */
  function Buffering(caps: Caps): nat {
    caps.up + Min(caps.up, caps.hold) + caps.down
  }

  function Min(a: nat, b: nat): nat {
    if a <= b then a else b
  }

  lemma {:induction false} ClosedState<T>(c: Setup, stream: seq<T>, s: State<T>)
    requires Inv(c, stream, s) && s.phase.Closed?
    ensures s.unsent == [] && s.received <= stream
    ensures c.pings <= |s.received| <= |stream| <= |s.received| + Buffering(c.caps)
  {
    assert s.received + (s.down + s.hold + s.up + s.unsent) == stream;
  }

  /** With the drain, for any positive capacities: every schedule is finite, and
      one that cannot continue has sent everything and closed. What came back by
      then is a prefix of the stream, short of it by no more than the buffers
      hold. */
  lemma {:induction false} DrainedRunsComplete<T>(c: Setup, stream: seq<T>, steps: seq<Step>)
    requires Positive(c.caps) && c.drain && |stream| >= c.pings
    requires Exec(c, Init(c, stream), steps).Some?
    ensures |steps| <= 4 * |stream| + 1
    ensures var t := Exec(c, Init(c, stream), steps).value;
      && (Halted(c, t) <==> t.phase.Closed?)
      && (t.phase.Closed? ==> t.unsent == [] && t.received <= stream)
      && (t.phase.Closed? ==> c.pings <= |t.received| <= |stream| <= |t.received| + Buffering(c.caps))
  {
    InitInv(c, stream);
    ExecKeepsInv(c, stream, Init(c, stream), steps);
    ScheduleBound(c, Init(c, stream), steps);
    var t := Exec(c, Init(c, stream), steps).value;
    hide Inv, Exec, Init, Buffering;
    if t.phase.Closed? {
      ClosedState(c, stream, t);
    } else {
      var l := Progress(c, stream, t);
    }
  }

  // ----- schedules of one's choosing -----

  predicate Ordered<T>(stream: seq<T>, r: nat, d: nat, h: nat, u: nat) {
    r <= d <= h <= u <= |stream|
  }

  /** A state by the positions its buffers end at. */
  function At<T>(stream: seq<T>, phase: Phase, r: nat, d: nat, h: nat, u: nat): State<T>
    requires Ordered(stream, r, d, h, u)
  {
    State(phase, stream[u..], stream[h..u], stream[d..h], stream[r..d], stream[..r])
  }

  lemma {:induction false} ExecConcat<T>(c: Setup, s: State<T>, a: seq<Step>, b: seq<Step>)
    requires Exec(c, s, a).Some?
    ensures Exec(c, s, a + b) == Exec(c, Exec(c, s, a).value, b)
    decreases |a|
  {
    if a == [] {
      assert a + b == b;
    } else {
      assert (a + b)[1..] == a[1..] + b;
      ExecConcat(c, After(c, s, a[0]), a[1..], b);
    }
  }

  lemma {:induction false} ExecSnoc<T>(c: Setup, s: State<T>, a: seq<Step>, l: Step)
    requires Exec(c, s, a).Some? && CanStep(c, Exec(c, s, a).value, l)
    ensures Exec(c, s, a + [l]) == Some(After(c, Exec(c, s, a).value, l))
  {
    ExecConcat(c, s, a, [l]);
    var t := Exec(c, s, a).value;
    assert Exec(c, After(c, t, l), [l][1..]) == Some(After(c, t, l));
  }

  lemma {:induction false} AtWrite<T>(c: Setup, stream: seq<T>, phase: Phase, r: nat, d: nat, h: nat, u: nat, n: nat)
    requires Ordered(stream, r, d, h, u) && 0 < n && u + n <= |stream| && u + n - h <= c.caps.up
    requires phase.Streaming? || (phase.PingWrite? && n == 1)
    ensures CanStep(c, At(stream, phase, r, d, h, u), ClientWrite(n))
    ensures After(c, At(stream, phase, r, d, h, u), ClientWrite(n))
         == At(stream, if phase.PingWrite? then PingRead(phase.k) else phase, r, d, h, u + n)
  {
  }

  lemma {:induction false} AtServerRead<T>(c: Setup, stream: seq<T>, phase: Phase, r: nat, d: nat, u: nat, n: nat)
    requires Ordered(stream, r, d, d, u) && 0 < n <= u - d && n <= c.caps.hold
    requires !phase.Closed?
    ensures CanStep(c, At(stream, phase, r, d, d, u), ServerRead(n))
    ensures After(c, At(stream, phase, r, d, d, u), ServerRead(n)) == At(stream, phase, r, d, d + n, u)
  {
  }

  lemma {:induction false} AtServerWrite<T>(
    c: Setup, stream: seq<T>, phase: Phase, r: nat, d: nat, h: nat, u: nat, n: nat)
    requires Ordered(stream, r, d, h, u) && 0 < n <= h - d && d + n - r <= c.caps.down
    requires !phase.Closed?
    ensures CanStep(c, At(stream, phase, r, d, h, u), ServerWrite(n))
    ensures After(c, At(stream, phase, r, d, h, u), ServerWrite(n)) == At(stream, phase, r, d + n, h, u)
  {
  }

  /** Carrying one more byte from the client into the downward buffer. */
  lemma {:induction false} CarryOne<T>(
    c: Setup, stream: seq<T>, init: State<T>, steps: seq<Step>, phase: Phase, r: nat, d: nat) returns (more: seq<Step>)
    requires Positive(c.caps) && r <= d < |stream| && d - r < c.caps.down && (phase.Streaming? || phase.PingWrite?)
    requires Exec(c, init, steps) == Some(At(stream, phase, r, d, d, d))
    ensures var phase' := if phase.PingWrite? then PingRead(phase.k) else phase;
      Exec(c, init, more) == Some(At(stream, phase', r, d + 1, d + 1, d + 1))
  {
    hide Exec, At, CanStep, After;
    var phase' := if phase.PingWrite? then PingRead(phase.k) else phase;
    AtWrite(c, stream, phase, r, d, d, d, 1);
    ExecSnoc(c, init, steps, ClientWrite(1));
    AtServerRead(c, stream, phase', r, d, d + 1, 1);
    ExecSnoc(c, init, steps + [ClientWrite(1)], ServerRead(1));
    AtServerWrite(c, stream, phase', r, d, d + 1, d + 1, 1);
    ExecSnoc(c, init, steps + [ClientWrite(1)] + [ServerRead(1)], ServerWrite(1));
    more := steps + [ClientWrite(1)] + [ServerRead(1)] + [ServerWrite(1)];
  }

  lemma {:induction false} DoPings<T>(c: Setup, stream: seq<T>, k: nat) returns (steps: seq<Step>)
    requires Positive(c.caps) && k <= c.pings <= |stream|
    ensures Exec(c, Init(c, stream), steps) == Some(At(stream, PingOrStream(c, k), k, k, k, k))
    decreases k
  {
    if k == 0 {
      steps := [];
      assert Init(c, stream) == At(stream, PingOrStream(c, 0), 0, 0, 0, 0);
    } else {
      var before := DoPings(c, stream, k - 1);
      var carried := CarryOne(c, stream, Init(c, stream), before, PingWrite(k - 1), k - 1, k - 1);
      var s := At(stream, PingRead(k - 1), k - 1, k, k, k);
      ExecSnoc(c, Init(c, stream), carried, ClientRead(1));
      assert After(c, s, ClientRead(1)) == At(stream, PingOrStream(c, k), k, k, k, k);
      steps := carried + [ClientRead(1)];
    }
  }

  /** Delivering the first `r` bytes one at a time; beyond the pings this takes
      the drain. */
  lemma {:induction false} DeliverTo<T>(c: Setup, stream: seq<T>, r: nat) returns (steps: seq<Step>)
    requires Positive(c.caps) && c.pings <= r <= |stream| && (c.drain || r == c.pings)
    ensures Exec(c, Init(c, stream), steps) == Some(At(stream, Streaming, r, r, r, r))
    decreases r
  {
    if r == c.pings {
      steps := DoPings(c, stream, r);
    } else {
      var before := DeliverTo(c, stream, r - 1);
      var carried := CarryOne(c, stream, Init(c, stream), before, Streaming, r - 1, r - 1);
      ExecSnoc(c, Init(c, stream), carried, ClientRead(1));
      assert After(c, At(stream, Streaming, r - 1, r, r, r), ClientRead(1)) == At(stream, Streaming, r, r, r, r);
      steps := carried + [ClientRead(1)];
    }
  }

  /** ... and then `n` more, which stay in the downward buffer. */
  lemma {:induction false} FillDown<T>(c: Setup, stream: seq<T>, r: nat, n: nat) returns (steps: seq<Step>)
    requires Positive(c.caps) && c.pings <= r && (c.drain || r == c.pings)
    requires n <= c.caps.down && r + n <= |stream|
    ensures Exec(c, Init(c, stream), steps) == Some(At(stream, Streaming, r, r + n, r + n, r + n))
    decreases n
  {
    if n == 0 {
      steps := DeliverTo(c, stream, r);
    } else {
      var before := FillDown(c, stream, r, n - 1);
      steps := CarryOne(c, stream, Init(c, stream), before, Streaming, r, r + n - 1);
    }
  }

  /** After filling the downward buffer, taking `m` bytes into the server and
      writing `n` more. */
  lemma {:induction false} FillAll<T>(c: Setup, stream: seq<T>, r: nat, m: nat, n: nat) returns (steps: seq<Step>)
    requires Positive(c.caps) && c.pings <= r && (c.drain || r == c.pings)
    requires 0 < m <= c.caps.hold && m <= c.caps.up && n <= c.caps.up
    requires r + c.caps.down + m + n <= |stream|
    ensures var d := r + c.caps.down;
      Exec(c, Init(c, stream), steps) == Some(At(stream, Streaming, r, d, d + m, d + m + n))
  {
    hide Exec, At, CanStep, After, Init;
    var d, init := r + c.caps.down, Init(c, stream);
    steps := FillDown(c, stream, r, c.caps.down);
    AtWrite(c, stream, Streaming, r, d, d, d, m);
    ExecSnoc(c, init, steps, ClientWrite(m));
    AtServerRead(c, stream, Streaming, r, d, d + m, m);
    ExecSnoc(c, init, steps + [ClientWrite(m)], ServerRead(m));
    steps := steps + [ClientWrite(m)] + [ServerRead(m)];
    if n > 0 {
      AtWrite(c, stream, Streaming, r, d, d + m, d + m, n);
      ExecSnoc(c, init, steps, ClientWrite(n));
      steps := steps + [ClientWrite(n)];
    }
  }

  /** Sending everything while only the first `r` bytes have come back. */
  lemma {:induction false} SendAll<T>(c: Setup, stream: seq<T>, r: nat) returns (steps: seq<Step>)
    requires Positive(c.caps) && c.pings <= r <= |stream| && (c.drain || r == c.pings)
    requires |stream| - r <= Buffering(c.caps)
    ensures Exec(c, Init(c, stream), steps).Some?
    ensures var t := Exec(c, Init(c, stream), steps).value;
      t.phase == Streaming && t.unsent == [] && |t.received| == r
  {
    hide Exec, Init;
    var rest := |stream| - r;
    if rest <= c.caps.down {
      steps := FillDown(c, stream, r, rest);
    } else {
      var m := Min(rest - c.caps.down, Min(c.caps.up, c.caps.hold));
      steps := FillAll(c, stream, r, m, rest - c.caps.down - m);
    }
  }

  /** The schedule ends closed, with exactly `r` bytes back. */
  predicate ClosesAfter<T>(c: Setup, stream: seq<T>, steps: seq<Step>, r: nat) {
    var t := Exec(c, Init(c, stream), steps);
    t.Some? && t.value.phase.Closed? && |t.value.received| == r
  }

  /** How much may be echoed before the client closes: at least the pings, and
      everything but what the buffers hold. The measured throughput counts what
      was accepted, whether or not it was echoed. */
  lemma {:induction false} EchoedIff<T>(c: Setup, stream: seq<T>, r: nat)
    requires Positive(c.caps) && c.drain && |stream| >= c.pings
    ensures (exists steps :: ClosesAfter(c, stream, steps, r)) <==> c.pings <= r <= |stream| <= r + Buffering(c.caps)
  {
    hide Exec, Init, Buffering;
    if steps :| ClosesAfter(c, stream, steps, r) {
      DrainedRunsComplete(c, stream, steps);
    }
    if c.pings <= r <= |stream| <= r + Buffering(c.caps) {
      var sent := SendAll(c, stream, r);
      ExecSnoc(c, Init(c, stream), sent, Close);
      assert ClosesAfter(c, stream, sent + [Close], r);
    }
  }

  // ----- without the drain -----

  /** The client still has something to write and nothing can move. */
  ghost predicate Stuck<T>(c: Setup, s: State<T>) {
    Halted(c, s) && s.unsent != []
  }

  /** Where a halted run without the drain has put its bytes. */
  lemma {:induction false} HaltedBuffers<T>(c: Setup, stream: seq<T>, s: State<T>)
    requires Positive(c.caps) && !c.drain && |stream| >= c.pings && Inv(c, stream, s) && Halted(c, s)
    ensures s.phase.Closed? <==> s.unsent == []
    ensures |s.received| == c.pings
    ensures s.unsent != [] ==> s.phase.Streaming? && |s.up| == c.caps.up && s.hold != [] && |s.down| == c.caps.down
    ensures |stream| == c.pings + |s.down| + |s.hold| + |s.up| + |s.unsent|
  {
    if !s.phase.Closed? && (!s.phase.Streaming? || s.unsent == []) {
      var l := Progress(c, stream, s);
    }
    assert !CanStep(c, s, ClientWrite(1));
    assert !CanStep(c, s, ServerRead(1));
    assert !CanStep(c, s, ServerWrite(1));
    assert |s.received + s.down + s.hold + s.up + s.unsent| == |stream|;
  }

  /** Without the drain a schedule can only get stuck if the payload exceeds
      both network buffers by more than one byte. */
  lemma {:induction false} StuckNeedsOverflow<T>(c: Setup, stream: seq<T>, steps: seq<Step>)
    requires Positive(c.caps) && !c.drain && |stream| >= c.pings
    requires Exec(c, Init(c, stream), steps).Some? && Stuck(c, Exec(c, Init(c, stream), steps).value)
    ensures |stream| - c.pings > c.caps.up + c.caps.down + 1
  {
    InitInv(c, stream);
    ExecKeepsInv(c, stream, Init(c, stream), steps);
    HaltedBuffers(c, stream, Exec(c, Init(c, stream), steps).value);
  }

  /** Without the drain, a payload above the usable buffering gets stuck in
      every schedule that runs as far as it can. */
  lemma {:induction false} OverflowAlwaysSticks<T>(c: Setup, stream: seq<T>, steps: seq<Step>)
    requires Positive(c.caps) && !c.drain
    requires |stream| - c.pings > Buffering(c.caps)
    requires Exec(c, Init(c, stream), steps).Some? && Halted(c, Exec(c, Init(c, stream), steps).value)
    ensures Stuck(c, Exec(c, Init(c, stream), steps).value)
  {
    InitInv(c, stream);
    ExecKeepsInv(c, stream, Init(c, stream), steps);
    HaltedBuffers(c, stream, Exec(c, Init(c, stream), steps).value);
  }

  ghost predicate CanStick<T>(c: Setup, stream: seq<T>) {
    exists steps :: Exec(c, Init(c, stream), steps).Some? && Stuck(c, Exec(c, Init(c, stream), steps).value)
  }

  ghost predicate MustStick<T>(c: Setup, stream: seq<T>) {
    forall steps :: Exec(c, Init(c, stream), steps).Some? && Halted(c, Exec(c, Init(c, stream), steps).value)
      ==> Stuck(c, Exec(c, Init(c, stream), steps).value)
  }

  lemma {:induction false} FullIsStuck<T>(c: Setup, stream: seq<T>)
    requires Positive(c.caps) && !c.drain && |stream| - c.pings > c.caps.up + c.caps.down + 1
    ensures var d := c.pings + c.caps.down;
      Stuck(c, At(stream, Streaming, c.pings, d, d + 1, d + 1 + c.caps.up))
  {
  }

  /** Without the drain some schedule gets stuck exactly when the payload
      exceeds the two network buffers by more than one byte. */
  lemma {:induction false} CanStickIff<T>(c: Setup, stream: seq<T>)
    requires Positive(c.caps) && !c.drain && |stream| >= c.pings
    ensures CanStick(c, stream) <==> |stream| - c.pings > c.caps.up + c.caps.down + 1
  {
    if steps :| Exec(c, Init(c, stream), steps).Some? && Stuck(c, Exec(c, Init(c, stream), steps).value) {
      StuckNeedsOverflow(c, stream, steps);
    }
    if |stream| - c.pings > c.caps.up + c.caps.down + 1 {
      var steps := FillAll(c, stream, c.pings, 1, c.caps.up);
      FullIsStuck(c, stream);
    }
  }

  /** Running a state as far as it goes never un-sends anything. */
  lemma {:induction false} RunToHalt<T>(c: Setup, s: State<T>) returns (steps: seq<Step>)
    ensures Exec(c, s, steps).Some?
    ensures Halted(c, Exec(c, s, steps).value)
    ensures s.unsent == [] ==> Exec(c, s, steps).value.unsent == []
    decreases Work(s)
  {
    if l :| CanStep(c, s, l) {
      StepReducesWork(c, s, l);
      var rest := RunToHalt(c, After(c, s, l));
      steps := [l] + rest;
      assert steps[1..] == rest;
    } else {
      steps := [];
    }
  }

  /** Without the drain every schedule that runs as far as it can gets stuck
      exactly when the payload exceeds the usable buffering: the two network
      buffers and what one read can move into the server. */
  lemma {:induction false} MustStickIff<T>(c: Setup, stream: seq<T>)
    requires Positive(c.caps) && !c.drain && |stream| >= c.pings
    ensures MustStick(c, stream)
       <==> |stream| - c.pings > Buffering(c.caps)
  {
    if |stream| - c.pings > Buffering(c.caps) {
      forall steps | Exec(c, Init(c, stream), steps).Some? && Halted(c, Exec(c, Init(c, stream), steps).value)
        ensures Stuck(c, Exec(c, Init(c, stream), steps).value)
      {
        OverflowAlwaysSticks(c, stream, steps);
      }
    } else {
      var sent := SendAll(c, stream, c.pings);
      var rest := RunToHalt(c, Exec(c, Init(c, stream), sent).value);
      ExecConcat(c, Init(c, stream), sent, rest);
    }
  }
}
