/**
  A tunnel session: HTTP handlers that write and read, and the one worker between the two queue files
  and the database socket, in every interleaving.
 */
module TunnelRuns {
  import opened Common
  import opened TunnelQueue

  /** The worker's process number; handlers have other numbers. */
  const WORKER: nat := 0
  const READ_SIZE := 16384

  datatype Phase = Top | DrainingIn | Sending | Polling | Forwarding | Stopped

  datatype Tunnel = Tunnel(
    inbound: Queue,
    outbound: Queue,
    phase: Phase,
    unsent: Chunk,        // drained by the worker and not yet on the socket
    sent: Chunk,          // history: bytes the socket took
    received: Chunk,      // history: bytes the socket gave
    closing: bool)        // the close file exists

  datatype Event =
    | WriteRequest(pid: nat, m: Move)     // a step of handle_write
    | ReadRequest(pid: nat, m: Move)      // a step of handle_read
    | CloseRequest
    | BeginDrain
    | WorkerIn(m: Move)
    | SocketTakes(n: nat)
    | SocketQuiet
    | SocketGives(data: Chunk)
    | WorkerOut(m: Move)
    | Stop

  predicate Enabled(t: Tunnel, e: Event) {
    match e
    case WriteRequest(pid, m) => pid != WORKER && CanMove(t.inbound, pid, m) && !(m.Begin? && m.caller.Draining?)
    case ReadRequest(pid, m) => pid != WORKER && CanMove(t.outbound, pid, m) && !(m.Begin? && m.caller.Appending?)
    case CloseRequest => true
    case BeginDrain => t.phase == Top && !t.closing && CanMove(t.inbound, WORKER, Begin(Draining))
    case WorkerIn(m) => t.phase == DrainingIn && !m.Begin? && CanMove(t.inbound, WORKER, m)
    case SocketTakes(n) => t.phase == Sending && n <= |t.unsent|
    case SocketQuiet => t.phase == Polling
    case SocketGives(data) => t.phase == Polling && 0 < |data| <= READ_SIZE
        && CanMove(t.outbound, WORKER, Begin(Appending(data)))
    case WorkerOut(m) => t.phase == Forwarding && !m.Begin? && CanMove(t.outbound, WORKER, m)
    case Stop => t.phase == Top || t.phase == Sending || t.phase == Polling
  }

  function Next(t: Tunnel, e: Event): Tunnel
    requires Enabled(t, e)
  {
    match e
    case WriteRequest(pid, m) => t.(inbound := Moved(t.inbound, pid, m))
    case ReadRequest(pid, m) => t.(outbound := Moved(t.outbound, pid, m))
    case CloseRequest => t.(closing := true)
    case BeginDrain => t.(inbound := Moved(t.inbound, WORKER, Begin(Draining)), phase := DrainingIn)
    case WorkerIn(m) =>
      var q := Moved(t.inbound, WORKER, m);
      if m.Unlock? && q.drained != t.inbound.drained then
        var data := q.drained[|q.drained| - 1];
        t.(inbound := q, unsent := data, phase := if data != [] then Sending else Polling)
      else t.(inbound := q)
    case SocketTakes(n) =>
      t.(sent := t.sent + t.unsent[..n], unsent := t.unsent[n..], phase := if n == |t.unsent| then Polling else Sending)
    case SocketQuiet => t.(phase := Top)
    case SocketGives(data) =>
      t.(outbound := Moved(t.outbound, WORKER, Begin(Appending(data))), received := t.received + data,
         phase := Forwarding)
    case WorkerOut(m) => t.(outbound := Moved(t.outbound, WORKER, m), phase := if m.Unlock? then Top else Forwarding)
    case Stop => t.(phase := Stopped)
  }

  function Init(): Tunnel {
    var q := Queue("", None, map[], [], 0, []);
    Tunnel(q, q, Top, [], [], [], false)
  }

  predicate IsRun(t: Tunnel, es: seq<Event>)
    decreases |es|
  {
    es == [] || (Enabled(t, es[0]) && IsRun(Next(t, es[0]), es[1..]))
  }

  function After(t: Tunnel, es: seq<Event>): Tunnel
    requires IsRun(t, es)
    decreases |es|
  {
    if es == [] then t else After(Next(t, es[0]), es[1..])
  }

  // ---------------------------------------------------------------- the invariant

  predicate Appends(c: Caller) { c.Appending? || c.LockedToAppend? || c.Appended? }

  /** Only the worker drains what clients wrote, and only while it is in that part of its loop. */
  predicate Roles(t: Tunnel) {
    && (forall p :: p in t.inbound.callers ==> (p == WORKER <==> !Appends(t.inbound.callers[p])))
    && (forall p :: p in t.outbound.callers ==> (p == WORKER <==> Appends(t.outbound.callers[p])))
    && (WORKER in t.inbound.callers <==> t.phase == DrainingIn)
    && (WORKER in t.outbound.callers <==> t.phase == Forwarding)
  }

  /** Read from the socket and not yet in the outbound file. */
  function Pending(t: Tunnel): Chunk {
    if WORKER in t.outbound.callers
        && (t.outbound.callers[WORKER].Appending? || t.outbound.callers[WORKER].LockedToAppend?)
    then t.outbound.callers[WORKER].data
    else []
  }

  predicate Balanced(t: Tunnel) {
    && Sound(t.inbound) && Sound(t.outbound)
    && Roles(t)
    && (t.phase != Sending && t.phase != Stopped ==> t.unsent == [])
    && Flatten(t.inbound.drained) == t.sent + t.unsent
    && t.received == Flatten(t.outbound.log) + Pending(t)
  }

  lemma FlattenOne(chunks: seq<Chunk>, c: Chunk)
    ensures Flatten(chunks + [c]) == Flatten(chunks) + c
  {
    FlattenJoins(chunks, [c]);
    assert Flatten([c]) == c;
  }

  lemma WorkerInKeeps(t: Tunnel, m: Move)
    requires Balanced(t) && Enabled(t, WorkerIn(m))
    ensures Balanced(Next(t, WorkerIn(m)))
  {
    hide Flatten, Sound, Decoded, Line;
    MoveKeeps(t.inbound, WORKER, m);
    var c := t.inbound.callers[WORKER];
    if c.HasEmptied? {
      FlattenOne(t.inbound.drained, Decoded(c.encoded));
      assert t.sent + Decoded(c.encoded) == t.sent + t.unsent + Decoded(c.encoded);
    }
  }

  lemma WorkerOutKeeps(t: Tunnel, m: Move)
    requires Balanced(t) && Enabled(t, WorkerOut(m))
    ensures Balanced(Next(t, WorkerOut(m)))
  {
    hide Flatten, Sound, Decoded, Line;
    MoveKeeps(t.outbound, WORKER, m);
    var c := t.outbound.callers[WORKER];
    if c.LockedToAppend? {
      FlattenOne(t.outbound.log, c.data);
    }
  }

  lemma HandlerKeeps(t: Tunnel, e: Event)
    requires Balanced(t) && Enabled(t, e) && (e.WriteRequest? || e.ReadRequest?)
    ensures Balanced(Next(t, e))
  {
    hide Flatten, Sound, Decoded, Line;
    if e.WriteRequest? {
      MoveKeeps(t.inbound, e.pid, e.m);
    } else {
      MoveKeeps(t.outbound, e.pid, e.m);
    }
  }

  lemma SocketKeeps(t: Tunnel, e: Event)
    requires Balanced(t) && Enabled(t, e) && (e.SocketTakes? || e.SocketGives?)
    ensures Balanced(Next(t, e))
  {
    hide Flatten, Sound, Decoded, Line;
    if e.SocketTakes? {
      assert t.unsent == t.unsent[..e.n] + t.unsent[e.n..];
    } else {
      MoveKeeps(t.outbound, WORKER, Begin(Appending(e.data)));
    }
  }

  lemma StepKeeps(t: Tunnel, e: Event)
    requires Balanced(t) && Enabled(t, e)
    ensures Balanced(Next(t, e))
  {
    hide Flatten, Sound, Decoded, Line;
    match e
    case WriteRequest(_, _) => HandlerKeeps(t, e);
    case ReadRequest(_, _) => HandlerKeeps(t, e);
    case WorkerIn(m) => WorkerInKeeps(t, m);
    case WorkerOut(m) => WorkerOutKeeps(t, m);
    case SocketTakes(_) => SocketKeeps(t, e);
    case SocketGives(_) => SocketKeeps(t, e);
    case BeginDrain => MoveKeeps(t.inbound, WORKER, Begin(Draining));
    case _ =>
  }

  lemma {:induction false} RunKeeps(t: Tunnel, es: seq<Event>)
    requires IsRun(t, es) && Balanced(t)
    ensures Balanced(After(t, es))
    decreases |es|
  {
    hide Balanced, Next, Enabled;
    if es != [] {
      StepKeeps(t, es[0]);
      RunKeeps(Next(t, es[0]), es[1..]);
    }
  }

  // ---------------------------------------------------------------- whole runs

  lemma InitBalanced()
    ensures Balanced(Init())
  {
  }

  /**
    At every point of every run, what the socket took, what the worker still holds and what is in the
    inbound file are exactly the bytes clients wrote, in lock order; and what readers were given, what
    is in the outbound file and what the worker still has to append are exactly the bytes the socket gave.
   */
  lemma BytesAreConserved(es: seq<Event>)
    requires IsRun(Init(), es)
    ensures var t := After(Init(), es);
            && t.sent + t.unsent + InHand(t.inbound) + Decoded(t.inbound.text) == Flatten(t.inbound.log)
            && Flatten(t.outbound.drained) + InHand(t.outbound) + Decoded(t.outbound.text) + Pending(t) == t.received
  {
    hide Decoded, Next, Enabled, IsRun, After, Sound;
    InitBalanced();
    RunKeeps(Init(), es);
    var t := After(Init(), es);
    NothingLost(t.inbound);
    NothingLost(t.outbound);
  }

  /** Each direction delivers a prefix: no byte is lost in the middle, duplicated or out of order. */
  lemma PrefixDelivered(es: seq<Event>)
    requires IsRun(Init(), es)
    ensures After(Init(), es).sent <= Flatten(After(Init(), es).inbound.log)
    ensures Flatten(After(Init(), es).outbound.drained) <= After(Init(), es).received
  {
    hide Decoded, Next, Enabled, Flatten;
    BytesAreConserved(es);
    var t := After(Init(), es);
    assert t.sent + t.unsent + InHand(t.inbound) + Decoded(t.inbound.text)
        == t.sent + (t.unsent + InHand(t.inbound) + Decoded(t.inbound.text));
    assert Flatten(t.outbound.drained) + InHand(t.outbound) + Decoded(t.outbound.text) + Pending(t)
        == Flatten(t.outbound.drained) + (InHand(t.outbound) + Decoded(t.outbound.text) + Pending(t));
  }

  predicate Extends(t: Tunnel, u: Tunnel) {
    && t.inbound.log <= u.inbound.log && t.sent <= u.sent
    && t.outbound.log <= u.outbound.log && t.outbound.drained <= u.outbound.drained && t.received <= u.received
  }

  lemma StepExtends(t: Tunnel, e: Event)
    requires Enabled(t, e)
    ensures Extends(t, Next(t, e))
  {
    hide Flatten, Decoded, Line;
  }

  /** Histories only grow, so a chunk appended before another request began stays before that request's chunk. */
  lemma {:induction false} HistoriesGrow(t: Tunnel, es: seq<Event>)
    requires IsRun(t, es)
    ensures Extends(t, After(t, es))
    decreases |es|
  {
    hide Next, Enabled;
    if es != [] {
      StepExtends(t, es[0]);
      HistoriesGrow(Next(t, es[0]), es[1..]);
    }
  }

  /** With no caller in a queue and the worker at the top of its loop, everything not delivered is in the files. */
  lemma QuietMeansInFiles(es: seq<Event>)
    requires IsRun(Init(), es)
    requires var t := After(Init(), es); t.phase == Top && t.inbound.callers == map[] && t.outbound.callers == map[]
    ensures var t := After(Init(), es);
            && t.sent + Decoded(t.inbound.text) == Flatten(t.inbound.log)
            && Flatten(t.outbound.drained) + Decoded(t.outbound.text) == t.received
  {
    hide Decoded, Next, Enabled, Flatten, Sound, IsRun, After;
    InitBalanced();
    RunKeeps(Init(), es);
    BytesAreConserved(es);
    var t := After(Init(), es);
    assert t.sent + [] + [] + Decoded(t.inbound.text) == t.sent + Decoded(t.inbound.text);
  }

  // ---------------------------------------------------------------- write_all

  /** What one `fwrite` answers. */
  datatype Answer = Took(n: nat) | Failed

  datatype Verdict = Done | Broken | Waiting

  /** What is left of the data after the answers, and how the loop stands; an answer never exceeds what was offered. */
  function Left(data: Chunk, answers: seq<Answer>): (Chunk, Verdict)
    decreases |answers|
  {
    if data == [] then (data, Done)
    else if answers == [] then (data, Waiting)
    else if answers[0].Failed? then (data, Broken)
    else Left(data[Min(answers[0].n, |data|)..], answers[1..])
  }

  lemma LeftStep(data: Chunk, offset: nat, answers: seq<Answer>, i: nat)
    requires offset < |data| && i < |answers| && answers[i].Took?
    ensures var written := Min(answers[i].n, |data| - offset);
            Left(data[offset..], answers[i..]) == Left(data[offset + written..], answers[i + 1..])
  {
    var written := Min(answers[i].n, |data| - offset);
    assert data[offset..][written..] == data[offset + written..];
    assert answers[i..][1..] == answers[i + 1..];
  }

  lemma LeftStops(data: Chunk, answers: seq<Answer>)
    requires data == [] || answers == [] || answers[0].Failed?
    ensures Left(data, answers) == (data, if data == [] then Done else if answers == [] then Waiting else Broken)
  {
  }

  method WriteAll(data: Chunk, answers: seq<Answer>) returns (sent: Chunk, verdict: Verdict)
    ensures sent + Left(data, answers).0 == data
    ensures verdict == Left(data, answers).1
    ensures verdict == Done <==> sent == data
  {
    hide Left;
    sent := [];
    var offset, i := 0, 0;
    while offset < |data|
      invariant 0 <= offset <= |data| && i <= |answers|
      invariant sent == data[..offset]
      invariant Left(data[offset..], answers[i..]) == Left(data, answers)
      decreases |answers| - i
    {
      if i == |answers| {
        LeftStops(data[offset..], answers[i..]);
        return sent, Waiting;
      }
      if answers[i].Failed? {
        LeftStops(data[offset..], answers[i..]);
        return sent, Broken;
      }
      var written := Min(answers[i].n, |data| - offset);
      LeftStep(data, offset, answers, i);
      sent := sent + data[offset..offset + written];
      offset, i := offset + written, i + 1;
    }
    LeftStops(data[offset..], answers[i..]);
    verdict := Done;
  }

  /** The worker steps that the loop performs. */
  function Steps(data: Chunk, answers: seq<Answer>): seq<Event>
    decreases |answers|
  {
    if data == [] || answers == [] then []
    else if answers[0].Failed? then [Stop]
    else
      var n := Min(answers[0].n, |data|);
      [SocketTakes(n)] + Steps(data[n..], answers[1..])
  }

  /** The loop is a run of the session that moves the accepted part, and only it, to the socket. */
  lemma {:induction false} WriteAllIsRun(t: Tunnel, answers: seq<Answer>)
    requires t.phase == Sending && t.unsent != []
    ensures IsRun(t, Steps(t.unsent, answers))
    ensures var u := After(t, Steps(t.unsent, answers));
            var (left, verdict) := Left(t.unsent, answers);
            && u.unsent == left && u.sent + left == t.sent + t.unsent
            && u.phase == (match verdict case Done => Polling case Broken => Stopped case Waiting => Sending)
    decreases |answers|
  {
    if answers != [] {
      if answers[0].Took? {
        var n := Min(answers[0].n, |t.unsent|);
        var u := Next(t, SocketTakes(n));
        var steps := Steps(t.unsent, answers);
        assert steps[1..] == Steps(u.unsent, answers[1..]);
        assert u.sent + u.unsent == t.sent + t.unsent;
        if u.unsent != [] {
          WriteAllIsRun(u, answers[1..]);
        }
      } else {
        assert Steps(t.unsent, answers)[1..] == [];
      }
    }
  }
}
