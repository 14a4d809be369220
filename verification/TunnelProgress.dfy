/**
  The tunnel never gets stuck: from every state the worker can finish its turn with the help of those who hold a lock,
  what clients wrote reaches the socket, and what the socket gives reaches a reader.
 */
module TunnelProgress {
  import opened Common
  import opened TunnelQueue
  import opened TunnelRuns

  /** A step that finishes what was begun: no new request, no bytes from the socket, no end of the session. */
  predicate Finishing(e: Event) {
    match e
    case WriteRequest(_, m) => !m.Begin?
    case ReadRequest(_, m) => !m.Begin?
    case BeginDrain => true
    case WorkerIn(_) => true
    case WorkerOut(_) => true
    case SocketTakes(_) => true
    case SocketQuiet => true
    case _ => false
  }

  predicate AllFinishing(es: seq<Event>) { forall i :: 0 <= i < |es| ==> Finishing(es[i]) }

  lemma First(t: Tunnel, e: Event, es: seq<Event>)
    requires Enabled(t, e) && IsRun(Next(t, e), es)
    ensures IsRun(t, [e] + es) && After(t, [e] + es) == After(Next(t, e), es)
  {
    hide Enabled, Next;
    assert ([e] + es)[1..] == es;
  }

  lemma None(t: Tunnel)
    ensures IsRun(t, []) && After(t, []) == t
  {
  }

  // ---------------------------------------------------------------- what clients wrote

  /** How far the worker is from the end of its drain, counting what the holder of the lock still has to do. */
  function DrainLeft(t: Tunnel): nat {
    if WORKER !in t.inbound.callers then 0
    else match t.inbound.callers[WORKER]
         case Draining =>
           5 + (if t.inbound.holder.None? || t.inbound.holder.value !in t.inbound.callers then 0
                else match t.inbound.callers[t.inbound.holder.value]
                     case LockedToAppend(_) => 2
                     case Appended => 1
                     case _ => 0)
         case LockedToDrain => 4
         case HasRead(_) => 3
         case HasEmptied(_) => 2
         case _ => 0
  }

  /** The next step that brings the drain nearer to its end. */
  function DrainStep(t: Tunnel): (e: Event)
    requires Balanced(t) && t.phase == DrainingIn
  {
    match t.inbound.callers[WORKER]
    case Draining =>
      if t.inbound.holder.None? then WorkerIn(Lock)
      else if t.inbound.callers[t.inbound.holder.value].LockedToAppend? then WriteRequest(t.inbound.holder.value, Write)
      else WriteRequest(t.inbound.holder.value, Unlock)
    case LockedToDrain => WorkerIn(Read)
    case HasRead(_) => WorkerIn(Empty)
    case _ => WorkerIn(Unlock)
  }

  lemma DrainAdvances(t: Tunnel)
    requires Balanced(t) && t.phase == DrainingIn
    ensures var e := DrainStep(t);
            && Enabled(t, e) && Finishing(e)
            && var u := Next(t, e);
               && t.inbound.log <= u.inbound.log && u.outbound == t.outbound && u.closing == t.closing
               && u.received == t.received
               && if u.phase == DrainingIn then DrainLeft(u) < DrainLeft(t)
                  else u.phase in {Sending, Polling} && u.inbound.text == "" && u.inbound.holder.None?
                       && WORKER !in u.inbound.callers
  {
    hide Flatten, Decoded, Line, Conserved;
    if t.inbound.callers[WORKER].Draining? && t.inbound.holder.Some? {
      HolderAdvances(t);
    }
  }

  /** Whoever keeps the worker from the inbound lock is a writer that can go on. */
  lemma HolderAdvances(t: Tunnel)
    requires Balanced(t) && t.phase == DrainingIn && t.inbound.callers[WORKER].Draining? && t.inbound.holder.Some?
    ensures var e := DrainStep(t);
            && Enabled(t, e) && Finishing(e)
            && var u := Next(t, e);
               && t.inbound.log <= u.inbound.log && u == t.(inbound := u.inbound) && DrainLeft(u) < DrainLeft(t)
  {
    hide Flatten, Decoded, Line, Conserved;
  }

  /** A drain of the inbound file ends, with an empty file. */
  lemma {:induction false} DrainEnds(t: Tunnel) returns (es: seq<Event>)
    requires Balanced(t) && t.phase == DrainingIn
    ensures IsRun(t, es) && AllFinishing(es)
    ensures var u := After(t, es);
            && Balanced(u) && u.phase in {Sending, Polling} && u.inbound.text == ""
            && t.inbound.log <= u.inbound.log && u.outbound == t.outbound && u.received == t.received
            && u.inbound.holder.None? && u.closing == t.closing
    decreases DrainLeft(t)
  {
    hide Balanced, Enabled, Next, DrainStep, DrainLeft, Finishing;
    var e := DrainStep(t);
    DrainAdvances(t);
    StepKeeps(t, e);
    var u := Next(t, e);
    if u.phase == DrainingIn {
      var rest := DrainEnds(u);
      es := [e] + rest;
      First(t, e, rest);
    } else {
      None(u);
      es := [e];
      First(t, e, []);
      assert [e] + [] == [e];
    }
  }

  lemma TakesAll(t: Tunnel)
    requires Balanced(t) && t.phase == Sending
    ensures var e := SocketTakes(|t.unsent|);
            && Enabled(t, e)
            && var u := Next(t, e);
               && u.phase == Polling && u.inbound == t.inbound && u.outbound == t.outbound && u.received == t.received
               && u.closing == t.closing
  {
  }

  lemma {:induction false} Joined(t: Tunnel, a: seq<Event>, b: seq<Event>)
    requires IsRun(t, a) && IsRun(After(t, a), b)
    ensures IsRun(t, a + b) && After(t, a + b) == After(After(t, a), b)
    decreases |a|
  {
    hide Enabled, Next;
    if a == [] {
      assert a + b == b;
    } else {
      assert (a + b)[1..] == a[1..] + b;
      Joined(Next(t, a[0]), a[1..], b);
    }
  }

  lemma BeginsDrain(t: Tunnel)
    requires Balanced(t) && t.phase == Top && !t.closing
    ensures Enabled(t, BeginDrain)
    ensures var u := Next(t, BeginDrain);
            u.phase == DrainingIn && u.inbound.log == t.inbound.log && u.outbound == t.outbound
            && u.received == t.received && u.closing == t.closing
  {
  }

  lemma AllSent(t: Tunnel)
    requires Balanced(t) && t.phase == Polling && t.inbound.text == "" && t.inbound.holder.None?
    ensures t.sent == Flatten(t.inbound.log)
  {
    hide Flatten, Decoded;
    NothingLost(t.inbound);
    NothingToDecode();
    assert t.sent + [] == t.sent;
  }

  lemma NothingToDecode()
    ensures Decoded("") == []
  {
    assert Explode("") == [""];
    assert LinesData([""]) == LineData("") + LinesData([]);
  }

  /** From the top of its loop the worker gets to the socket poll with everything written by then on the socket. */
  lemma TopToPoll(t: Tunnel) returns (es: seq<Event>)
    requires Balanced(t) && t.phase == Top && !t.closing
    ensures IsRun(t, es) && AllFinishing(es)
    ensures var u := After(t, es);
            && Balanced(u) && u.phase == Polling && t.inbound.log <= u.inbound.log && u.inbound.holder.None?
            && u.sent == Flatten(u.inbound.log) && u.outbound == t.outbound && u.received == t.received
            && u.closing == t.closing
  {
    hide Balanced, Enabled, Next, Flatten;
    BeginsDrain(t);
    StepKeeps(t, BeginDrain);
    var u := Next(t, BeginDrain);
    var rest := DrainToPoll(u);
    es := [BeginDrain] + rest;
    First(t, BeginDrain, rest);
  }

  /** From inside a drain the worker gets there too. */
  lemma DrainToPoll(t: Tunnel) returns (es: seq<Event>)
    requires Balanced(t) && t.phase == DrainingIn
    ensures IsRun(t, es) && AllFinishing(es)
    ensures var u := After(t, es);
            && Balanced(u) && u.phase == Polling && t.inbound.log <= u.inbound.log && u.inbound.holder.None?
            && u.sent == Flatten(u.inbound.log) && u.outbound == t.outbound && u.received == t.received
            && u.closing == t.closing
  {
    hide Balanced, Enabled, Next, Flatten;
    es := DrainEnds(t);
    var u := After(t, es);
    if u.phase == Sending {
      var send := SendsRest(u);
      Joined(t, es, send);
      es := es + send;
    }
    AllSent(After(t, es));
  }

  /** A socket that takes everything lets the worker poll. */
  lemma SendsRest(t: Tunnel) returns (es: seq<Event>)
    requires Balanced(t) && t.phase == Sending
    ensures IsRun(t, es) && AllFinishing(es)
    ensures var u := After(t, es);
            && Balanced(u) && u.phase == Polling && u.inbound == t.inbound && u.outbound == t.outbound
            && u.received == t.received && u.closing == t.closing
  {
    hide Balanced, Enabled, Next;
    var e := SocketTakes(|t.unsent|);
    TakesAll(t);
    StepKeeps(t, e);
    None(Next(t, e));
    First(t, e, []);
    es := [e];
    assert [e] + [] == [e];
  }

  /** A worker that sees nothing on the socket goes on to its next turn. */
  lemma GoesOn(t: Tunnel) returns (es: seq<Event>)
    requires Balanced(t) && t.phase == Polling
    ensures IsRun(t, es) && AllFinishing(es) && After(t, es) == t.(phase := Top) && Balanced(After(t, es))
  {
    StepKeeps(t, SocketQuiet);
    hide Balanced;
    None(Next(t, SocketQuiet));
    First(t, SocketQuiet, []);
    es := [SocketQuiet];
    assert [SocketQuiet] + [] == [SocketQuiet];
  }

  // ---------------------------------------------------------------- what the socket gives

  function ForwardLeft(t: Tunnel): nat {
    if WORKER !in t.outbound.callers then 0
    else match t.outbound.callers[WORKER]
         case Appending(_) =>
           4 + (if t.outbound.holder.None? || t.outbound.holder.value !in t.outbound.callers then 0
                else match t.outbound.callers[t.outbound.holder.value]
                     case LockedToDrain => 3
                     case HasRead(_) => 2
                     case HasEmptied(_) => 1
                     case _ => 0)
         case LockedToAppend(_) => 3
         case Appended => 2
         case _ => 0
  }

  function ForwardStep(t: Tunnel): Event
    requires Balanced(t) && t.phase == Forwarding
  {
    match t.outbound.callers[WORKER]
    case Appending(_) =>
      if t.outbound.holder.None? then WorkerOut(Lock)
      else
        var p := t.outbound.holder.value;
        ReadRequest(p, match t.outbound.callers[p]
                       case LockedToDrain => Read
                       case HasRead(_) => Empty
                       case _ => Unlock)
    case LockedToAppend(_) => WorkerOut(Write)
    case _ => WorkerOut(Unlock)
  }

  /** What will be in the outbound log when the append in progress is done. */
  function Forwarded(t: Tunnel): seq<Chunk> {
    if Pending(t) == [] then t.outbound.log else t.outbound.log + [Pending(t)]
  }

  lemma ForwardAdvances(t: Tunnel)
    requires Balanced(t) && t.phase == Forwarding
    ensures var e := ForwardStep(t);
            && Enabled(t, e) && Finishing(e)
            && var u := Next(t, e);
               && Forwarded(u) == Forwarded(t) && u.inbound == t.inbound && u.sent == t.sent && u.closing == t.closing
               && u.received == t.received
               && if u.phase == Forwarding then ForwardLeft(u) < ForwardLeft(t)
                  else u.phase == Top && u.outbound.log == Forwarded(t) && u.outbound.holder.None?
  {
    hide Flatten, Decoded, Line, Conserved;
  }

  lemma {:induction false} ForwardEnds(t: Tunnel) returns (es: seq<Event>)
    requires Balanced(t) && t.phase == Forwarding
    ensures IsRun(t, es) && AllFinishing(es)
    ensures var u := After(t, es);
            && Balanced(u) && u.phase == Top && u.outbound.log == Forwarded(t) && u.outbound.holder.None?
            && u.inbound == t.inbound && u.sent == t.sent && u.closing == t.closing && u.received == t.received
    decreases ForwardLeft(t)
  {
    hide Balanced, Enabled, Next, ForwardStep, ForwardLeft, Finishing, Forwarded;
    var e := ForwardStep(t);
    ForwardAdvances(t);
    StepKeeps(t, e);
    var u := Next(t, e);
    if u.phase == Forwarding {
      var rest := ForwardEnds(u);
      es := [e] + rest;
      First(t, e, rest);
    } else {
      None(u);
      es := [e];
      First(t, e, []);
      assert [e] + [] == [e];
    }
  }

  lemma Gives(t: Tunnel, data: Chunk)
    requires Balanced(t) && t.phase == Polling && 0 < |data| <= 16384
    ensures Enabled(t, SocketGives(data))
    ensures var u := Next(t, SocketGives(data));
            u.phase == Forwarding && Forwarded(u) == t.outbound.log + [data] && u.inbound == t.inbound
            && u.sent == t.sent && u.closing == t.closing && u.received == t.received + data
  {
  }

  /**
    While the worker polls it takes whatever the socket gives, up to 16384 bytes, and it returns to the top of its loop
    with that as the last chunk of the outbound file, whoever holds the outbound lock.
   */
  lemma WorkerForwards(t: Tunnel, data: Chunk) returns (es: seq<Event>)
    requires Balanced(t) && t.phase == Polling && 0 < |data| <= 16384
    ensures Enabled(t, SocketGives(data)) && AllFinishing(es)
    ensures IsRun(t, [SocketGives(data)] + es)
    ensures var u := After(t, [SocketGives(data)] + es);
            && Balanced(u) && u.phase == Top && u.outbound.log == t.outbound.log + [data]
            && u.inbound == t.inbound && u.sent == t.sent && u.outbound.holder.None? && u.closing == t.closing
            && u.received == t.received + data
  {
    hide Balanced, Enabled, Next, Forwarded;
    Gives(t, data);
    StepKeeps(t, SocketGives(data));
    es := ForwardEnds(Next(t, SocketGives(data)));
    First(t, SocketGives(data), es);
  }

  // ---------------------------------------------------------------- from anywhere in the loop

  /** Wherever the worker stands in its loop, it can get to the top, with what it had read from the socket appended. */
  lemma WorkerTurns(t: Tunnel) returns (es: seq<Event>)
    requires Balanced(t) && t.phase != Stopped
    ensures IsRun(t, es) && AllFinishing(es)
    ensures var u := After(t, es);
            && Balanced(u) && u.phase == Top && t.inbound.log <= u.inbound.log && u.outbound.log == Forwarded(t)
            && u.received == t.received && u.closing == t.closing
            && (t.phase != Forwarding ==> u.outbound == t.outbound)
  {
    hide Balanced, Enabled, Next, Flatten, Forwarded;
    NothingForwarded(t);
    if t.phase == Top {
      None(t);
      es := [];
    } else if t.phase == Forwarding {
      es := ForwardEnds(t);
    } else {
      es := [];
      None(t);
      if t.phase == DrainingIn {
        es := DrainToPoll(t);
      } else if t.phase == Sending {
        es := SendsRest(t);
      }
      var quiet := GoesOn(After(t, es));
      Joined(t, es, quiet);
      es := es + quiet;
    }
  }

  lemma NothingForwarded(t: Tunnel)
    requires Balanced(t)
    ensures t.phase != Forwarding ==> Forwarded(t) == t.outbound.log
  {
  }

  /**
    From every state of every run in which the session neither has ended nor is to be closed, the worker reaches the
    socket poll, whoever holds a lock, and by then everything clients had written is on the socket and everything it
    had read from the socket is in the outbound file.
   */
  lemma WorkerSendsAndPolls(t: Tunnel) returns (es: seq<Event>)
    requires Balanced(t) && t.phase != Stopped && !t.closing
    ensures IsRun(t, es) && AllFinishing(es)
    ensures var u := After(t, es);
            && Balanced(u) && u.phase == Polling && t.inbound.log <= u.inbound.log && u.inbound.holder.None?
            && u.sent == Flatten(u.inbound.log) && u.outbound.log == Forwarded(t) && u.received == t.received
            && !u.closing && (t.phase != Forwarding ==> u.outbound == t.outbound)
  {
    hide Balanced, Enabled, Next, Flatten, Forwarded;
    var turn := WorkerTurns(t);
    var poll := TopToPoll(After(t, turn));
    Joined(t, turn, poll);
    es := turn + poll;
  }

  // ---------------------------------------------------------------- requests

  /** The steps of one read request. */
  function ReadSteps(pid: nat): seq<Event> {
    [ReadRequest(pid, Begin(Draining)), ReadRequest(pid, Lock), ReadRequest(pid, Read), ReadRequest(pid, Empty),
     ReadRequest(pid, Unlock)]
  }

  /** The steps of one write request. */
  function WriteSteps(pid: nat, data: Chunk): seq<Event> {
    [WriteRequest(pid, Begin(Appending(data))), WriteRequest(pid, Lock), WriteRequest(pid, Write),
     WriteRequest(pid, Unlock)]
  }

  /** A new reader of a free queue is given everything in the outbound file. */
  lemma ReadIsServed(t: Tunnel, pid: nat)
    requires pid != WORKER && pid !in t.outbound.callers && t.outbound.holder.None?
    ensures IsRun(t, ReadSteps(pid))
    ensures var u := After(t, ReadSteps(pid));
            && u.outbound.drained == t.outbound.drained + [Decoded(t.outbound.text)] && u.outbound.text == ""
            && u.outbound.log == t.outbound.log && u.outbound.callers == t.outbound.callers
            && u.outbound.holder.None?
            && u == t.(outbound := u.outbound)
  {
    hide Decoded;
    var es := ReadSteps(pid);
    var t1 := Next(t, es[0]);
    var t2 := Next(t1, es[1]);
    var t3 := Next(t2, es[2]);
    var t4 := Next(t3, es[3]);
    var t5 := Next(t4, es[4]);
    assert t5.outbound.callers == t.outbound.callers;
    Five(t, es, t1, t2, t3, t4, t5);
  }

  lemma Five(t: Tunnel, es: seq<Event>, t1: Tunnel, t2: Tunnel, t3: Tunnel, t4: Tunnel, t5: Tunnel)
    requires |es| == 5 && Enabled(t, es[0]) && t1 == Next(t, es[0])
    requires Enabled(t1, es[1]) && t2 == Next(t1, es[1]) && Enabled(t2, es[2]) && t3 == Next(t2, es[2])
    requires Enabled(t3, es[3]) && t4 == Next(t3, es[3]) && Enabled(t4, es[4]) && t5 == Next(t4, es[4])
    ensures IsRun(t, es) && After(t, es) == t5
  {
    hide Enabled, Next;
    assert es[4..] == [es[4]] + [] && es[3..] == [es[3]] + es[4..] && es[2..] == [es[2]] + es[3..];
    assert es[1..] == [es[1]] + es[2..] && es == [es[0]] + es[1..];
    None(t5);
    First(t4, es[4], []);
    First(t3, es[3], es[4..]);
    First(t2, es[2], es[3..]);
    First(t1, es[1], es[2..]);
    First(t, es[0], es[1..]);
  }

  /** A new writer of a free queue has its data appended as one chunk. */
  lemma WriteIsServed(t: Tunnel, pid: nat, data: Chunk)
    requires pid != WORKER && pid !in t.inbound.callers && t.inbound.holder.None? && data != []
    ensures IsRun(t, WriteSteps(pid, data))
    ensures var u := After(t, WriteSteps(pid, data));
            && u.inbound.log == t.inbound.log + [data] && u.inbound.callers == t.inbound.callers
            && u.inbound.holder.None? && u.inbound.drained == t.inbound.drained
            && u == t.(inbound := u.inbound)
  {
    hide Line;
    var es := WriteSteps(pid, data);
    var t1 := Next(t, es[0]);
    var t2 := Next(t1, es[1]);
    var t3 := Next(t2, es[2]);
    var t4 := Next(t3, es[3]);
    assert t4.inbound.callers == t.inbound.callers;
    hide Enabled, Next;
    assert es[3..] == [es[3]] + [] && es[2..] == [es[2]] + es[3..];
    assert es[1..] == [es[1]] + es[2..] && es == [es[0]] + es[1..];
    None(t4);
    First(t3, es[3], []);
    First(t2, es[2], es[3..]);
    First(t1, es[1], es[2..]);
    First(t, es[0], es[1..]);
  }

  /**
    End to end: from every state of every run that has not ended and is not to be closed, bytes the socket gives next
    are in the answer of a read request, behind whatever came before them.
   */
  lemma SocketToReader(t: Tunnel, data: Chunk, pid: nat) returns (es: seq<Event>)
    requires Balanced(t) && (t.phase == Polling || (t.phase != Stopped && !t.closing))
    requires 0 < |data| <= 16384 && pid != WORKER && pid !in t.outbound.callers
    ensures IsRun(t, es)
    ensures var u := After(t, es);
            Flatten(u.outbound.drained) == t.received + data && u.received == t.received + data
  {
    hide Balanced, Enabled, Next, Flatten, Decoded;
    es := [];
    None(t);
    if t.phase != Polling {
      es := WorkerSendsAndPolls(t);
      NobodyNew(t, es, pid);
    }
    var v := After(t, es);
    var steps := WorkerForwards(v, data);
    var forward := [SocketGives(data)] + steps;
    NobodyNew(v, forward, pid);
    ReadIsServed(After(v, forward), pid);
    RunKeeps(After(v, forward), ReadSteps(pid));
    Joined(v, forward, ReadSteps(pid));
    var rest := forward + ReadSteps(pid);
    Joined(t, es, rest);
    es := es + rest;
    AllRead(After(t, es));
  }

  /**
    End to end the other way: from every such state the bytes of a new write request reach the socket, right behind
    what was written before them. That is everything written so far when nobody holds the inbound lock; otherwise a
    writer that holds it may come first.
   */
  lemma WriterToSocket(t: Tunnel, data: Chunk, pid: nat) returns (es: seq<Event>, before: seq<Chunk>)
    requires Balanced(t) && t.phase != Stopped && !t.closing
    requires data != [] && pid != WORKER && pid !in t.inbound.callers
    ensures IsRun(t, es) && Flatten(before) + data <= After(t, es).sent
    ensures t.inbound.log <= before && (t.inbound.holder.None? ==> before == t.inbound.log)
  {
    hide Balanced, Enabled, Next, Flatten, Decoded, Forwarded;
    es := [];
    None(t);
    if t.inbound.holder.Some? {
      es := WorkerSendsAndPolls(t);
      NobodyWrites(t, es, pid);
    }
    var v := After(t, es);
    before := v.inbound.log;
    var rest := WritesThrough(v, data, pid);
    Joined(t, es, rest);
    es := es + rest;
  }

  lemma WritesThrough(t: Tunnel, data: Chunk, pid: nat) returns (es: seq<Event>)
    requires Balanced(t) && t.phase != Stopped && !t.closing && t.inbound.holder.None?
    requires data != [] && pid != WORKER && pid !in t.inbound.callers
    ensures IsRun(t, es) && Flatten(t.inbound.log) + data <= After(t, es).sent
  {
    hide Balanced, Enabled, Next, Flatten, Decoded, Forwarded;
    var write := WriteSteps(pid, data);
    WriteIsServed(t, pid, data);
    RunKeeps(t, write);
    var v := After(t, write);
    var send := WorkerSendsAndPolls(v);
    Joined(t, write, send);
    es := write + send;
    var log := After(t, es).inbound.log;
    assert log == v.inbound.log + log[|v.inbound.log|..];
    FlattenJoins(v.inbound.log, log[|v.inbound.log|..]);
    FlattenOne(t.inbound.log, data);
  }

  /** A new tunnel serves its first write. */
  lemma FirstWriteArrives(data: Chunk, pid: nat) returns (es: seq<Event>)
    requires data != [] && pid != WORKER
    ensures IsRun(Init(), es) && data <= After(Init(), es).sent
  {
    InitBalanced();
    var before;
    es, before := WriterToSocket(Init(), data, pid);
    assert Flatten([]) + data == data;
  }

  // ---------------------------------------------------------------- the size of a chunk

  /** What a caller is about to append. */
  function Carried(c: Caller): Chunk {
    match c
    case Appending(data) => data
    case LockedToAppend(data) => data
    case _ => []
  }

  predicate Small(t: Tunnel) {
    && (forall i :: 0 <= i < |t.outbound.log| ==> |t.outbound.log[i]| <= 16384)
    && (forall pid :: pid in t.outbound.callers ==> |Carried(t.outbound.callers[pid])| <= 16384)
  }

  lemma SmallStep(t: Tunnel, e: Event)
    requires Small(t) && Enabled(t, e)
    ensures Small(Next(t, e))
  {
    hide Decoded, Line;
  }

  /** No line of the outbound file ever stands for more than 16384 bytes, in every run. */
  lemma {:induction false} ChunksAreSmall(t: Tunnel, es: seq<Event>)
    requires Small(t) && IsRun(t, es)
    ensures Small(After(t, es))
    decreases |es|
  {
    hide Small, Enabled, Next;
    if es != [] {
      SmallStep(t, es[0]);
      ChunksAreSmall(Next(t, es[0]), es[1..]);
    }
  }

  lemma AllRead(t: Tunnel)
    requires Balanced(t) && t.phase == Top && t.outbound.text == "" && t.outbound.holder.None?
    ensures Flatten(t.outbound.drained) == t.received
  {
    hide Flatten, Decoded;
    NothingLost(t.outbound);
    NothingToDecode();
    assert Flatten(t.outbound.drained) + [] + [] == Flatten(t.outbound.drained);
    assert Flatten(t.outbound.log) + [] == Flatten(t.outbound.log);
  }

  /**
    Once a client has asked to close and the worker is back at the top of its loop, no byte moves to or from the
    socket any more, whatever happens; the worker can only stop.
   */
  lemma {:induction false} ClosedMeansDone(t: Tunnel, es: seq<Event>)
    requires t.closing && t.phase in {Top, Stopped} && Balanced(t) && IsRun(t, es)
    ensures Enabled(t, Stop) <==> t.phase == Top
    ensures var u := After(t, es);
            && u.closing && u.phase in {Top, Stopped} && u.sent == t.sent && u.received == t.received
            && u.inbound.drained == t.inbound.drained && u.outbound.log == t.outbound.log
    decreases |es|
  {
    hide Balanced, Enabled, Next;
    if es != [] {
      ClosedStep(t, es[0]);
      StepKeeps(t, es[0]);
      ClosedMeansDone(Next(t, es[0]), es[1..]);
    }
    StopIff(t);
  }

  lemma StopIff(t: Tunnel)
    requires t.phase in {Top, Stopped}
    ensures Enabled(t, Stop) <==> t.phase == Top
  {
  }

  lemma ClosedStep(t: Tunnel, e: Event)
    requires t.closing && t.phase in {Top, Stopped} && Balanced(t) && Enabled(t, e)
    ensures var u := Next(t, e);
            && u.closing && u.phase in {Top, Stopped} && u.sent == t.sent && u.received == t.received
            && u.inbound.drained == t.inbound.drained && u.outbound.log == t.outbound.log
  {
    hide Flatten, Decoded, Line, Conserved;
  }

  /** Finishing steps bring nobody new to a queue. */
  lemma StaysOut(t: Tunnel, e: Event, pid: nat)
    requires Enabled(t, e) && pid != WORKER && pid !in t.outbound.callers && (Finishing(e) || e.SocketGives?)
    ensures pid !in Next(t, e).outbound.callers
  {
    hide Flatten, Decoded, Line;
  }

  lemma {:induction false} NobodyNew(t: Tunnel, es: seq<Event>, pid: nat)
    requires IsRun(t, es) && pid != WORKER && pid !in t.outbound.callers
    requires forall i :: 0 <= i < |es| ==> Finishing(es[i]) || es[i].SocketGives?
    ensures pid !in After(t, es).outbound.callers
    decreases |es|
  {
    hide Enabled, Next, Finishing;
    if es != [] {
      StaysOut(t, es[0], pid);
      NobodyNew(Next(t, es[0]), es[1..], pid);
    }
  }

  lemma {:induction false} NobodyWrites(t: Tunnel, es: seq<Event>, pid: nat)
    requires IsRun(t, es) && pid != WORKER && pid !in t.inbound.callers && AllFinishing(es)
    ensures pid !in After(t, es).inbound.callers
    decreases |es|
  {
    hide Enabled, Next, Finishing;
    if es != [] {
      StaysOutInbound(t, es[0], pid);
      NobodyWrites(Next(t, es[0]), es[1..], pid);
    }
  }

  lemma StaysOutInbound(t: Tunnel, e: Event, pid: nat)
    requires Enabled(t, e) && pid != WORKER && pid !in t.inbound.callers && Finishing(e)
    ensures pid !in Next(t, e).inbound.callers
  {
    hide Flatten, Decoded, Line;
  }
}
