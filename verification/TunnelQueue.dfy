/**
  A queue file of the tunnel: one base64 line per chunk, appended and emptied under a lock. First the
  file as one caller sees it, then every interleaving of callers that append and callers that drain.
 */
module TunnelQueue {
  import opened Common
  import opened Base64

  type Chunk = seq<Byte>

  // ---------------------------------------------------------------- text of a queue file

  function Line(data: Chunk): string { Encode(data) + "\n" }

  function QueueText(chunks: seq<Chunk>): string {
    if chunks == [] then "" else Line(chunks[0]) + QueueText(chunks[1..])
  }

  function Flatten(chunks: seq<Chunk>): Chunk {
    if chunks == [] then [] else chunks[0] + Flatten(chunks[1..])
  }

  /** The lines between line feeds. */
  function Explode(text: string): (lines: seq<string>)
    ensures lines != []
  {
    if text == "" then [""]
    else
      var rest := Explode(text[1..]);
      if text[0] == '\n' then [""] + rest else [[text[0]] + rest[0]] + rest[1..]
  }

  /** Empty lines and lines that do not decode contribute nothing. */
  function LineData(line: string): Chunk {
    if line == "" then [] else match Decode(line) case None => [] case Some(chunk) => chunk
  }

  function LinesData(lines: seq<string>): Chunk {
    if lines == [] then [] else LineData(lines[0]) + LinesData(lines[1..])
  }

  function Decoded(text: string): Chunk { LinesData(Explode(text)) }

  lemma {:induction false} FlattenJoins(a: seq<Chunk>, b: seq<Chunk>)
    ensures Flatten(a + b) == Flatten(a) + Flatten(b)
  {
    if a == [] {
      assert a + b == b;
    } else {
      assert (a + b)[1..] == a[1..] + b;
      FlattenJoins(a[1..], b);
    }
  }

  lemma {:induction false} QueueTextGrows(chunks: seq<Chunk>, data: Chunk)
    ensures QueueText(chunks + [data]) == QueueText(chunks) + Line(data)
  {
    if chunks == [] {
      assert chunks + [data] == [data];
    } else {
      assert (chunks + [data])[1..] == chunks[1..] + [data];
      QueueTextGrows(chunks[1..], data);
    }
  }

  lemma {:induction false} ExplodeFirst(line: string, rest: string)
    requires '\n' !in line
    ensures Explode(line + "\n" + rest) == [line] + Explode(rest)
  {
    var text := line + "\n" + rest;
    if line == "" {
      assert text[1..] == rest;
    } else {
      assert text[1..] == line[1..] + "\n" + rest;
      ExplodeFirst(line[1..], rest);
      assert line == [line[0]] + line[1..];
    }
  }

  /** Whatever chunks were appended, decoding the file gives their bytes in order. */
  lemma {:induction false} DecodedBack(chunks: seq<Chunk>)
    ensures Decoded(QueueText(chunks)) == Flatten(chunks)
  {
    hide Encode, Decode;
    if chunks == [] {
      assert LinesData([""]) == [];
    } else {
      var line, rest := Encode(chunks[0]), QueueText(chunks[1..]);
      RoundTrip(chunks[0]);
      DecodedBack(chunks[1..]);
      ExplodeFirst(line, rest);
      EmptyEncoding(chunks[0]);
      hide Explode;
      assert ([line] + Explode(rest))[1..] == Explode(rest);
    }
  }

  lemma {:induction false} ExplodeJoins(a: string, b: string)
    ensures Explode(a + "\n" + b) == Explode(a) + Explode(b)
    decreases |a|
  {
    var text := a + "\n" + b;
    if a == "" {
      assert text[1..] == b;
    } else {
      assert text[1..] == a[1..] + "\n" + b;
      ExplodeJoins(a[1..], b);
    }
  }

  lemma {:induction false} LinesJoin(a: seq<string>, b: seq<string>)
    ensures LinesData(a + b) == LinesData(a) + LinesData(b)
  {
    hide LineData;
    if a == [] {
      assert a + b == b;
    } else {
      assert (a + b)[1..] == a[1..] + b;
      LinesJoin(a[1..], b);
    }
  }

  lemma DecodedJoins(a: string, b: string)
    ensures Decoded(a + "\n" + b) == Decoded(a) + Decoded(b)
  {
    hide Explode, LinesData;
    ExplodeJoins(a, b);
    LinesJoin(Explode(a), Explode(b));
  }

  lemma OneLine(line: string)
    requires '\n' !in line
    ensures Decoded(line) == match Decode(line) case None => [] case Some(chunk) => chunk
  {
    ExplodeOne(line);
    assert LinesData([line]) == LineData(line) + LinesData([]);
    assert Decode("") == Some([]);
  }

  lemma {:induction false} ExplodeOne(line: string)
    requires '\n' !in line
    ensures Explode(line) == [line]
  {
    if line != "" {
      ExplodeOne(line[1..]);
      assert line == [line[0]] + line[1..];
    }
  }

  /** Whatever stands around it, a line adds what it decodes to, and one that does not decode is as if not there. */
  lemma LineAdds(a: string, line: string, b: string)
    requires '\n' !in line
    ensures Decode(line).None? ==> Decoded(a + "\n" + line + "\n" + b) == Decoded(a + "\n" + b)
    ensures Decode(line).Some? ==>
              Decoded(a + "\n" + line + "\n" + b) == Decoded(a) + Decode(line).value + Decoded(b)
  {
    hide Decoded, Decode;
    DecodedJoins(a + "\n" + line, b);
    DecodedJoins(a, line);
    DecodedJoins(a, b);
    OneLine(line);
  }

  lemma EmptyEncoding(data: Chunk)
    ensures Encode(data) == "" ==> data == []
  {
    hide Text;
  }

  lemma LinesStep(lines: seq<string>, i: nat)
    requires i < |lines|
    ensures LinesData(lines[i..]) == LineData(lines[i]) + LinesData(lines[i + 1..])
  {
    hide LineData;
    assert lines[i..][1..] == lines[i + 1..];
  }

  /** One line: empty and undecodable ones are skipped. */
  method AppendLine(decoded: Chunk, line: string) returns (r: Chunk)
    ensures r == decoded + LineData(line)
  {
    hide Decode;
    r := decoded;
    if line != "" {
      var chunk := Decode(line);
      if chunk.Some? {
        r := r + chunk.value;
      }
    }
  }

  lemma Associative(a: Chunk, b: Chunk, c: Chunk)
    ensures a + b + c == a + (b + c)
  {
  }

  method DecodeLines(encoded: string) returns (decoded: Chunk)
    ensures decoded == Decoded(encoded)
  {
    hide Explode, LineData, LinesData;
    var lines := Explode(encoded);
    assert lines[0..] == lines && [] + LinesData(lines) == LinesData(lines);
    decoded := [];
    for i := 0 to |lines|
      invariant decoded + LinesData(lines[i..]) == LinesData(lines)
    {
      LinesStep(lines, i);
      Associative(decoded, LineData(lines[i]), LinesData(lines[i + 1..]));
      decoded := AppendLine(decoded, lines[i]);
    }
    assert lines[|lines|..] == [];
    NoLines();
  }

  lemma NoLines()
    ensures LinesData([]) == []
  {
  }

  /** `append_chunk` and `drain_chunks` as one caller sees them. */
  class QueueFile {
    var text: string
    ghost var chunks: seq<Chunk>

    ghost predicate Valid()
      reads this
    {
      text == QueueText(chunks)
    }

    constructor ()
      ensures Valid() && chunks == []
    {
      text, chunks := "", [];
    }

    method AppendChunk(data: Chunk)
      requires Valid()
      modifies this
      ensures Valid()
      ensures chunks == old(chunks) + if data == [] then [] else [data]
    {
      if data == [] {
        return;
      }
      QueueTextGrows(chunks, data);
      text := text + (Encode(data) + "\n");
      chunks := chunks + [data];
    }

    method DrainChunks() returns (decoded: Chunk)
      requires Valid()
      modifies this
      ensures Valid() && chunks == []
      ensures decoded == Flatten(old(chunks))
    {
      var encoded := text;
      text, chunks := "", [];
      decoded := DecodeLines(encoded);
      DecodedBack(old(chunks));
    }
  }

  // ---------------------------------------------------------------- interleavings

  /** Where a caller of `append_chunk` or `drain_chunks` stands. */
  datatype Caller =
    | Appending(data: Chunk)
    | LockedToAppend(data: Chunk)
    | Appended
    | Draining
    | LockedToDrain
    | HasRead(encoded: string)
    | HasEmptied(encoded: string)

  datatype Queue = Queue(
    text: string,
    holder: Option<nat>,             // who holds the lock
    callers: map<nat, Caller>,
    log: seq<Chunk>,                 // history: chunks appended, in lock order
    emptied: nat,                    // history: how many of them were in the file when it was last emptied
    drained: seq<Chunk>)             // history: what finished drains returned, in lock order

  datatype Move = Begin(caller: Caller) | Lock | Write | Read | Empty | Unlock

  predicate Holds(c: Caller) { !c.Appending? && !c.Draining? }

  predicate CanMove(q: Queue, pid: nat, m: Move) {
    match m
    case Begin(c) => pid !in q.callers && (c.Draining? || (c.Appending? && c.data != []))
    case Lock => pid in q.callers && !Holds(q.callers[pid]) && q.holder.None?
    case Write => pid in q.callers && q.callers[pid].LockedToAppend?
    case Read => pid in q.callers && q.callers[pid].LockedToDrain?
    case Empty => pid in q.callers && q.callers[pid].HasRead?
    case Unlock => pid in q.callers && (q.callers[pid].Appended? || q.callers[pid].HasEmptied?)
  }

  function Moved(q: Queue, pid: nat, m: Move): Queue
    requires CanMove(q, pid, m)
  {
    match m
    case Begin(c) => q.(callers := q.callers[pid := c])
    case Lock =>
      var c := q.callers[pid];
      q.(holder := Some(pid), callers := q.callers[pid := if c.Appending? then LockedToAppend(c.data)
          else LockedToDrain])
    case Write =>
      var data := q.callers[pid].data;
      q.(text := q.text + Line(data), callers := q.callers[pid := Appended], log := q.log + [data])
    case Read => q.(callers := q.callers[pid := HasRead(q.text)])
    case Empty => q.(text := "", callers := q.callers[pid := HasEmptied(q.callers[pid].encoded)], emptied := |q.log|)
    case Unlock =>
      var c := q.callers[pid];
      q.(holder := None, callers := q.callers - {pid},
         drained := if c.HasEmptied? then q.drained + [Decoded(c.encoded)] else q.drained)
  }

  /** What a drain has taken out of the file and not yet returned. */
  function InHand(q: Queue): Chunk {
    if q.holder.Some? && q.holder.value in q.callers && q.callers[q.holder.value].HasEmptied?
    then Decoded(q.callers[q.holder.value].encoded)
    else []
  }

  /** Only the holder of the lock stands inside a critical section. */
  predicate Exclusive(q: Queue) {
    && (q.holder.Some? ==> q.holder.value in q.callers)
    && (forall p :: p in q.callers ==> (Holds(q.callers[p]) <==> q.holder == Some(p)))
  }

  predicate Conserved(q: Queue) {
    && q.emptied <= |q.log|
    && q.text == QueueText(q.log[q.emptied..])
    && Flatten(q.drained) + InHand(q) == Flatten(q.log[..q.emptied])
  }

  predicate Sound(q: Queue) {
    && Exclusive(q)
    && Conserved(q)
    && (forall p :: p in q.callers && q.callers[p].HasRead? ==> q.callers[p].encoded == q.text)
    && (forall p :: p in q.callers && q.callers[p].HasEmptied? ==> q.text == "")
    && (forall p :: p in q.callers && (q.callers[p].Appending? || q.callers[p].LockedToAppend?) ==>
       q.callers[p].data != [])
  }

  lemma WriteKeeps(q: Queue, pid: nat)
    requires Sound(q) && CanMove(q, pid, Write)
    ensures Sound(Moved(q, pid, Write))
  {
    hide Flatten, QueueText, Line, Decoded;
    var data := q.callers[pid].data;
    var t := Moved(q, pid, Write);
    QueueTextGrows(q.log[q.emptied..], data);
    assert t.log[t.emptied..] == q.log[q.emptied..] + [data];
    assert t.log[..t.emptied] == q.log[..q.emptied];
  }

  lemma NoText()
    ensures QueueText([]) == ""
  {
  }

  /**
    Bytes returned by drains, bytes in the hand of one drain and bytes in the file are the bytes appended, in lock
    order.
   */
  lemma NothingLost(q: Queue)
    requires Sound(q)
    ensures Flatten(q.drained) + InHand(q) + Decoded(q.text) == Flatten(q.log)
  {
    hide Decoded, QueueText, Flatten, InHand;
    DecodedBack(q.log[q.emptied..]);
    FlattenJoins(q.log[..q.emptied], q.log[q.emptied..]);
    assert q.log == q.log[..q.emptied] + q.log[q.emptied..];
  }

  lemma EmptyConserves(q: Queue, pid: nat)
    requires Sound(q) && CanMove(q, pid, Empty)
    ensures Conserved(Moved(q, pid, Empty))
  {
    hide Decoded, Line, QueueText, Flatten;
    var t := Moved(q, pid, Empty);
    assert q.holder == Some(pid) && InHand(q) == [] && InHand(t) == Decoded(q.text);
    NothingLost(q);
    assert Flatten(q.drained) + [] + Decoded(q.text) == Flatten(q.drained) + Decoded(q.text);
    assert t.log[t.emptied..] == [] && t.log[..t.emptied] == q.log;
    NoText();
  }

  lemma EmptyKeeps(q: Queue, pid: nat)
    requires Sound(q) && CanMove(q, pid, Empty)
    ensures Sound(Moved(q, pid, Empty))
  {
    hide Decoded, Line, QueueText, Flatten, InHand, Conserved;
    EmptyConserves(q, pid);
  }

  lemma UnlockKeeps(q: Queue, pid: nat)
    requires Sound(q) && CanMove(q, pid, Unlock)
    ensures Sound(Moved(q, pid, Unlock))
  {
    hide Decoded, Line, QueueText;
    if q.callers[pid].HasEmptied? {
      FlattenJoins(q.drained, [Decoded(q.callers[pid].encoded)]);
      assert Flatten([InHand(q)]) == InHand(q);
    }
  }

  /** Every step of every caller keeps the queue sound. */
  lemma MoveKeeps(q: Queue, pid: nat, m: Move)
    requires Sound(q) && CanMove(q, pid, m)
    ensures Sound(Moved(q, pid, m))
  {
    hide Decoded, Line, QueueText, Flatten;
    match m
    case Write => WriteKeeps(q, pid);
    case Empty => EmptyKeeps(q, pid);
    case Unlock => UnlockKeeps(q, pid);
    case _ =>
  }
}
