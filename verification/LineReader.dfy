/** The PARENA runtime's buffered line reader: 32 per-descriptor buffers of 4096
    bytes in one table, claimed on first use, refilled when they run dry, released
    on close, with an unbuffered path when the table is full.

    The value every operation is specified by is `Streams`: for each open
    descriptor, the bytes it still owes its reader. */
module LineReader {
  import opened Common
  import opened Lines
  import opened Kernel

  const IO_BUF_CAP: nat := 4096
  const IO_MAX_HANDLES: nat := 32

  datatype IoBufStateRaw = IoBufState(used: bool, fd: int, buf: Bytes, pos: nat, len: nat)
  type IoBufState = b: IoBufStateRaw | b.pos <= b.len <= |b.buf| == IO_BUF_CAP
    witness IoBufState(false, 0, seq(4096, _ => 0), 0, 0)

  type Slots = seq<IoBufState>
  type Files = map<int, OpenFile>

  /* ---- The table as a value ---- */

  predicate Owns(b: IoBufState, fd: int) { b.used && b.fd == fd }

  function Unread(b: IoBufState): Bytes { b.buf[b.pos..b.len] }

  /** The table never holds two buffers for one descriptor. */
  ghost predicate Distinct(slots: Slots) {
    forall i, j :: 0 <= i < j < |slots| && slots[i].used && slots[j].used ==> slots[i].fd != slots[j].fd
  }

  /** A buffer of a descriptor that is not open holds nothing, so the next file
      that gets this number cannot be served stale bytes. */
  ghost predicate NothingStale(slots: Slots, files: Files) {
    forall i :: 0 <= i < |slots| && slots[i].used && slots[i].fd !in files ==> slots[i].pos == slots[i].len
  }

  ghost predicate HasSlot(slots: Slots, fd: int) {
    exists i :: 0 <= i < |slots| && Owns(slots[i], fd)
  }

  ghost function Buffered(slots: Slots, fd: int): (bytes: Bytes) {
    if HasSlot(slots, fd) then
      var i :| 0 <= i < |slots| && Owns(slots[i], fd);
      Unread(slots[i])
    else []
  }

  /** What `fd` still owes its reader: the unread part of its buffer, then the file
      from the OS offset. */
  ghost function StreamOf(slots: Slots, files: Files, fd: int): Bytes
    requires fd in files
  {
    Buffered(slots, fd) + Rest(files[fd])
  }

  ghost function StreamsOf(slots: Slots, files: Files): (m: map<int, Bytes>) {
    map fd | fd in files :: StreamOf(slots, files, fd)
  }

  lemma BufferedAt(slots: Slots, i: nat)
    requires Distinct(slots) && i < |slots| && slots[i].used
    ensures Buffered(slots, slots[i].fd) == Unread(slots[i])
  {
  }

  /** Rewriting one slot is invisible to every descriptor that it neither served
      before nor serves after. */
  lemma OtherSlotsUntouched(slots: Slots, i: nat, b: IoBufState, fd: int)
    requires i < |slots| && Distinct(slots) && Distinct(slots[i := b])
    requires !Owns(slots[i], fd) && !Owns(b, fd)
    ensures HasSlot(slots[i := b], fd) == HasSlot(slots, fd)
    ensures Buffered(slots[i := b], fd) == Buffered(slots, fd)
  {
    var slots' := slots[i := b];
    if j :| 0 <= j < |slots| && Owns(slots[j], fd) {
      assert slots'[j] == slots[j];
      BufferedAt(slots, j);
      BufferedAt(slots', j);
    } else {
      forall j | 0 <= j < |slots'|
        ensures !Owns(slots'[j], fd)
      {
        assert j == i || slots'[j] == slots[j];
      }
    }
  }

  /** What is buffered for each descriptor. */
  type Buffers = int -> Bytes

  ghost function BuffersOf(slots: Slots): Buffers { (fd: int) => Buffered(slots, fd) }

  /** What is buffered for every descriptor but `fd` is as it was. */
  ghost predicate OthersKeep(was: Buffers, now: Buffers, fd: int) {
    forall g :: g != fd ==> now(g) == was(g)
  }

  lemma OneSlotChanged(slots: Slots, i: nat, b: IoBufState, fd: int)
    requires i < |slots| && Distinct(slots) && Distinct(slots[i := b])
    requires (slots[i].used ==> slots[i].fd == fd) && (b.used ==> b.fd == fd)
    ensures OthersKeep(BuffersOf(slots), BuffersOf(slots[i := b]), fd)
    ensures forall g :: g != fd ==> Buffered(slots[i := b], g) == Buffered(slots, g)
  {
    forall g | g != fd
      ensures Buffered(slots[i := b], g) == Buffered(slots, g)
    {
      OtherSlotsUntouched(slots, i, b, g);
    }
  }

  lemma BufferedFits(slots: Slots, fd: int)
    ensures |Buffered(slots, fd)| <= IO_BUF_CAP
  {
  }

  lemma UnbufferedStream(slots: Slots, files: Files, fd: int)
    requires fd in files && !HasSlot(slots, fd)
    ensures StreamOf(slots, files, fd) == Rest(files[fd])
  {
  }

  lemma NothingBuffered(slots: Slots, files: Files, fd: int)
    requires Distinct(slots) && NothingStale(slots, files) && fd !in files
    ensures Buffered(slots, fd) == []
  {
    if i :| 0 <= i < |slots| && Owns(slots[i], fd) {
      BufferedAt(slots, i);
    }
  }

  /** `slots` is `was` after releasing the buffer of `fd`, seen through the streams. */
  ghost predicate Released(was: Slots, slots: Slots, files: Files, fd: int) {
    && !HasSlot(slots, fd)
    && forall g :: g in files && g != fd ==> StreamOf(slots, files, g) == StreamOf(was, files, g)
  }

  lemma ReleasedClosed(was: Slots, slots: Slots, files: Files, fd: int)
    requires Released(was, slots, files, fd)
    ensures StreamsOf(slots, files - {fd}) == StreamsOf(was, files) - {fd}
  {
    assert forall g :: g in files && g != fd ==> StreamOf(slots, files - {fd}, g) == StreamOf(slots, files, g);
  }

  /** What a descriptor that stays open has lost is what was buffered. */
  lemma ReleasedOpen(was: Slots, slots: Slots, files: Files, fd: int)
    requires Released(was, slots, files, fd) && fd in files
    ensures StreamsOf(slots, files) == StreamsOf(was, files)[fd := Rest(files[fd])]
    ensures StreamsOf(was, files)[fd] == Buffered(was, fd) + StreamsOf(slots, files)[fd]
    ensures StreamsOf(slots, files) == StreamsOf(was, files) <==> Buffered(was, fd) == []
  {
    var m, m', rest := StreamsOf(was, files), StreamsOf(slots, files), Rest(files[fd]);
    UnbufferedStream(slots, files, fd);
    assert m' == m[fd := rest] by {
      assert forall g :: g in m' ==> m'[g] == m[fd := rest][g];
    }
    ReleasedStream(m, fd, Buffered(was, fd), rest);
  }

  lemma ReleasedStream(m: map<int, Bytes>, fd: int, lost: Bytes, rest: Bytes)
    requires fd in m && m[fd] == lost + rest
    ensures m[fd := rest] == m <==> lost == []
  {
    if lost == [] {
      assert lost + rest == rest;
      assert m[fd := rest] == m;
    } else {
      assert m[fd := rest][fd] != m[fd];
    }
  }

  /** One slot and one file change together, and only the slot's own stream changes. */
  lemma OnlyThisStream(slots: Slots, files: Files, i: nat, b: IoBufState, f: OpenFile)
    requires i < |slots| && Distinct(slots) && slots[i].used
    requires b.used && b.fd == slots[i].fd && b.fd in files
    ensures Distinct(slots[i := b])
    ensures StreamsOf(slots[i := b], files[b.fd := f])
         == StreamsOf(slots, files)[b.fd := Unread(b) + Rest(f)]
  {
    var slots', files' := slots[i := b], files[b.fd := f];
    BufferedAt(slots', i);
    forall g | g in files && g != b.fd
      ensures StreamOf(slots', files', g) == StreamOf(slots, files, g)
    {
      OtherSlotsUntouched(slots, i, b, g);
    }
  }

  /** Claiming a free slot for a descriptor that has none changes no stream. */
  lemma ClaimedSlot(slots: Slots, files: Files, i: nat, b: IoBufState)
    requires i < |slots| && Distinct(slots) && NothingStale(slots, files)
    requires !slots[i].used && b.used && b.pos == b.len && !HasSlot(slots, b.fd)
    ensures Distinct(slots[i := b]) && NothingStale(slots[i := b], files)
    ensures StreamsOf(slots[i := b], files) == StreamsOf(slots, files)
  {
    var slots' := slots[i := b];
    forall j | 0 <= j < |slots| && slots[j].used
      ensures slots[j].fd != b.fd
    {
      assert !Owns(slots[j], b.fd);
    }
    BufferedAt(slots', i);
    forall g | g in files
      ensures StreamOf(slots', files, g) == StreamOf(slots, files, g)
    {
      if g != b.fd {
        OtherSlotsUntouched(slots, i, b, g);
      }
    }
  }

  /* ---- The specification: streams of bytes, read one byte at a time ---- */

  datatype Op =
    | Open(fd: int, data: Bytes)
    | AtEof(fd: int)
    | ReadLine(fd: int)
    | ReadAll(fd: int)
    | Close(fd: int)

  datatype Outcome =
    | Opened | InUse
    | Eof(atEof: bool)
    | Line(line: Bytes)
    | All(text: Bytes)
    | Status(code: int)

  type Streams = map<int, Bytes>

  /** One operation of the byte-at-a-time reader. */
  function SimpleStep(m: Streams, op: Op): (r: (Streams, Outcome)) {
    match op
    case Open(fd, data) => if fd in m then (m, InUse) else (m[fd := data], Opened)
    case AtEof(fd) => (m, Eof(fd !in m || m[fd] == []))
    case ReadLine(fd) =>
      if fd !in m then (m, Line([]))
      else
        var (line, rest) := Lines.ReadLine(m[fd]);
        (m[fd := rest], Line(line))
    case ReadAll(fd) => if fd in m then (m[fd := []], All(m[fd])) else (m, All([]))
    case Close(fd) => (m - {fd}, Status(if fd in m then 0 else -1))
  }

  function SimpleRun(m: Streams, ops: seq<Op>): (r: (Streams, seq<Outcome>))
    ensures |r.1| == |ops|
  {
    if ops == [] then (m, [])
    else
      var (m1, outs) := SimpleRun(m, ops[..|ops| - 1]);
      var (m2, out) := SimpleStep(m1, ops[|ops| - 1]);
      (m2, outs + [out])
  }

  /** Exactly `bytes` went from the front of one stream; no other stream changed. */
  ghost predicate Consumed(before: Streams, now: Streams, fd: int, bytes: Bytes) {
    if fd in before then
      fd in now && now == before[fd := now[fd]] && before[fd] == bytes + now[fd]
    else
      now == before && bytes == []
  }

  lemma UpdatedTwice(m: Streams, fd: int, x: Bytes, y: Bytes)
    ensures m[fd := x][fd := y] == m[fd := y]
  {
  }

  lemma ConsumedTwice(a: Streams, b: Streams, c: Streams, fd: int, x: Bytes, y: Bytes)
    requires Consumed(a, b, fd, x) && Consumed(b, c, fd, y)
    ensures Consumed(a, c, fd, x + y)
  {
  }

  lemma ConsumedShrinks(before: Streams, now: Streams, fd: int, c: byte)
    requires Consumed(before, now, fd, [c])
    ensures fd in before && fd in now && |now[fd]| < |before[fd]|
  {
  }

  lemma {:induction false} ReadLineOverPrefix(line: Bytes, rest: Bytes, acc: Bytes)
    requires NewlineFree(line)
    ensures Lines.ReadLine(line + rest, acc) == Lines.ReadLine(rest, acc + line)
  {
    if line == [] {
      assert line + rest == rest && acc + line == acc;
    } else {
      assert (line + rest)[0] == line[0] && (line + rest)[1..] == line[1..] + rest;
      ReadLineOverPrefix(line[1..], rest, acc + [line[0]]);
      assert (acc + [line[0]]) + line[1..] == acc + line;
    }
  }

  /** `text` was taken from behind the first `held` bytes of one stream. */
  ghost predicate TakenBehind(before: Streams, now: Streams, fd: int, held: Bytes, text: Bytes) {
    if fd in before then
      && fd in now && now == before[fd := now[fd]] && held <= before[fd] && held <= now[fd]
      && before[fd][|held|..] == text + now[fd][|held|..]
    else
      now == before && text == []
  }

  predicate IsSuffix(s: Bytes, t: Bytes) {
    |s| <= |t| && t[|t| - |s|..] == s
  }

  /** What an operation may do when reads and closes can fail, where `held` was in the
      buffer of its descriptor: a line read may stop early and an end-of-file test may
      say so too soon, but what a stream loses is what the caller gets. Read-all gets it
      from behind the buffer. Only a failed close that leaves its descriptor open can
      drop bytes, and only from the front of its own stream. */
  ghost predicate CanHappen(m: Streams, op: Op, held: Bytes, m': Streams, out: Outcome) {
    match op
    case AtEof(fd) => m' == m && out.Eof? && (!out.atEof ==> fd in m && m[fd] != [])
    case ReadLine(fd) =>
      && out.Line? && NewlineFree(out.line)
      && (Consumed(m, m', fd, out.line) || Consumed(m, m', fd, out.line + [NEWLINE]))
    case ReadAll(fd) => out.All? && TakenBehind(m, m', fd, held, out.text)
    case Close(fd) =>
      && out.Status?
      && (|| m' == m - {fd}
          || (out.code == -1 && fd in m && fd in m' && m' == m[fd := m'[fd]] && IsSuffix(m'[fd], m[fd])))
    case Open(_, _) => (m', out) == SimpleStep(m, op)
  }

  /** The operation does not read past bytes in the buffer. */
  predicate InOrder(op: Op, held: Bytes) { op.ReadAll? ==> held == [] }

  /** The outcome is that of the byte-at-a-time reader exactly when the operation is in
      order, and then so are the streams. */
  ghost predicate Exact(m: Streams, op: Op, held: Bytes, m': Streams, out: Outcome) {
    && (out == SimpleStep(m, op).1 <==> InOrder(op, held))
    && (InOrder(op, held) ==> m' == SimpleStep(m, op).0)
  }

  /** Of an operation: what was in the buffer of its descriptor before it, and whether a
      read or close failed in it. */
  datatype Note = Note(held: Bytes, failed: bool)

  ghost predicate Step(m: Streams, op: Op, note: Note, m': Streams, out: Outcome) {
    CanHappen(m, op, note.held, m', out) && (!note.failed ==> Exact(m, op, note.held, m', out))
  }

  ghost predicate StepAt(ops: seq<Op>, notes: seq<Note>, outs: seq<Outcome>, trace: seq<Streams>, k: nat)
    requires k < |ops| == |notes| == |outs| && |trace| == |ops| + 1
  {
    Step(trace[k], ops[k], notes[k], trace[k + 1], outs[k])
  }

  /** A run: a note and an outcome of each operation, and the streams before the first and
      after each. */
  ghost predicate Happened(ops: seq<Op>, notes: seq<Note>, outs: seq<Outcome>, trace: seq<Streams>) {
    && |ops| == |notes| == |outs| && |trace| == |ops| + 1
    && forall k :: 0 <= k < |ops| ==> StepAt(ops, notes, outs, trace, k)
  }

  ghost predicate AllInOrder(ops: seq<Op>, notes: seq<Note>)
    requires |ops| == |notes|
  {
    forall k :: 0 <= k < |ops| ==> InOrder(ops[k], notes[k].held)
  }

  ghost predicate NoneFailed(notes: seq<Note>) {
    forall k :: 0 <= k < |notes| ==> !notes[k].failed
  }

  lemma NoneFailedStep(notes: seq<Note>, note: Note)
    ensures NoneFailed(notes + [note]) <==> NoneFailed(notes) && !note.failed
  {
    assert (notes + [note])[|notes|] == note;
    assert forall k :: 0 <= k < |notes| ==> (notes + [note])[k] == notes[k];
  }

  lemma HappenedStep(ops: seq<Op>, notes: seq<Note>, outs: seq<Outcome>, trace: seq<Streams>,
                     op: Op, note: Note, out: Outcome, m: Streams)
    requires Happened(ops, notes, outs, trace) && Step(trace[|ops|], op, note, m, out)
    ensures Happened(ops + [op], notes + [note], outs + [out], trace + [m])
  {
    var ops', notes', outs', trace' := ops + [op], notes + [note], outs + [out], trace + [m];
    forall k | 0 <= k < |ops'|
      ensures StepAt(ops', notes', outs', trace', k)
    {
      if k < |ops| {
        assert StepAt(ops, notes, outs, trace, k);
      }
    }
  }

  /** One more operation: it gives what the byte-at-a-time reader gives if it is in
      order, and if it is not, no later outcome makes up for it. */
  lemma SimpleRunStep(m0: Streams, ops: seq<Op>, notes: seq<Note>, outs: seq<Outcome>, m: Streams,
                      op: Op, note: Note, out: Outcome, m': Streams)
    requires |ops| == |notes| == |outs|
    requires outs == SimpleRun(m0, ops).1 <==> AllInOrder(ops, notes)
    requires AllInOrder(ops, notes) ==> m == SimpleRun(m0, ops).0
    requires Exact(m, op, note.held, m', out)
    ensures outs + [out] == SimpleRun(m0, ops + [op]).1 <==> AllInOrder(ops + [op], notes + [note])
    ensures AllInOrder(ops + [op], notes + [note]) ==> m' == SimpleRun(m0, ops + [op]).0
  {
    var n := |ops|;
    assert (ops + [op])[..n] == ops;
    assert AllInOrder(ops + [op], notes + [note]) <==> AllInOrder(ops, notes) && InOrder(op, note.held) by {
      assert forall k :: 0 <= k < n ==> (ops + [op])[k] == ops[k] && (notes + [note])[k] == notes[k];
      assert (ops + [op])[n] == op && (notes + [note])[n] == note;
    }
    SnocEqual(outs, out, SimpleRun(m0, ops).1, SimpleStep(SimpleRun(m0, ops).0, op).1);
  }

  lemma PrefixSnoc<T>(s: seq<T>, n: nat)
    requires 0 < n <= |s|
    ensures s[..n] == s[..n - 1] + [s[n - 1]]
  {
  }

  /** Where nothing failed, a run gives what the byte-at-a-time reader gives if and only if
      every read-all found its buffer empty. */
  lemma {:induction false} RunIsSimple(ops: seq<Op>, notes: seq<Note>, outs: seq<Outcome>, trace: seq<Streams>,
                                       n: nat)
    requires Happened(ops, notes, outs, trace) && NoneFailed(notes) && n <= |ops|
    ensures outs[..n] == SimpleRun(trace[0], ops[..n]).1 <==> AllInOrder(ops[..n], notes[..n])
    ensures AllInOrder(ops[..n], notes[..n]) ==> trace[n] == SimpleRun(trace[0], ops[..n]).0
    decreases n
  {
    if n != 0 {
      var k := n - 1;
      RunIsSimple(ops, notes, outs, trace, k);
      assert StepAt(ops, notes, outs, trace, k);
      SimpleRunStep(trace[0], ops[..k], notes[..k], outs[..k], trace[k], ops[k], notes[k], outs[k], trace[n]);
      PrefixSnoc(ops, n);
      PrefixSnoc(notes, n);
      PrefixSnoc(outs, n);
    }
  }

  /** Whether there can be bytes in the buffer of a descriptor before the `k`-th operation:
      only if an end-of-file test or a line read of it, or what was there at the start,
      has not been closed since. */
  predicate CanHold(atStart: bool, ops: seq<Op>, fd: int, k: nat)
    requires k <= |ops|
  {
    if k == 0 then atStart
    else if ops[k - 1].fd != fd then CanHold(atStart, ops, fd, k - 1)
    else
      match ops[k - 1]
      case AtEof(_) => true
      case ReadLine(_) => true
      case Close(_) => false
      case _ => CanHold(atStart, ops, fd, k - 1)
  }

  /** What one operation does to the buffers. */
  ghost predicate KeepsBuffers(was: Buffers, op: Op, now: Buffers) {
    && OthersKeep(was, now, op.fd)
    && (op.Open? || op.ReadAll? ==> now(op.fd) == was(op.fd))
    && (op.Close? ==> now(op.fd) == [])
  }

  /** There are bytes in buffers only where there can be. */
  ghost predicate HoldsOnly(start: Buffers, ops: seq<Op>, now: Buffers, k: nat)
    requires k <= |ops|
  {
    forall fd :: now(fd) != [] ==> CanHold(start(fd) != [], ops, fd, k)
  }

  lemma HoldsOnlyStep(start: Buffers, ops: seq<Op>, was: Buffers, now: Buffers, k: nat)
    requires k < |ops| && HoldsOnly(start, ops, was, k) && KeepsBuffers(was, ops[k], now)
    ensures HoldsOnly(start, ops, now, k + 1)
  {
    forall fd | now(fd) != []
      ensures CanHold(start(fd) != [], ops, fd, k + 1)
    {
      if fd != ops[k].fd || ops[k].Open? || ops[k].ReadAll? {
        assert was(fd) != [];
      }
    }
  }

  /** What there is to say of the runtime at an instant. */
  datatype State = State(streams: Streams, buffers: Buffers, failures: nat)

  /** What a note tells of the buffer before the `k`-th operation: no more bytes than a
      buffer has room for, and any only where there can be. */
  ghost predicate TrueNote(start: Buffers, ops: seq<Op>, k: nat, held: Bytes)
    requires k < |ops|
  {
    |held| <= IO_BUF_CAP && (held != [] ==> CanHold(start(ops[k].fd) != [], ops, ops[k].fd, k))
  }

  ghost predicate TrueNotes(start: Buffers, ops: seq<Op>, notes: seq<Note>)
    requires |notes| <= |ops|
  {
    forall k :: 0 <= k < |notes| ==> TrueNote(start, ops, k, notes[k].held)
  }

  ghost predicate Told(m0: Streams, ops: seq<Op>, k: nat, notes: seq<Note>, outs: seq<Outcome>,
                       trace: seq<Streams>, m: Streams)
    requires k <= |ops|
  {
    Happened(ops[..k], notes, outs, trace) && trace[0] == m0 && trace[k] == m
  }

  ghost predicate Watched(start: Buffers, ops: seq<Op>, k: nat, notes: seq<Note>, now: Buffers)
    requires k <= |ops|
  {
    |notes| == k && TrueNotes(start, ops, notes) && HoldsOnly(start, ops, now, k)
  }

  ghost predicate Counted(before: nat, notes: seq<Note>, failures: nat) {
    before <= failures && (NoneFailed(notes) <==> failures == before)
  }

  /** The first `k` operations have taken the runtime from `start` to `now`. */
  ghost predicate Ran(start: State, ops: seq<Op>, k: nat, notes: seq<Note>, outs: seq<Outcome>,
                      trace: seq<Streams>, now: State)
    requires k <= |ops|
  {
    && Told(start.streams, ops, k, notes, outs, trace, now.streams)
    && Watched(start.buffers, ops, k, notes, now.buffers)
    && Counted(start.failures, notes, now.failures)
  }

  /** One operation takes the runtime from `was` to `now`. */
  ghost predicate Performed(was: State, op: Op, note: Note, out: Outcome, now: State) {
    && Step(was.streams, op, note, now.streams, out)
    && note.held == was.buffers(op.fd) && |note.held| <= IO_BUF_CAP && KeepsBuffers(was.buffers, op, now.buffers)
    && was.failures <= now.failures && (note.failed <==> now.failures != was.failures)
  }

  lemma ToldStep(m0: Streams, ops: seq<Op>, k: nat, notes: seq<Note>, outs: seq<Outcome>, trace: seq<Streams>,
                 m: Streams, note: Note, out: Outcome, m': Streams)
    requires k < |ops| && Told(m0, ops, k, notes, outs, trace, m) && Step(m, ops[k], note, m', out)
    ensures Told(m0, ops, k + 1, notes + [note], outs + [out], trace + [m'], m')
  {
    PrefixSnoc(ops, k + 1);
    HappenedStep(ops[..k], notes, outs, trace, ops[k], note, out, m');
  }

  lemma WatchedStep(start: Buffers, ops: seq<Op>, k: nat, notes: seq<Note>, was: Buffers, note: Note, now: Buffers)
    requires k < |ops| && Watched(start, ops, k, notes, was)
    requires note.held == was(ops[k].fd) && |note.held| <= IO_BUF_CAP && KeepsBuffers(was, ops[k], now)
    ensures Watched(start, ops, k + 1, notes + [note], now)
  {
    HoldsOnlyStep(start, ops, was, now, k);
    assert TrueNote(start, ops, k, note.held);
    forall j | 0 <= j < k
      ensures TrueNote(start, ops, j, (notes + [note])[j].held)
    {
      assert (notes + [note])[j] == notes[j];
    }
  }

  lemma RanStep(start: State, ops: seq<Op>, k: nat, notes: seq<Note>, outs: seq<Outcome>, trace: seq<Streams>,
                was: State, note: Note, out: Outcome, now: State)
    requires k < |ops| && Ran(start, ops, k, notes, outs, trace, was) && Performed(was, ops[k], note, out, now)
    ensures Ran(start, ops, k + 1, notes + [note], outs + [out], trace + [now.streams], now)
  {
    ToldStep(start.streams, ops, k, notes, outs, trace, was.streams, note, out, now.streams);
    WatchedStep(start.buffers, ops, k, notes, was.buffers, note, now.buffers);
    NoneFailedStep(notes, note);
  }

  lemma ReadAllsFirstInOrder(start: Buffers, ops: seq<Op>, notes: seq<Note>)
    requires |notes| == |ops| && TrueNotes(start, ops, notes) && ReadAllsFirst(start, ops)
    ensures AllInOrder(ops, notes)
  {
    forall k | 0 <= k < |ops|
      ensures InOrder(ops[k], notes[k].held)
    {
      assert TrueNote(start, ops, k, notes[k].held);
    }
  }

  lemma RanWhole(start: State, ops: seq<Op>, notes: seq<Note>, outs: seq<Outcome>, trace: seq<Streams>, now: State)
    requires Ran(start, ops, |ops|, notes, outs, trace, now)
    ensures Happened(ops, notes, outs, trace)
    ensures now.failures == start.failures ==>
      (outs == SimpleRun(start.streams, ops).1 <==> AllInOrder(ops, notes))
    ensures now.failures == start.failures && (AllInOrder(ops, notes) || ReadAllsFirst(start.buffers, ops)) ==>
      (now.streams, outs) == SimpleRun(start.streams, ops)
  {
    assert ops[..|ops|] == ops && notes[..|ops|] == notes && outs[..|ops|] == outs;
    if now.failures == start.failures {
      RunIsSimple(ops, notes, outs, trace, |ops|);
      if ReadAllsFirst(start.buffers, ops) {
        ReadAllsFirstInOrder(start.buffers, ops, notes);
      }
    }
  }

  /** No read-all comes where there can be bytes in the buffer of its descriptor. */
  ghost predicate ReadAllsFirst(start: Buffers, ops: seq<Op>) {
    forall k :: 0 <= k < |ops| && ops[k].ReadAll? ==> !CanHold(start(ops[k].fd) != [], ops, ops[k].fd, k)
  }

  lemma SnocEqual<T>(s: seq<T>, x: T, t: seq<T>, y: T)
    requires |s| == |t|
    ensures s + [x] == t + [y] <==> s == t && x == y
  {
    if s + [x] == t + [y] {
      assert s == (s + [x])[..|s|] && t == (t + [y])[..|t|];
      assert (s + [x])[|s|] == x && (t + [y])[|t|] == y;
    }
  }

  /** The bytes other than newlines. */
  function Strip(s: Bytes): Bytes {
    if s == [] then [] else Strip(s[..|s| - 1]) + if s[|s| - 1] == NEWLINE then [] else [s[|s| - 1]]
  }

  lemma {:induction false} StripAppend(a: Bytes, b: Bytes)
    ensures Strip(a + b) == Strip(a) + Strip(b)
    decreases |b|
  {
    if b == [] {
      assert a + b == a;
    } else {
      assert (a + b)[..|a + b| - 1] == a + b[..|b| - 1];
      StripAppend(a, b[..|b| - 1]);
    }
  }

  lemma StripSnoc(s: Bytes, b: byte)
    ensures Strip(s + [b]) == Strip(s) + if b == NEWLINE then [] else [b]
  {
    assert (s + [b])[..|s|] == s;
  }

  /** What one operation gave to the reader of a descriptor, newlines aside. */
  function Given(op: Op, out: Outcome, fd: int): Bytes {
    if op == Op.ReadLine(fd) && out.Line? then Strip(out.line)
    else if op == Op.ReadAll(fd) && out.All? then Strip(out.text)
    else []
  }

  /** What each operation gave to the reader of a descriptor. */
  function Gifts(ops: seq<Op>, outs: seq<Outcome>, fd: int): (r: seq<Bytes>)
    requires |ops| == |outs|
    ensures |r| == |ops|
    ensures forall k :: 0 <= k < |ops| ==> r[k] == Given(ops[k], outs[k], fd)
  {
    seq(|ops|, k requires 0 <= k < |ops| => Given(ops[k], outs[k], fd))
  }

  /** The first `n` texts in a row. */
  function Flat(texts: seq<Bytes>, n: nat): Bytes
    requires n <= |texts|
  {
    if n == 0 then [] else Flat(texts, n - 1) + texts[n - 1]
  }

  /** All that the first `n` operations gave to the reader of a descriptor. */
  function Delivered(ops: seq<Op>, outs: seq<Outcome>, fd: int, n: nat): Bytes
    requires n <= |ops| == |outs|
  {
    Flat(Gifts(ops, outs, fd), n)
  }

  /** The operation neither closes nor opens the descriptor. */
  predicate Keeps(op: Op, fd: int) { op.fd == fd ==> !op.Close? && !op.Open? }

  /** What one operation gave and what the stream still owes are what it owed before, in
      this order unless a read-all read past the buffer. */
  lemma DeliveredStep(m: Streams, op: Op, held: Bytes, m': Streams, out: Outcome, fd: int)
    requires CanHappen(m, op, held, m', out) && fd in m && Keeps(op, fd)
    ensures fd in m'
    ensures InOrder(op, held) || op.fd != fd ==> Strip(m[fd]) == Given(op, out, fd) + Strip(m'[fd])
    ensures multiset(Strip(m[fd])) == multiset(Given(op, out, fd)) + multiset(Strip(m'[fd]))
  {
    if op == Op.ReadLine(fd) {
      LineStep(m[fd], out.line, m'[fd]);
    } else if op == Op.ReadAll(fd) {
      TakenBehindStep(m[fd], held, out.text, m'[fd][|held|..]);
      assert m'[fd] == held + m'[fd][|held|..] && m[fd] == held + m[fd][|held|..];
    } else {
      assert m'[fd] == m[fd];
      assert [] + Strip(m[fd]) == Strip(m[fd]);
    }
  }

  lemma LineStep(s: Bytes, line: Bytes, rest: Bytes)
    requires s == line + rest || s == (line + [NEWLINE]) + rest
    ensures Strip(s) == Strip(line) + Strip(rest)
  {
    StripSnoc(line, NEWLINE);
    StripAppend(line, rest);
    StripAppend(line + [NEWLINE], rest);
  }

  lemma TakenBehindStep(s: Bytes, held: Bytes, text: Bytes, rest: Bytes)
    requires s == held + (text + rest)
    ensures multiset(Strip(s)) == multiset(Strip(text)) + multiset(Strip(held + rest))
    ensures held == [] ==> Strip(s) == Strip(text) + Strip(held + rest)
  {
    StripAppend(held, text + rest);
    StripAppend(text, rest);
    StripAppend(held, rest);
    assert held == [] ==> held + rest == rest && held + (text + rest) == text + rest;
  }

  /** `owed` has been given in part: `given`, and `left` is still owed. */
  predicate SameBytes(owed: Bytes, given: Bytes, left: Bytes) {
    multiset(owed) == multiset(given) + multiset(left)
  }

  ghost predicate Passes(owed: seq<Bytes>, gifts: seq<Bytes>, k: nat)
    requires k < |gifts| < |owed|
  {
    SameBytes(owed[k], gifts[k], owed[k + 1])
  }

  ghost predicate PassesInOrder(owed: seq<Bytes>, gifts: seq<Bytes>, k: nat)
    requires k < |gifts| < |owed|
  {
    owed[k] == gifts[k] + owed[k + 1]
  }

  lemma {:induction false} AllPass(owed: seq<Bytes>, gifts: seq<Bytes>, n: nat)
    requires n <= |gifts| < |owed| && forall k :: 0 <= k < n ==> Passes(owed, gifts, k)
    ensures SameBytes(owed[0], Flat(gifts, n), owed[n])
    decreases n
  {
    if n != 0 {
      AllPass(owed, gifts, n - 1);
      assert Passes(owed, gifts, n - 1);
    }
  }

  lemma {:induction false} AllPassInOrder(owed: seq<Bytes>, gifts: seq<Bytes>, n: nat)
    requires n <= |gifts| < |owed| && forall k :: 0 <= k < n ==> PassesInOrder(owed, gifts, k)
    ensures owed[0] == Flat(gifts, n) + owed[n]
    decreases n
  {
    if n != 0 {
      AllPassInOrder(owed, gifts, n - 1);
      assert PassesInOrder(owed, gifts, n - 1);
      Reassociate(Flat(gifts, n - 1), gifts[n - 1], owed[n]);
    }
  }

  /** What the descriptor owes at each point of a run. */
  function Owed(trace: seq<Streams>, fd: int): (r: seq<Bytes>)
    ensures |r| == |trace|
    ensures forall k :: 0 <= k < |trace| && fd in trace[k] ==> r[k] == Strip(trace[k][fd])
  {
    seq(|trace|, k requires 0 <= k < |trace| => if fd in trace[k] then Strip(trace[k][fd]) else [])
  }

  lemma DeliveredAt(ops: seq<Op>, notes: seq<Note>, outs: seq<Outcome>, trace: seq<Streams>, fd: int, k: nat)
    requires Happened(ops, notes, outs, trace) && k < |ops| && fd in trace[k] && Keeps(ops[k], fd)
    ensures fd in trace[k + 1] && Passes(Owed(trace, fd), Gifts(ops, outs, fd), k)
    ensures InOrder(ops[k], notes[k].held) || ops[k].fd != fd ==>
      PassesInOrder(Owed(trace, fd), Gifts(ops, outs, fd), k)
  {
    assert StepAt(ops, notes, outs, trace, k);
    DeliveredStep(trace[k], ops[k], notes[k].held, trace[k + 1], outs[k], fd);
  }

  lemma {:induction false} StaysOpen(ops: seq<Op>, notes: seq<Note>, outs: seq<Outcome>, trace: seq<Streams>,
                                     fd: int, n: nat)
    requires Happened(ops, notes, outs, trace) && n <= |ops| && fd in trace[0]
    requires forall k :: 0 <= k < n ==> Keeps(ops[k], fd)
    ensures fd in trace[n]
    decreases n
  {
    if n != 0 {
      StaysOpen(ops, notes, outs, trace, fd, n - 1);
      DeliveredAt(ops, notes, outs, trace, fd, n - 1);
    }
  }

  /** Conservation over whole runs, failing reads or not: while a descriptor is open,
      what its reads returned and what it still owes are, newlines aside, exactly what it
      owed at the start. Every byte is there once; and they are in order if no read-all
      read past bytes in the buffer. */
  lemma RunsConserve(ops: seq<Op>, notes: seq<Note>, outs: seq<Outcome>, trace: seq<Streams>, fd: int, n: nat)
    requires Happened(ops, notes, outs, trace) && n <= |ops| && fd in trace[0]
    requires forall k :: 0 <= k < n ==> Keeps(ops[k], fd)
    ensures fd in trace[n]
    ensures SameBytes(Strip(trace[0][fd]), Delivered(ops, outs, fd, n), Strip(trace[n][fd]))
    ensures InOrderFor(ops, notes, fd, n) ==>
      Strip(trace[0][fd]) == Delivered(ops, outs, fd, n) + Strip(trace[n][fd])
  {
    var owed, gifts := Owed(trace, fd), Gifts(ops, outs, fd);
    StaysOpen(ops, notes, outs, trace, fd, n);
    forall k | 0 <= k < n
      ensures Passes(owed, gifts, k)
      ensures InOrderFor(ops, notes, fd, n) ==> PassesInOrder(owed, gifts, k)
    {
      StaysOpen(ops, notes, outs, trace, fd, k);
      DeliveredAt(ops, notes, outs, trace, fd, k);
    }
    AllPass(owed, gifts, n);
    if InOrderFor(ops, notes, fd, n) {
      AllPassInOrder(owed, gifts, n);
    }
  }

  /** No read-all of the descriptor among the first `n` operations read past its buffer. */
  ghost predicate InOrderFor(ops: seq<Op>, notes: seq<Note>, fd: int, n: nat)
    requires n <= |ops| == |notes|
  {
    forall k :: 0 <= k < n && ops[k].fd == fd ==> InOrder(ops[k], notes[k].held)
  }

  /** Advancing a buffer's position consumes the byte at it. */
  lemma TakeFromSlot(slots: Slots, files: Files, i: nat, b: IoBufState)
    requires i < |slots| && Distinct(slots) && slots[i].used && slots[i].fd in files
    requires slots[i].pos < slots[i].len && b == slots[i].(pos := slots[i].pos + 1)
    ensures Distinct(slots[i := b])
    ensures Consumed(StreamsOf(slots, files), StreamsOf(slots[i := b], files), b.fd, [b.buf[b.pos - 1]])
  {
    OnlyThisStream(slots, files, i, b, files[b.fd]);
    assert files[b.fd := files[b.fd]] == files;
    BufferedAt(slots, i);
    assert Unread(slots[i]) == [b.buf[b.pos - 1]] + Unread(b);
    assert Unread(slots[i]) + Rest(files[b.fd]) == [b.buf[b.pos - 1]] + (Unread(b) + Rest(files[b.fd]));
  }

  /** A newline-free run of bytes that was consumed up to a newline or up to the end
      is the line that the byte-at-a-time reader gives. */
  lemma ConsumedIsRead(before: Streams, now: Streams, fd: int, line: Bytes, newline: bool)
    requires NewlineFree(line)
    requires Consumed(before, now, fd, if newline then line + [NEWLINE] else line)
    ensures newline || fd !in before || now[fd] == [] ==>
      (now, Line(line)) == SimpleStep(before, Op.ReadLine(fd))
    ensures fd in before && newline ==> NEWLINE in before[fd]
    ensures fd in before && !newline && now[fd] == [] ==> NEWLINE !in before[fd]
  {
    if fd in before {
      var tail := if newline then [NEWLINE] + now[fd] else now[fd];
      assert before[fd] == line + tail;
      ReadLineOverPrefix(line, tail, []);
      assert [] + line == line;
      assert newline ==> tail[1..] == now[fd];
    }
  }

  /** Exactly `bytes` were read off one descriptor; no other descriptor moved. */
  ghost predicate Drained(before: Files, now: Files, fd: int, bytes: Bytes) {
    if fd in before then
      fd in now && now == before[fd := now[fd]] && Rest(before[fd]) == bytes + Rest(now[fd])
    else
      now == before && bytes == []
  }

  /** What is read off a descriptor is taken from behind its buffer. */
  lemma DrainedBehind(slots: Slots, before: Files, now: Files, fd: int, text: Bytes)
    requires Drained(before, now, fd, text)
    ensures TakenBehind(StreamsOf(slots, before), StreamsOf(slots, now), fd, Buffered(slots, fd), text)
  {
    if fd in before {
      var held := Buffered(slots, fd);
      assert (held + Rest(before[fd]))[|held|..] == Rest(before[fd]);
      assert (held + Rest(now[fd]))[|held|..] == Rest(now[fd]);
      assert StreamsOf(slots, now) == StreamsOf(slots, before)[fd := held + Rest(now[fd])];
    }
  }

  /** A read to the end gives all that is owed if and only if nothing was held. */
  lemma AllTakenBehind(before: Streams, now: Streams, fd: int, held: Bytes, text: Bytes)
    requires TakenBehind(before, now, fd, held, text)
    requires if fd in before then now[fd] == held else held == []
    ensures SimpleStep(before, Op.ReadAll(fd)).1 == All(text) <==> held == []
    ensures held == [] ==> now == SimpleStep(before, Op.ReadAll(fd)).0
  {
    if fd in before {
      assert before[fd] == held + text;
    }
  }

  lemma DrainedTwice(a: Files, b: Files, c: Files, fd: int, x: Bytes, y: Bytes)
    requires Drained(a, b, fd, x) && Drained(b, c, fd, y)
    ensures Drained(a, c, fd, x + y)
  {
  }

  lemma OneMoreLine(text: Bytes, lines: seq<Bytes>, left: Bytes)
    requires left != [] && ReadLines(text) == lines + ReadLines(left)
    ensures
      var (line, rest) := Lines.ReadLine(left);
      ReadLines(text) == (lines + [line]) + ReadLines(rest)
  {
  }

  /** Arena bytes taken by a first 4096-byte buffer and `k` regrowths of one block. */
  ghost function Regrowths(k: nat): nat {
    if k == 0 then 4096 else Regrowths(k - 1) + 4096 * (k + 1)
  }

  lemma {:induction false} RegrowthsClosedForm(k: nat)
    ensures Regrowths(k) == 2048 * ((k + 1) * (k + 2))
  {
    if k != 0 {
      RegrowthsClosedForm(k - 1);
      assert (k + 1) * (k + 2) == k * (k + 1) + 2 * (k + 1);
    }
  }

  /** Whether the last line is closed survives reading a line, unless nothing is left. */
  lemma ReadLineClosed(s: Bytes)
    requires s != []
    ensures
      var rest := Lines.ReadLine(s).1;
      && (NEWLINE !in s ==> rest == [] && !Closed(s))
      && (NEWLINE in s && rest == [] ==> Closed(s))
      && (rest != [] ==> Closed(rest) == Closed(s))
  {
    ReadLineSplits(s, []);
    assert [] + s == s;
    ClosedTail(Lines.ReadLine(s).0, Lines.ReadLine(s).1);
  }

  /* ---- The runtime ---- */

  class Runtime {
    const os: Os
    const table: array<IoBufState>
    /** Bytes requested from the destination arena. */
    ghost var arenaBytes: nat

    ghost predicate Valid()
      reads os, table
    {
      && table.Length == IO_MAX_HANDLES
      && Distinct(table[..])
      && NothingStale(table[..], os.files)
    }

    ghost function Streams(): Streams
      reads os, table
    {
      StreamsOf(table[..], os.files)
    }

    ghost function Buffers(): Buffers
      reads table
    {
      BuffersOf(table[..])
    }

    /** The descriptor has a buffer, or there is a free one for it. */
    ghost predicate CanBuffer(fd: int)
      reads table
    {
      HasSlot(table[..], fd) || exists i :: 0 <= i < table.Length && !table[i].used
    }

    /** The read calls made so far and those that full-length reads still need for the
        rest of the file. */
    ghost function Bill(fd: int): nat
      reads os
    {
      os.readCalls + if fd in os.files then Blocks(|Rest(os.files[fd])|) else 0
    }

    /** `slot` is what IoBufFor gave for the descriptor. */
    ghost predicate SlotFor(fd: int, slot: int)
      reads table
    {
      && -1 <= slot < table.Length
      && if slot < 0 then !HasSlot(table[..], fd) else Owns(table[slot], fd)
    }

    constructor (os: Os)
      requires os.files == map[]
      ensures Valid() && fresh(table) && table.Length == 32 && this.os == os
      ensures Streams() == map[] && arenaBytes == 0
      ensures forall fd :: Buffers()(fd) == []
    {
      this.os := os;
      table := new IoBufState[IO_MAX_HANDLES](_ => IoBufState(false, 0, seq(4096, _ => 0), 0, 0));
      arenaBytes := 0;
    }

    /** io_buf_for: the descriptor's buffer, claiming a free one if it has none;
        -1 when the table is full. No stream changes. */
    method IoBufFor(fd: int) returns (slot: int)
      requires Valid()
      modifies table
      ensures Valid() && Streams() == old(Streams())
      ensures -1 <= slot < table.Length
      ensures 0 <= slot ==> Owns(table[slot], fd)
      ensures slot < 0 ==> !HasSlot(table[..], fd)
      ensures 0 <= slot <==> old(CanBuffer(fd))
      ensures old(CanBuffer(fd)) <==> CanBuffer(fd)
      ensures OthersKeep(old(Buffers()), Buffers(), fd)
    {
      for i := 0 to table.Length
        invariant table[..] == old(table[..])
        invariant forall j :: 0 <= j < i ==> !Owns(table[j], fd)
      {
        if table[i].used && table[i].fd == fd {
          return i;
        }
      }
      for i := 0 to table.Length
        invariant table[..] == old(table[..])
        invariant forall j :: 0 <= j < i ==> table[j].used
      {
        if !table[i].used {
          table[i] := table[i].(used := true, fd := fd, pos := 0, len := 0);
          ghost var was: Slots := old(table[..]);
          assert table[..] == was[i := table[i]];
          ClaimedSlot(was, os.files, i, table[i]);
          OneSlotChanged(was, i, table[i], fd);
          assert Owns(table[..][i], fd);
          return i;
        }
      }
      return -1;
    }

    /** io_buf_release */
    method IoBufRelease(fd: int)
      requires Valid()
      modifies table
      ensures Valid() && Released(old(table[..]), table[..], os.files, fd)
      ensures OthersKeep(old(Buffers()), Buffers(), fd)
    {
      for i := 0 to table.Length
        invariant table[..] == old(table[..])
        invariant forall j :: 0 <= j < i ==> !Owns(table[j], fd)
      {
        if table[i].used && table[i].fd == fd {
          table[i] := table[i].(used := false);
          ghost var was: Slots := old(table[..]);
          assert table[..] == was[i := table[i]];
          OneSlotChanged(was, i, table[i], fd);
          return;
        }
      }
    }

    /** raw_close_impl. The stream ends, unless the kernel's close fails and leaves the
        descriptor open: then the stream is the file from the OS offset, so it is what
        it was if and only if nothing was buffered. */
    method Close(fd: int) returns (code: int)
      requires Valid()
      modifies table, os
      ensures Valid()
      ensures os.Since(old(os.failures)) && KeepsBuffers(old(Buffers()), Op.Close(fd), Buffers())
      ensures code == 0 || os.failures == old(os.failures) ==>
        (Streams(), Status(code)) == SimpleStep(old(Streams()), Op.Close(fd))
      ensures code == 0 || code == -1
      ensures os.failures == old(os.failures) ==> (code == 0 <==> fd in old(os.files)) && fd !in os.files
      ensures fd !in os.files ==> Streams() == old(Streams()) - {fd}
      ensures fd in os.files ==>
        && code == -1 && fd in old(os.files)
        && Streams() == old(Streams())[fd := Rest(os.files[fd])]
        && old(Streams())[fd] == old(Buffered(table[..], fd)) + Streams()[fd]
        && (Streams() == old(Streams()) <==> old(Buffered(table[..], fd)) == [])
    {
      IoBufRelease(fd);
      code := os.Close(fd);
      if fd in os.files {
        ReleasedOpen(old(table[..]), table[..], os.files, fd);
      } else {
        ReleasedClosed(old(table[..]), table[..], old(os.files), fd);
        assert os.files == old(os.files) - {fd};
      }
    }

    /** `open`, for the number the kernel picked. */
    method Open(fd: int, data: Bytes)
      requires Valid() && fd !in os.files
      modifies os
      ensures Valid() && os.failures == old(os.failures)
      ensures Streams() == old(Streams())[fd := data]
    {
      os.Open(fd, data);
      NothingBuffered(table[..], old(os.files), fd);
      assert Streams()[fd] == data;
      assert Streams() == old(Streams())[fd := data];
    }

    /** Refills a buffer that has run dry with one read. `n` is the read's result. */
    method Refill(fd: int, slot: nat) returns (n: int)
      requires Valid() && slot < table.Length && Owns(table[slot], fd)
      requires table[slot].pos == table[slot].len
      modifies table, os
      ensures Valid() && Owns(table[slot], fd) && Streams() == old(Streams())
      ensures os.files.Keys == old(os.files.Keys)
      ensures n <= 0 ==> table[..] == old(table[..]) && os.files == old(os.files)
      ensures os.Since(old(os.failures)) && OthersKeep(old(Buffers()), Buffers(), fd)
      ensures n <= 0 && os.failures == old(os.failures) ==> fd !in os.files || Streams()[fd] == []
      ensures 0 < n ==> fd in os.files && table[slot].pos == 0 && table[slot].len == n
      ensures n <= 0 || os.wholeReads ==> Bill(fd) == old(Bill(fd)) + if n <= 0 then 1 else 0
    {
      BufferedAt(table[..], slot);
      var chunk;
      n, chunk := os.Read(fd, IO_BUF_CAP);
      if 0 < n {
        var b: IoBufState := table[slot].(buf := chunk + table[slot].buf[n..], pos := 0, len := n);
        assert Unread(b) == chunk;
        OnlyThisStream(table[..], old(os.files), slot, b, os.files[fd]);
        ghost var was: Slots := table[..];
        table[slot] := b;
        assert table[..] == was[slot := b];
        OneSlotChanged(was, slot, b, fd);
        assert old(Streams())[fd] == chunk + Rest(os.files[fd]);
        assert Streams() == old(Streams());
      }
    }

    /** The unbuffered peek: read one byte and step back over it. */
    method PeekUnbuffered(fd: int) returns (eof: bool)
      requires Valid() && !HasSlot(table[..], fd)
      modifies os
      ensures Valid() && os.files == old(os.files) && os.Since(old(os.failures))
      ensures !eof ==> fd in os.files && Streams()[fd] != []
      ensures eof && os.failures == old(os.failures) ==> fd !in os.files || Streams()[fd] == []
    {
      var n, _ := os.Read(fd, 1);
      if fd in os.files {
        UnbufferedStream(table[..], old(os.files), fd);
      }
      if n <= 0 {
        return true;
      }
      os.StepBack(fd);
      assert os.files == old(os.files);
      return false;
    }

    /** The buffered test: only an empty buffer costs a read. */
    method PeekBuffered(fd: int, slot: nat) returns (eof: bool)
      requires Valid() && slot < table.Length && Owns(table[slot], fd)
      modifies table, os
      ensures Valid() && Owns(table[slot], fd) && Streams() == old(Streams())
      ensures os.Since(old(os.failures)) && OthersKeep(old(Buffers()), Buffers(), fd)
      ensures !eof ==> fd in os.files && Streams()[fd] != []
      ensures eof && os.failures == old(os.failures) ==> fd !in os.files || Streams()[fd] == []
      ensures os.wholeReads ==> Bill(fd) == old(Bill(fd)) + if eof then 1 else 0
    {
      BufferedAt(table[..], slot);
      if table[slot].pos < table[slot].len {
        return false;
      }
      var n := Refill(fd, slot);
      BufferedAt(table[..], slot);
      return n <= 0;
    }

    /** raw_at_eof_impl */
    method AtEof(fd: int) returns (eof: bool)
      requires Valid()
      modifies table, os
      ensures Valid() && Streams() == old(Streams())
      ensures os.Since(old(os.failures)) && OthersKeep(old(Buffers()), Buffers(), fd)
      ensures !eof ==> fd in Streams() && Streams()[fd] != []
      ensures os.failures == old(os.failures) ==> Eof(eof) == SimpleStep(old(Streams()), Op.AtEof(fd)).1
      ensures old(CanBuffer(fd)) <==> CanBuffer(fd)
      ensures old(CanBuffer(fd)) && os.wholeReads ==> Bill(fd) == old(Bill(fd)) + if eof then 1 else 0
    {
      var slot := IoBufFor(fd);
      if slot < 0 {
        eof := PeekUnbuffered(fd);
      } else {
        eof := PeekBuffered(fd, slot);
        assert Owns(table[..][slot], fd);
      }
    }

    /** Takes the next byte out of a buffer that holds one. */
    method TakeByte(fd: int, slot: nat) returns (c: byte)
      requires Valid() && slot < table.Length && Owns(table[slot], fd)
      requires fd in os.files && table[slot].pos < table[slot].len
      modifies table
      ensures Valid() && Owns(table[slot], fd) && OthersKeep(old(Buffers()), Buffers(), fd)
      ensures Consumed(old(Streams()), Streams(), fd, [c])
    {
      var b: IoBufState := table[slot].(pos := table[slot].pos + 1);
      c := b.buf[table[slot].pos];
      ghost var was: Slots := table[..];
      TakeFromSlot(was, os.files, slot, b);
      OneSlotChanged(was, slot, b, fd);
      table[slot] := b;
      assert table[..] == was[slot := b];
    }

    /** The one-byte read of the unbuffered path; -1 when it gives nothing. */
    method ReadByte(fd: int) returns (c: int)
      requires Valid() && !HasSlot(table[..], fd)
      modifies os
      ensures Valid() && -1 <= c < 256 && os.Since(old(os.failures))
      ensures Consumed(old(Streams()), Streams(), fd, if c < 0 then [] else [c as byte])
      ensures c < 0 && os.failures == old(os.failures) ==> fd !in os.files || Streams()[fd] == []
    {
      var n, chunk := os.Read(fd, 1);
      if n <= 0 {
        assert Streams() == old(Streams());
        return -1;
      }
      c := chunk[0] as int;
      assert chunk == [chunk[0]];
      UnbufferedStream(table[..], old(os.files), fd);
      UnbufferedStream(table[..], os.files, fd);
      assert Streams() == old(Streams())[fd := Rest(os.files[fd])];
    }

    /** The next byte of the stream, from the buffer or by a one-byte read; -1 when
        there is none. */
    method NextByte(fd: int, slot: int) returns (c: int)
      requires Valid() && SlotFor(fd, slot)
      modifies table, os
      ensures Valid() && SlotFor(fd, slot) && -1 <= c < 256
      ensures os.Since(old(os.failures)) && OthersKeep(old(Buffers()), Buffers(), fd)
      ensures Consumed(old(Streams()), Streams(), fd, if c < 0 then [] else [c as byte])
      ensures c < 0 && os.failures == old(os.failures) ==> fd !in os.files || Streams()[fd] == []
      ensures 0 <= slot && os.wholeReads ==> Bill(fd) == old(Bill(fd)) + if c < 0 then 1 else 0
    {
      if slot < 0 {
        c := ReadByte(fd);
        return;
      }
      BufferedAt(table[..], slot);
      if table[slot].len <= table[slot].pos {
        var n := Refill(fd, slot);
        if n <= 0 {
          return -1;
        }
      }
      var taken := TakeByte(fd, slot);
      c := taken as int;
    }

    /** The line buffer holds `line`, and its doublings are accounted for. */
    ghost predicate InBuffer(arena: nat, out: array<byte>, line: Bytes)
      reads this, out
    {
      && |line| <= out.Length && out[..|line|] == line
      && arenaBytes == arena + 2 * out.Length - 128
      && (out.Length == 128 || 128 <= out.Length <= 2 * (|line| - 1))
    }

    /** Stores one byte at the end of a line buffer, doubling the buffer when full. */
    method Store(out: array<byte>, len: nat, c: byte, ghost arena: nat, ghost line: Bytes)
      returns (grown: array<byte>)
      requires InBuffer(arena, out, line) && len == |line|
      modifies out, this
      ensures (grown == out || fresh(grown)) && InBuffer(arena, grown, line + [c])
    {
      grown := out;
      if len + 1 > out.Length {
        arenaBytes := arenaBytes + out.Length * 2;
        grown := new byte[out.Length * 2](_ => 0);
        for i := 0 to len
          modifies grown
          invariant grown[..i] == out[..i]
        {
          grown[i] := out[i];
        }
      }
      assert grown[..len] == line;
      grown[len] := c;
      assert grown[..len + 1] == line + [c];
    }

    /** The final copy: `len` bytes and a closing NUL. */
    method Terminated(out: array<byte>, len: nat) returns (result: array<byte>)
      requires len <= out.Length
      modifies this
      ensures fresh(result) && result[..] == old(out[..len]) + [0]
      ensures arenaBytes == old(arenaBytes) + len + 1
    {
      arenaBytes := arenaBytes + len + 1;
      result := new byte[len + 1](_ => 0);
      for i := 0 to len
        modifies result
        invariant result[..i] == out[..i]
      {
        result[i] := out[i];
      }
      result[len] := 0;
      assert result[..len] == out[..len];
    }

    ghost function Now(): State
      reads os, table
    {
      State(Streams(), Buffers(), os.failures)
    }

    /** A line is being gathered: `line` is what the stream has lost since the beginning. */
    ghost predicate Gathering(start: State, bill: nat, fd: int, slot: int, line: Bytes)
      reads os, table
    {
      && Valid() && SlotFor(fd, slot)
      && os.Since(start.failures) && OthersKeep(start.buffers, Buffers(), fd)
      && NewlineFree(line) && Consumed(start.streams, Streams(), fd, line)
      && (0 <= slot && os.wholeReads ==> Bill(fd) == bill)
    }

    /** The line is complete: a newline was consumed, or a read gave nothing. */
    ghost predicate Gathered(start: State, bill: nat, fd: int, slot: int, line: Bytes, newline: bool)
      reads os, table
    {
      && Valid() && SlotFor(fd, slot)
      && os.Since(start.failures) && OthersKeep(start.buffers, Buffers(), fd)
      && NewlineFree(line) && Consumed(start.streams, Streams(), fd, if newline then line + [NEWLINE] else line)
      && (!newline && os.failures == start.failures && fd in os.files ==> Streams()[fd] == [])
      && (0 <= slot && os.wholeReads ==> Bill(fd) == bill + if newline then 0 else 1)
    }

    /** One byte for the line, or its end (-1). */
    method GatherByte(fd: int, slot: int, ghost start: State, ghost bill: nat, ghost line: Bytes)
      returns (c: int, newline: bool)
      requires Gathering(start, bill, fd, slot, line)
      modifies table, os
      ensures -1 <= c < 256
      ensures 0 <= c ==> Gathering(start, bill, fd, slot, line + [c as byte])
      ensures 0 <= c ==> fd in old(Streams()) && fd in Streams() && |Streams()[fd]| < |old(Streams())[fd]|
      ensures c < 0 ==> Gathered(start, bill, fd, slot, line, newline)
    {
      ghost var was := Streams();
      c := NextByte(fd, slot);
      ConsumedTwice(start.streams, was, Streams(), fd, line, if c < 0 then [] else [c as byte]);
      if c < 0 {
        assert line + [] == line;
        return c, false;
      }
      if c as byte == NEWLINE {
        return -1, true;
      }
      ConsumedShrinks(was, Streams(), fd, c as byte);
      newline := false;
    }

    /** One turn of the loop: the byte is stored behind the line. */
    method GatherMore(fd: int, slot: int, out: array<byte>, len: nat, ghost start: State, ghost bill: nat,
                      ghost arena: nat, ghost line: Bytes) returns (grown: array<byte>, c: int, newline: bool)
      requires Gathering(start, bill, fd, slot, line) && InBuffer(arena, out, line) && len == |line|
      modifies this, table, os, out
      ensures (grown == out || fresh(grown)) && -1 <= c < 256
      ensures 0 <= c ==> Gathering(start, bill, fd, slot, line + [c as byte])
      ensures 0 <= c ==> InBuffer(arena, grown, line + [c as byte])
      ensures 0 <= c ==> fd in old(Streams()) && fd in Streams() && |Streams()[fd]| < |old(Streams())[fd]|
      ensures c < 0 ==> Gathered(start, bill, fd, slot, line, newline) && InBuffer(arena, grown, line)
    {
      grown := out;
      c, newline := GatherByte(fd, slot, start, bill, line);
      if 0 <= c {
        grown := Store(out, len, c as byte, arena, line);
      }
    }

    /** The loop of raw_read_line_impl: gathers bytes up to a newline (consumed, not
        kept) or until a read gives nothing. */
    method Gather(fd: int, slot: int) returns (out: array<byte>, len: nat, newline: bool)
      requires Valid() && SlotFor(fd, slot)
      modifies this, table, os
      ensures fresh(out) && len <= out.Length
      ensures Gathered(old(Now()), old(Bill(fd)), fd, slot, out[..len], newline)
      ensures arenaBytes <= old(arenaBytes) + 4 * len + 128
    {
      ghost var start, bill, arena := Now(), Bill(fd), arenaBytes;
      arenaBytes := arenaBytes + 128;
      out, len := new byte[128](_ => 0), 0;
      ghost var line: Bytes := [];
      while true
        invariant fresh(out) && len == |line|
        invariant InBuffer(arena, out, line)
        invariant Gathering(start, bill, fd, slot, line)
        decreases if fd in Streams() then |Streams()[fd]| else 0
      {
        var c;
        out, c, newline := GatherMore(fd, slot, out, len, start, bill, arena, line);
        if c < 0 {
          return;
        }
        len := len + 1;
        line := line + [c as byte];
      }
    }

    /** raw_read_line_impl. The result holds the line and a closing NUL. Whatever the
        reads did, no byte is lost: the line, its newline if one was reached, and the
        stream that is left are the stream that was there. */
    method ReadLine(fd: int) returns (result: array<byte>, ghost line: Bytes)
      requires Valid()
      modifies this, table, os
      ensures Valid() && fresh(result)
      ensures result[..] == line + [0]
      ensures os.Since(old(os.failures)) && OthersKeep(old(Buffers()), Buffers(), fd)
      ensures os.failures == old(os.failures) ==>
        (Streams(), Line(line)) == SimpleStep(old(Streams()), Op.ReadLine(fd))
      ensures NewlineFree(line)
      ensures || Consumed(old(Streams()), Streams(), fd, line)
              || Consumed(old(Streams()), Streams(), fd, line + [NEWLINE])
      ensures old(CanBuffer(fd)) ==> CanBuffer(fd)
      ensures arenaBytes <= old(arenaBytes) + 5 * |line| + 129
      ensures old(CanBuffer(fd)) && os.wholeReads && os.failures == old(os.failures) && fd in os.files ==>
        Bill(fd) == old(Bill(fd)) + if NEWLINE in old(Streams())[fd] then 0 else 1
    {
      ghost var before := Streams();
      var slot := IoBufFor(fd);
      var out, len, newline := Gather(fd, slot);
      line := out[..len];
      ConsumedIsRead(before, Streams(), fd, line, newline);
      if 0 <= slot {
        assert Owns(table[..][slot], fd);
      }
      result := Terminated(out, len);
    }

    /** One operation on whatever descriptor it names, open or not. */
    method Perform(op: Op) returns (out: Outcome, ghost note: Note)
      requires Valid()
      modifies this, table, os
      ensures Valid() && Performed(old(Now()), op, note, out, Now()) && os.Since(old(os.failures))
    {
      ghost var held, failures := Buffered(table[..], op.fd), os.failures;
      BufferedFits(table[..], op.fd);
      match op {
        case Open(fd, data) =>
          if fd in os.files {
            out := InUse;
          } else {
            Open(fd, data);
            out := Opened;
          }
        case AtEof(fd) =>
          var eof := AtEof(fd);
          out := Eof(eof);
        case ReadLine(fd) =>
          var result, line := ReadLine(fd);
          assert result[..result.Length - 1] == line;
          out := Line(result[..result.Length - 1]);
        case ReadAll(fd) =>
          out := PerformReadAll(fd);
        case Close(fd) =>
          var code := Close(fd);
          out := Status(code);
      }
      note := Note(held, os.failures != failures);
    }

    method PerformReadAll(fd: int) returns (out: Outcome)
      requires Valid()
      modifies this, os
      ensures Valid() && os.Since(old(os.failures))
      ensures CanHappen(old(Streams()), Op.ReadAll(fd), Buffered(table[..], fd), Streams(), out)
      ensures os.failures == old(os.failures) ==>
        Exact(old(Streams()), Op.ReadAll(fd), Buffered(table[..], fd), Streams(), out)
    {
      ghost var before, files, held := Streams(), os.files, Buffered(table[..], fd);
      var result, text := ReadAll(fd);
      assert result[..result.Length - 1] == text;
      out := All(result[..result.Length - 1]);
      DrainedBehind(table[..], files, os.files, fd, text);
      if os.failures == old(os.failures) {
        if fd in os.files {
          assert Streams()[fd] == held + [] == held;
        } else {
          NothingBuffered(table[..], files, fd);
        }
        AllTakenBehind(before, Streams(), fd, held, text);
      }
    }

    /** Every interleaving of opens, end-of-file tests, line reads, read-alls and closes,
        over any number of descriptors and for every way the kernel splits the reads,
        gives what the byte-at-a-time reader gives if and only if every read-all found
        its buffer empty; so it does where no read-all follows an end-of-file test or a
        line read of its descriptor without a close between. Whatever fails on the way,
        each step is one of those that CanHappen describes, and exact if nothing failed
        in it. */
    method Run(ops: seq<Op>) returns (outs: seq<Outcome>, ghost notes: seq<Note>, ghost trace: seq<Streams>)
      requires Valid()
      modifies this, table, os
      ensures Valid() && Happened(ops, notes, outs, trace)
      ensures trace[0] == old(Streams()) && trace[|ops|] == Streams()
      ensures TrueNotes(old(Buffers()), ops, notes)
      ensures os.Since(old(os.failures)) && (NoneFailed(notes) <==> os.failures == old(os.failures))
      ensures os.failures == old(os.failures) ==>
        (outs == SimpleRun(old(Streams()), ops).1 <==> AllInOrder(ops, notes))
      ensures os.failures == old(os.failures) && (AllInOrder(ops, notes) || ReadAllsFirst(old(Buffers()), ops)) ==>
        (Streams(), outs) == SimpleRun(old(Streams()), ops)
    {
      outs, notes, trace := [], [], [Streams()];
      ghost var start := Now();
      for k := 0 to |ops|
        invariant Valid() && os.Since(start.failures) && Ran(start, ops, k, notes, outs, trace, Now())
      {
        var out, note := PerformNext(start, ops, k, notes, outs, trace);
        outs, notes, trace := outs + [out], notes + [note], trace + [Streams()];
      }
      RanWhole(start, ops, notes, outs, trace, Now());
    }

    /** The next operation of a run. */
    method PerformNext(ghost start: State, ops: seq<Op>, k: nat, ghost notes: seq<Note>, ghost outs: seq<Outcome>,
                       ghost trace: seq<Streams>) returns (out: Outcome, ghost note: Note)
      requires k < |ops| && Valid() && os.Since(start.failures) && Ran(start, ops, k, notes, outs, trace, Now())
      modifies this, table, os
      ensures Valid() && os.Since(start.failures)
      ensures Ran(start, ops, k + 1, notes + [note], outs + [out], trace + [Streams()], Now())
    {
      ghost var was := Now();
      out, note := Perform(ops[k]);
      RanStep(start, ops, k, notes, outs, trace, was, note, out, Now());
    }

    /** `lines` have been read off the stream that `fd` had in `start`. */
    ghost predicate Scanning(start: Streams, bill: nat, buffer: bool, fd: int, lines: seq<Bytes>)
      reads os, table
    {
      && Valid() && fd in start && fd in os.files
      && Streams() == start[fd := Streams()[fd]]
      && ReadLines(start[fd]) == lines + ReadLines(Streams()[fd])
      && (Streams()[fd] != [] ==> Closed(Streams()[fd]) == Closed(start[fd]))
      && (buffer ==> CanBuffer(fd))
      && (buffer && os.wholeReads ==>
            Bill(fd) == bill + if Streams()[fd] == [] && !Closed(start[fd]) then 1 else 0)
    }

    method ScanLine(fd: int, ghost start: Streams, ghost bill: nat, ghost buffer: bool, ghost lines: seq<Bytes>)
      returns (line: Bytes)
      requires !os.mayFault && Scanning(start, bill, buffer, fd, lines) && Streams()[fd] != []
      modifies this, table, os
      ensures Scanning(start, bill, buffer, fd, lines + [line])
      ensures |Streams()[fd]| < |old(Streams())[fd]|
    {
      ghost var left := Streams()[fd];
      ghost var rest := Lines.ReadLine(left).1;
      ReadLineClosed(left);
      OneMoreLine(start[fd], lines, left);
      UpdatedTwice(start, fd, left, rest);
      var result, gathered := ReadLine(fd);
      line := result[..result.Length - 1];
      assert line == gathered;
    }

    /** "While not at end of file, read a line": exactly the lines of what the
        descriptor still owed. Through a buffer, and when reads are as long as they can
        be, it takes one read per started block, one to see the end, and one more if
        the last line is not closed. */
    method Scan(fd: int) returns (lines: seq<Bytes>)
      requires Valid() && !os.mayFault && fd in os.files
      modifies this, table, os
      ensures Valid() && Streams() == old(Streams())[fd := []]
      ensures lines == ReadLines(old(Streams())[fd])
      ensures old(CanBuffer(fd)) && os.wholeReads ==>
        os.readCalls == old(os.readCalls) + Blocks(|Rest(old(os.files)[fd])|) + 1
                    + if Closed(old(Streams())[fd]) then 0 else 1
    {
      lines := [];
      ghost var start, bill, buffer := Streams(), Bill(fd), CanBuffer(fd);
      while true
        invariant Scanning(start, bill, buffer, fd, lines)
        decreases if fd in Streams() then |Streams()[fd]| else 0
      {
        var eof := AtEof(fd);
        if eof {
          return;
        }
        var line := ScanLine(fd, start, bill, buffer, lines);
        lines := lines + [line];
      }
    }

    /** The first `len` bytes of `buf` were read off `fd`, and the buffer grew with them,
        to within one block. */
    ghost predicate Slurping(start: Files, arena: nat, fd: int, buf: array<byte>, len: nat)
      reads this, os, buf
    {
      && len <= buf.Length && Drained(start, os.files, fd, buf[..len])
      && var grown := buf.Length / 4096 - 1;
         && buf.Length == 4096 * (grown + 1) && 0 <= grown <= Blocks(len) <= grown + 1
         && arenaBytes == arena + Regrowths(grown)
    }

    /** All was read, and the buffer has grown once per block that was started. */
    ghost predicate Slurped(start: Files, arena: nat, fd: int, buf: array<byte>, len: nat)
      reads this, os, buf
    {
      && len <= buf.Length == 4096 * (Blocks(len) + 1) && Drained(start, os.files, fd, buf[..len])
      && arenaBytes == arena + Regrowths(Blocks(len))
    }

    /** One read straight into the buffer behind the first `len` bytes. */
    method SlurpBlock(fd: int, buf: array<byte>, len: nat, ghost start: Files, ghost arena: nat) returns (n: int)
      requires Slurping(start, arena, fd, buf, len) && len + 4096 <= buf.Length
      modifies os, buf
      ensures os.Since(old(os.failures))
      ensures n <= 0 ==> os.files == old(os.files) && buf[..] == old(buf[..])
      ensures n <= 0 && os.failures == old(os.failures) && fd in os.files ==> Rest(os.files[fd]) == []
      ensures 0 < n ==> Slurping(start, arena, fd, buf, len + n)
      ensures 0 < n ==> fd in old(os.files) && fd in os.files && |Rest(os.files[fd])| < |Rest(old(os.files)[fd])|
    {
      ghost var sofar, middle := buf[..len], os.files;
      var chunk;
      n, chunk := os.Read(fd, 4096);
      if 0 < n {
        forall i | 0 <= i < n {
          buf[len + i] := chunk[i];
        }
        assert buf[..len + n] == sofar + chunk;
        DrainedTwice(start, middle, os.files, fd, sofar, chunk);
      }
    }

    /** A buffer one block larger with the same first `len` bytes. */
    method Regrown(fd: int, buf: array<byte>, len: nat, ghost start: Files, ghost arena: nat)
      returns (larger: array<byte>)
      requires Slurping(start, arena, fd, buf, len) && len + 4096 > buf.Length
      modifies this
      ensures fresh(larger) && Slurping(start, arena, fd, larger, len) && len + 4096 <= larger.Length
    {
      arenaBytes := arenaBytes + buf.Length + 4096;
      larger := new byte[buf.Length + 4096](_ => 0);
      for i := 0 to len
        modifies larger
        invariant larger[..i] == buf[..i]
      {
        larger[i] := buf[i];
      }
    }

    /** One turn of the loop: room for a block, and a read into it. */
    method SlurpMore(fd: int, buf: array<byte>, len: nat, ghost start: Files, ghost arena: nat)
      returns (larger: array<byte>, n: int)
      requires Slurping(start, arena, fd, buf, len)
      modifies this, os, buf
      ensures (larger == buf || fresh(larger)) && os.Since(old(os.failures))
      ensures n <= 0 ==> Slurped(start, arena, fd, larger, len)
      ensures n <= 0 && os.failures == old(os.failures) && fd in os.files ==> Rest(os.files[fd]) == []
      ensures 0 < n ==> Slurping(start, arena, fd, larger, len + n)
      ensures 0 < n ==> fd in old(os.files) && fd in os.files && |Rest(os.files[fd])| < |Rest(old(os.files)[fd])|
    {
      larger := buf;
      if len + 4096 > buf.Length {
        larger := Regrown(fd, buf, len, start, arena);
      }
      ghost var was := larger[..len];
      n := SlurpBlock(fd, larger, len, start, arena);
      assert n <= 0 ==> larger[..len] == was;
    }

    /** The loop of raw_read_all_impl. Every store lands inside the buffer, and the
        buffer has grown once per block that was started. */
    method Slurp(fd: int) returns (buf: array<byte>, len: nat)
      requires Valid()
      modifies this, os
      ensures Valid() && fresh(buf) && Slurped(old(os.files), old(arenaBytes), fd, buf, len)
      ensures os.Since(old(os.failures))
      ensures os.failures == old(os.failures) && fd in os.files ==> Rest(os.files[fd]) == []
    {
      ghost var start, arena := os.files, arenaBytes;
      buf, len := new byte[4096](_ => 0), 0;
      arenaBytes := arenaBytes + 4096;
      assert Regrowths(0) == 4096;
      while true
        invariant fresh(buf) && Slurping(start, arena, fd, buf, len) && os.Since(old(os.failures))
        decreases if fd in os.files then |Rest(os.files[fd])| else 0
      {
        var n;
        buf, n := SlurpMore(fd, buf, len, start, arena);
        if n <= 0 {
          return;
        }
        len := len + n;
      }
    }

    /** raw_read_all_impl: everything from the OS offset on, bypassing the buffers. The
        arena cost depends only on how much was read. The text is all that the
        descriptor owed exactly when its buffer held nothing. */
    method ReadAll(fd: int) returns (result: array<byte>, ghost text: Bytes)
      requires Valid()
      modifies this, os
      ensures Valid() && fresh(result) && result[..] == text + [0]
      ensures Drained(old(os.files), os.files, fd, text)
      ensures os.Since(old(os.failures))
      ensures os.failures == old(os.failures) && fd in os.files ==> Rest(os.files[fd]) == []
      ensures os.failures == old(os.failures) && fd in os.files ==>
        (text == old(Streams())[fd] <==> Buffered(table[..], fd) == [])
      ensures
        var k := Blocks(|text|);
        arenaBytes == old(arenaBytes) + 2048 * ((k + 1) * (k + 2)) + |text| + 1
    {
      ghost var before := os.files;
      var buf, len := Slurp(fd);
      text := buf[..len];
      RegrowthsClosedForm(Blocks(len));
      assert fd in before ==> text + [] == text;
      result := Terminated(buf, len);
    }
  }

  /** A file that is read as a whole after being opened gives its contents. */
  method OpenAndReadAll(os: Os, fd: int, data: Bytes) returns (text: Bytes)
    requires os.files == map[] && !os.mayFault
    modifies os
    ensures text == data
  {
    var runtime := new Runtime(os);
    var ops := [Op.Open(fd, data), Op.ReadAll(fd)];
    OpenThenReadAll(runtime.Buffers(), runtime.Streams(), fd, data);
    var outs, _, _ := runtime.Run(ops);
    text := outs[1].text;
  }

  lemma OpenThenReadAll(buffers: Buffers, m: Streams, fd: int, data: Bytes)
    requires fd !in m && buffers(fd) == []
    ensures
      var ops := [Op.Open(fd, data), Op.ReadAll(fd)];
      SimpleRun(m, ops).1 == [Opened, All(data)] && ReadAllsFirst(buffers, ops)
  {
    var open, ops := [Op.Open(fd, data)], [Op.Open(fd, data), Op.ReadAll(fd)];
    assert ops[..1] == open && open[..0] == [];
    assert SimpleRun(m, open[..0]) == (m, []);
    assert SimpleRun(m, open).1 == [Opened] && SimpleRun(m, open).0 == m[fd := data];
    assert !CanHold(false, ops, fd, 0);
    assert !CanHold(false, ops, fd, 1);
  }
}
