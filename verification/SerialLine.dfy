/** Circle's serial line as seen by its users: several tasks write lines, an interrupt handler feeds
    the UART, and every section under the buffer lock is one step. */
module SerialLine {
  import opened Common

  const BUF_SIZE := 2048
  const NEWLINE: byte := 10
  const RETURN: byte := 13

  /** The transmit side: the buffer, what has reached the UART, and whether its interrupt is enabled. */
  datatype Tx = Tx(queue: seq<byte>, wire: seq<byte>, irq: bool)

  function Put(x: Tx, b: byte): Tx {
    if |x.queue| < BUF_SIZE - 1 then x.(queue := x.queue + [b]) else x
  }

  function Sent(x: Tx, n: nat): Tx
    requires n <= |x.queue|
  {
    x.(queue := x.queue[n..], wire := x.wire + x.queue[..n])
  }

  /** The end of a write: the UART takes up to `room` bytes before it is full. */
  function Flush(x: Tx, room: nat): Tx {
    Sent(x, Min(room, |x.queue|)).(irq := x.irq || room < |x.queue|)
  }

  /** The transmit part of the interrupt handler. */
  function Serve(x: Tx, room: nat): Tx {
    Sent(x, Min(room, |x.queue|)).(irq := x.irq && room <= |x.queue|)
  }

  /** What a character is on the line. */
  function CharBytes(c: byte, onlcr: bool): seq<byte> {
    if c == NEWLINE && onlcr then [c, RETURN] else [c]
  }

  /** What a text is on the line. */
  function Expanded(text: seq<byte>, onlcr: bool): seq<byte> {
    if |text| == 0 then [] else CharBytes(text[0], onlcr) + Expanded(text[1..], onlcr)
  }

  lemma {:induction false} ExpandedSnoc(text: seq<byte>, i: nat, onlcr: bool)
    requires i < |text|
    ensures Expanded(text[..i + 1], onlcr) == Expanded(text[..i], onlcr) + CharBytes(text[i], onlcr)
  {
    hide CharBytes;
    if i == 0 {
      assert text[..1] == [text[0]] && text[..1][1..] == [];
    } else {
      ExpandedSnoc(text[1..], i - 1, onlcr);
      assert text[..i + 1][1..] == text[1..][..i];
      assert text[..i][1..] == text[1..][..i - 1];
    }
  }

  /** Each character is on the line after those before it, and a line feed is followed by a carriage return if
      `onlcr`. */
  lemma ExpandedMeans(text: seq<byte>, i: nat, onlcr: bool)
    requires i < |text|
    ensures Expanded([], onlcr) == []
    ensures Expanded(text[..i + 1], onlcr)
      == Expanded(text[..i], onlcr) + [text[i]] + if onlcr && text[i] == 10 then [13] else []
  {
    ExpandedSnoc(text, i, onlcr);
    hide Expanded;
    assert Expanded([], onlcr) == [] by { NothingExpanded(onlcr); }
  }

  lemma NothingExpanded(onlcr: bool)
    ensures Expanded([], onlcr) == []
  {
  }

  /** A write: its text, how many of its characters have been accepted as a whole, and whether the
      newline of the next one has. */
  datatype Call = Call(text: seq<byte>, n: nat, half: bool)

  datatype Task = Idle | Putting | Flushing

  /** The line with all tasks, and all writes so far. */
  datatype Line = Line(tx: Tx, onlcr: bool, tasks: seq<Task>, calls: seq<Call>)

  datatype Step =
    | Start(t: nat, text: seq<byte>)
    | PutNext(t: nat)
    | Finish(t: nat, room: nat)
    | Interrupt(room: nat)

  /** The line lock admits one task that puts bytes into the buffer. */
  predicate LineFree(l: Line) {
    Putting !in l.tasks
  }

  predicate CallOk(c: Call, onlcr: bool) {
    c.n <= |c.text| && (c.half ==> c.n < |c.text| && c.text[c.n] == NEWLINE && onlcr)
  }

  predicate Can(l: Line, e: Step) {
    match e
    case Start(t, _) => t < |l.tasks| && l.tasks[t] == Idle && LineFree(l)
    case PutNext(t) => t < |l.tasks| && l.tasks[t] == Putting && |l.calls| > 0 &&
      CallOk(l.calls[|l.calls| - 1], l.onlcr)
    case Finish(t, _) => t < |l.tasks| && l.tasks[t] == Flushing
    case Interrupt(_) => true
  }

  /** The next byte that a write wants to put into the buffer. */
  function Wanted(c: Call): byte
    requires c.n < |c.text|
  {
    if c.half then RETURN else c.text[c.n]
  }

  /** The write after its byte was accepted. */
  function Advanced(c: Call, onlcr: bool): Call
    requires c.n < |c.text|
  {
    if !c.half && c.text[c.n] == NEWLINE && onlcr then c.(half := true)
    else c.(n := c.n + 1, half := false)
  }

  function Next(l: Line, e: Step): Line
    requires Can(l, e)
  {
    match e
    case Start(t, text) => l.(tasks := l.tasks[t := Putting], calls := l.calls + [Call(text, 0, false)])
    case PutNext(t) =>
      var k := |l.calls| - 1;
      var c := l.calls[k];
      if c.n == |c.text| || |l.tx.queue| >= BUF_SIZE - 1 then l.(tasks := l.tasks[t := Flushing])
      else l.(tx := Put(l.tx, Wanted(c)), calls := l.calls[k := Advanced(c, l.onlcr)])
    case Finish(t, room) => l.(tx := Flush(l.tx, room), tasks := l.tasks[t := Idle])
    case Interrupt(room) => l.(tx := Serve(l.tx, room))
  }

  /** The bytes of a write that have been accepted. */
  function Block(c: Call, onlcr: bool): seq<byte>
    requires CallOk(c, onlcr)
  {
    Expanded(c.text[..c.n], onlcr) + if c.half then [NEWLINE] else []
  }

  predicate CallsOk(calls: seq<Call>, onlcr: bool) {
    forall k :: 0 <= k < |calls| ==> CallOk(calls[k], onlcr)
  }

  function Blocks(calls: seq<Call>, onlcr: bool): seq<byte>
    requires CallsOk(calls, onlcr)
  {
    if |calls| == 0 then [] else Blocks(calls[..|calls| - 1], onlcr) + Block(calls[|calls| - 1], onlcr)
  }

  ghost predicate Inv(l: Line) {
    && CallsOk(l.calls, l.onlcr) && l.tx.wire + l.tx.queue == Blocks(l.calls, l.onlcr) && |l.tx.queue| < BUF_SIZE
    && (forall t, u :: 0 <= t < u < |l.tasks| ==> !(l.tasks[t] == Putting && l.tasks[u] == Putting))
    && (Putting in l.tasks ==> |l.calls| > 0)
    && (l.tx.queue != [] ==> l.tx.irq || exists t :: 0 <= t < |l.tasks| && l.tasks[t] != Idle)
  }

  lemma AdvancedBlock(c: Call, onlcr: bool)
    requires CallOk(c, onlcr) && c.n < |c.text|
    ensures CallOk(Advanced(c, onlcr), onlcr)
    ensures Block(Advanced(c, onlcr), onlcr) == Block(c, onlcr) + [Wanted(c)]
  {
    ExpandedSnoc(c.text, c.n, onlcr);
  }

  lemma PutInv(l: Line, t: nat)
    requires Inv(l) && Can(l, PutNext(t))
    requires l.calls[|l.calls| - 1].n < |l.calls[|l.calls| - 1].text| && |l.tx.queue| < BUF_SIZE - 1
    ensures Inv(Next(l, PutNext(t)))
  {
    hide Block, Advanced, Wanted;
    var l', k := Next(l, PutNext(t)), |l.calls| - 1;
    AdvancedBlock(l.calls[k], l.onlcr);
    assert l'.calls[..k] == l.calls[..k];
    assert l'.tx.wire + l'.tx.queue == (l.tx.wire + l.tx.queue) + [Wanted(l.calls[k])];
  }

  lemma StepInv(l: Line, e: Step)
    requires Inv(l) && Can(l, e)
    ensures Inv(Next(l, e))
  {
    match e
    case Start(t, text) => StartInv(l, t, text);
    case PutNext(t) =>
      var c := l.calls[|l.calls| - 1];
      if c.n < |c.text| && |l.tx.queue| < BUF_SIZE - 1 { PutInv(l, t); } else { AllPutInv(l, t); }
    case Finish(t, room) => FinishInv(l, t, room);
    case Interrupt(room) => InterruptInv(l, room);
  }

  lemma StartInv(l: Line, t: nat, text: seq<byte>)
    requires Inv(l) && Can(l, Start(t, text))
    ensures Inv(Next(l, Start(t, text)))
  {
    var l' := Next(l, Start(t, text));
    assert l'.calls[..|l.calls|] == l.calls && text[..0] == [];
    assert Block(Call(text, 0, false), l.onlcr) == [];
    assert l'.tasks[t] != Idle;
  }

  /** All bytes of a write have been put, or the buffer is full. */
  lemma AllPutInv(l: Line, t: nat)
    requires Inv(l) && Can(l, PutNext(t)) && Next(l, PutNext(t)).tasks != l.tasks
    ensures Inv(Next(l, PutNext(t)))
  {
    hide Blocks, CallsOk, Advanced;
    assert Next(l, PutNext(t)).tasks[t] != Idle;
  }

  lemma FinishInv(l: Line, t: nat, room: nat)
    requires Inv(l) && Can(l, Finish(t, room))
    ensures Inv(Next(l, Finish(t, room)))
  {
    hide Blocks, CallsOk;
    var l' := Next(l, Finish(t, room));
    assert l'.tx.wire + l'.tx.queue == l.tx.wire + l.tx.queue;
  }

  lemma InterruptInv(l: Line, room: nat)
    requires Inv(l) && Can(l, Interrupt(room))
    ensures Inv(Next(l, Interrupt(room)))
  {
    hide Blocks, CallsOk;
    var l' := Next(l, Interrupt(room));
    var n := Min(room, |l.tx.queue|);
    assert l.tx.queue[..n] + l.tx.queue[n..] == l.tx.queue;
    assert l'.tx.wire + l'.tx.queue == l.tx.wire + (l.tx.queue[..n] + l.tx.queue[n..]);
  }

  predicate CanRun(l: Line, es: seq<Step>)
    decreases |es|
  {
    |es| > 0 ==> Can(l, es[0]) && CanRun(Next(l, es[0]), es[1..])
  }

  function Run(l: Line, es: seq<Step>): Line
    requires CanRun(l, es)
    decreases |es|
  {
    if |es| == 0 then l else Run(Next(l, es[0]), es[1..])
  }

  lemma {:induction false} RunInv(l: Line, es: seq<Step>)
    requires Inv(l) && CanRun(l, es)
    ensures Inv(Run(l, es))
    decreases |es|
  {
    hide Inv, Next, Can;
    if |es| > 0 {
      StepInv(l, es[0]);
      RunInv(Next(l, es[0]), es[1..]);
    }
  }

  /** An interrupt moves the oldest bytes of the buffer to the wire until the UART is full; its interrupt is switched
      off only when nothing is left while there would still be room. */
  lemma InterruptSends(l: Line, room: nat)
    ensures var n, tx := if room < |l.tx.queue| then room else |l.tx.queue|, Next(l, Interrupt(room)).tx;
      && Next(l, Interrupt(room)) == l.(tx := tx)
      && tx.wire == l.tx.wire + l.tx.queue[..n] && tx.queue == l.tx.queue[n..]
      && (tx.irq <==> l.tx.irq && room <= |l.tx.queue|)
  {
  }

  /** So does the end of a write, which switches the interrupt on when something is left. */
  lemma FinishSends(l: Line, t: nat, room: nat)
    requires Can(l, Finish(t, room))
    ensures var n, tx := if room < |l.tx.queue| then room else |l.tx.queue|, Next(l, Finish(t, room)).tx;
      && Next(l, Finish(t, room)) == l.(tx := tx, tasks := l.tasks[t := Idle])
      && tx.wire == l.tx.wire + l.tx.queue[..n] && tx.queue == l.tx.queue[n..]
      && (tx.irq <==> l.tx.irq || room < |l.tx.queue|)
  {
  }

  function Interrupts(rooms: seq<nat>): (es: seq<Step>)
    ensures |es| == |rooms|
  {
    seq(|rooms|, i requires 0 <= i < |rooms| => Interrupt(rooms[i]))
  }

  function Total(rooms: seq<nat>): nat {
    if |rooms| == 0 then 0 else rooms[0] + Total(rooms[1..])
  }

  /** The first `n` bytes of the buffer, or all if there are fewer, have moved to the wire in order. */
  predicate SentUpTo(x: Tx, x': Tx, n: nat) {
    if n >= |x.queue| then x'.wire == x.wire + x.queue && x'.queue == []
    else x'.wire == x.wire + x.queue[..n] && x'.queue == x.queue[n..]
  }

  lemma SentTwice(x: Tx, x1: Tx, x2: Tx, n: nat, m: nat)
    requires SentUpTo(x, x1, n) && SentUpTo(x1, x2, m)
    ensures SentUpTo(x, x2, n + m)
  {
    var q := x.queue;
    if n + m < |q| {
      assert q[..n] + q[n..][..m] == q[..n + m] && q[n..][m..] == q[n + m..];
    } else if n < |q| {
      assert q[..n] + q[n..] == q;
    }
  }

  /** Interrupts send what is queued in order: all of it as soon as the UART has had room for so many bytes. */
  lemma {:induction false} AllSent(l: Line, rooms: seq<nat>)
    ensures CanRun(l, Interrupts(rooms))
    ensures SentUpTo(l.tx, Run(l, Interrupts(rooms)).tx, Total(rooms))
    decreases |rooms|
  {
    if |rooms| > 0 {
      var es := Interrupts(rooms);
      var l1 := Next(l, es[0]);
      assert es[1..] == Interrupts(rooms[1..]);
      InterruptSends(l, rooms[0]);
      assert SentUpTo(l.tx, l1.tx, rooms[0]);
      AllSent(l1, rooms[1..]);
      hide Next, Interrupts, SentUpTo;
      SentTwice(l.tx, l1.tx, Run(l, es).tx, rooms[0], Total(rooms[1..]));
    }
  }

  /** A write puts its next byte last into the buffer as long as there is room. */
  lemma PutTakes(l: Line, t: nat)
    requires Can(l, PutNext(t))
    ensures var c, l' := l.calls[|l.calls| - 1], Next(l, PutNext(t));
      if c.n < |c.text| && |l.tx.queue| < BUF_SIZE - 1 then
        && l'.tx == l.tx.(queue := l.tx.queue + [if c.half then RETURN else c.text[c.n]]) && l'.tasks == l.tasks
        && (l'.calls[|l.calls| - 1].n > c.n || (!c.half && l'.calls[|l.calls| - 1].half))
      else l' == l.(tasks := l.tasks[t := Flushing])
  {
  }

  /** `n` idle tasks and nothing to send. */
  predicate Quiet(l: Line) {
    l.tx == Tx([], [], false) && l.calls == [] && forall t :: 0 <= t < |l.tasks| ==> l.tasks[t] == Idle
  }

  /** In every interleaving of writes and interrupts the bytes accepted reach the UART once and in
      order: those of each write together, newlines expanded, up to what the write reports and at
      most one newline more. */
  lemma AllArrive(l: Line, es: seq<Step>)
    requires Quiet(l) && CanRun(l, es)
    ensures var l' := Run(l, es);
      CallsOk(l'.calls, l'.onlcr) && l'.tx.wire + l'.tx.queue == Blocks(l'.calls, l'.onlcr)
  {
    RunInv(l, es);
  }

  /** Output never gets stuck: when no write is in progress and something is left to send, the
      transmit interrupt is enabled. */
  lemma NeverStuck(l: Line, es: seq<Step>)
    requires Quiet(l) && CanRun(l, es)
    requires forall t :: 0 <= t < |Run(l, es).tasks| ==> Run(l, es).tasks[t] == Idle
    ensures Run(l, es).tx.queue != [] ==> Run(l, es).tx.irq
  {
    RunInv(l, es);
  }

  // ---------------------------------------------------------------- a whole write

  /** What is still to be put of a write. */
  function Rest(c: Call, onlcr: bool): seq<byte>
    requires CallOk(c, onlcr)
  {
    if c.half then [RETURN] + Expanded(c.text[c.n + 1..], onlcr) else Expanded(c.text[c.n..], onlcr)
  }

  /** Each byte that is put is the first of what is still to be put. */
  lemma RestNext(c: Call, onlcr: bool)
    requires CallOk(c, onlcr)
    ensures c.n == |c.text| ==> Rest(c, onlcr) == []
    ensures c.n < |c.text| ==>
      CallOk(Advanced(c, onlcr), onlcr) && Rest(c, onlcr) == [Wanted(c)] + Rest(Advanced(c, onlcr), onlcr)
  {
    if c.n < |c.text| {
      assert c.text[c.n..][1..] == c.text[c.n + 1..];
    }
  }

  function Puts(t: nat, n: nat): (es: seq<Step>)
    ensures |es| == n
  {
    seq(n, i => PutNext(t))
  }

  /** The line while task `t` is writing: its last write has got to `c`, and `q` is queued. */
  function At(l: Line, t: nat, c: Call, q: seq<byte>, task: Task): Line
    requires t < |l.tasks|
  {
    l.(tx := l.tx.(queue := q), tasks := l.tasks[t := task], calls := l.calls + [c])
  }

  lemma PutAt(l: Line, t: nat, c: Call, q: seq<byte>)
    requires t < |l.tasks| && CallOk(c, l.onlcr)
    ensures var s := At(l, t, c, q, Putting);
      && Can(s, PutNext(t))
      && (c.n < |c.text| && |q| < BUF_SIZE - 1 ==>
        Next(s, PutNext(t)) == At(l, t, Advanced(c, l.onlcr), q + [Wanted(c)], Putting))
      && (c.n == |c.text| ==> Next(s, PutNext(t)) == At(l, t, c, q, Flushing))
  {
    hide Advanced, Wanted;
    var s := At(l, t, c, q, Putting);
    assert s.calls[|l.calls|] == c;
    assert forall d :: s.calls[|l.calls| := d] == l.calls + [d];
    assert l.tasks[t := Putting][t := Flushing] == l.tasks[t := Flushing];
  }

  /** The writing task puts all that is left of its write, if there is room for it. */
  lemma {:induction false} PutsRest(l: Line, t: nat, c: Call, q: seq<byte>)
    requires t < |l.tasks| && CallOk(c, l.onlcr) && |q| + |Rest(c, l.onlcr)| < BUF_SIZE
    ensures var s, n := At(l, t, c, q, Putting), |Rest(c, l.onlcr)|;
      && CanRun(s, Puts(t, n + 1))
      && Run(s, Puts(t, n + 1)) == At(l, t, Call(c.text, |c.text|, false), q + Rest(c, l.onlcr), Flushing)
    decreases |Rest(c, l.onlcr)|
  {
    RestNext(c, l.onlcr);
    PutAt(l, t, c, q);
    AdvancedText(c, l.onlcr);
    hide Rest, Wanted, Puts, At, Can, Next, CanRun, Run, CallOk, Advanced;
    var s, n := At(l, t, c, q, Putting), |Rest(c, l.onlcr)|;
    PutsNext(t, n);
    AllPut(c, l.onlcr);
    if c.n < |c.text| {
      PutsRest(l, t, Advanced(c, l.onlcr), q + [Wanted(c)]);
      PutBefore(q, Wanted(c), Rest(Advanced(c, l.onlcr), l.onlcr));
    } else {
      RunNone(Next(s, PutNext(t)));
      assert q + [] == q;
    }
    RunFirst(s, PutNext(t), Puts(t, n));
  }

  lemma PutsNext(t: nat, n: nat)
    ensures Puts(t, n + 1) == [PutNext(t)] + Puts(t, n) && Puts(t, 0) == []
  {
  }

  lemma PutBefore(q: seq<byte>, b: byte, rest: seq<byte>)
    ensures q + ([b] + rest) == q + [b] + rest
  {
  }

  lemma AllPut(c: Call, onlcr: bool)
    requires CallOk(c, onlcr)
    ensures c.n <= |c.text|
    ensures c.n == |c.text| ==> c == Call(c.text, |c.text|, false)
  {
  }

  lemma RunNone(l: Line)
    ensures CanRun(l, []) && Run(l, []) == l
  {
  }

  lemma RunFirst(l: Line, e: Step, es: seq<Step>)
    requires Can(l, e) && CanRun(Next(l, e), es)
    ensures CanRun(l, [e] + es) && Run(l, [e] + es) == Run(Next(l, e), es)
  {
    hide Next, Can;
    assert ([e] + es)[1..] == es;
  }

  lemma AdvancedText(c: Call, onlcr: bool)
    ensures c.n < |c.text| ==> Advanced(c, onlcr).text == c.text
  {
  }

  /** A task that finds the line free and room for all of its text can write it in one go: everything that was queued
      and then the text are on the wire or queued, and the write reports all of the text. */
  lemma WholeWrite(l: Line, t: nat, text: seq<byte>, room: nat)
    requires t < |l.tasks| && l.tasks[t] == Idle && Putting !in l.tasks
    requires |l.tx.queue| + |Expanded(text, l.onlcr)| < BUF_SIZE
    ensures var es := [Start(t, text)] + (Puts(t, |Expanded(text, l.onlcr)| + 1) + [Finish(t, room)]);
      && CanRun(l, es)
      && var l' := Run(l, es);
      && l'.tx.wire + l'.tx.queue == l.tx.wire + l.tx.queue + Expanded(text, l.onlcr)
      && l'.calls == l.calls + [Call(text, |text|, false)] && l'.tasks == l.tasks && l'.onlcr == l.onlcr
  {
    var all, c := Expanded(text, l.onlcr), Call(text, 0, false);
    var puts := Puts(t, |all| + 1);
    var more := puts + [Finish(t, room)];
    assert text[0..] == text && Rest(c, l.onlcr) == all;
    PutsRest(l, t, c, l.tx.queue);
    FinishAt(l, t, Call(text, |text|, false), l.tx.queue + all, room);
    assert Can(l, Start(t, text)) && Next(l, Start(t, text)) == At(l, t, c, l.tx.queue, Putting);
    hide Rest, Expanded, Puts, At, Can, Next, CanRun, Run;
    RunMore(At(l, t, c, l.tx.queue, Putting), puts, Finish(t, room));
    RunFirst(l, Start(t, text), more);
    assert l.tx.wire + (l.tx.queue + all) == l.tx.wire + l.tx.queue + all;
  }

  lemma FinishAt(l: Line, t: nat, c: Call, q: seq<byte>, room: nat)
    requires t < |l.tasks| && l.tasks[t] == Idle
    ensures var s := At(l, t, c, q, Flushing);
      && Can(s, Finish(t, room))
      && var l' := Next(s, Finish(t, room));
      && l'.tx.wire + l'.tx.queue == l.tx.wire + q
      && l'.calls == l.calls + [c] && l'.tasks == l.tasks && l'.onlcr == l.onlcr
  {
    var n := Min(room, |q|);
    assert l.tx.wire + q[..n] + q[n..] == l.tx.wire + q by { assert q[..n] + q[n..] == q; }
    assert l.tasks[t := Flushing][t := Idle] == l.tasks;
  }

  /** A run with one step more at the end. */
  lemma {:induction false} RunMore(l: Line, es: seq<Step>, e: Step)
    requires CanRun(l, es) && Can(Run(l, es), e)
    ensures CanRun(l, es + [e]) && Run(l, es + [e]) == Next(Run(l, es), e)
    decreases |es|
  {
    hide Next, Can;
    if |es| > 0 {
      RunMore(Next(l, es[0]), es[1..], e);
      assert (es + [e])[1..] == es[1..] + [e];
    } else {
      assert es + [e] == [e] && [e][1..] == [];
    }
  }
}
