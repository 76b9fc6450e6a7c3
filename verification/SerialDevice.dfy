/** Circle's serial device: ring buffers shared with the interrupt handler.  Each method but `Write` is
    one section under the buffer lock. */
module SerialDevice {
  import opened Common
  import opened SerialLine

  const ERROR_BREAK := 1
  const ERROR_OVERRUN := 2
  const ERROR_FRAMING := 3
  const ERROR_PARITY := 4

  /** A word from the data register of the UART. */
  datatype Received = Received(data: byte, be: bool, oe: bool, fe: bool, pe: bool)

  /** The receive side: the buffer and the first error not reported yet. */
  datatype Rx = Rx(queue: seq<byte>, status: int)

  function ErrorOf(r: Received): int {
    if r.be then -ERROR_BREAK else if r.oe then -ERROR_OVERRUN
    else if r.fe then -ERROR_FRAMING else if r.pe then -ERROR_PARITY else 0
  }

  /** A byte arrives, faulty or not; it is dropped if the buffer is full. */
  function Arrived(x: Rx, r: Received): Rx {
    var status := if x.status == 0 then ErrorOf(r) else x.status;
    if |x.queue| < BUF_SIZE - 1 then Rx(x.queue + [r.data], status)
    else Rx(x.queue, if status == 0 then -ERROR_OVERRUN else status)
  }

  function AllArrived(x: Rx, rs: seq<Received>): Rx
    decreases |rs|
  {
    if |rs| == 0 then x else AllArrived(Arrived(x, rs[0]), rs[1..])
  }

  /** No byte is lost without an error: if none is reported, all bytes have been queued in order. */
  lemma {:induction false} NothingLostSilently(x: Rx, rs: seq<Received>)
    requires x.status == 0 && AllArrived(x, rs).status == 0
    ensures |AllArrived(x, rs).queue| == |x.queue| + |rs| && x.queue <= AllArrived(x, rs).queue
    ensures forall i :: 0 <= i < |rs| ==> AllArrived(x, rs).queue[|x.queue| + i] == rs[i].data && ErrorOf(rs[i]) == 0
    decreases |rs|
  {
    if |rs| > 0 {
      ErrorStays(Arrived(x, rs[0]), rs[1..]);
      NothingLostSilently(Arrived(x, rs[0]), rs[1..]);
      assert forall i :: 0 < i < |rs| ==> rs[i] == rs[1..][i - 1];
    }
  }

  /** The first error is kept until it is read. */
  lemma {:induction false} ErrorStays(x: Rx, rs: seq<Received>)
    ensures x.status != 0 ==> AllArrived(x, rs).status == x.status
    decreases |rs|
  {
    if |rs| > 0 { ErrorStays(Arrived(x, rs[0]), rs[1..]); }
  }

  /** An error is noted if and only if a byte is faulty or finds the buffer full. */
  lemma {:induction false} ErrorIff(x: Rx, rs: seq<Received>)
    requires x.status == 0 && |x.queue| < BUF_SIZE
    ensures AllArrived(x, rs).status == 0 <==>
      |x.queue| + |rs| < BUF_SIZE && forall r :: r in rs ==> !r.be && !r.oe && !r.fe && !r.pe
    decreases |rs|
  {
    if |rs| > 0 {
      var x1 := Arrived(x, rs[0]);
      if x1.status == 0 {
        ErrorIff(x1, rs[1..]);
        assert forall r :: r in rs <==> r == rs[0] || r in rs[1..];
      } else {
        ErrorStays(x1, rs[1..]);
        assert rs[0] in rs;
      }
    }
  }

  // ---------------------------------------------------------------- ring buffers

  /** The oldest bytes have moved from the buffer to the wire: as many as there was room for. */
  predicate MovedOn(x: Tx, x': Tx, room: nat) {
    var n := if room < |x.queue| then room else |x.queue|;
    x'.wire == x.wire + x.queue[..n] && x'.queue == x.queue[n..]
  }

  predicate RingOk(buf: seq<byte>, inPtr: nat, outPtr: nat) {
    |buf| == BUF_SIZE && inPtr < BUF_SIZE && outPtr < BUF_SIZE
  }

  /** What is between the pointers. */
  function Window(buf: seq<byte>, inPtr: nat, outPtr: nat): (w: seq<byte>)
    requires RingOk(buf, inPtr, outPtr)
    ensures |w| < BUF_SIZE
  {
    if outPtr <= inPtr then buf[outPtr..inPtr] else buf[outPtr..] + buf[..inPtr]
  }

  lemma FlushMoves(x: Tx, room: nat)
    ensures MovedOn(x, Flush(x, room), room) && (Flush(x, room).irq <==> x.irq || room < |x.queue|)
    ensures MovedOn(x, Serve(x, room), room) && (Serve(x, room).irq <==> x.irq && room <= |x.queue|)
  {
  }

  /** A pointer moved on by one. */
  function Wrap(p: nat): nat {
    (p + 1) % BUF_SIZE
  }

  lemma PushWindow(buf: seq<byte>, inPtr: nat, outPtr: nat, b: byte)
    requires RingOk(buf, inPtr, outPtr)
    ensures Wrap(inPtr) != outPtr <==> |Window(buf, inPtr, outPtr)| < BUF_SIZE - 1
    ensures Wrap(inPtr) != outPtr ==>
      RingOk(buf[inPtr := b], Wrap(inPtr), outPtr)
      && Window(buf[inPtr := b], Wrap(inPtr), outPtr) == Window(buf, inPtr, outPtr) + [b]
  {
  }

  lemma PopWindow(buf: seq<byte>, inPtr: nat, outPtr: nat)
    requires RingOk(buf, inPtr, outPtr)
    ensures inPtr != outPtr <==> |Window(buf, inPtr, outPtr)| > 0
    ensures inPtr != outPtr ==>
      && RingOk(buf, inPtr, Wrap(outPtr)) && Window(buf, inPtr, outPtr)[0] == buf[outPtr]
      && Window(buf, inPtr, Wrap(outPtr)) == Window(buf, inPtr, outPtr)[1..]
  {
  }

  class SerialDevice {
    const txBuffer: array<byte>
    const rxBuffer: array<byte>
    var txIn: nat
    var txOut: nat
    var rxIn: nat
    var rxOut: nat
    var rxStatus: int
    var txIrq: bool
    var onlcr: bool
    ghost var wire: seq<byte>

    ghost predicate Valid()
      reads this, txBuffer, rxBuffer
    {
      txBuffer != rxBuffer && RingOk(txBuffer[..], txIn, txOut) && RingOk(rxBuffer[..], rxIn, rxOut)
    }

    ghost function TxSide(): Tx
      requires Valid()
      reads this, txBuffer, rxBuffer
    {
      Tx(Window(txBuffer[..], txIn, txOut), wire, txIrq)
    }

    ghost function RxSide(): Rx
      requires Valid()
      reads this, txBuffer, rxBuffer
    {
      Rx(Window(rxBuffer[..], rxIn, rxOut), rxStatus)
    }

    constructor ()
      ensures Valid() && fresh(txBuffer) && fresh(rxBuffer)
      ensures TxSide() == Tx([], [], false) && RxSide() == Rx([], 0) && onlcr
    {
      txBuffer, rxBuffer := new byte[BUF_SIZE](i => 0), new byte[BUF_SIZE](i => 0);
      txIn, txOut, rxIn, rxOut, rxStatus, txIrq, onlcr, wire := 0, 0, 0, 0, 0, false, true, [];
    }

    /** Puts a byte into the transmit buffer if there is room. */
    method WriteByte(b: byte) returns (ok: bool)
      requires Valid()
      modifies this`txIn, txBuffer
      ensures Valid() && TxSide() == Put(old(TxSide()), b) && RxSide() == old(RxSide())
      ensures ok <==> |old(TxSide()).queue| < BUF_SIZE - 1
      ensures TxSide() == old(TxSide()).(queue := old(TxSide()).queue + if ok then [b] else [])
    {
      PushWindow(txBuffer[..], txIn, txOut, b);
      ghost var was := txBuffer[..];
      ok := Wrap(txIn) != txOut;
      if ok {
        txBuffer[txIn] := b;
        assert txBuffer[..] == was[txIn := b];
        txIn := Wrap(txIn);
      }
    }

    /** Hands the oldest byte to the UART. */
    method SendByte()
      requires Valid() && txIn != txOut
      modifies this`txOut, this`wire
      ensures Valid() && |old(TxSide()).queue| > 0 && TxSide() == Sent(old(TxSide()), 1) && RxSide() == old(RxSide())
    {
      PopWindow(txBuffer[..], txIn, txOut);
      wire := wire + [txBuffer[txOut]];
      txOut := Wrap(txOut);
    }

    /** The end of a write; the UART is full after `room0` more bytes. */
    method FlushTx(room0: nat)
      requires Valid()
      modifies this`txOut, this`wire, this`txIrq
      ensures Valid() && TxSide() == Flush(old(TxSide()), room0) && RxSide() == old(RxSide())
      ensures MovedOn(old(TxSide()), TxSide(), room0) && (txIrq <==> old(txIrq) || room0 < |old(TxSide()).queue|)
    {
      hide Window, Wrap, Sent, MovedOn;
      var room: nat := room0;
      SentNone(TxSide());
      PopWindow(txBuffer[..], txIn, txOut);
      while txIn != txOut
        invariant Valid() && room <= room0 && room0 - room <= |old(TxSide()).queue| && RxSide() == old(RxSide())
        invariant TxSide() == Sent(old(TxSide()), room0 - room)
        decreases room
      {
        PopWindow(txBuffer[..], txIn, txOut);
        SentFacts(old(TxSide()), room0 - room);
        if room > 0 {
          SendByte();
          SentMore(old(TxSide()), room0 - room);
          room := room - 1;
        } else {
          txIrq := true;
          break;
        }
      }
      PopWindow(txBuffer[..], txIn, txOut);
      SentFacts(old(TxSide()), room0 - room);
      FlushMoves(old(TxSide()), room0);
    }

    /** A byte from the UART is put into the receive buffer. */
    method ReceiveByte(r: Received)
      requires Valid()
      modifies this`rxIn, this`rxStatus, rxBuffer
      ensures Valid() && RxSide() == Arrived(old(RxSide()), r) && TxSide() == old(TxSide())
      ensures var x := old(RxSide());
        && RxSide().queue == x.queue + (if |x.queue| < BUF_SIZE - 1 then [r.data] else [])
        && RxSide().status ==
          if x.status != 0 then x.status else if r.be then -1 else if r.oe then -2 else if r.fe then -3
          else if r.pe then -4 else if |x.queue| < BUF_SIZE - 1 then 0 else -2
    {
      if r.be {
        if rxStatus == 0 { rxStatus := -ERROR_BREAK; }
      } else if r.oe {
        if rxStatus == 0 { rxStatus := -ERROR_OVERRUN; }
      } else if r.fe {
        if rxStatus == 0 { rxStatus := -ERROR_FRAMING; }
      } else if r.pe {
        if rxStatus == 0 { rxStatus := -ERROR_PARITY; }
      }
      PushWindow(rxBuffer[..], rxIn, rxOut, r.data);
      ghost var was := rxBuffer[..];
      if Wrap(rxIn) != rxOut {
        rxBuffer[rxIn] := r.data;
        assert rxBuffer[..] == was[rxIn := r.data];
        rxIn := Wrap(rxIn);
      } else if rxStatus == 0 {
        rxStatus := -ERROR_OVERRUN;
      }
    }

    /** Serves the UART: `rs` is what it has received, and it is full after `room0` more bytes. */
    method InterruptHandler(rs: seq<Received>, room0: nat)
      requires Valid()
      modifies this, txBuffer, rxBuffer
      ensures Valid() && RxSide() == AllArrived(old(RxSide()), rs) && TxSide() == Serve(old(TxSide()), room0)
      ensures MovedOn(old(TxSide()), TxSide(), room0) && (txIrq <==> old(txIrq) && room0 <= |old(TxSide()).queue|)
      ensures onlcr == old(onlcr)
    {
      hide Window, MovedOn, Serve, Arrived;
      var i := 0;
      assert rs[0..] == rs;
      while i < |rs|
        invariant i <= |rs| && Valid() && TxSide() == old(TxSide()) && onlcr == old(onlcr)
        invariant AllArrived(RxSide(), rs[i..]) == AllArrived(old(RxSide()), rs)
      {
        assert rs[i..][1..] == rs[i + 1..];
        ReceiveByte(rs[i]);
        i := i + 1;
      }
      ServeTx(room0);
    }

    method ServeTx(room0: nat)
      requires Valid()
      modifies this`txOut, this`wire, this`txIrq
      ensures Valid() && TxSide() == Serve(old(TxSide()), room0) && RxSide() == old(RxSide())
      ensures MovedOn(old(TxSide()), TxSide(), room0) && (txIrq <==> old(txIrq) && room0 <= |old(TxSide()).queue|)
    {
      hide Window, Wrap, Sent, MovedOn;
      var room: nat := room0;
      SentNone(TxSide());
      while room > 0
        invariant Valid() && room <= room0 && room0 - room <= |old(TxSide()).queue| && RxSide() == old(RxSide())
        invariant TxSide() == Sent(old(TxSide()), room0 - room)
      {
        PopWindow(txBuffer[..], txIn, txOut);
        SentFacts(old(TxSide()), room0 - room);
        if txIn != txOut {
          SendByte();
          SentMore(old(TxSide()), room0 - room);
          room := room - 1;
        } else {
          txIrq := false;
          break;
        }
      }
      SentFacts(old(TxSide()), room0 - room);
      FlushMoves(old(TxSide()), room0);
    }

    /** Takes up to `count` bytes from the receive buffer, or reports an error. */
    method Read(count: nat) returns (result: int, bytes: seq<byte>)
      requires Valid()
      modifies this`rxOut, this`rxStatus
      ensures Valid() && TxSide() == old(TxSide())
      ensures old(rxStatus) < 0 ==> result == old(rxStatus) && bytes == [] && RxSide() == old(RxSide()).(status := 0)
      ensures old(rxStatus) >= 0 ==>
        var n := Min(count, |old(RxSide()).queue|);
        && result == n && bytes == old(RxSide()).queue[..n]
        && RxSide() == old(RxSide()).(queue := old(RxSide()).queue[n..])
    {
      hide Window, Wrap;
      result, bytes := 0, [];
      if rxStatus < 0 {
        result := rxStatus;
        rxStatus := 0;
        return;
      }
      ghost var queue := RxSide().queue;
      while |bytes| < count
        invariant Valid() && |bytes| <= count && result == |bytes| <= |queue| && bytes == queue[..|bytes|]
        invariant RxSide() == old(RxSide()).(queue := queue[|bytes|..]) && TxSide() == old(TxSide())
      {
        PopWindow(rxBuffer[..], rxIn, rxOut);
        if rxIn == rxOut {
          break;
        }
        assert rxBuffer[rxOut] == queue[|bytes|..][0];
        assert queue[|bytes|..][1..] == queue[|bytes| + 1..];
        bytes := bytes + [rxBuffer[rxOut]];
        rxOut := Wrap(rxOut);
        result := result + 1;
      }
    }

    method AvailableForWrite() returns (n: nat)
      requires Valid()
      ensures n + |TxSide().queue| == BUF_SIZE - 1
    {
      n := if txOut <= txIn then BUF_SIZE + txOut - txIn - 1 else txOut - txIn - 1;
    }

    method AvailableForRead() returns (n: nat)
      requires Valid()
      ensures n == |RxSide().queue|
    {
      n := if rxIn < rxOut then BUF_SIZE + rxIn - rxOut else rxIn - rxOut;
    }

    /** Writes a text without being interrupted: what is accepted is a prefix of it, and more is
        accepted unless the buffer is full. */
    method Write(text: seq<byte>, room: nat) returns (result: nat, ghost half: bool)
      requires Valid()
      modifies this, txBuffer
      ensures Valid() && RxSide() == old(RxSide()) && onlcr == old(onlcr) && result <= |text|
      ensures
        var c := Call(text, result, half);
        && CallOk(c, onlcr)
        && (result < |text| ==> |old(TxSide()).queue + Block(c, onlcr)| == BUF_SIZE - 1)
        && TxSide() == Flush(old(TxSide()).(queue := old(TxSide()).queue + Block(c, onlcr)), room)
    {
      hide Window, Wrap, Block, Flush, RingOk;
      ghost var was, c := TxSide(), Call(text, 0, false);
      BlockNone(text, onlcr);
      result := 0;
      assert was.queue + [] == was.queue;
      while result < |text|
        invariant Valid() && RxSide() == old(RxSide()) && onlcr == old(onlcr)
        invariant result <= |text| && c == Call(text, result, false)
        invariant TxSide() == was.(queue := was.queue + Block(c, onlcr))
      {
        var ok := WriteByte(text[result]);
        if !ok {
          break;
        }
        AdvancedBlock(c, onlcr);
        assert (was.queue + Block(c, onlcr)) + [text[result]] == was.queue + (Block(c, onlcr) + [text[result]]);
        c := Advanced(c, onlcr);
        assert TxSide() == was.(queue := was.queue + Block(c, onlcr));
        if text[result] == NEWLINE && onlcr {
          ok := WriteByte(RETURN);
          if !ok {
            break;
          }
          AdvancedBlock(c, onlcr);
          assert (was.queue + Block(c, onlcr)) + [RETURN] == was.queue + (Block(c, onlcr) + [RETURN]);
          c := Advanced(c, onlcr);
        }
        result := result + 1;
      }
      half := c.half;
      FlushTx(room);
    }
  }

  lemma BlockNone(text: seq<byte>, onlcr: bool)
    ensures Block(Call(text, 0, false), onlcr) == []
  {
    assert text[..0] == [];
  }

  lemma SentNone(x: Tx)
    ensures Sent(x, 0) == x
  {
  }

  lemma SentFacts(x: Tx, n: nat)
    requires n <= |x.queue|
    ensures |Sent(x, n).queue| == |x.queue| - n && Sent(x, n).irq == x.irq
  {
  }

  lemma SentMore(x: Tx, n: nat)
    requires n < |x.queue|
    ensures Sent(Sent(x, n), 1) == Sent(x, n + 1)
  {
    assert x.wire + x.queue[..n] + x.queue[n..][..1] == x.wire + x.queue[..n + 1];
  }

  // ---------------------------------------------------------------- without interrupts

  /** How many of the bytes waiting in the UART a polling read can take: up to a limit, and up to the first
      that is faulty. */
  function Clean(rs: seq<Received>, count: nat): (n: nat)
    ensures n <= |rs| && n <= count && forall i :: 0 <= i < n ==> ErrorOf(rs[i]) == 0
    ensures n < |rs| && n < count ==> ErrorOf(rs[n]) != 0
    decreases |rs|
  {
    if |rs| == 0 || count == 0 || ErrorOf(rs[0]) != 0 then 0 else 1 + Clean(rs[1..], count - 1)
  }

  lemma {:induction false} CleanUpTo(rs: seq<Received>, count: nat, n: nat)
    requires n <= |rs| && n <= count && forall i :: 0 <= i < n ==> ErrorOf(rs[i]) == 0
    requires n == |rs| || n == count || ErrorOf(rs[n]) != 0
    ensures Clean(rs, count) == n
    decreases n
  {
    if n > 0 { CleanUpTo(rs[1..], count - 1, n - 1); }
  }

  /** The device where it has not been given an interrupt system: it waits for the UART instead. */
  class PolledDevice {
    var onlcr: bool
    ghost var wire: seq<byte>

    constructor ()
      ensures wire == [] && onlcr
    {
      onlcr, wire := true, [];
    }

    method WriteByte(b: byte) returns (ok: bool)
      modifies this`wire
      ensures ok && wire == old(wire) + [b]
    {
      ok := true;
      wire := wire + [b];
    }

    /** All of the text is sent, newlines expanded. */
    method Write(text: seq<byte>) returns (result: nat)
      modifies this`wire
      ensures result == |text| && wire == old(wire) + Expanded(text, onlcr)
    {
      result := 0;
      assert text[..0] == [];
      while result < |text|
        invariant result <= |text| && wire == old(wire) + Expanded(text[..result], onlcr)
      {
        ExpandedSnoc(text, result, onlcr);
        var ok := WriteByte(text[result]);
        if !ok { break; }
        if text[result] == NEWLINE && onlcr {
          ok := WriteByte(RETURN);
          if !ok { break; }
        }
        result := result + 1;
      }
      assert text[..|text|] == text;
    }

    /** Takes bytes from the UART, where `rs` is waiting.  A faulty byte ends the read with its error, and what
        has been taken before it is not reported. */
    method Read(count: nat, rs: seq<Received>) returns (result: int, bytes: seq<byte>, taken: nat)
      ensures var n := Clean(rs, count);
        && |bytes| == n && (forall i :: 0 <= i < n ==> bytes[i] == rs[i].data)
        && if n < |rs| && n < count then result == ErrorOf(rs[n]) < 0 && taken == n + 1 else result == taken == n
    {
      result, bytes, taken := 0, [], 0;
      while taken < count
        invariant taken <= |rs| && taken <= count && result == taken == |bytes|
        invariant forall i :: 0 <= i < taken ==> ErrorOf(rs[i]) == 0 && bytes[i] == rs[i].data
      {
        if taken == |rs| { break; }
        var r := rs[taken];
        if r.be || r.oe || r.fe || r.pe {
          CleanUpTo(rs, count, taken);
          result := if r.be then -ERROR_BREAK else if r.oe then -ERROR_OVERRUN
            else if r.fe then -ERROR_FRAMING else -ERROR_PARITY;
          taken := taken + 1;
          return;
        }
        bytes := bytes + [r.data];
        taken := taken + 1;
        result := result + 1;
      }
      CleanUpTo(rs, count, taken);
    }
  }
}
