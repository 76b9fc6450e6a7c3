/** The transmit rings of the Ethernet driver for the BCM54213PE: the driver fills slots and counts
    with 16 bits, and the network controller consumes at its own pace. */
module TxRing {
  const MODULUS := 0x1_0000
  const TX_QUEUES := 4
  const TX_BDS_PER_Q := 32
  const GENET_DESC_INDEX := 16
  const TOTAL_DESC := 256

  /** The i-th slot of a ring, when slots are taken in turn. */
  function Slot(i: nat, size: nat): (s: nat)
    requires size > 0
    ensures s < size
  {
    if i == 0 then 0
    else
      var s := Slot(i - 1, size);
      if s + 1 == size then 0 else s + 1
  }

  lemma {:induction false} SlotAhead(i: nat, k: nat, size: nat)
    requires k < size
    ensures Slot(i + k, size) == if Slot(i, size) + k < size then Slot(i, size) + k else Slot(i, size) + k - size
  {
    if k > 0 { SlotAhead(i, k - 1, size); }
  }

  /** Turns less than one round apart use different slots. */
  lemma SlotsDiffer(i: nat, j: nat, size: nat)
    requires i < j < i + size
    ensures Slot(i, size) != Slot(j, size)
  {
    SlotAhead(i, j - i, size);
  }

  datatype Ring = Ring(size: nat, cbPtr: nat, endPtr: nat, cleanPtr: nat, cIndex: nat, freeBds: nat,
                       writePtr: nat, prodIndex: nat)

  /** What has truly happened on a ring: the buffers sent, how many of them the controller has
      consumed, and the buffers the driver has freed. */
  datatype Past = Past(sent: seq<nat>, consumed: nat, freed: seq<nat>)

  ghost predicate RingOk(r: Ring, p: Past, cbs: seq<nat>) {
    Numbers(r, p, |cbs|) && Filled(r, p, cbs)
  }

  /** The indices of a ring among all slots agree with what has happened. */
  ghost predicate Numbers(r: Ring, p: Past, slots: nat) {
    && 0 < r.size < MODULUS && r.endPtr == r.cbPtr + r.size - 1 < slots
    && |p.freed| <= p.consumed <= |p.sent| <= |p.freed| + r.size
    && r.prodIndex == |p.sent| % MODULUS && r.cIndex == |p.freed| % MODULUS
    && r.freeBds + |p.sent| == r.size + |p.freed|
    && r.writePtr == r.cbPtr + Slot(|p.sent|, r.size) && r.cleanPtr == r.cbPtr + Slot(|p.freed|, r.size)
  }

  /** The buffers that have been sent but not freed are in their slots. */
  ghost predicate Filled(r: Ring, p: Past, cbs: seq<nat>)
    requires Numbers(r, p, |cbs|)
  {
    && p.freed == p.sent[..|p.freed|]
    && forall i :: |p.freed| <= i < |p.sent| ==> p.sent[i] != 0 && cbs[r.cbPtr + Slot(i, r.size)] == p.sent[i]
  }

  predicate Apart(a: Ring, b: Ring) {
    a.endPtr < b.cbPtr || b.endPtr < a.cbPtr
  }

  /** Distance between two 16-bit counters. */
  function Behind(c: nat, d: nat): (n: nat)
    requires c < MODULUS && d < MODULUS
  {
    if c >= d then c - d else c - d + MODULUS
  }

  /** Counters less than one turn apart tell their true distance. */
  lemma BehindTrue(x: nat, y: nat)
    requires y <= x < y + MODULUS
    ensures Behind(x % MODULUS, y % MODULUS) == x - y
  {
  }

  /** Free slots and those in flight, as the 16-bit counters tell, always make up the ring. */
  lemma SlotsConserved(r: Ring, p: Past, cbs: seq<nat>)
    requires RingOk(r, p, cbs)
    ensures r.prodIndex < MODULUS && r.cIndex < MODULUS && r.freeBds + Behind(r.prodIndex, r.cIndex) == r.size
  {
    BehindTrue(|p.sent|, |p.freed|);
  }

  // ---------------------------------------------------------------- steps

  /** A buffer is put into the next slot. */
  function Sent(r: Ring): Ring {
    r.(freeBds := if r.freeBds > 0 then r.freeBds - 1 else 0, prodIndex := (r.prodIndex + 1) % MODULUS,
       writePtr := if r.writePtr == r.endPtr then r.cbPtr else r.writePtr + 1)
  }

  /** The write pointer is at the slot of the next buffer, and goes on to that of the one after it. */
  lemma WritesRound(r: Ring, p: Past, slots: nat)
    requires Numbers(r, p, slots)
    ensures r.size > 0 && r.writePtr == r.cbPtr + Slot(|p.sent|, r.size) && r.cbPtr <= r.writePtr <= r.endPtr
    ensures r.cbPtr + Slot(|p.sent| + 1, r.size) == if r.writePtr == r.endPtr then r.cbPtr else r.writePtr + 1
  {
    if r.size > 1 { SlotAhead(|p.sent|, 1, r.size); }
  }

  lemma SentSlots(r: Ring, p: Past, cbs: seq<nat>, buffer: nat)
    requires RingOk(r, p, cbs) && r.freeBds > 0 && buffer != 0
    ensures r.writePtr < |cbs|
    ensures forall i :: |p.freed| <= i <= |p.sent| ==>
      (p.sent + [buffer])[i] != 0 && cbs[r.writePtr := buffer][r.cbPtr + Slot(i, r.size)] == (p.sent + [buffer])[i]
  {
    hide Slot;
    forall i | |p.freed| <= i < |p.sent| ensures Slot(i, r.size) != Slot(|p.sent|, r.size) {
      SlotsDiffer(i, |p.sent|, r.size);
    }
  }

  lemma SentNumbers(r: Ring, p: Past, slots: nat, buffer: nat)
    requires Numbers(r, p, slots) && r.freeBds > 0
    ensures r.writePtr < slots && Numbers(Sent(r), p.(sent := p.sent + [buffer]), slots)
  {
    WritesRound(r, p, slots);
    hide Slot;
  }

  lemma SentOk(r: Ring, p: Past, cbs: seq<nat>, buffer: nat)
    requires RingOk(r, p, cbs) && r.freeBds > 0 && buffer != 0
    ensures r.writePtr < |cbs| && RingOk(Sent(r), p.(sent := p.sent + [buffer]), cbs[r.writePtr := buffer])
  {
    SentNumbers(r, p, |cbs|, buffer);
    SentSlots(r, p, cbs, buffer);
    hide Slot, Numbers;
    assert p.sent[..|p.freed|] == (p.sent + [buffer])[..|p.freed|];
  }

  /** The buffer in the oldest slot is freed. */
  function Cleaned(r: Ring, p: Past): Ring {
    r.(cleanPtr := if r.cleanPtr < r.endPtr then r.cleanPtr + 1 else r.cbPtr,
       freeBds := r.freeBds + 1, cIndex := (|p.freed| + 1) % MODULUS)
  }

  lemma CleanedOk(r: Ring, p: Past, cbs: seq<nat>)
    requires RingOk(r, p, cbs) && |p.freed| < p.consumed
    ensures r.cleanPtr < |cbs| && r.cbPtr <= r.cleanPtr <= r.endPtr && cbs[r.cleanPtr] != 0
    ensures RingOk(Cleaned(r, p), p.(freed := p.freed + [cbs[r.cleanPtr]]), cbs[r.cleanPtr := 0])
  {
    var n := |p.freed|;
    forall i | n < i < |p.sent| ensures Slot(i, r.size) != Slot(n, r.size) {
      SlotsDiffer(n, i, r.size);
    }
    assert p.sent[..n + 1] == p.sent[..n] + [p.sent[n]];
  }

  lemma RingCounts(r: Ring, p: Past, cbs: seq<nat>)
    requires RingOk(r, p, cbs)
    ensures |p.freed| <= p.consumed <= |p.sent| && p.freed == p.sent[..|p.freed|] && r.cIndex == |p.freed| % MODULUS
    ensures r.cIndex < MODULUS && Behind(p.consumed % MODULUS, r.cIndex) == p.consumed - |p.freed|
  {
    BehindTrue(p.consumed, |p.freed|);
  }

  lemma ConsumedOk(r: Ring, p: Past, cbs: seq<nat>, consumed: nat)
    requires RingOk(r, p, cbs) && p.consumed <= consumed <= |p.sent|
    ensures RingOk(r, p.(consumed := consumed), cbs)
  {
  }

  /** Another ring does not notice. */
  lemma OtherOk(r: Ring, p: Past, cbs: seq<nat>, cbs': seq<nat>, other: Ring)
    requires RingOk(r, p, cbs) && Apart(r, other) && |cbs'| == |cbs|
    requires forall i :: 0 <= i < |cbs| && !(other.cbPtr <= i <= other.endPtr) ==> cbs'[i] == cbs[i]
    ensures RingOk(r, p, cbs')
  {
  }

  /** All rings are in order, and no two of them share a slot. */
  ghost predicate Good(rings: map<nat, Ring>, past: map<nat, Past>, cbs: seq<nat>) {
    && rings.Keys == past.Keys
    && (forall k :: k in rings ==> RingOk(rings[k], past[k], cbs))
    && forall j, k :: j in rings && k in rings && j != k ==> Apart(rings[j], rings[k])
  }

  lemma GoodStep(rings: map<nat, Ring>, past: map<nat, Past>, cbs: seq<nat>, index: nat, r: Ring, p: Past,
    cbs': seq<nat>)
    requires Good(rings, past, cbs) && index in rings && |cbs'| == |cbs| && RingOk(r, p, cbs')
    requires r.cbPtr == rings[index].cbPtr && r.endPtr == rings[index].endPtr
    requires forall i :: 0 <= i < |cbs| && !(r.cbPtr <= i <= r.endPtr) ==> cbs'[i] == cbs[i]
    ensures Good(rings[index := r], past[index := p], cbs')
  {
    hide RingOk;
    forall k | k in rings && k != index ensures RingOk(rings[k], past[k], cbs') {
      OtherOk(rings[k], past[k], cbs, cbs', rings[index]);
    }
  }

  lemma GoodKeys(rings: map<nat, Ring>, past: map<nat, Past>, cbs: seq<nat>)
    requires Good(rings, past, cbs)
    ensures rings.Keys == past.Keys
  {
  }

  lemma GoodRing(rings: map<nat, Ring>, past: map<nat, Past>, cbs: seq<nat>, index: nat)
    requires Good(rings, past, cbs) && index in rings
    ensures index in past && RingOk(rings[index], past[index], cbs)
    ensures rings[index].writePtr < |cbs| && rings[index].cbPtr <= rings[index].writePtr <= rings[index].endPtr
    ensures rings[index].cleanPtr < |cbs| && rings[index].cbPtr <= rings[index].cleanPtr <= rings[index].endPtr
  {
  }

  function NewRing(size: nat, startPtr: nat): Ring
    requires size > 0
  {
    Ring(size, startPtr, startPtr + size - 1, startPtr, 0, size, startPtr, 0)
  }

  /** The first `n` priority queues are set up side by side. */
  ghost predicate Queues(rings: map<nat, Ring>, past: map<nat, Past>, n: nat) {
    && (forall k :: k in rings <==> 0 <= k < n) && rings.Keys == past.Keys
    && forall k :: 0 <= k < n ==> rings[k] == NewRing(TX_BDS_PER_Q, TX_BDS_PER_Q * k) && past[k] == Past([], 0, [])
  }

  /** All five queues are set up, and the default queue has the second half of the slots. */
  ghost predicate AllQueues(rings: map<nat, Ring>, past: map<nat, Past>) {
    && Queues(rings - {GENET_DESC_INDEX}, past - {GENET_DESC_INDEX}, TX_QUEUES)
    && GENET_DESC_INDEX in rings && rings[GENET_DESC_INDEX] == NewRing(128, 128)
    && GENET_DESC_INDEX in past && past[GENET_DESC_INDEX] == Past([], 0, [])
  }

  lemma GoodNew(rings: map<nat, Ring>, past: map<nat, Past>, cbs: seq<nat>, index: nat, size: nat, startPtr: nat)
    requires Good(rings, past, cbs) && index !in rings && 0 < size < MODULUS && startPtr + size <= |cbs|
    requires forall k :: k in rings ==> rings[k].endPtr < startPtr || startPtr + size - 1 < rings[k].cbPtr
    ensures Good(rings[index := NewRing(size, startPtr)], past[index := Past([], 0, [])], cbs)
  {
    var r := NewRing(size, startPtr);
    assert RingOk(r, Past([], 0, []), cbs);
    hide RingOk;
  }

  lemma QueuesNone(rings: map<nat, Ring>, past: map<nat, Past>)
    requires rings == map[] && past.Keys == rings.Keys
    ensures Queues(rings, past, 0)
  {
  }

  lemma QueuesNext(rings: map<nat, Ring>, past: map<nat, Past>, n: nat)
    requires Queues(rings, past, n)
    ensures n !in rings &&
      Queues(rings[n := NewRing(TX_BDS_PER_Q, TX_BDS_PER_Q * n)], past[n := Past([], 0, [])], n + 1)
    ensures forall k :: k in rings ==> rings[k].endPtr < TX_BDS_PER_Q * n
  {
  }

  lemma QueuesDone(rings: map<nat, Ring>, past: map<nat, Past>)
    requires Queues(rings, past, TX_QUEUES)
    ensures GENET_DESC_INDEX !in rings && forall k :: k in rings ==> rings[k].endPtr < 128
    ensures AllQueues(rings[GENET_DESC_INDEX := NewRing(128, 128)], past[GENET_DESC_INDEX := Past([], 0, [])])
  {
    var rings', past' := rings[GENET_DESC_INDEX := NewRing(128, 128)], past[GENET_DESC_INDEX := Past([], 0, [])];
    assert rings' - {GENET_DESC_INDEX} == rings && past' - {GENET_DESC_INDEX} == past;
  }

  class Device {
    const cbs: array<nat>
    var rings: map<nat, Ring>
    ghost var past: map<nat, Past>

    ghost predicate Valid()
      reads this, cbs
    {
      Good(rings, past, cbs[..])
    }

    constructor ()
      ensures Valid() && rings.Keys == {} && cbs.Length == TOTAL_DESC && fresh(cbs)
    {
      cbs := new nat[TOTAL_DESC](i => 0);
      rings, past := map[], map[];
    }

    /** A new ring over unused slots. */
    method InitTxRing(index: nat, size: nat, startPtr: nat, endPtr: nat)
      requires Valid() && index !in rings && 0 < size < MODULUS && endPtr == startPtr + size <= cbs.Length
      requires forall k :: k in rings ==> rings[k].endPtr < startPtr || endPtr - 1 < rings[k].cbPtr
      modifies this
      ensures Valid() && rings == old(rings)[index := NewRing(size, startPtr)]
      ensures past == old(past)[index := Past([], 0, [])]
    {
      hide Good, RingOk;
      GoodNew(rings, past, cbs[..], index, size, startPtr);
      rings := rings[index := Ring(size, startPtr, endPtr - 1, startPtr, 0, size, startPtr, 0)];
      past := past[index := Past([], 0, [])];
    }

    /** Four rings of 32 slots, and one for all other slots. */
    method InitTxQueues()
      requires Valid() && rings == map[] && cbs.Length == TOTAL_DESC
      modifies this
      ensures Valid() && AllQueues(rings, past)
    {
      hide Good, Queues, AllQueues;
      InitPriorityQueues();
      QueuesDone(rings, past);
      InitTxRing(GENET_DESC_INDEX, TOTAL_DESC - TX_QUEUES * TX_BDS_PER_Q, TX_QUEUES * TX_BDS_PER_Q, TOTAL_DESC);
    }

    method InitPriorityQueues()
      requires Valid() && rings == map[] && cbs.Length == TOTAL_DESC
      modifies this
      ensures Valid() && Queues(rings, past, TX_QUEUES)
    {
      GoodKeys(rings, past, cbs[..]);
      QueuesNone(rings, past);
      hide Good, Queues;
      for i := 0 to TX_QUEUES
        invariant Valid() && Queues(rings, past, i)
      {
        QueuesNext(rings, past, i);
        InitTxRing(i, TX_BDS_PER_Q, i * TX_BDS_PER_Q, (i + 1) * TX_BDS_PER_Q);
      }
    }

    /** The slot of the next buffer.  The write pointer goes round the slots of its ring, as often as
        buffers are sent. */
    method GetTxCb(index: nat) returns (slot: nat)
      requires Valid() && index in rings
      modifies this`rings
      ensures index in past
      ensures var r, n := old(rings[index]), |past[index].sent|;
        && slot == r.cbPtr + Slot(n, r.size) && r.cbPtr <= slot <= r.endPtr
        && rings == old(rings)[index := r.(writePtr := r.cbPtr + Slot(n + 1, r.size))]
    {
      hide Good, RingOk;
      GoodRing(rings, past, cbs[..], index);
      WritesRound(rings[index], past[index], cbs.Length);
      var ring := rings[index];
      slot := ring.writePtr;
      if ring.writePtr == ring.endPtr {
        ring := ring.(writePtr := ring.cbPtr);
      } else {
        ring := ring.(writePtr := ring.writePtr + 1);
      }
      rings := rings[index := ring];
    }

    /** Hands a buffer to the controller if at least two slots are free. */
    method SendFrame(index: nat, buffer: nat) returns (sent: bool)
      requires Valid() && index in rings && buffer != 0
      modifies this, cbs
      ensures Valid() && rings.Keys == old(rings.Keys) && index in past && index in old(past)
      ensures sent <==> old(rings[index].freeBds) >= 2
      ensures past == if sent then
        old(past)[index := old(past)[index].(sent := old(past)[index].sent + [buffer])] else old(past)
    {
      hide Good, RingOk, Slot, Apart;
      GoodRing(rings, past, cbs[..], index);
      var ring := rings[index];
      if ring.freeBds < 2 {
        return false;
      }
      ghost var was, r := cbs[..], ring;
      SentOk(r, past[index], was, buffer);
      GoodStep(rings, past, was, index, Sent(r), past[index].(sent := past[index].sent + [buffer]),
        was[r.writePtr := buffer]);
      WritesRound(r, past[index], |was|);
      var slot := GetTxCb(index);
      cbs[slot] := buffer;
      ring := rings[index];
      ring := ring.(freeBds := ring.freeBds - 1);
      ring := ring.(prodIndex := (ring.prodIndex + 1) % MODULUS);
      rings := rings[index := ring];
      past := past[index := past[index].(sent := past[index].sent + [buffer])];
      assert cbs[..] == was[slot := buffer] && ring == Sent(r);
      assert rings == old(rings)[index := Sent(r)];
      sent := true;
    }

    /** The controller advances, at most up to what has been handed to it. */
    ghost method Consume(index: nat, consumed: nat)
      requires Valid() && index in past && past[index].consumed <= consumed <= |past[index].sent|
      modifies this`past
      ensures Valid() && past == old(past)[index := old(past)[index].(consumed := consumed)]
    {
      hide Good, RingOk;
      GoodKeys(rings, past, cbs[..]);
      GoodRing(rings, past, cbs[..], index);
      ConsumedOk(rings[index], past[index], cbs[..], consumed);
      GoodStep(rings, past, cbs[..], index, rings[index], past[index].(consumed := consumed), cbs[..]);
      assert rings[index := rings[index]] == rings;
      past := past[index := past[index].(consumed := consumed)];
    }

    method FreeTxCb(slot: nat) returns (ghost freed: seq<nat>)
      requires slot < cbs.Length
      modifies cbs
      ensures cbs[..] == old(cbs[..])[slot := 0]
      ensures freed == if old(cbs[slot]) != 0 then [old(cbs[slot])] else []
    {
      var buffer := cbs[slot];
      freed := [];
      if buffer != 0 {
        cbs[slot] := 0;
        freed := [buffer];
      }
    }

    /** Frees what the controller has consumed; `register` is its consumer index as read. */
    method TxReclaim(index: nat, register: nat) returns (processed: nat)
      requires Valid() && index in rings && register == past[index].consumed % MODULUS
      modifies this, cbs
      ensures Valid() && rings.Keys == old(rings.Keys) && index in past && index in old(past)
      ensures past == old(past)[index := old(past)[index].(freed := past[index].freed)]
      ensures past[index].freed == past[index].sent[..past[index].consumed]
      ensures processed == |past[index].freed| - |old(past)[index].freed|
      ensures rings[index].freeBds == old(rings[index].freeBds) + processed
    {
      hide Good, RingOk;
      GoodRing(rings, past, cbs[..], index);
      ghost var r, p, was := rings[index], past[index], cbs[..];
      RingCounts(r, p, was);
      var ready := Behind(register, rings[index].cIndex);
      ghost var freed;
      processed, freed := Clean(index, ready);
      rings := rings[index := rings[index].(freeBds := rings[index].freeBds + processed)];
      rings := rings[index := rings[index].(cIndex := register)];
      RingCounts(rings[index], p.(freed := freed), cbs[..]);
      GoodStep(old(rings), past, was, index, rings[index], p.(freed := freed), cbs[..]);
      past := past[index := p.(freed := freed)];
      assert rings == old(rings)[index := rings[index]];
    }

    /** Frees the buffers of the next `ready` slots. */
    method Clean(index: nat, ready: nat) returns (processed: nat, ghost freed: seq<nat>)
      requires Valid() && index in rings && index in past && |past[index].freed| + ready <= past[index].consumed
      modifies this`rings, cbs
      ensures processed == ready && |freed| == |old(past)[index].freed| + ready
      ensures index in rings && rings == old(rings)[index := old(rings)[index].(cleanPtr := rings[index].cleanPtr)]
      ensures RingOk(rings[index].(freeBds := rings[index].freeBds + ready, cIndex := |freed| % MODULUS),
                     past[index].(freed := freed), cbs[..])
      ensures var r := old(rings)[index];
        forall i :: 0 <= i < cbs.Length && !(r.cbPtr <= i <= r.endPtr) ==> cbs[i] == old(cbs[..])[i]
    {
      hide Good, RingOk;
      GoodRing(rings, past, cbs[..], index);
      ghost var r, p, was := rings[index], past[index], cbs[..];
      processed, freed := 0, p.freed;
      ghost var now := r;
      RingCounts(r, p, was);
      while processed < ready
        invariant processed <= ready && |freed| == |p.freed| + processed
        invariant rings == old(rings)[index := r.(cleanPtr := now.cleanPtr)] && RingOk(now, p.(freed := freed), cbs[..])
        invariant now == r.(cleanPtr := now.cleanPtr, freeBds := r.freeBds + processed, cIndex := |freed| % MODULUS)
        invariant forall i :: 0 <= i < cbs.Length && !(r.cbPtr <= i <= r.endPtr) ==> cbs[i] == was[i]
      {
        CleanedOk(now, p.(freed := freed), cbs[..]);
        ghost var next := Cleaned(now, p.(freed := freed));
        ghost var more := CleanNext(index);
        freed := freed + more;
        processed := processed + 1;
        now := next;
      }
    }

    /** Frees the buffer of the oldest slot and goes on to the next slot. */
    method CleanNext(index: nat) returns (ghost freed: seq<nat>)
      requires index in rings && rings[index].cleanPtr < cbs.Length
      modifies this`rings, cbs
      ensures var r := old(rings)[index];
        && cbs[..] == old(cbs[..])[r.cleanPtr := 0]
        && freed == (if old(cbs[..])[r.cleanPtr] != 0 then [old(cbs[..])[r.cleanPtr]] else [])
        && rings == old(rings)[index := r.(cleanPtr := if r.cleanPtr < r.endPtr then r.cleanPtr + 1 else r.cbPtr)]
    {
      var ring := rings[index];
      freed := FreeTxCb(ring.cleanPtr);
      if ring.cleanPtr < ring.endPtr {
        ring := ring.(cleanPtr := ring.cleanPtr + 1);
      } else {
        ring := ring.(cleanPtr := ring.cbPtr);
      }
      rings := rings[index := ring];
    }
  }
}
