/** The kernel timers of Circle as they are kept: a linked list of timers with 32-bit times. */
module KernelTimer {
  import opened Common
  import opened PtrList
  import opened TimerQueue

  /** The timers in memory, by handle, with the time at which they elapse. */
  type Memory = map<nat, nat>

  /** The list holds the handles of the queued timers, and these are in memory. */
  ghost predicate Kept(nodes: seq<Element>, mem: Memory, q: seq<Entry>) {
    && |nodes| == |q|
    && forall i :: 0 <= i < |q| ==> nodes[i].ptr == q[i].id && q[i].id in mem && mem[q[i].id] == q[i].due % WORD
  }

  /** The list, the memory, the clock and the next handle to be given out stand for `w`. */
  ghost predicate Good(nodes: seq<Element>, mem: Memory, ticks: nat, next: nat, w: World, slack: nat) {
    && Tidy(w, slack) && Kept(nodes, mem, w.q)
    && ticks == w.now % WORD && next == |w.plan| && forall t :: t in mem ==> t < next
  }

  lemma GoodStart(nodes: seq<Element>, mem: Memory, ticks: nat, next: nat, w: World, slack: nat, delay: nat, n: Element)
    requires Good(nodes, mem, ticks, next, w, slack) && slack <= 1 && slack <= delay <= MAX_DELAY && n.ptr == next
    ensures var i := Place(w.q, w.now + delay);
      && i <= |nodes|
      && Good(nodes[..i] + [n] + nodes[i..], mem[next := (ticks + delay) % WORD], ticks, next + 1,
              Act(w, Start(delay)), slack)
  {
    hide Tidy, Kept, Place;
    SumWraps(w.now, delay);
    StartTidy(w, delay, slack);
    KeptStart(nodes, mem, w, delay, n);
  }

  lemma GoodCancel(nodes: seq<Element>, mem: Memory, ticks: nat, next: nat, w: World, slack: nat, timer: nat, i: nat)
    requires Good(nodes, mem, ticks, next, w, slack) && i <= |nodes|
    requires (forall k :: 0 <= k < i ==> nodes[k].ptr != timer) && (i < |nodes| ==> nodes[i].ptr == timer)
    ensures i == IndexOf(w.q, timer)
    ensures if i < |nodes|
      then Good(nodes[..i] + nodes[i + 1..], mem - {timer}, ticks, next, Act(w, Cancel(timer)), slack)
      else Act(w, Cancel(timer)) == w
  {
    hide Kept;
    CancelTidy(w, timer, slack);
    KeptCancel(nodes, mem, w, timer, i);
  }

  class KernelTimers {
    const list: PtrList
    var mem: Memory
    var ticks: nat
    var next: nat
    ghost var w: World

    ghost predicate Valid(slack: nat)
      reads this, list, list.repr
    {
      list.Valid() && Good(list.nodes, mem, ticks, next, w, slack)
    }

    constructor ()
      ensures Valid(0) && w == BOOT && fresh(list)
    {
      list := new PtrList();
      ticks, next, w, mem := 0, 0, BOOT, map[];
      new;
    }

    /** The first element that elapses later than `delay` ticks from now, and the one before it. */
    method FindPlace(elapsesAt: nat, ghost delay: nat, ghost slack: nat)
      returns (prev: Element?, e: Element?, ghost i: nat)
      requires Valid(slack) && slack <= 1 && slack <= delay <= MAX_DELAY && elapsesAt == (ticks + delay) % WORD
      ensures i == Place(w.q, w.now + delay) && i <= |list.nodes|
      ensures prev == Elem(list.nodes, Place(w.q, w.now + delay) - 1) &&
        e == Elem(list.nodes, Place(w.q, w.now + delay))
    {
      hide Tidy, Place, Apart, Chained;
      SumWraps(w.now, delay);
      prev, i := null, 0;
      e := list.GetFirst();
      while e != null
        invariant i <= |w.q| && e == Elem(list.nodes, i) && prev == Elem(list.nodes, i - 1)
        invariant forall k :: 0 <= k < i ==> w.q[k].due <= w.now + delay
        decreases |w.q| - i
      {
        var timer := list.GetPtr(e);
        InRange(w, slack, i, delay);
        if Later(mem[timer], elapsesAt) {
          break;
        }
        prev := e;
        e := list.GetNext(e, i);
        i := i + 1;
      }
      PlaceIs(w.q, w.now + delay, i);
    }

    /** Puts a timer that elapses after `delay` ticks before the first one that elapses later. */
    method StartKernelTimer(delay: nat, ghost slack: nat) returns (timer: nat, ghost i: nat)
      requires Valid(slack) && slack <= 1 && slack <= delay <= MAX_DELAY
      modifies this, list, list.repr
      ensures Valid(slack) && w == Act(old(w), Start(delay)) && timer == old(next) && ticks == old(ticks)
      ensures fresh(list.repr - old(list.repr))
      ensures i == Place(old(w.q), old(w.now) + delay)
      ensures i < |list.nodes| && fresh(list.nodes[i])
      ensures list.nodes == old(list.nodes)[..i] + [list.nodes[i]] + old(list.nodes)[i..]
    {
      hide Good, Place, Apart, Chained, Elem;
      var elapsesAt := (ticks + delay) % WORD;
      timer := next;
      var prev, e;
      prev, e, i := FindPlace(elapsesAt, delay, slack);
      ghost var nodes := list.nodes;
      var n := InsertTimer(prev, e, timer, i);
      GoodStart(nodes, mem, ticks, timer, w, slack, delay, n);
      mem := mem[timer := elapsesAt];
      next := next + 1;
      w := Act(w, Start(delay));
    }

    method InsertTimer(prev: Element?, e: Element?, timer: nat, ghost i: nat) returns (n: Element)
      requires list.Valid() && i <= |list.nodes| && e == Elem(list.nodes, i) && prev == Elem(list.nodes, i - 1)
      modifies list, list.nodes
      ensures list.Valid() && fresh(n) && n.ptr == timer
      ensures list.nodes == old(list.nodes)[..i] + [n] + old(list.nodes)[i..]
    {
      if e != null {
        n := list.InsertBefore(e, timer, i);
      } else {
        n := list.InsertAfter(prev, timer, i);
      }
    }

    method CancelKernelTimer(timer: nat, ghost slack: nat) returns (ghost i: nat)
      requires Valid(slack)
      modifies this, list, list.repr
      ensures Valid(slack) && w == Act(old(w), Cancel(timer)) && i == IndexOf(old(w.q), timer) && ticks == old(ticks)
      ensures fresh(list.repr - old(list.repr))
      ensures i < |old(list.nodes)| ==> list.nodes == old(list.nodes)[..i] + old(list.nodes)[i + 1..]
      ensures i >= |old(list.nodes)| ==> list.nodes == old(list.nodes)
    {
      hide Good, Apart, Chained, Elem;
      var e;
      e, i := list.Find(timer);
      GoodCancel(list.nodes, mem, ticks, next, w, slack, timer, i);
      if e != null {
        list.Remove(e, i);
        mem := mem - {timer};
      }
      w := Act(w, Cancel(timer));
    }

    /** A handler starts or cancels a timer; `e` is the element to be looked at next. */
    method RunAction(a: Action, ghost e: Element?, ghost j: nat) returns (ghost j': nat)
      requires Valid(1) && Allowed([a]) && Saved(list.nodes, w.q, w.now, e, j) && Spares([a], e)
      modifies this, list, list.repr
      ensures Valid(1) && w == Act(old(w), a) && Saved(list.nodes, w.q, w.now, e, j')
      ensures ticks == old(ticks) && fresh(list.repr - old(list.repr))
    {
      hide Good, Place, IndexOf, Act, Apart, Chained, Elem, Saved, Members;
      assert a in [a];
      match a
      case Start(delay) =>
        ghost var before, nodes := w, list.nodes;
        var timer, i := StartKernelTimer(delay, 1);
        SavedStart(nodes, before, e, j, delay, list.nodes[i]);
        j' := if i <= j then j + 1 else j;
      case Cancel(timer) =>
        GoodKept(list.nodes, mem, ticks, next, w);
        SavedCancel(list.nodes, w, e, j, timer);
        var i := CancelKernelTimer(timer, 1);
        j' := if i < j then j - 1 else j;
    }

    /** A handler does what it likes. */
    method RunHandler(acts: seq<Action>, ghost e: Element?, ghost j: nat) returns (ghost j': nat)
      requires Valid(1) && Allowed(acts) && Saved(list.nodes, w.q, w.now, e, j) && Spares(acts, e)
      modifies this, list, list.repr
      ensures Valid(1) && w == ActAll(old(w), acts) && Saved(list.nodes, w.q, w.now, e, j')
      ensures ticks == old(ticks) && fresh(list.repr - old(list.repr))
    {
      hide Good, Place, IndexOf, Act, Apart, Chained, Elem, Saved, Members;
      j' := j;
      for k := 0 to |acts|
        invariant Valid(1) && ActAll(w, acts[k..]) == ActAll(old(w), acts) && Saved(list.nodes, w.q, w.now, e, j')
        invariant ticks == old(ticks) && fresh(list.repr - old(list.repr))
      {
        assert acts[k] in acts && acts[k..][1..] == acts[k + 1..];
        j' := RunAction(acts[k], e, j');
      }
    }

    /** Removes the first element and calls the handler of its timer. */
    method FireNext(e: Element, handlers: nat -> seq<Action>) returns (following: Element?, ghost j: nat)
      requires Valid(1) && (forall t :: Allowed(handlers(t))) && Considerate(w, handlers)
      requires |list.nodes| > 0 && list.nodes[0] == e && |w.q| > 0 && e.ptr == w.q[0].id && w.q[0].due <= w.now
      modifies this, list, list.repr
      ensures Valid(1) && w == ActAll(Fired(old(w)), handlers(e.ptr)) && Saved(list.nodes, w.q, w.now, following, j)
      ensures ticks == old(ticks) && fresh(list.repr - old(list.repr))
    {
      hide Good, Place, IndexOf, Act, Apart, Chained, Elem, Saved, Members, Considerate;
      FireFirst(list.nodes, mem, ticks, next, w, handlers);
      following := list.GetNext(e, 0);
      list.Remove(e, 0);
      w := Fired(w);
      j := RunHandler(handlers(e.ptr), following, 0);
      DeleteTimer(list.nodes, mem, ticks, next, w, e.ptr);
      mem := mem - {e.ptr};
    }

    /** Fires all timers that are due. */
    method PollKernelTimers(handlers: nat -> seq<Action>)
      requires Valid(1) && (forall t :: Allowed(handlers(t))) && Considerate(w, handlers)
      modifies this, list, list.repr
      ensures Valid(0) && w == Polled(old(w), handlers) && ticks == old(ticks)
    {
      hide Good, Apart, Chained, Elem, Saved, Members, Considerate, Polled, Fired, ActAll;
      var e := list.GetFirst();
      ghost var j := 0;
      SavedFirst(list.nodes, mem, ticks, next, w);
      while e != null
        invariant Valid(1) && Saved(list.nodes, w.q, w.now, e, j) && Considerate(w, handlers)
        invariant Polled(w, handlers) == Polled(old(w), handlers)
        invariant ticks == old(ticks) && fresh(list.repr - old(list.repr))
        decreases DueCount(w.q, w.now)
      {
        var timer := list.GetPtr(e);
        SavedTime(list.nodes, mem, ticks, next, w, e, j);
        if Later(mem[timer], ticks) {
          break;
        }
        FireFirst(list.nodes, mem, ticks, next, w, handlers);
        e, j := FireNext(e, handlers);
      }
      NothingDue(list.nodes, mem, ticks, next, w, e, j, handlers);
    }

    /** Each tick the clock advances and the timers are polled. */
    method InterruptHandler(handlers: nat -> seq<Action>)
      requires Valid(0) && (forall t :: Allowed(handlers(t))) && Considerate(w.(now := w.now + 1), handlers)
      modifies this, list, list.repr
      ensures Valid(0) && w == Ticked(old(w), handlers)
    {
      hide Apart, Chained, Elem, Members;
      SumWraps(w.now, 1);
      ticks := (ticks + 1) % WORD;
      w := w.(now := w.now + 1);
      PollKernelTimers(handlers);
    }
  }

  /** `e` is the j-th element, or null behind the last one; nothing before it is due. */
  ghost predicate Saved(nodes: seq<Element>, q: seq<Entry>, now: nat, e: Element?, j: nat) {
    && |nodes| == |q| && j <= |q| && e == Elem(nodes, j)
    && forall k :: 0 <= k < j ==> q[k].due > now
  }

  /** A handler does not cancel the timer that is to be looked at next. */
  ghost predicate Spares(acts: seq<Action>, e: Element?) {
    e != null ==> Cancel(e.ptr) !in acts
  }

  lemma GoodKept(nodes: seq<Element>, mem: Memory, ticks: nat, next: nat, w: World)
    requires Good(nodes, mem, ticks, next, w, 1)
    ensures |nodes| == |w.q| && forall k :: 0 <= k < |w.q| ==> nodes[k].ptr == w.q[k].id
  {
  }

  lemma SavedStart(nodes: seq<Element>, w: World, e: Element?, j: nat, delay: nat, n: Element)
    requires Saved(nodes, w.q, w.now, e, j) && delay > 0
    ensures var i := Place(w.q, w.now + delay);
      && i <= |nodes| && Act(w, Start(delay)).now == w.now
      && Saved(nodes[..i] + [n] + nodes[i..], Act(w, Start(delay)).q, w.now, e, if i <= j then j + 1 else j)
  {
    hide Place;
    var i, q' := Place(w.q, w.now + delay), Act(w, Start(delay)).q;
    assert forall k :: 0 <= k < |q'| ==>
      q'[k] == if k < i then w.q[k] else if k == i then Entry(|w.plan|, w.now + delay) else w.q[k - 1];
  }

  lemma SavedCancel(nodes: seq<Element>, w: World, e: Element?, j: nat, timer: nat)
    requires Saved(nodes, w.q, w.now, e, j) && (e != null ==> e.ptr != timer)
    requires forall k :: 0 <= k < |w.q| ==> nodes[k].ptr == w.q[k].id
    ensures var i := IndexOf(w.q, timer);
      && i <= |nodes| && (i < j ==> j > 0) && Act(w, Cancel(timer)).now == w.now
      && (i < |nodes| ==>
           Saved(nodes[..i] + nodes[i + 1..], Act(w, Cancel(timer)).q, w.now, e, if i < j then j - 1 else j))
      && (i >= |nodes| ==> Saved(nodes, Act(w, Cancel(timer)).q, w.now, e, if i < j then j - 1 else j))
  {
  }

  lemma SavedFirst(nodes: seq<Element>, mem: Memory, ticks: nat, next: nat, w: World)
    requires Good(nodes, mem, ticks, next, w, 1)
    ensures Saved(nodes, w.q, w.now, Elem(nodes, 0), 0)
  {
  }

  /** The saved element is due just when the comparison says so, and then it is the first one. */
  lemma SavedTime(nodes: seq<Element>, mem: Memory, ticks: nat, next: nat, w: World, e: Element, j: nat)
    requires Good(nodes, mem, ticks, next, w, 1) && Saved(nodes, w.q, w.now, e, j)
    ensures j < |w.q| == |nodes| && nodes[j] == e && e.ptr == w.q[j].id && e.ptr in mem
    ensures mem[e.ptr] < WORD && ticks < WORD && (Later(mem[e.ptr], ticks) <==> w.q[j].due > w.now)
    ensures w.q[j].due <= w.now ==> j == 0
  {
    LaterIsLater(w.q[j].due, w.now);
    assert j > 0 ==> Precedes(w.q[0], w.q[j]);
  }

  /** A timer that is not queued and will not be queued again. */
  ghost predicate Gone(w: World, timer: nat) {
    timer < |w.plan| && forall k :: 0 <= k < |w.q| ==> w.q[k].id != timer
  }

  lemma {:induction false} StaysGone(w: World, acts: seq<Action>, timer: nat)
    requires Gone(w, timer)
    ensures Gone(ActAll(w, acts), timer)
    decreases |acts|
  {
    hide Place, IndexOf;
    if |acts| > 0 {
      var w' := Act(w, acts[0]);
      assert forall k :: 0 <= k < |w'.q| ==> w'.q[k] in w.q || w'.q[k].id == |w.plan|;
      StaysGone(w', acts[1..], timer);
    }
  }

  lemma DeleteTimer(nodes: seq<Element>, mem: Memory, ticks: nat, next: nat, w: World, timer: nat)
    requires Good(nodes, mem, ticks, next, w, 1) && Gone(w, timer)
    ensures Good(nodes, mem - {timer}, ticks, next, w, 1)
  {
    hide Tidy;
  }

  /** No handler cancels the timer that comes next in the queue when it is called. */
  ghost predicate Considerate(w: World, handlers: nat -> seq<Action>)
    requires forall t :: Allowed(handlers(t))
    decreases DueCount(w.q, w.now)
  {
    |w.q| == 0 || w.q[0].due > w.now ||
    (ActAllDueCount(Fired(w), handlers(w.q[0].id));
     && (|w.q| > 1 ==> Cancel(w.q[1].id) !in handlers(w.q[0].id))
     && Considerate(ActAll(Fired(w), handlers(w.q[0].id)), handlers))
  }

  lemma TidyTail(w: World)
    requires Tidy(w, 1) && |w.q| > 0
    ensures Tidy(Fired(w), 1) && Gone(Fired(w), w.q[0].id)
  {
  }

  lemma FireFirst(nodes: seq<Element>, mem: Memory, ticks: nat, next: nat, w: World, handlers: nat -> seq<Action>)
    requires Good(nodes, mem, ticks, next, w, 1) && |w.q| > 0 && w.q[0].due <= w.now
    requires forall t :: Allowed(handlers(t))
    requires Considerate(w, handlers)
    ensures |nodes| > 0 && Good(nodes[..0] + nodes[1..], mem, ticks, next, Fired(w), 1)
    ensures Saved(nodes[..0] + nodes[1..], Fired(w).q, w.now, Elem(nodes, 1), 0)
    ensures Spares(handlers(w.q[0].id), Elem(nodes, 1))
    ensures var w' := ActAll(Fired(w), handlers(w.q[0].id));
      && Considerate(w', handlers) && Polled(w', handlers) == Polled(w, handlers) && w'.now == w.now
      && DueCount(w'.q, w'.now) < DueCount(w.q, w.now) && Gone(w', w.q[0].id)
  {
    TidyTail(w);
    StaysGone(Fired(w), handlers(w.q[0].id), w.q[0].id);
    ActAllDueCount(Fired(w), handlers(w.q[0].id));
    assert nodes[..0] + nodes[1..] == nodes[1..];
  }

  /** When the loop ends nothing is due any more. */
  lemma NothingDue(nodes: seq<Element>, mem: Memory, ticks: nat, next: nat, w: World, e: Element?, j: nat,
                   handlers: nat -> seq<Action>)
    requires Good(nodes, mem, ticks, next, w, 1) && Saved(nodes, w.q, w.now, e, j)
    requires e != null ==> j < |w.q| && w.q[j].due > w.now
    requires forall t :: Allowed(handlers(t))
    ensures Good(nodes, mem, ticks, next, w, 0) && Polled(w, handlers) == w
  {
  }

  lemma KeptStart(nodes: seq<Element>, mem: Memory, w: World, delay: nat, n: Element)
    requires Kept(nodes, mem, w.q) && n.ptr == |w.plan| && |w.plan| !in mem
    ensures var i := Place(w.q, w.now + delay);
      i <= |nodes| &&
        Kept(nodes[..i] + [n] + nodes[i..], mem[|w.plan| := (w.now + delay) % WORD], Act(w, Start(delay)).q)
  {
    hide Place;
    var i := Place(w.q, w.now + delay);
    var nodes', q' := nodes[..i] + [n] + nodes[i..], Act(w, Start(delay)).q;
    forall k | 0 <= k < |q'|
      ensures nodes'[k].ptr == q'[k].id && q'[k].id in mem[|w.plan| := (w.now + delay) % WORD]
      ensures mem[|w.plan| := (w.now + delay) % WORD][q'[k].id] == q'[k].due % WORD
    {
      var j := if k < i then k else k - 1;
      assert k != i ==> nodes'[k] == nodes[j] && q'[k] == w.q[j];
    }
  }

  lemma KeptCancel(nodes: seq<Element>, mem: Memory, w: World, timer: nat, i: nat)
    requires Kept(nodes, mem, w.q) && Unique(w.q) && i <= |nodes|
    requires (forall k :: 0 <= k < i ==> nodes[k].ptr != timer) && (i < |nodes| ==> nodes[i].ptr == timer)
    ensures i == IndexOf(w.q, timer)
    ensures if i < |nodes| then Kept(nodes[..i] + nodes[i + 1..], mem - {timer}, Act(w, Cancel(timer)).q)
      else Act(w, Cancel(timer)) == w
  {
    assert forall k :: 0 <= k < i ==> nodes[k].ptr == w.q[k].id;
    if i < |nodes| {
      var nodes', q' := nodes[..i] + nodes[i + 1..], Act(w, Cancel(timer)).q;
      assert forall k :: 0 <= k < |q'| ==>
        nodes'[k] == nodes[if k < i then k else k + 1] && q'[k] == w.q[if k < i then k else k + 1];
    }
  }

  lemma SumWraps(a: nat, b: nat)
    ensures (a % WORD + b) % WORD == (a + b) % WORD
  {
    var i := a / WORD;
    assert a == i * WORD + a % WORD;
  }

  /** All queued times and the new one are less than half a turn apart. */
  lemma InRange(w: World, slack: nat, i: nat, delay: nat)
    requires Tidy(w, slack) && slack <= 1 && slack <= delay <= MAX_DELAY && i < |w.q|
    ensures Later(w.q[i].due % WORD, (w.now + delay) % WORD) <==> w.q[i].due > w.now + delay
  {
    LaterIsLater(w.q[i].due, w.now + delay);
  }
}
