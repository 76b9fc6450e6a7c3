/** The kernel timers of Circle as they are meant: a queue ordered by the true time at which each
    timer elapses, and the history of what has been started, fired and cancelled. */
module TimerQueue {
  import opened Common

  /** The longest delay for which the 32-bit comparison of times is always right. */
  const MAX_DELAY := 0x7FFF_FFFE

  /** Whether `a - b`, taken as a signed 32-bit number, is positive. */
  predicate Later(a: nat, b: nat)
    requires a < WORD && b < WORD
  {
    0 < (if a >= b then a - b else a - b + WORD) < WORD / 2
  }

  /** Times less than half a turn apart are compared correctly, whatever wraps in between. */
  lemma LaterIsLater(x: nat, y: nat)
    requires -(WORD / 2) <= x - y < WORD / 2
    ensures Later(x % WORD, y % WORD) <==> x > y
  {
    var i, j := x / WORD, y / WORD;
    assert x == i * WORD + x % WORD && y == j * WORD + y % WORD;
    assert -1 <= i - j <= 1;
  }

  datatype Entry = Entry(id: nat, due: nat)

  /** Earlier times first, and first come, first served among equal times. */
  predicate Precedes(a: Entry, b: Entry) {
    a.due < b.due || (a.due == b.due && a.id < b.id)
  }

  predicate Ordered(q: seq<Entry>) {
    forall i, j :: 0 <= i < j < |q| ==> Precedes(q[i], q[j])
  }

  predicate Unique(q: seq<Entry>) {
    forall i, j :: 0 <= i < j < |q| ==> q[i].id != q[j].id
  }

  /** The time, the queue, when each timer ever started is to fire, what has fired and when, and
      what has been cancelled. */
  datatype World = World(now: nat, q: seq<Entry>, plan: seq<nat>, log: seq<Entry>, at: seq<nat>, off: set<nat>)

  datatype Action = Start(delay: nat) | Cancel(id: nat)

  function Place(q: seq<Entry>, due: nat): (i: nat)
    ensures i <= |q|
  {
    if |q| == 0 || q[0].due > due then 0 else 1 + Place(q[1..], due)
  }

  lemma {:induction false} PlaceIs(q: seq<Entry>, due: nat, i: nat)
    requires i <= |q| && (forall k :: 0 <= k < i ==> q[k].due <= due) && (i < |q| ==> q[i].due > due)
    ensures Place(q, due) == i
  {
    if i > 0 { PlaceIs(q[1..], due, i - 1); }
  }

  lemma {:induction false} PlaceSplits(q: seq<Entry>, due: nat)
    requires Ordered(q)
    ensures var i := Place(q, due);
      && (forall k :: 0 <= k < i ==> q[k].due <= due)
      && (forall k :: i <= k < |q| ==> q[k].due > due)
  {
    if |q| > 0 && q[0].due <= due {
      PlaceSplits(q[1..], due);
      assert forall k :: 0 < k < |q| ==> q[k] == q[1..][k - 1];
    }
  }

  function IndexOf(q: seq<Entry>, id: nat): (i: nat)
    ensures i <= |q| && (i < |q| ==> q[i].id == id) && forall k :: 0 <= k < i ==> q[k].id != id
  {
    if |q| == 0 || q[0].id == id then 0 else 1 + IndexOf(q[1..], id)
  }

  function With(q: seq<Entry>, i: nat, e: Entry): (r: seq<Entry>)
    requires i <= |q|
    ensures |r| == |q| + 1
    ensures forall k :: 0 <= k < |r| ==> r[k] == if k < i then q[k] else if k == i then e else q[k - 1]
  {
    q[..i] + [e] + q[i..]
  }

  function Without(q: seq<Entry>, i: nat): (r: seq<Entry>)
    requires i < |q|
    ensures |r| == |q| - 1
    ensures forall k :: 0 <= k < |r| ==> r[k] == q[if k < i then k else k + 1]
  {
    q[..i] + q[i + 1..]
  }

  function Act(w: World, a: Action): World {
    match a
    case Start(delay) =>
      var due := w.now + delay;
      w.(q := With(w.q, Place(w.q, due), Entry(|w.plan|, due)), plan := w.plan + [Max(due, w.now + 1)])
    case Cancel(id) =>
      var i := IndexOf(w.q, id);
      if i < |w.q| then w.(q := Without(w.q, i), off := w.off + {id}) else w
  }

  function ActAll(w: World, acts: seq<Action>): World
    decreases |acts|
  {
    if |acts| == 0 then w else ActAll(Act(w, acts[0]), acts[1..])
  }

  /** What a handler may do: start timers that are not due at once, and cancel timers. */
  predicate Allowed(acts: seq<Action>) {
    forall a :: a in acts ==> a.Start? ==> 1 <= a.delay <= MAX_DELAY
  }

  /** The first timer of the queue fires. */
  function Fired(w: World): World
    requires |w.q| > 0
  {
    w.(q := w.q[1..], log := w.log + [w.q[0]], at := w.at + [w.now])
  }

  function DueCount(q: seq<Entry>, now: nat): nat {
    if |q| == 0 then 0 else (if q[0].due <= now then 1 else 0) + DueCount(q[1..], now)
  }

  lemma {:induction false} DueCountConcat(a: seq<Entry>, b: seq<Entry>, now: nat)
    ensures DueCount(a + b, now) == DueCount(a, now) + DueCount(b, now)
  {
    if |a| == 0 {
      assert a + b == b;
    } else {
      assert (a + b)[1..] == a[1..] + b;
      DueCountConcat(a[1..], b, now);
    }
  }

  lemma DueCountWith(q: seq<Entry>, i: nat, e: Entry, now: nat)
    requires i <= |q|
    ensures DueCount(With(q, i, e), now) == DueCount(q, now) + if e.due <= now then 1 else 0
  {
    DueCountConcat(q[..i] + [e], q[i..], now);
    DueCountConcat(q[..i], [e], now);
    DueCountConcat(q[..i], q[i..], now);
    assert q[..i] + q[i..] == q;
    assert [e][1..] == [];
  }

  lemma ActDueCount(w: World, a: Action)
    requires a.Start? ==> a.delay > 0
    ensures DueCount(Act(w, a).q, w.now) <= DueCount(w.q, w.now) && Act(w, a).now == w.now
  {
    hide With, Without, DueCount, Place, IndexOf;
    match a
    case Start(delay) =>
      DueCountWith(w.q, Place(w.q, w.now + delay), Entry(|w.plan|, w.now + delay), w.now);
    case Cancel(id) =>
      var i := IndexOf(w.q, id);
      if i < |w.q| {
        DueCountWith(Without(w.q, i), i, w.q[i], w.now);
        WithWithout(w.q, i);
      }
  }

  lemma WithWithout(q: seq<Entry>, i: nat)
    requires i < |q|
    ensures With(Without(q, i), i, q[i]) == q
  {
  }

  lemma {:induction false} ActAllDueCount(w: World, acts: seq<Action>)
    requires Allowed(acts)
    ensures DueCount(ActAll(w, acts).q, w.now) <= DueCount(w.q, w.now) && ActAll(w, acts).now == w.now
    decreases |acts|
  {
    if |acts| > 0 {
      ActDueCount(w, acts[0]);
      ActAllDueCount(Act(w, acts[0]), acts[1..]);
    }
  }

  /** All timers that are due fire in turn, and their handlers act. */
  function Polled(w: World, handlers: nat -> seq<Action>): World
    requires forall id :: Allowed(handlers(id))
    decreases DueCount(w.q, w.now)
  {
    if |w.q| == 0 || w.q[0].due > w.now then w
    else
      ActAllDueCount(Fired(w), handlers(w.q[0].id));
      Polled(ActAll(Fired(w), handlers(w.q[0].id)), handlers)
  }

  /** One tick of the clock. */
  function Ticked(w: World, handlers: nat -> seq<Action>): World
    requires forall id :: Allowed(handlers(id))
  {
    Polled(w.(now := w.now + 1), handlers)
  }

  // ---------------------------------------------------------------- what holds of every run

  ghost predicate Listed(q: seq<Entry>, id: nat) {
    exists i :: 0 <= i < |q| && q[i].id == id
  }

  /** Everything that was not cancelled has fired or is queued, in this order. */
  ghost predicate Fates(w: World) {
    && Ordered(w.log + w.q) && Unique(w.log + w.q)
    && (forall id :: 0 <= id < |w.plan| ==> (id in w.off <==> !Listed(w.log + w.q, id)))
    && (forall id :: id in w.off ==> id < |w.plan|)
  }

  /** `slack` is 1 while timers are being polled, and 0 between two polls, when nothing is overdue. */
  ghost predicate Waiting(w: World, slack: nat) {
    forall i :: 0 <= i < |w.q| ==>
      && w.q[i].id < |w.plan| && w.now <= w.q[i].due + slack && w.q[i].due <= w.now + MAX_DELAY
      && w.plan[w.q[i].id] == Max(w.q[i].due, w.now + 1 - slack)
  }

  ghost predicate OnTime(w: World) {
    && |w.at| == |w.log|
    && forall i :: 0 <= i < |w.log| ==>
      w.log[i].id < |w.plan| && w.log[i].due <= w.now && w.at[i] == w.plan[w.log[i].id] <= w.now
  }

  ghost predicate Inv(w: World, slack: nat) {
    Fates(w) && Waiting(w, slack) && OnTime(w)
  }

  /** What the queue alone must satisfy. */
  ghost predicate Tidy(w: World, slack: nat) {
    Ordered(w.q) && Unique(w.q) && Waiting(w, slack)
  }

  const BOOT := World(0, [], [], [], [], {})

  lemma BootInv()
    ensures Inv(BOOT, 0)
  {
  }

  lemma WithOrdered(q: seq<Entry>, i: nat, e: Entry)
    requires i <= |q| && Ordered(q) && Unique(q) && !Listed(q, e.id)
    requires forall k :: 0 <= k < i ==> Precedes(q[k], e)
    requires forall k :: i <= k < |q| ==> Precedes(e, q[k])
    ensures Ordered(With(q, i, e)) && Unique(With(q, i, e))
    ensures forall id :: Listed(With(q, i, e), id) <==> id == e.id || Listed(q, id)
  {
    hide Precedes;
    var q' := With(q, i, e);
    assert q'[i].id == e.id;
    forall id | Listed(q, id) ensures Listed(q', id) {
      var k :| 0 <= k < |q| && q[k].id == id;
      assert q'[if k < i then k else k + 1].id == id;
    }
  }

  lemma WithBehind(a: seq<Entry>, q: seq<Entry>, i: nat, e: Entry)
    requires i <= |q|
    ensures a + With(q, i, e) == With(a + q, |a| + i, e)
  {
  }

  lemma WithoutBehind(a: seq<Entry>, q: seq<Entry>, i: nat)
    requires i < |q|
    ensures a + Without(q, i) == Without(a + q, |a| + i)
  {
  }

  lemma StartFates(w: World, delay: nat)
    requires Fates(w) && Ordered(w.q)
    requires forall k :: 0 <= k < |w.log| ==> w.log[k].due <= w.now
    requires forall k :: 0 <= k < |w.log + w.q| ==> (w.log + w.q)[k].id < |w.plan|
    ensures Fates(Act(w, Start(delay)))
  {
    hide With, Place, Ordered, Unique;
    var due := w.now + delay;
    var i, e := Place(w.q, due), Entry(|w.plan|, due);
    PlaceSplits(w.q, due);
    WithBehind(w.log, w.q, i, e);
    var all, j := w.log + w.q, |w.log| + i;
    forall k | 0 <= k < j ensures Precedes(all[k], e) {
      assert all[k] == if k < |w.log| then w.log[k] else w.q[k - |w.log|];
    }
    forall k | j <= k < |all| ensures Precedes(e, all[k]) {
      assert all[k] == w.q[k - |w.log|];
    }
    WithOrdered(all, j, e);
  }

  lemma TailOrdered(a: seq<Entry>, b: seq<Entry>)
    requires Ordered(a + b) && Unique(a + b)
    ensures Ordered(b) && Unique(b)
  {
    assert forall k :: 0 <= k < |b| ==> b[k] == (a + b)[|a| + k];
  }

  lemma AllPlanned(w: World, slack: nat)
    requires Waiting(w, slack) && OnTime(w)
    ensures forall k :: 0 <= k < |w.log + w.q| ==> (w.log + w.q)[k].id < |w.plan|
  {
  }

  lemma StartWaiting(w: World, delay: nat, slack: nat)
    requires Waiting(w, slack) && slack <= 1 && slack <= delay <= MAX_DELAY
    ensures Waiting(Act(w, Start(delay)), slack)
  {
    hide Place;
  }

  lemma StartInv(w: World, delay: nat, slack: nat)
    requires Inv(w, slack) && slack <= 1 && slack <= delay <= MAX_DELAY
    ensures Inv(Act(w, Start(delay)), slack)
  {
    hide Fates, Waiting, Place;
    AllPlanned(w, slack);
    TailOrdered(w.log, w.q) by { FatesParts(w); }
    StartFates(w, delay);
    StartWaiting(w, delay, slack);
  }

  lemma FatesParts(w: World)
    requires Fates(w)
    ensures Ordered(w.log + w.q) && Unique(w.log + w.q)
  {
  }

  lemma WithoutOrdered(q: seq<Entry>, i: nat)
    requires Ordered(q) && Unique(q) && i < |q|
    ensures Ordered(Without(q, i)) && Unique(Without(q, i))
    ensures forall id :: Listed(Without(q, i), id) <==> id != q[i].id && Listed(q, id)
  {
    hide Without, Precedes;
    var q' := Without(q, i);
    forall id | id != q[i].id && Listed(q, id) ensures Listed(q', id) {
      var k :| 0 <= k < |q| && q[k].id == id;
      assert q'[if k < i then k else k - 1].id == id;
    }
  }

  lemma CancelInv(w: World, id: nat, slack: nat)
    requires Inv(w, slack)
    ensures Inv(Act(w, Cancel(id)), slack)
  {
    hide Listed, Ordered, Unique, Without;
    var i := IndexOf(w.q, id);
    if i < |w.q| {
      WithoutBehind(w.log, w.q, i);
      assert (w.log + w.q)[|w.log| + i].id == id;
      WithoutOrdered(w.log + w.q, |w.log| + i);
    }
  }

  lemma StartTidy(w: World, delay: nat, slack: nat)
    requires Tidy(w, slack) && slack <= 1 && slack <= delay <= MAX_DELAY
    ensures Tidy(Act(w, Start(delay)), slack)
  {
    hide Place, With, Ordered, Unique;
    var i, e := Place(w.q, w.now + delay), Entry(|w.plan|, w.now + delay);
    PlaceSplits(w.q, w.now + delay);
    StartWaiting(w, delay, slack);
    WithOrdered(w.q, i, e);
  }

  lemma CancelTidy(w: World, id: nat, slack: nat)
    requires Tidy(w, slack)
    ensures Tidy(Act(w, Cancel(id)), slack)
  {
    hide Listed, Ordered, Unique, Without;
    var i := IndexOf(w.q, id);
    if i < |w.q| {
      WithoutOrdered(w.q, i);
    }
  }

  lemma {:induction false} ActAllInv(w: World, acts: seq<Action>)
    requires Inv(w, 1) && Allowed(acts)
    ensures Inv(ActAll(w, acts), 1)
    decreases |acts|
  {
    hide Inv;
    if |acts| > 0 {
      match acts[0] {
        case Start(delay) => StartInv(w, delay, 1);
        case Cancel(id) => CancelInv(w, id, 1);
      }
      ActAllInv(Act(w, acts[0]), acts[1..]);
    }
  }

  lemma FiredInv(w: World)
    requires Inv(w, 1) && |w.q| > 0 && w.q[0].due <= w.now
    ensures Inv(Fired(w), 1)
  {
    var w' := Fired(w);
    assert w'.log + w'.q == w.log + w.q;
  }

  lemma {:induction false} PolledInv(w: World, handlers: nat -> seq<Action>)
    requires Inv(w, 1) && forall id :: Allowed(handlers(id))
    ensures Inv(Polled(w, handlers), 0) && Polled(w, handlers).now == w.now
    decreases DueCount(w.q, w.now)
  {
    if |w.q| == 0 || w.q[0].due > w.now {
      TailOrdered(w.log, w.q);
    } else {
      FiredInv(w);
      ActAllInv(Fired(w), handlers(w.q[0].id));
      ActAllDueCount(Fired(w), handlers(w.q[0].id));
      PolledInv(ActAll(Fired(w), handlers(w.q[0].id)), handlers);
    }
  }

  lemma TickedInv(w: World, handlers: nat -> seq<Action>)
    requires Inv(w, 0) && forall id :: Allowed(handlers(id))
    ensures Inv(Ticked(w, handlers), 0) && Ticked(w, handlers).now == w.now + 1
  {
    PolledInv(w.(now := w.now + 1), handlers);
  }

  /** What happens between two polls: timers are started and cancelled, or the clock ticks. */
  datatype Event = Do(action: Action) | Tick(handlers: nat -> seq<Action>)

  ghost predicate Proper(e: Event) {
    match e
    case Do(a) => a.Start? ==> a.delay <= MAX_DELAY
    case Tick(handlers) => forall id :: Allowed(handlers(id))
  }

  /** What may happen: any delay that fits, any cancel, and handlers that start timers which are not due at once. */
  lemma ProperMeans(e: Event)
    ensures match e
      case Do(Start(delay)) => Proper(e) <==> delay <= 0x7FFF_FFFE
      case Do(Cancel(_)) => Proper(e)
      case Tick(handlers) => Proper(e) <==>
        forall id, k :: 0 <= k < |handlers(id)| && handlers(id)[k].Start? ==> 1 <= handlers(id)[k].delay <= 0x7FFF_FFFE
  {
    if e.Tick? {
      forall id ensures Allowed(e.handlers(id)) <==>
        forall k :: 0 <= k < |e.handlers(id)| && e.handlers(id)[k].Start? ==> 1 <= e.handlers(id)[k].delay <= MAX_DELAY
      {
      }
    }
  }

  ghost function Happen(w: World, e: Event): World
    requires Proper(e)
  {
    match e
    case Do(a) => Act(w, a)
    case Tick(handlers) => Ticked(w, handlers)
  }

  ghost function Run(w: World, es: seq<Event>): World
    requires forall i :: 0 <= i < |es| ==> Proper(es[i])
    decreases |es|
  {
    if |es| == 0 then w else Run(Happen(w, es[0]), es[1..])
  }

  lemma {:induction false} RunInv(w: World, es: seq<Event>)
    requires Inv(w, 0) && forall i :: 0 <= i < |es| ==> Proper(es[i])
    ensures Inv(Run(w, es), 0)
    decreases |es|
  {
    hide Inv, Ticked;
    if |es| > 0 {
      match es[0] {
        case Do(Start(delay)) => StartInv(w, delay, 0);
        case Do(Cancel(id)) => CancelInv(w, id, 0);
        case Tick(handlers) => TickedInv(w, handlers);
      }
      RunInv(Happen(w, es[0]), es[1..]);
    }
  }

  /** How often a timer has fired. */
  function Times(log: seq<Entry>, id: nat): nat {
    if |log| == 0 then 0 else (if log[0].id == id then 1 else 0) + Times(log[1..], id)
  }

  lemma {:induction false} TimesNone(log: seq<Entry>, id: nat)
    requires forall i :: 0 <= i < |log| ==> log[i].id != id
    ensures Times(log, id) == 0
  {
    if |log| > 0 {
      TimesNone(log[1..], id);
    }
  }

  lemma {:induction false} TimesOnce(log: seq<Entry>, i: nat)
    requires Unique(log) && i < |log|
    ensures Times(log, log[i].id) == 1
  {
    if i == 0 {
      TimesNone(log[1..], log[0].id);
    } else {
      TimesOnce(log[1..], i - 1);
    }
  }

  // ---------------------------------------------------------------- starts and cancels take effect

  /** How many timers some actions start. */
  function Started(acts: seq<Action>): nat {
    if |acts| == 0 then 0 else (if acts[0].Start? then 1 else 0) + Started(acts[1..])
  }

  lemma {:induction false} StartedSplit(acts: seq<Action>, i: nat)
    requires i < |acts|
    ensures Started(acts[..i + 1]) == Started(acts[..i]) + (if acts[i].Start? then 1 else 0)
    ensures Started(acts[..i + 1]) <= Started(acts)
  {
    if i > 0 {
      StartedSplit(acts[1..], i - 1);
      assert acts[..i + 1][1..] == acts[1..][..i] && acts[..i][1..] == acts[1..][..i - 1];
    } else {
      assert acts[..1][1..] == [];
    }
  }

  /** A timer that is started is planned, and queued; all others keep their order. */
  lemma StartTakes(w: World, delay: nat)
    ensures var w', i := Act(w, Start(delay)), Place(w.q, w.now + delay);
      && w'.now == w.now && w'.log == w.log && w'.at == w.at && w'.off == w.off
      && w'.plan == w.plan + [w.now + Max(delay, 1)]
      && w'.q == w.q[..i] + [Entry(|w.plan|, w.now + delay)] + w.q[i..]
  {
    hide Place;
  }

  /** A queued timer that is cancelled is no longer queued; all others keep their order. */
  lemma CancelTakes(w: World, id: nat)
    ensures var w' := Act(w, Cancel(id));
      && w'.now == w.now && w'.log == w.log && w'.at == w.at && w'.plan == w.plan
      && (!Listed(w.q, id) ==> w' == w)
      && (Listed(w.q, id) ==>
        w'.off == w.off + {id} && exists i :: 0 <= i < |w.q| && w.q[i].id == id && w'.q == w.q[..i] + w.q[i + 1..])
  {
  }

  /** What one action adds to the plan and to the cancelled timers. */
  lemma ActAdds(w: World, a: Action)
    ensures var w' := Act(w, a);
      && w'.now == w.now && w'.log == w.log && w.plan <= w'.plan && |w'.plan| == |w.plan| + Started([a])
      && (a.Start? ==> w'.plan[|w.plan|] == w.now + Max(a.delay, 1))
      && (forall id :: id in w'.off <==> id in w.off || (a == Cancel(id) && Listed(w.q, id)))
  {
    assert [a][1..] == [];
    match a
    case Start(delay) => StartTakes(w, delay);
    case Cancel(id) => CancelTakes(w, id);
  }

  /** Every start of a handler is planned, after those before it; what is cancelled has been cancelled by it. */
  lemma {:induction false} ActAllAdds(w: World, acts: seq<Action>)
    ensures var w' := ActAll(w, acts);
      && w'.now == w.now && w'.log == w.log && w.plan <= w'.plan && |w'.plan| == |w.plan| + Started(acts)
      && w.off <= w'.off && (forall id :: id in w'.off ==> id in w.off || Cancel(id) in acts)
    decreases |acts|
  {
    hide Act;
    if |acts| > 0 {
      ActAdds(w, acts[0]);
      ActAllAdds(Act(w, acts[0]), acts[1..]);
      assert [acts[0]][1..] == [];
      forall id | Cancel(id) in acts[1..] ensures Cancel(id) in acts { }
    }
  }

  lemma {:induction false} ActAllConcat(w: World, a: seq<Action>, b: seq<Action>)
    ensures ActAll(w, a + b) == ActAll(ActAll(w, a), b)
    decreases |a|
  {
    hide Act;
    if |a| == 0 {
      assert a + b == b;
    } else {
      assert (a + b)[1..] == a[1..] + b;
      ActAllConcat(Act(w, a[0]), a[1..], b);
    }
  }

  /** A timer started by the i-th action is planned with its number, and is cancelled only by a later action. */
  lemma ActAllStarts(w: World, acts: seq<Action>, i: nat)
    requires Inv(w, 1) && Allowed(acts) && i < |acts| && acts[i].Start?
    ensures acts[i].delay > 0
    ensures var w', id := ActAll(w, acts), |w.plan| + Started(acts[..i]);
      && id < |w'.plan| && w'.plan[id] == w.now + acts[i].delay
      && (id !in w'.off ==> Entry(id, w.now + acts[i].delay) in w'.q)
      && (id in w'.off ==> Cancel(id) in acts[i + 1..])
  {
    hide Act, ActAll, Inv;
    assert acts[i] in acts;
    var w1 := ActAll(w, acts[..i]);
    var w2 := Act(w1, acts[i]);
    ActAllAdds(w, acts[..i]);
    ActAllInv(w, acts[..i]);
    ActAdds(w1, acts[i]);
    ActAllAdds(w2, acts[i + 1..]);
    NewIsOn(w1);
    ActAllStep(w, acts, i);
    NewIsQueued(w1, acts[i].delay);
    ActAllKeeps(w2, acts[i + 1..], Entry(|w1.plan|, w.now + acts[i].delay));
  }

  lemma ActAllStep(w: World, acts: seq<Action>, i: nat)
    requires i < |acts|
    ensures ActAll(w, acts) == ActAll(Act(ActAll(w, acts[..i]), acts[i]), acts[i + 1..])
  {
    hide Act;
    assert acts == acts[..i] + acts[i..];
    ActAllConcat(w, acts[..i], acts[i..]);
    assert acts[i..][1..] == acts[i + 1..];
  }

  lemma NewIsQueued(w: World, delay: nat)
    ensures Entry(|w.plan|, w.now + delay) in Act(w, Start(delay)).q
  {
    StartTakes(w, delay);
  }

  lemma NewIsOn(w: World)
    requires Inv(w, 1)
    ensures |w.plan| !in w.off
  {
  }

  /** A timer that is queued when the i-th action cancels it is cancelled. */
  lemma ActAllCancels(w: World, acts: seq<Action>, i: nat)
    requires i < |acts| && acts[i].Cancel? && Listed(ActAll(w, acts[..i]).q, acts[i].id)
    ensures acts[i].id in ActAll(w, acts).off
  {
    hide Act, ActAll;
    ActAdds(ActAll(w, acts[..i]), acts[i]);
    ActAllAdds(Act(ActAll(w, acts[..i]), acts[i]), acts[i + 1..]);
    ActAllStep(w, acts, i);
  }

  /** A queued timer stays queued until it is cancelled. */
  lemma {:induction false} ActAllKeeps(w: World, acts: seq<Action>, e: Entry)
    requires e in w.q
    ensures e in ActAll(w, acts).q || e.id in ActAll(w, acts).off
    decreases |acts|
  {
    if |acts| > 0 {
      var w1 := Act(w, acts[0]);
      ActKeeps(w, acts[0], e);
      hide Act;
      if e in w1.q { ActAllKeeps(w1, acts[1..], e); } else { ActAllAdds(w1, acts[1..]); }
    }
  }

  lemma ActKeeps(w: World, a: Action, e: Entry)
    requires e in w.q
    ensures e in Act(w, a).q || e.id in Act(w, a).off
  {
    var k :| 0 <= k < |w.q| && w.q[k] == e;
    match a
    case Start(delay) =>
      StartTakes(w, delay);
    case Cancel(id) =>
      var i := IndexOf(w.q, id);
      if i < |w.q| && i != k { assert Without(w.q, i)[if k < i then k else k - 1] == e; }
  }

  /** How many timers are started by the handlers of the timers that fire. */
  function StartedBy(fired: seq<Entry>, handlers: nat -> seq<Action>): nat {
    if |fired| == 0 then 0 else Started(handlers(fired[0].id)) + StartedBy(fired[1..], handlers)
  }

  /** What has fired during a poll. */
  function FiredIn(w: World, w': World): seq<Entry>
    requires |w.log| <= |w'.log|
  {
    w'.log[|w.log|..]
  }

  /** The world after the first timer of the queue has fired and its handler has run. */
  function Handled(w: World, handlers: nat -> seq<Action>): World
    requires |w.q| > 0
  {
    ActAll(Fired(w), handlers(w.q[0].id))
  }

  lemma HandledAdds(w: World, handlers: nat -> seq<Action>)
    requires Inv(w, 1) && (forall id :: Allowed(handlers(id))) && |w.q| > 0 && w.q[0].due <= w.now
    ensures var w', acts := Handled(w, handlers), handlers(w.q[0].id);
      && Inv(w', 1) && w'.now == w.now && w'.log == w.log + [w.q[0]] && w.plan <= w'.plan
      && |w'.plan| == |w.plan| + Started(acts) && w.off <= w'.off
      && (forall id :: id in w'.off ==> id in w.off || Cancel(id) in acts)
      && Polled(w, handlers) == Polled(w', handlers) && DueCount(w'.q, w'.now) < DueCount(w.q, w.now)
  {
    FiredInv(w);
    ActAllInv(Fired(w), handlers(w.q[0].id));
    ActAllDueCount(Fired(w), handlers(w.q[0].id));
    hide Inv, ActAll;
    ActAllAdds(Fired(w), handlers(w.q[0].id));
  }

  /** Whether the handler of a timer that fires cancels another one. */
  predicate CancelledBy(fired: seq<Entry>, handlers: nat -> seq<Action>, id: nat) {
    |fired| > 0 && (Cancel(id) in handlers(fired[0].id) || CancelledBy(fired[1..], handlers, id))
  }

  /** Every timer that fires has its handler run, and only these act. */
  lemma {:induction false} PolledAdds(w: World, handlers: nat -> seq<Action>)
    requires Inv(w, 1) && forall id :: Allowed(handlers(id))
    ensures var w' := Polled(w, handlers);
      && w.log <= w'.log && w.plan <= w'.plan && w.off <= w'.off
      && var fired := FiredIn(w, w');
      && |w'.plan| == |w.plan| + StartedBy(fired, handlers)
      && (forall id :: id in w'.off ==> id in w.off || CancelledBy(fired, handlers, id))
    decreases DueCount(w.q, w.now)
  {
    hide Inv, Handled;
    if |w.q| > 0 && w.q[0].due <= w.now {
      var w1, w' := Handled(w, handlers), Polled(w, handlers);
      HandledAdds(w, handlers);
      hide Polled, DueCount;
      PolledAdds(w1, handlers);
      var fired, rest := FiredIn(w, w'), FiredIn(w1, w');
      assert fired[0] == w.q[0] && fired[1..] == rest;
    }
  }

  /** The world just before the n-th timer of a poll fires. */
  lemma {:induction false} PolledAt(w: World, handlers: nat -> seq<Action>, n: nat) returns (v: World)
    requires Inv(w, 1) && forall id :: Allowed(handlers(id))
    requires |w.log| + n < |Polled(w, handlers).log|
    ensures Inv(v, 1) && Polled(v, handlers) == Polled(w, handlers) && v.now == w.now
    ensures w.log <= Polled(w, handlers).log
    ensures var fired := FiredIn(w, Polled(w, handlers));
      && |v.q| > 0 && v.q[0] == fired[n] && v.q[0].due <= v.now && v.log == w.log + fired[..n]
      && |v.plan| == |w.plan| + StartedBy(fired[..n], handlers)
    decreases n
  {
    PolledAdds(w, handlers);
    assert |w.q| > 0 && w.q[0].due <= w.now;
    HandledAdds(w, handlers);
    hide Inv, Handled, Polled, DueCount, FiredIn, StartedBy, CancelledBy;
    var w1, w' := Handled(w, handlers), Polled(w, handlers);
    PolledAdds(w1, handlers);
    FiredTail(w, w1, w');
    if n == 0 {
      v := w;
    } else {
      v := PolledAt(w1, handlers, n - 1);
    }
    FirstOf(w.log, FiredIn(w, w'), n, handlers);
  }

  lemma FiredTail(w: World, w1: World, w': World)
    requires |w.q| > 0 && w1.log == w.log + [w.q[0]] && w1.log <= w'.log
    ensures FiredIn(w, w') == [w.q[0]] + FiredIn(w1, w')
    ensures FiredIn(w, w')[0] == w.q[0] && FiredIn(w, w')[1..] == FiredIn(w1, w')
  {
  }

  lemma FirstOf(log: seq<Entry>, fired: seq<Entry>, n: nat, handlers: nat -> seq<Action>)
    requires n < |fired|
    ensures n == 0 ==> log + fired[..n] == log && StartedBy(fired[..n], handlers) == 0
    ensures n > 0 ==>
      && log + fired[..n] == (log + [fired[0]]) + fired[1..][..n - 1] && fired[n] == fired[1..][n - 1]
      && StartedBy(fired[..n], handlers) == Started(handlers(fired[0].id)) + StartedBy(fired[1..][..n - 1], handlers)
  {
    if n > 0 { assert fired[..n][1..] == fired[1..][..n - 1]; }
  }

  /** A start in the handler of the first timer that fires. */
  lemma FirstStarts(w: World, handlers: nat -> seq<Action>, i: nat)
    requires Inv(w, 1) && (forall id :: Allowed(handlers(id))) && |w.q| > 0 && w.q[0].due <= w.now
    requires i < |handlers(w.q[0].id)| && handlers(w.q[0].id)[i].Start?
    ensures var w', acts := Polled(w, handlers), handlers(w.q[0].id);
      var id := |w.plan| + Started(acts[..i]);
      && |w.log| < |w'.log| && id < |w'.plan| && w'.plan[id] == w.now + acts[i].delay
      && (id !in w'.off ==> Entry(id, w.now + acts[i].delay) in w'.q)
      && (id in w'.off ==>
        Cancel(id) in acts[i + 1..] || CancelledBy(w'.log[|w.log| + 1..], handlers, id))
  {
    hide Inv, Polled, DueCount, ActAll, Started, StartedBy, CancelledBy, Handled, Fired, Allowed;
    var w1, w' := Handled(w, handlers), Polled(w, handlers);
    HandledAdds(w, handlers);
    HandledStarts(w, handlers, i);
    PolledAdds(w1, handlers);
    var id := |w.plan| + Started(handlers(w.q[0].id)[..i]);
    if id !in w1.off { PolledKeeps(w1, handlers, Entry(id, w.now + handlers(w.q[0].id)[i].delay)); }
    assert FiredIn(w1, w') == w'.log[|w.log| + 1..];
  }

  lemma HandledStarts(w: World, handlers: nat -> seq<Action>, i: nat)
    requires Inv(w, 1) && (forall id :: Allowed(handlers(id))) && |w.q| > 0 && w.q[0].due <= w.now
    requires i < |handlers(w.q[0].id)| && handlers(w.q[0].id)[i].Start?
    ensures var w', acts := Handled(w, handlers), handlers(w.q[0].id);
      var id := |w.plan| + Started(acts[..i]);
      && id < |w'.plan| && w'.plan[id] == w.now + acts[i].delay && acts[i].delay > 0
      && (id !in w'.off ==> Entry(id, w.now + acts[i].delay) in w'.q)
      && (id in w'.off ==> Cancel(id) in acts[i + 1..])
  {
    FiredInv(w);
    FiredSame(w);
    hide Inv, ActAll, Started, Allowed, Fired;
    var acts := handlers(w.q[0].id);
    ActAllStarts(Fired(w), acts, i);
  }

  lemma FiredSame(w: World)
    requires |w.q| > 0
    ensures Fired(w).now == w.now && Fired(w).plan == w.plan && Fired(w).off == w.off
  {
  }

  /** A timer that is not due stays queued during a poll until it is cancelled. */
  lemma {:induction false} PolledKeeps(w: World, handlers: nat -> seq<Action>, e: Entry)
    requires Inv(w, 1) && (forall id :: Allowed(handlers(id))) && e in w.q && e.due > w.now
    ensures e in Polled(w, handlers).q || e.id in Polled(w, handlers).off
    decreases DueCount(w.q, w.now)
  {
    hide Inv, Handled;
    if w.q[0].due <= w.now {
      HandledAdds(w, handlers);
      HandledKeeps(w, handlers, e);
      hide Polled, DueCount;
      if e in Handled(w, handlers).q { PolledKeeps(Handled(w, handlers), handlers, e); }
      else { PolledAdds(Handled(w, handlers), handlers); }
    }
  }

  lemma HandledKeeps(w: World, handlers: nat -> seq<Action>, e: Entry)
    requires e in w.q && e != w.q[0]
    ensures e in Handled(w, handlers).q || e.id in Handled(w, handlers).off
  {
    assert e in Fired(w).q;
    ActAllKeeps(Fired(w), handlers(w.q[0].id), e);
  }

  /** Whatever timer fires in a poll: each start of its handler is planned, after all starts before it, and the
      timer is then queued, unless a later action of this handler or of one after it cancels it. */
  lemma HandlerStarts(w: World, handlers: nat -> seq<Action>, n: nat, i: nat)
    requires Inv(w, 1) && (forall id :: Allowed(handlers(id))) && |w.log| + n < |Polled(w, handlers).log|
    requires var acts := handlers(Polled(w, handlers).log[|w.log| + n].id); i < |acts| && acts[i].Start?
    ensures var w' := Polled(w, handlers);
      var acts := handlers(w'.log[|w.log| + n].id);
      var id := |w.plan| + StartedBy(w'.log[|w.log|..|w.log| + n], handlers) + Started(acts[..i]);
      && id < |w'.plan| && w'.plan[id] == w.now + acts[i].delay
      && (id !in w'.off ==> Entry(id, w.now + acts[i].delay) in w'.q)
      && (id in w'.off ==>
        Cancel(id) in acts[i + 1..] || CancelledBy(w'.log[|w.log| + n + 1..], handlers, id))
  {
    hide Inv, Polled, StartedBy, Started;
    var v := PolledAt(w, handlers, n);
    FirstStarts(v, handlers, i);
    assert FiredIn(w, Polled(w, handlers))[..n] == Polled(w, handlers).log[|w.log|..|w.log| + n];
  }

  /** Whatever timer fires in a poll: what its handler cancels is cancelled, if it has been started before and has
      not fired. */
  lemma HandlerCancels(w: World, handlers: nat -> seq<Action>, n: nat, i: nat)
    requires Inv(w, 1) && (forall id :: Allowed(handlers(id))) && |w.log| + n < |Polled(w, handlers).log|
    requires var acts := handlers(Polled(w, handlers).log[|w.log| + n].id); i < |acts| && acts[i].Cancel?
    ensures var w' := Polled(w, handlers);
      var acts := handlers(w'.log[|w.log| + n].id);
      var started := |w.plan| + StartedBy(w'.log[|w.log|..|w.log| + n], handlers) + Started(acts[..i]);
      acts[i].id < started && (forall m :: 0 <= m <= |w.log| + n ==> w'.log[m].id != acts[i].id) ==>
        acts[i].id in w'.off
  {
    hide Inv, Polled, StartedBy, Started;
    var w' := Polled(w, handlers);
    var v := PolledAt(w, handlers, n);
    assert FiredIn(w, w')[..n] == w'.log[|w.log|..|w.log| + n];
    var acts := handlers(v.q[0].id);
    if acts[i].id < |v.plan| + Started(acts[..i]) && forall m :: 0 <= m <= |w.log| + n ==> w'.log[m].id != acts[i].id {
      FirstCancels(v, handlers, i);
    }
  }

  lemma FirstCancels(w: World, handlers: nat -> seq<Action>, i: nat)
    requires Inv(w, 1) && (forall id :: Allowed(handlers(id))) && |w.q| > 0 && w.q[0].due <= w.now
    requires var acts := handlers(w.q[0].id);
      && i < |acts| && acts[i].Cancel? && acts[i].id < |w.plan| + Started(acts[..i])
      && (forall m :: 0 <= m < |w.log| ==> w.log[m].id != acts[i].id) && w.q[0].id != acts[i].id
    ensures handlers(w.q[0].id)[i].id in Polled(w, handlers).off
  {
    hide Inv, Polled, DueCount, Handled, StartedBy, CancelledBy;
    HandledAdds(w, handlers);
    HandledCancels(w, handlers, i);
    PolledAdds(Handled(w, handlers), handlers);
  }

  lemma HandledCancels(w: World, handlers: nat -> seq<Action>, i: nat)
    requires Inv(w, 1) && (forall id :: Allowed(handlers(id))) && |w.q| > 0 && w.q[0].due <= w.now
    requires var acts := handlers(w.q[0].id);
      && i < |acts| && acts[i].Cancel? && acts[i].id < |w.plan| + Started(acts[..i])
      && (forall m :: 0 <= m < |w.log| ==> w.log[m].id != acts[i].id) && w.q[0].id != acts[i].id
    ensures handlers(w.q[0].id)[i].id in Handled(w, handlers).off
  {
    var acts := handlers(w.q[0].id);
    var w0, id := Fired(w), acts[i].id;
    FiredInv(w);
    var w1 := ActAll(w0, acts[..i]);
    ActAllInv(w0, acts[..i]);
    ActAllAdds(w0, acts[..i]);
    StillWaiting(w1, id);
    hide Inv, ActAll;
    if id in w1.off {
      ActAllConcat(w0, acts[..i], acts[i..]);
      assert acts == acts[..i] + acts[i..];
      ActAllAdds(w1, acts[i..]);
    } else {
      ActAllCancels(w0, acts, i);
    }
  }

  lemma StillWaiting(w: World, id: nat)
    requires Inv(w, 1) && id < |w.plan| && forall m :: 0 <= m < |w.log| ==> w.log[m].id != id
    ensures id in w.off || Listed(w.q, id)
  {
    if id !in w.off {
      var k :| 0 <= k < |w.log + w.q| && (w.log + w.q)[k].id == id;
      assert w.q[k - |w.log|].id == id;
    }
  }

  /** At every time after any run, a timer that was started has fired exactly once if it was not cancelled
      and its time has come, and otherwise never; it fired at just that time, and timers fired in the
      order of their times, first come, first served. */
  lemma FiresOnce(es: seq<Event>, id: nat)
    requires forall i :: 0 <= i < |es| ==> Proper(es[i])
    ensures var w := Run(BOOT, es);
      id < |w.plan| ==>
        && Times(w.log, id) == (if id !in w.off && w.plan[id] <= w.now then 1 else 0)
        && |w.at| == |w.log| && Ordered(w.log)
        && forall i :: 0 <= i < |w.log| && w.log[i].id == id ==> w.at[i] == w.plan[id]
  {
    BootInv();
    RunInv(BOOT, es);
    hide Inv, Run, Times, Ordered;
    var w := Run(BOOT, es);
    if id < |w.plan| {
      FiredTimes(w, id);
      FiredThen(w, id);
    }
  }

  lemma FiredThen(w: World, id: nat)
    requires Inv(w, 0) && id < |w.plan|
    ensures |w.at| == |w.log| && Ordered(w.log)
    ensures forall i :: 0 <= i < |w.log| && w.log[i].id == id ==> w.at[i] == w.plan[id]
  {
    var all := w.log + w.q;
    assert forall k :: 0 <= k < |w.log| ==> w.log[k] == all[k];
  }

  lemma FiredTimes(w: World, id: nat)
    requires Inv(w, 0) && id < |w.plan|
    ensures Times(w.log, id) == if id !in w.off && w.plan[id] <= w.now then 1 else 0
  {
    var all := w.log + w.q;
    hide Ordered, Times;
    if id in w.off || w.plan[id] > w.now {
      forall k | 0 <= k < |w.log| ensures w.log[k].id != id { assert w.log[k] == all[k]; }
      TimesNone(w.log, id);
    } else {
      forall k | |w.log| <= k < |all| ensures all[k].id != id { assert all[k] == w.q[k - |w.log|]; }
      var k :| 0 <= k < |all| && all[k].id == id;
      assert Unique(w.log) by { assert forall i :: 0 <= i < |w.log| ==> w.log[i] == all[i]; }
      assert w.log[k] == all[k];
      TimesOnce(w.log, k);
    }
  }

  /** An event that cancels a timer, if the handlers it is given are run. */
  ghost predicate Cancels(e: Event, id: nat) {
    match e
    case Do(a) => a == Cancel(id)
    case Tick(handlers) => exists t :: Cancel(id) in handlers(t)
  }

  lemma {:induction false} CancelledBySome(fired: seq<Entry>, handlers: nat -> seq<Action>, id: nat)
    requires CancelledBy(fired, handlers, id)
    ensures exists t :: Cancel(id) in handlers(t)
  {
    if Cancel(id) !in handlers(fired[0].id) { CancelledBySome(fired[1..], handlers, id); }
  }

  ghost predicate SomeCancels(es: seq<Event>, id: nat) {
    |es| > 0 && (Cancels(es[0], id) || SomeCancels(es[1..], id))
  }

  lemma {:induction false} NoneCancels(es: seq<Event>, id: nat)
    requires forall k :: 0 <= k < |es| ==> !Cancels(es[k], id)
    ensures !SomeCancels(es, id)
  {
    hide Cancels;
    if |es| > 0 { NoneCancels(es[1..], id); }
  }

  lemma HappenKeeps(w: World, e: Event)
    requires Inv(w, 0) && Proper(e)
    ensures var w' := Happen(w, e);
      && Inv(w', 0) && w.plan <= w'.plan && w.log <= w'.log && w.off <= w'.off
      && w'.now == w.now + (if e.Tick? then 1 else 0)
      && forall id :: id in w'.off ==> id in w.off || Cancels(e, id)
  {
    match e
    case Do(Start(delay)) => StartInv(w, delay, 0);
    case Do(Cancel(id)) => CancelInv(w, id, 0);
    case Tick(handlers) =>
      var w1, w' := w.(now := w.now + 1), Ticked(w, handlers);
      TickedInv(w, handlers);
      PolledAdds(w1, handlers);
      hide Inv, Polled;
      forall id | CancelledBy(FiredIn(w1, w'), handlers, id) ensures Cancels(e, id) {
        CancelledBySome(FiredIn(w1, w'), handlers, id);
      }
  }

  /** How many ticks there are in a run. */
  ghost function Ticks(es: seq<Event>): nat {
    if |es| == 0 then 0 else (if es[0].Tick? then 1 else 0) + Ticks(es[1..])
  }

  lemma {:induction false} RunKeeps(w: World, es: seq<Event>)
    requires Inv(w, 0) && forall i :: 0 <= i < |es| ==> Proper(es[i])
    ensures var w' := Run(w, es);
      && Inv(w', 0) && w.plan <= w'.plan && w.log <= w'.log && w.off <= w'.off && w'.now == w.now + Ticks(es)
      && forall id :: id in w'.off ==> id in w.off || SomeCancels(es, id)
    decreases |es|
  {
    hide Inv, Happen, Cancels, Proper;
    if |es| > 0 {
      HappenKeeps(w, es[0]);
      RunKeeps(Happen(w, es[0]), es[1..]);
    }
  }

  lemma {:induction false} RunConcat(w: World, a: seq<Event>, b: seq<Event>)
    requires (forall i :: 0 <= i < |a| ==> Proper(a[i])) && forall i :: 0 <= i < |b| ==> Proper(b[i])
    ensures (forall i :: 0 <= i < |a + b| ==> Proper((a + b)[i])) && Run(w, a + b) == Run(Run(w, a), b)
    decreases |a|
  {
    hide Happen, Proper;
    if |a| == 0 {
      assert a + b == b;
    } else {
      assert (a + b)[1..] == a[1..] + b;
      RunConcat(Happen(w, a[0]), a[1..], b);
    }
  }

  /** A timer that is started at some point of a run, and that no later event cancels, fires exactly once, after its
      delay, or at the next tick if it has none; before that it has not fired. */
  lemma StartFires(before: seq<Event>, delay: nat, after: seq<Event>)
    requires (forall i :: 0 <= i < |before| ==> Proper(before[i])) && delay <= MAX_DELAY
    requires forall i :: 0 <= i < |after| ==> Proper(after[i])
    ensures var es := before + [Do(Start(delay))] + after;
      && (forall i :: 0 <= i < |es| ==> Proper(es[i]))
      && var id, w := |Run(BOOT, before).plan|, Run(BOOT, es);
      && w.now == Ticks(before) + Ticks(after)
      && ((forall k :: 0 <= k < |after| ==> !Cancels(after[k], id)) ==>
        Times(w.log, id) == if Max(delay, 1) <= Ticks(after) then 1 else 0)
  {
    hide Inv, Cancels;
    BootInv();
    var start := Do(Start(delay));
    var w0 := Run(BOOT, before);
    var w1 := Happen(w0, start);
    RunKeeps(BOOT, before);
    StartInv(w0, delay, 0);
    NewIsOff(w0, delay);
    RunKeeps(w1, after);
    assert [start][1..] == [] && Run(w0, [start]) == Run(w1, []) == w1;
    RunConcat(BOOT, before, [start]);
    RunConcat(BOOT, before + [start], after);
    if forall k :: 0 <= k < |after| ==> !Cancels(after[k], |w0.plan|) { NoneCancels(after, |w0.plan|); }
    FiresOnce(before + [start] + after, |w0.plan|);
  }

  lemma NewIsOff(w: World, delay: nat)
    requires Inv(w, 0)
    ensures var w' := Act(w, Start(delay)); |w.plan| !in w'.off && w'.plan == w.plan + [w.now + Max(delay, 1)]
  {
    StartTakes(w, delay);
  }

  /** Cancelling a timer ends it: it does not fire from then on. */
  lemma CancelStops(before: seq<Event>, id: nat, after: seq<Event>)
    requires (forall i :: 0 <= i < |before| ==> Proper(before[i])) && forall i :: 0 <= i < |after| ==> Proper(after[i])
    ensures var es := before + [Do(Cancel(id))] + after;
      && (forall i :: 0 <= i < |es| ==> Proper(es[i]))
      && (id < |Run(BOOT, before).plan| ==> Times(Run(BOOT, es).log, id) == Times(Run(BOOT, before).log, id))
  {
    BootInv();
    RunKeeps(BOOT, before);
    ProperMeans(Do(Cancel(id)));
    hide Inv, Times, Act, Proper, Run;
    RunThrough(BOOT, before, Do(Cancel(id)), after);
    if id < |Run(BOOT, before).plan| { StopsFrom(Run(BOOT, before), id, after); }
  }

  /** A run through one event. */
  lemma RunThrough(w: World, before: seq<Event>, e: Event, after: seq<Event>)
    requires (forall i :: 0 <= i < |before| ==> Proper(before[i])) && Proper(e)
    requires forall i :: 0 <= i < |after| ==> Proper(after[i])
    ensures forall i :: 0 <= i < |before + [e] + after| ==> Proper((before + [e] + after)[i])
    ensures Run(w, before + [e] + after) == Run(Happen(Run(w, before), e), after)
  {
    hide Happen, Proper;
    RunOne(Run(w, before), e);
    hide Run;
    RunConcat(w, before, [e]);
    RunConcat(w, before + [e], after);
  }

  lemma StopsFrom(w0: World, id: nat, after: seq<Event>)
    requires Inv(w0, 0) && id < |w0.plan| && forall i :: 0 <= i < |after| ==> Proper(after[i])
    ensures Times(Run(Act(w0, Cancel(id)), after).log, id) == Times(w0.log, id)
  {
    var w1 := Act(w0, Cancel(id));
    CancelInv(w0, id, 0);
    CancelTakes(w0, id);
    Ended(w0, id);
    hide Inv, Times, Act, Run, Proper, Listed;
    RunKeeps(w1, after);
    var w := Run(w1, after);
    FiredTimes(w0, id);
    FiredTimes(w, id);
    NotOff(w, w0, id);
  }

  lemma RunOne(w: World, e: Event)
    requires Proper(e)
    ensures Run(w, [e]) == Happen(w, e)
  {
    hide Happen, Proper;
    assert [e][1..] == [] && Run(Happen(w, e), []) == Happen(w, e);
  }

  lemma Ended(w: World, id: nat)
    requires Inv(w, 0) && id < |w.plan|
    ensures id in w.off || w.plan[id] <= w.now || Listed(w.q, id)
  {
    if id !in w.off {
      var k :| 0 <= k < |w.log + w.q| && (w.log + w.q)[k].id == id;
      if k >= |w.log| { assert w.q[k - |w.log|].id == id; }
    }
  }

  /** What has fired is not cancelled any more. */
  lemma NotOff(w: World, w0: World, id: nat)
    requires Inv(w, 0) && Inv(w0, 0) && w0.log <= w.log && id < |w0.plan| <= |w.plan|
    ensures id !in w0.off && w0.plan[id] <= w0.now ==> id !in w.off && !Listed(w0.q, id)
  {
    if id !in w0.off && w0.plan[id] <= w0.now {
      var k :| 0 <= k < |w0.log + w0.q| && (w0.log + w0.q)[k].id == id;
      assert k < |w0.log| && (w.log + w.q)[k].id == id;
      forall j | 0 <= j < |w0.q| ensures w0.q[j].id != id { assert w0.q[j] == (w0.log + w0.q)[|w0.log| + j]; }
    }
  }
}
