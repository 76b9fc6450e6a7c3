/** The guards of function-local statics on several cores, as every interleaving of memory accesses:
    a lock that a core may take again, and two flags for each guard. */
module Guard {
  /** Where a core is in the guard functions.  An increment or decrement of the count reads first
      and writes what it has read, changed, later. */
  datatype Pc =
    | User                        // outside the guard functions
    | Check(g: nat)               // reads whether the constructor has run
    | Spin(g: nat)                // tries to take the lock
    | IncRead(g: nat)
    | IncWrite(g: nat, v: int)
    | Recheck(g: nat)             // reads again whether the constructor has run
    | UndoRead(g: nat)
    | UndoWrite(g: nat, v: int)
    | UndoFree(g: nat)            // gives the lock back
    | Zero(g: nat)                // acquire returns 0
    | Mark(g: nat)                // marks the guard as in use; acquire returns 1
    | RelRun(g: nat)              // release marks the constructor as run
    | RelRead(g: nat)
    | RelWrite(g: nat, v: int)
    | RelFree                     // gives the lock back

  /** A core, and the guards whose constructors it is running, the innermost last. */
  datatype Core = Core(pc: Pc, stack: seq<nat>)

  /** The shared variables; how often each constructor was started, and which have finished. */
  datatype State = State(owner: int, count: int, hasRun: set<nat>, inUse: set<nat>, cores: seq<Core>,
                         started: multiset<nat>, done: set<nat>)

  const FREE := -1

  datatype Action = Call(g: nat) | Finish | Go

  /** What the program on a core may do: it does not wait for a constructor it is running itself,
      and constructors finish in the opposite order. */
  predicate Can(s: State, c: nat, a: Action) {
    && c < |s.cores|
    && match a
       case Call(g) => s.cores[c].pc == User && g !in s.cores[c].stack
       case Finish => s.cores[c].pc == User && |s.cores[c].stack| > 0
       case Go => s.cores[c].pc != User
  }

  function Set(s: State, c: nat, pc: Pc): State
    requires c < |s.cores|
  {
    s.(cores := s.cores[c := s.cores[c].(pc := pc)])
  }

  function Top(core: Core): nat
    requires |core.stack| > 0
  {
    core.stack[|core.stack| - 1]
  }

  /** One memory access of core `c`, or a call. */
  function Next(s: State, c: nat, a: Action): State
    requires Can(s, c, a)
  {
    var core := s.cores[c];
    match a
    case Call(g) => Set(s, c, Check(g))
    case Finish => Set(s, c, RelRun(Top(core))).(done := s.done + {Top(core)})
    case Go =>
      match core.pc
      case User => s
      case Check(g) => Set(s, c, if g in s.hasRun then Zero(g) else Spin(g))
      case Spin(g) =>
        if s.owner == FREE then Set(s, c, IncRead(g)).(owner := c)
        else if s.owner == c then Set(s, c, IncRead(g))
        else s
      case IncRead(g) => Set(s, c, IncWrite(g, s.count))
      case IncWrite(g, v) => Set(s, c, Recheck(g)).(count := v + 1)
      case Recheck(g) => Set(s, c, if g in s.hasRun then UndoRead(g) else Mark(g))
      case UndoRead(g) => Set(s, c, UndoWrite(g, s.count))
      case UndoWrite(g, v) => Set(s, c, if v - 1 == 0 then UndoFree(g) else Zero(g)).(count := v - 1)
      case UndoFree(g) => Set(s, c, Zero(g)).(owner := FREE)
      case Zero(g) => Set(s, c, User)
      case Mark(g) =>
        s.(inUse := s.inUse + {g}, started := s.started + multiset{g},
           cores := s.cores[c := Core(User, core.stack + [g])])
      case RelRun(g) => Set(s, c, RelRead(g)).(hasRun := s.hasRun + {g})
      case RelRead(g) => Set(s, c, RelWrite(g, s.count))
      case RelWrite(g, v) =>
        s.(count := v - 1,
           cores := s.cores[c := Core(if v - 1 == 0 then RelFree else User,
             if |core.stack| > 0 then core.stack[..|core.stack| - 1] else [])])
      case RelFree => Set(s, c, User).(owner := FREE)
  }

  // ---------------------------------------------------------------- invariant

  /** A core that owns the lock. */
  predicate Holding(core: Core) {
    |core.stack| > 0 ||
    match core.pc
    case User => false
    case Check(_) => false
    case Spin(_) => false
    case Zero(_) => false
    case _ => true
  }

  /** How often the core has taken the lock, as counted. */
  function Held(core: Core): nat {
    |core.stack| +
    match core.pc
    case Recheck(_) => 1
    case UndoRead(_) => 1
    case UndoWrite(_, _) => 1
    case Mark(_) => 1
    case _ => 0
  }

  /** The guard a core is asking for. */
  function Asked(pc: Pc): set<nat> {
    match pc
    case Check(g) => {g}
    case Spin(g) => {g}
    case IncRead(g) => {g}
    case IncWrite(g, _) => {g}
    case Recheck(g) => {g}
    case Mark(g) => {g}
    case _ => {}
  }

  predicate PcOk(s: State, core: Core) {
    match core.pc
    case IncWrite(_, v) => v == s.count
    case UndoRead(g) => g in s.hasRun
    case UndoWrite(g, v) => v == s.count && g in s.hasRun
    case UndoFree(g) => core.stack == [] && s.count == 0 && g in s.hasRun
    case Zero(g) => g in s.hasRun
    case Mark(g) => g !in s.hasRun
    case RelRun(g) => |core.stack| > 0 && Top(core) == g && g in s.done && g !in s.hasRun
    case RelRead(g) => |core.stack| > 0 && Top(core) == g && g in s.hasRun
    case RelWrite(g, v) => |core.stack| > 0 && Top(core) == g && g in s.hasRun && v == s.count
    case RelFree => core.stack == [] && s.count == 0
    case _ => true
  }

  /** Whether the innermost constructor of a core is already marked as run. */
  predicate Leaving(pc: Pc) {
    pc.RelRead? || pc.RelWrite?
  }

  predicate StackOk(s: State, core: Core) {
    && (forall g :: g in Asked(core.pc) ==> g !in core.stack)
    && (forall i, j :: 0 <= i < j < |core.stack| ==> core.stack[i] != core.stack[j])
    && forall i :: 0 <= i < |core.stack| ==>
      && core.stack[i] in s.inUse
      && (core.stack[i] in s.hasRun ==> i == |core.stack| - 1 && Leaving(core.pc))
  }

  ghost predicate CoreOk(s: State, c: nat)
    requires c < |s.cores|
  {
    && (Holding(s.cores[c]) <==> s.owner == c)
    && (s.owner == c ==> s.count == Held(s.cores[c]))
    && PcOk(s, s.cores[c]) && StackOk(s, s.cores[c])
  }

  /** Guards in use have run, or are being run by the core that owns the lock. */
  ghost predicate GuardsOk(s: State) {
    && s.hasRun <= s.done && s.hasRun <= s.inUse
    && (forall g :: g in s.inUse && g !in s.hasRun ==> 0 <= s.owner < |s.cores| && g in s.cores[s.owner].stack)
    && forall g :: s.started[g] == if g in s.inUse then 1 else 0
  }

  ghost predicate Inv(s: State) {
    && (s.owner == FREE || 0 <= s.owner < |s.cores|) && (s.owner == FREE ==> s.count == 0)
    && GuardsOk(s)
    && forall c {:trigger CoreOk(s, c)} :: 0 <= c < |s.cores| ==> CoreOk(s, c)
  }

  /** `n` cores that have not run any constructor. */
  ghost predicate Initial(s: State) {
    && s.owner == FREE && s.count == 0 && s.hasRun == {} && s.inUse == {} && s.done == {} && s.started == multiset{}
    && forall c :: 0 <= c < |s.cores| ==> s.cores[c] == Core(User, [])
  }

  lemma InitialInv(s: State)
    requires Initial(s)
    ensures Inv(s)
  {
  }

  /** The core that takes a step: its part of the lock ... */
  lemma ActorLock(s: State, c: nat, a: Action)
    requires Inv(s) && Can(s, c, a)
    ensures var s' := Next(s, c, a);
      (Holding(s'.cores[c]) <==> s'.owner == c) && (s'.owner == c ==> s'.count == Held(s'.cores[c]))
  {
    hide StackOk, GuardsOk;
    assert CoreOk(s, c);
    hide CoreOk, Inv;
  }

  lemma ActorPc(s: State, c: nat, a: Action)
    requires Inv(s) && Can(s, c, a)
    ensures PcOk(Next(s, c, a), Next(s, c, a).cores[c])
  {
    hide Asked;
    assert CoreOk(s, c);
  }

  /** ... and the constructors it is running. */
  lemma ActorStack(s: State, c: nat, a: Action)
    requires Inv(s) && Can(s, c, a)
    ensures StackOk(Next(s, c, a), Next(s, c, a).cores[c])
  {
    hide Holding, Held, GuardsOk;
    assert CoreOk(s, c);
    var core, s' := s.cores[c], Next(s, c, a);
    hide CoreOk, Inv;
    if core.pc.Mark? {
      StackPush(s, core, core.pc.g);
      hide StackOk;
    } else if core.pc.RelWrite? {
      StackPop(s, core, s'.cores[c]);
      StackSame(s, s', s'.cores[c]);
    } else if core.pc.RelRun? {
      StackRun(s, core);
    }
  }

  lemma StackSame(s: State, s': State, core: Core)
    requires StackOk(s, core) && s'.inUse == s.inUse && s'.hasRun == s.hasRun
    ensures StackOk(s', core)
  {
  }

  lemma StackRun(s: State, core: Core)
    requires StackOk(s, core) && |core.stack| > 0 && core.pc == RelRun(Top(core))
    ensures StackOk(s.(hasRun := s.hasRun + {Top(core)}), core.(pc := RelRead(Top(core))))
  {
  }

  lemma StackPush(s: State, core: Core, g: nat)
    requires StackOk(s, core) && core.pc == Mark(g) && g !in s.hasRun
    ensures StackOk(s.(inUse := s.inUse + {g}), Core(User, core.stack + [g]))
  {
    assert g in Asked(core.pc);
    assert forall i :: 0 <= i < |core.stack| ==> core.stack[i] in core.stack;
  }

  lemma StackPop(s: State, core: Core, core': Core)
    requires StackOk(s, core) && |core.stack| > 0 && core'.stack == core.stack[..|core.stack| - 1]
    requires core'.pc == User || core'.pc == RelFree
    ensures StackOk(s, core')
  {
  }

  /** Cores that do not take the step. */
  lemma OtherOk(s: State, c: nat, a: Action, d: nat)
    requires Inv(s) && Can(s, c, a) && d < |s.cores| && d != c
    ensures CoreOk(Next(s, c, a), d)
  {
    assert CoreOk(s, c) && CoreOk(s, d);
  }

  lemma GuardsStep(s: State, c: nat, a: Action)
    requires Inv(s) && Can(s, c, a)
    ensures GuardsOk(Next(s, c, a))
  {
    assert CoreOk(s, c);
  }

  lemma StepInv(s: State, c: nat, a: Action)
    requires Inv(s) && Can(s, c, a)
    ensures Inv(Next(s, c, a))
  {
    var s' := Next(s, c, a);
    assert CoreOk(s, c);
    GuardsStep(s, c, a);
    forall d | 0 <= d < |s'.cores| ensures CoreOk(s', d) {
      if d == c { ActorLock(s, c, a); ActorPc(s, c, a); ActorStack(s, c, a); } else { OtherOk(s, c, a, d); }
    }
  }

  // ---------------------------------------------------------------- what the guards are for

  datatype Event = Event(core: nat, action: Action)

  predicate CanRun(s: State, es: seq<Event>)
    decreases |es|
  {
    |es| > 0 ==> Can(s, es[0].core, es[0].action) && CanRun(Next(s, es[0].core, es[0].action), es[1..])
  }

  function Run(s: State, es: seq<Event>): State
    requires CanRun(s, es)
    decreases |es|
  {
    if |es| == 0 then s else Run(Next(s, es[0].core, es[0].action), es[1..])
  }

  lemma {:induction false} RunInv(s: State, es: seq<Event>)
    requires Inv(s) && CanRun(s, es)
    ensures Inv(Run(s, es))
    decreases |es|
  {
    hide Inv, Next;
    if |es| > 0 {
      StepInv(s, es[0].core, es[0].action);
      RunInv(Next(s, es[0].core, es[0].action), es[1..]);
    }
  }

  /** In every interleaving only one core at a time runs guarded constructors. */
  lemma OneCoreConstructs(s: State, es: seq<Event>, c: nat, d: nat)
    requires Initial(s) && CanRun(s, es) && c < |Run(s, es).cores| && d < |Run(s, es).cores|
    requires |Run(s, es).cores[c].stack| > 0 && |Run(s, es).cores[d].stack| > 0
    ensures c == d
  {
    InitialInv(s);
    RunInv(s, es);
    assert CoreOk(Run(s, es), c) && CoreOk(Run(s, es), d);
  }

  /** No constructor is started twice, and one that is asked for after it has run has finished:
      when acquire returns 0 the constructor is done. */
  lemma ConstructedOnce(s: State, es: seq<Event>, g: nat, c: nat)
    requires Initial(s) && CanRun(s, es) && c < |Run(s, es).cores|
    ensures Run(s, es).started[g] <= 1
    ensures Run(s, es).cores[c].pc == Zero(g) ==> g in Run(s, es).done && Run(s, es).started[g] == 1
  {
    InitialInv(s);
    RunInv(s, es);
    assert CoreOk(Run(s, es), c);
  }

  /** The two assertions of the source never fail: the count is positive when the lock is released,
      and a guard is not in use when it is marked. */
  lemma AssertionsHold(s: State, es: seq<Event>, c: nat)
    requires Initial(s) && CanRun(s, es) && c < |Run(s, es).cores|
    ensures var s' := Run(s, es);
      && (s'.cores[c].pc.UndoRead? || s'.cores[c].pc.RelRead? ==> s'.count > 0)
      && (s'.cores[c].pc.Mark? ==> s'.cores[c].pc.g !in s'.inUse)
  {
    InitialInv(s);
    RunInv(s, es);
    assert CoreOk(Run(s, es), c);
  }

  /** The lock is free whenever all cores are outside the guard functions and run no constructor. */
  lemma LockGivenBack(s: State, es: seq<Event>)
    requires Initial(s) && CanRun(s, es)
    requires forall c :: 0 <= c < |Run(s, es).cores| ==> Run(s, es).cores[c] == Core(User, [])
    ensures Run(s, es).owner == FREE && Run(s, es).count == 0
  {
    InitialInv(s);
    RunInv(s, es);
    var s' := Run(s, es);
    assert s'.owner == FREE || s'.cores[s'.owner] == Core(User, []);
    forall c | 0 <= c < |s'.cores| ensures !Holding(s'.cores[c]) && s'.owner != c { assert CoreOk(s', c); }
  }

  // ---------------------------------------------------------------- progress

  /** A core that tries to take the lock while another core owns it. */
  predicate Blocked(s: State, c: nat)
    requires c < |s.cores|
  {
    s.cores[c].pc.Spin? && s.owner != FREE && s.owner != c
  }

  /** The next step of a core whose constructors call no more guards. */
  function Onward(core: Core): Action {
    if core.pc == User then Finish else Go
  }

  /** How many such steps a core that owns the lock takes to give it back, at most. */
  function StepsLeft(core: Core): nat {
    var n := 4 * |core.stack|;
    match core.pc
    case User => n + 1
    case RelRun(_) => n
    case RelRead(_) => if n > 0 then n - 1 else 0
    case RelWrite(_, _) => if n > 0 then n - 2 else 0
    case RelFree => 1
    case Zero(_) => n + 2
    case UndoFree(_) => 1
    case UndoWrite(_, _) => n + 3
    case UndoRead(_) => n + 4
    case Mark(_) => n + 6
    case Recheck(_) => n + 7
    case IncWrite(_, _) => n + 8
    case IncRead(_) => n + 9
    case Spin(_) => n + 10
    case Check(_) => n + 11
  }

  /** The core that owns the lock is never blocked, and each of its steps brings it nearer to giving it back. */
  lemma OwnerAdvances(s: State)
    requires Inv(s) && s.owner != FREE
    ensures var d := s.owner;
      && 0 <= d < |s.cores| && !Blocked(s, d) && Can(s, d, Onward(s.cores[d]))
      && var s' := Next(s, d, Onward(s.cores[d]));
      && (s'.owner == d ==> StepsLeft(s'.cores[d]) < StepsLeft(s.cores[d]))
      && (s'.owner == d || s'.owner == FREE) && StepsLeft(s.cores[d]) > 0
  {
    hide GuardsOk, StackOk;
    assert CoreOk(s, s.owner);
  }

  /** The steps with which the owner of the lock gives it back. */
  ghost function Handing(s: State): (es: seq<Event>)
    requires Inv(s)
    decreases if 0 <= s.owner < |s.cores| then StepsLeft(s.cores[s.owner]) + 1 else 0
  {
    if s.owner == FREE then []
    else
      OwnerAdvances(s);
      StepInv(s, s.owner, Onward(s.cores[s.owner]));
      [Event(s.owner, Onward(s.cores[s.owner]))] + Handing(Next(s, s.owner, Onward(s.cores[s.owner])))
  }

  lemma {:induction false} HandedBack(s: State)
    requires Inv(s)
    ensures var es := Handing(s);
      && CanRun(s, es) && Run(s, es).owner == FREE && (forall i :: 0 <= i < |es| ==> es[i].core == s.owner)
      && |es| <= if s.owner == FREE then 0 else StepsLeft(s.cores[s.owner])
    decreases if 0 <= s.owner < |s.cores| then StepsLeft(s.cores[s.owner]) + 1 else 0
  {
    hide Next, Inv, StepsLeft, Onward;
    if s.owner != FREE {
      OwnerAdvances(s);
      var a := Onward(s.cores[s.owner]);
      StepInv(s, s.owner, a);
      HandedBack(Next(s, s.owner, a));
      assert Handing(s)[1..] == Handing(Next(s, s.owner, a));
    }
  }

  /** There is no deadlock: in every interleaving a core that waits for the lock waits for another core, which can
      give the lock back with steps of its own, so that the waiting core gets it. */
  lemma WaitEnds(s: State, es: seq<Event>, c: nat)
    requires Initial(s) && CanRun(s, es) && c < |Run(s, es).cores| && Blocked(Run(s, es), c)
    ensures Inv(Run(s, es))
    ensures var s' := Run(s, es);
      var more := Handing(s');
      && CanRun(s', more) && (forall i :: 0 <= i < |more| ==> more[i].core == s'.owner != c)
      && Run(s', more).owner == FREE && c < |Run(s', more).cores| && Can(Run(s', more), c, Go)
      && Next(Run(s', more), c, Go).owner == c
  {
    InitialInv(s);
    RunInv(s, es);
    var s' := Run(s, es);
    hide Inv, Initial;
    HandedBack(s');
    RunOthers(s', Handing(s'), c);
  }

  /** A core takes no step unless it is its turn. */
  lemma {:induction false} RunOthers(s: State, es: seq<Event>, c: nat)
    requires CanRun(s, es) && c < |s.cores| && forall i :: 0 <= i < |es| ==> es[i].core != c
    ensures c < |Run(s, es).cores| && Run(s, es).cores[c] == s.cores[c]
    decreases |es|
  {
    if |es| > 0 { RunOthers(Next(s, es[0].core, es[0].action), es[1..], c); }
  }

  // ---------------------------------------------------------------- undisturbed calls

  /** Steps of one core. */
  function Goes(c: nat, n: nat): (es: seq<Event>)
    ensures |es| == n
  {
    seq(n, i => Event(c, Go))
  }

  lemma GoesOn(s: State, c: nat, n: nat)
    requires n > 0 && Can(s, c, Go) && CanRun(Next(s, c, Go), Goes(c, n - 1))
    ensures CanRun(s, Goes(c, n)) && Run(s, Goes(c, n)) == Run(Next(s, c, Go), Goes(c, n - 1))
  {
    hide Next, Can;
    assert Goes(c, n)[1..] == Goes(c, n - 1);
  }

  /** The state with another core, owner and count. */
  function With(s: State, c: nat, pc: Pc, owner: int, count: int): State
    requires c < |s.cores|
  {
    s.(owner := owner, count := count, cores := s.cores[c := s.cores[c].(pc := pc)])
  }

  lemma TakeSteps(s: State, c: nat, g: nat)
    requires c < |s.cores| && (s.owner == FREE || s.owner == c) && g !in s.hasRun
    ensures var s1 := With(s, c, Check(g), s.owner, s.count);
      CanRun(s1, Goes(c, 5)) && Run(s1, Goes(c, 5)) == With(s, c, Mark(g), c, s.count + 1)
  {
    var s1, s2 := With(s, c, Check(g), s.owner, s.count), With(s, c, Spin(g), s.owner, s.count);
    var s3, s4 := With(s, c, IncRead(g), c, s.count), With(s, c, IncWrite(g, s.count), c, s.count);
    var s5, s6 := With(s, c, Recheck(g), c, s.count + 1), With(s, c, Mark(g), c, s.count + 1);
    assert Can(s1, c, Go) && Next(s1, c, Go) == s2;
    assert Can(s2, c, Go) && Next(s2, c, Go) == s3;
    assert Can(s3, c, Go) && Next(s3, c, Go) == s4;
    assert Can(s4, c, Go) && Next(s4, c, Go) == s5;
    assert Can(s5, c, Go) && Next(s5, c, Go) == s6;
    hide Next, Can, With, Goes;
    GoesOn(s5, c, 1);
    GoesOn(s4, c, 2);
    GoesOn(s3, c, 3);
    GoesOn(s2, c, 4);
    GoesOn(s1, c, 5);
  }

  /** Acquiring a guard whose constructor has not run, with the lock free or the core's own, takes the lock and starts
      the constructor. */
  lemma CallConstructs(s: State, c: nat, g: nat)
    requires c < |s.cores| && s.cores[c].pc == User && g !in s.cores[c].stack && g !in s.hasRun
    requires s.owner == FREE || s.owner == c
    ensures Can(s, c, Call(g)) && CanRun(Next(s, c, Call(g)), Goes(c, 6))
    ensures Run(Next(s, c, Call(g)), Goes(c, 6)) ==
      s.(owner := c, count := s.count + 1, inUse := s.inUse + {g}, started := s.started + multiset{g},
         cores := s.cores[c := Core(User, s.cores[c].stack + [g])])
  {
    var s1 := With(s, c, Check(g), s.owner, s.count);
    assert Next(s, c, Call(g)) == s1;
    TakeSteps(s, c, g);
    MarkStep(s, c, g);
    hide Next, Can, With, Goes;
    GoesMore(s1, c, 5);
  }

  lemma MarkStep(s: State, c: nat, g: nat)
    requires c < |s.cores|
    ensures var s6 := With(s, c, Mark(g), c, s.count + 1);
      && Can(s6, c, Go)
      && Next(s6, c, Go) ==
        s.(owner := c, count := s.count + 1, inUse := s.inUse + {g}, started := s.started + multiset{g},
           cores := s.cores[c := Core(User, s.cores[c].stack + [g])])
  {
  }

  /** One step more at the end. */
  lemma {:induction false} GoesMore(s: State, c: nat, n: nat)
    requires CanRun(s, Goes(c, n)) && Can(Run(s, Goes(c, n)), c, Go)
    ensures CanRun(s, Goes(c, n + 1)) && Run(s, Goes(c, n + 1)) == Next(Run(s, Goes(c, n)), c, Go)
    decreases n
  {
    hide Next, Can;
    if n > 0 {
      assert Goes(c, n)[1..] == Goes(c, n - 1);
      GoesMore(Next(s, c, Go), c, n - 1);
      GoesOn(s, c, n + 1);
    } else {
      GoesOn(s, c, 1);
    }
  }

  /** Acquiring a guard whose constructor has run returns at once and changes nothing, whoever owns the lock. */
  lemma CallReturns(s: State, c: nat, g: nat)
    requires c < |s.cores| && s.cores[c].pc == User && g !in s.cores[c].stack && g in s.hasRun
    ensures Can(s, c, Call(g)) && CanRun(Next(s, c, Call(g)), Goes(c, 2))
    ensures Run(Next(s, c, Call(g)), Goes(c, 2)) == s
  {
    var s1, s2 := With(s, c, Check(g), s.owner, s.count), With(s, c, Zero(g), s.owner, s.count);
    assert Next(s, c, Call(g)) == s1;
    assert Can(s1, c, Go) && Next(s1, c, Go) == s2;
    assert s.cores[c := s.cores[c]] == s.cores;
    assert Can(s2, c, Go) && Next(s2, c, Go) == s;
    hide Next, Can, With, Goes;
    GoesOn(s2, c, 1);
    GoesOn(s1, c, 2);
  }

  /** A finished constructor is marked as run, and the lock is given back with the outermost one. */
  lemma FinishMarks(s: State, c: nat)
    requires Inv(s) && c < |s.cores| && s.cores[c].pc == User && |s.cores[c].stack| > 0
    ensures var last, n := |s.cores[c].stack| == 1, if |s.cores[c].stack| == 1 then 4 else 3;
      var g := s.cores[c].stack[|s.cores[c].stack| - 1];
      && Can(s, c, Finish) && CanRun(Next(s, c, Finish), Goes(c, n))
      && Run(Next(s, c, Finish), Goes(c, n)) ==
        s.(owner := if last then FREE else c, count := s.count - 1, hasRun := s.hasRun + {g}, done := s.done + {g},
           cores := s.cores[c := Core(User, s.cores[c].stack[..|s.cores[c].stack| - 1])])
  {
    assert CoreOk(s, c);
    hide Inv;
    FinishSteps(s, c);
  }

  lemma FinishLast(s: State, c: nat, g: nat, n: nat)
    requires c < |s.cores| && n == |s.cores[c].stack| > 0
    ensures var core, s3 := s.cores[c], With(s, c, RelWrite(g, n), c, n);
      var rest := core.stack[..n - 1];
      var s4 := s.(owner := c, count := n - 1, cores := s.cores[c := Core(if n == 1 then RelFree else User, rest)]);
      && Can(s3, c, Go) && Next(s3, c, Go) == s4
      && (n == 1 ==> Can(s4, c, Go))
      && (n == 1 ==> Next(s4, c, Go) == s.(owner := FREE, count := n - 1, cores := s.cores[c := Core(User, rest)]))
  {
  }

  lemma FinishSteps(s: State, c: nat)
    requires c < |s.cores| && s.cores[c].pc == User && |s.cores[c].stack| > 0
    requires s.owner == c && s.count == |s.cores[c].stack|
    ensures var last, n := |s.cores[c].stack| == 1, if |s.cores[c].stack| == 1 then 4 else 3;
      var g := s.cores[c].stack[|s.cores[c].stack| - 1];
      && Can(s, c, Finish) && CanRun(Next(s, c, Finish), Goes(c, n))
      && Run(Next(s, c, Finish), Goes(c, n)) ==
        s.(owner := if last then FREE else c, count := s.count - 1, hasRun := s.hasRun + {g}, done := s.done + {g},
           cores := s.cores[c := Core(User, s.cores[c].stack[..|s.cores[c].stack| - 1])])
  {
    var core, n := s.cores[c], s.count;
    var g, rest := Top(core), core.stack[..|core.stack| - 1];
    var t := s.(done := s.done + {g});
    var t' := t.(hasRun := s.hasRun + {g});
    var s1, s2 := With(t, c, RelRun(g), c, n), With(t', c, RelRead(g), c, n);
    var s3 := With(t', c, RelWrite(g, n), c, n);
    assert Can(s, c, Finish) && Next(s, c, Finish) == s1;
    assert Can(s1, c, Go) && Next(s1, c, Go) == s2;
    assert Can(s2, c, Go) && Next(s2, c, Go) == s3;
    var s4 := t'.(count := n - 1, cores := s.cores[c := Core(if n == 1 then RelFree else User, rest)]);
    var s5 := t'.(owner := FREE, count := n - 1, cores := s.cores[c := Core(User, rest)]);
    FinishLast(t', c, g, n);
    hide Next, Can, With, Goes;
    if n == 1 { GoesOn(s4, c, 1); }
    GoesOn(s3, c, if n == 1 then 2 else 1);
    GoesOn(s2, c, if n == 1 then 3 else 2);
    GoesOn(s1, c, if n == 1 then 4 else 3);
  }
}
