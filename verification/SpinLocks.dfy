/** Interrupt masking and spin locks on several cores, as every interleaving of their steps with
    interrupts: critical sections nest, and handlers run on top of what they interrupt. */
module SpinLocks {
  const TASK_LEVEL := 0
  const IRQ_LEVEL := 1
  const FIQ_LEVEL := 2

  /** Where a context is in acquiring or releasing a lock. */
  datatype Pc =
    | User
    | EnterRead(l: nat)               // reads the interrupt mask
    | EnterMask(l: nat, seen: nat)    // masks all interrupts
    | EnterPush(l: nat, seen: nat)    // saves the mask it has read
    | EnterOpen(l: nat)               // lets FIQs through again if the lock is of IRQ level
    | Spin(l: nat)                    // tries to take the lock
    | Unlock(l: nat)
    | LeaveMask                       // masks all interrupts
    | LeavePop                        // takes back the mask saved last
    | LeaveSet(m: nat)                // restores it

  /** A task or a handler: its execution level, the locks it holds, the masks seen on entering the
      critical sections it is in, and the mask to be restored when it returns. */
  datatype Frame = Frame(level: nat, pc: Pc, held: seq<nat>, crit: seq<nat>, resume: nat)

  /** A core: the interrupts it masks, its stack of saved masks, and its contexts, the running one last. */
  datatype Core = Core(mask: nat, saved: seq<nat>, frames: seq<Frame>)

  /** Who holds each lock; `FREE` if nobody. */
  datatype State = State(cores: seq<Core>, owner: seq<int>)

  const FREE := -1

  type Levels = seq<nat>

  predicate LevelsOk(lv: Levels) {
    forall l :: 0 <= l < |lv| ==> lv[l] <= FIQ_LEVEL
  }

  datatype Action = Acquire(l: nat) | Release | Interrupt(level: nat) | Return | Go

  function Top(core: Core): Frame
    requires |core.frames| > 0
  {
    core.frames[|core.frames| - 1]
  }

  /** The running context is replaced. */
  function WithTop(core: Core, f: Frame): Core
    requires |core.frames| > 0
  {
    core.(frames := core.frames[|core.frames| - 1 := f])
  }

  /** What a context may do: use locks of at least its own level, none twice, none of IRQ level while
      FIQs are masked, and release them in the opposite order.  A handler returns with all locks
      released.  An interrupt comes only if it is not masked. */
  predicate Can(lv: Levels, s: State, c: nat, a: Action) {
    && c < |s.cores| && |s.cores[c].frames| > 0
    && var core := s.cores[c];
    && var f := Top(core);
    match a
    case Acquire(l) =>
      && f.pc == User && l < |lv| && l < |s.owner| && f.level <= lv[l] && l !in f.held
      && (lv[l] == IRQ_LEVEL ==> core.mask < FIQ_LEVEL)
    case Release => f.pc == User && |f.held| > 0
    case Interrupt(k) => core.mask < k <= FIQ_LEVEL
    case Return => f.pc == User && f.held == [] && |core.frames| > 1
    case Go => f.pc != User
  }

  function Last(s: seq<nat>): nat {
    if |s| > 0 then s[|s| - 1] else 0
  }

  function Init(s: seq<nat>): seq<nat> {
    if |s| > 0 then s[..|s| - 1] else s
  }

  function LevelOf(lv: Levels, l: nat): nat {
    if l < |lv| then lv[l] else 0
  }

  /** What a step of its own does to the running core, the lock aside. */
  function Advance(lv: Levels, core: Core): Core
    requires |core.frames| > 0
  {
    var f := Top(core);
    match f.pc
    case User => core
    case EnterRead(l) => WithTop(core, f.(pc := EnterMask(l, core.mask)))
    case EnterMask(l, seen) => WithTop(core, f.(pc := EnterPush(l, seen))).(mask := FIQ_LEVEL)
    case EnterPush(l, seen) =>
      WithTop(core, f.(pc := EnterOpen(l), crit := f.crit + [seen])).(saved := core.saved + [seen])
    case EnterOpen(l) =>
      WithTop(core, f.(pc := Spin(l))).(mask := if LevelOf(lv, l) == IRQ_LEVEL then IRQ_LEVEL else core.mask)
    case Spin(l) => WithTop(core, f.(pc := User, held := f.held + [l]))
    case Unlock(l) =>
      WithTop(core, f.(pc := if LevelOf(lv, l) >= IRQ_LEVEL then LeaveMask else User, held := Init(f.held)))
    case LeaveMask => WithTop(core, f.(pc := LeavePop)).(mask := FIQ_LEVEL)
    case LeavePop =>
      WithTop(core, f.(pc := LeaveSet(Last(core.saved)), crit := Init(f.crit))).(saved := Init(core.saved))
    case LeaveSet(m) => WithTop(core, f.(pc := User)).(mask := m)
  }

  function Act(lv: Levels, core: Core, a: Action): Core
    requires |core.frames| > 0
  {
    var f := Top(core);
    match a
    case Acquire(l) => WithTop(core, f.(pc := if LevelOf(lv, l) >= IRQ_LEVEL then EnterRead(l) else Spin(l)))
    case Release => WithTop(core, f.(pc := Unlock(Last(f.held))))
    case Interrupt(k) => core.(mask := k, frames := core.frames + [Frame(k, User, [], [], core.mask)])
    case Return => core.(mask := f.resume, frames := core.frames[..|core.frames| - 1])
    case Go => Advance(lv, core)
  }

  /** A context finds the lock it wants taken. */
  predicate Blocked(s: State, f: Frame) {
    f.pc.Spin? && f.pc.l < |s.owner| && s.owner[f.pc.l] != FREE
  }

  function NextOwner(s: State, c: nat, f: Frame): seq<int> {
    if f.pc.Spin? && f.pc.l < |s.owner| then s.owner[f.pc.l := c]
    else if f.pc.Unlock? && f.pc.l < |s.owner| then s.owner[f.pc.l := FREE]
    else s.owner
  }

  function Next(lv: Levels, s: State, c: nat, a: Action): State
    requires Can(lv, s, c, a)
  {
    var core := s.cores[c];
    var f := Top(core);
    if a == Go && Blocked(s, f) then s
    else State(s.cores[c := Act(lv, core, a)], if a == Go then NextOwner(s, c, f) else s.owner)
  }

  // ---------------------------------------------------------------- invariant of a core

  /** The mask of a context that holds these locks. */
  function MaskOf(lv: Levels, base: nat, held: seq<nat>): nat
    decreases |held|
  {
    if |held| == 0 then base
    else if LevelOf(lv, Last(held)) >= IRQ_LEVEL then LevelOf(lv, Last(held))
    else MaskOf(lv, base, Init(held))
  }

  /** The masks seen when the critical sections of these locks were entered. */
  function MasksSeen(lv: Levels, base: nat, held: seq<nat>): seq<nat>
    decreases |held|
  {
    if |held| == 0 then []
    else if LevelOf(lv, Last(held)) >= IRQ_LEVEL then MasksSeen(lv, base, Init(held)) + [MaskOf(lv, base, Init(held))]
    else MasksSeen(lv, base, Init(held))
  }

  /** Locks of these levels may be held together: each one raises the mask or keeps it. */
  predicate Nested(lv: Levels, base: nat, held: seq<nat>)
    decreases |held|
  {
    |held| > 0 ==>
      && Nested(lv, base, Init(held)) && Last(held) < |lv| && base <= lv[Last(held)]
      && MaskOf(lv, base, Init(held)) <= MaskOf(lv, base, held)
  }

  lemma {:induction false} NestedBounds(lv: Levels, base: nat, held: seq<nat>)
    requires Nested(lv, base, held)
    ensures base <= MaskOf(lv, base, held)
    ensures forall i :: 0 <= i < |held| ==> held[i] < |lv| && base <= lv[held[i]] <= MaskOf(lv, base, held)
    decreases |held|
  {
    if |held| > 0 {
      NestedBounds(lv, base, Init(held));
      assert forall i :: 0 <= i < |held| ==> held[i] == if i < |held| - 1 then Init(held)[i] else Last(held);
    }
  }

  /** A critical section is entered before its lock is taken, and left after it is released. */
  predicate Inside(lv: Levels, pc: Pc) {
    match pc
    case EnterOpen(_) => true
    case Spin(l) => LevelOf(lv, l) >= IRQ_LEVEL
    case LeaveMask => true
    case LeavePop => true
    case _ => false
  }

  /** The lock a context wants. */
  function Wanted(pc: Pc): set<nat> {
    match pc
    case EnterRead(l) => {l}
    case EnterMask(l, _) => {l}
    case EnterPush(l, _) => {l}
    case EnterOpen(l) => {l}
    case Spin(l) => {l}
    case _ => {}
  }

  /** A context whose interrupts are masked by `mask`. */
  predicate FrameOk(lv: Levels, f: Frame, mask: nat) {
    && f.level <= FIQ_LEVEL && mask <= FIQ_LEVEL
    && var m := MaskOf(lv, f.level, f.held);
    && m <= mask && Nested(lv, f.level, f.held)
    && (forall l :: l in Wanted(f.pc) ==>
      l < |lv| && f.level <= lv[l] && l !in f.held && (lv[l] == IRQ_LEVEL ==> m < FIQ_LEVEL))
    && f.crit == MasksSeen(lv, f.level, f.held) + (if Inside(lv, f.pc) then [m] else [])
    && match f.pc
       case User => mask == m
       case EnterRead(l) => mask == m && lv[l] >= IRQ_LEVEL
       case EnterMask(l, seen) => mask == m == seen && lv[l] >= IRQ_LEVEL
       case EnterPush(l, seen) => mask == FIQ_LEVEL && seen == m && lv[l] >= IRQ_LEVEL
       case EnterOpen(l) => mask == FIQ_LEVEL && lv[l] >= IRQ_LEVEL
       case Spin(l) => mask == if lv[l] >= IRQ_LEVEL then lv[l] else m
       case Unlock(l) => mask == m && |f.held| > 0 && Last(f.held) == l
       case LeaveMask => true
       case LeavePop => mask == FIQ_LEVEL
       case LeaveSet(seen) => mask == FIQ_LEVEL && seen == m
  }

  /** The mask of the i-th context: that of the core, or what it was when it was interrupted. */
  function MaskAt(core: Core, i: nat): nat
    requires i < |core.frames|
  {
    if i + 1 < |core.frames| then core.frames[i + 1].resume else core.mask
  }

  function Crits(frames: seq<Frame>): seq<nat> {
    if |frames| == 0 then [] else Crits(frames[..|frames| - 1]) + frames[|frames| - 1].crit
  }

  predicate CoreOk(lv: Levels, core: Core) {
    && |core.frames| > 0 && core.saved == Crits(core.frames)
    && (forall i :: 0 <= i < |core.frames| ==> FrameOk(lv, core.frames[i], MaskAt(core, i)))
    && (forall i :: 0 < i < |core.frames| ==> core.frames[i].resume < core.frames[i].level)
  }

  lemma {:induction false} MaskAbove(lv: Levels, base: nat, held: seq<nat>, l: nat)
    requires LevelOf(lv, l) >= IRQ_LEVEL
    ensures MaskOf(lv, base, held + [l]) == LevelOf(lv, l)
    ensures MasksSeen(lv, base, held + [l]) == MasksSeen(lv, base, held) + [MaskOf(lv, base, held)]
  {
    assert Init(held + [l]) == held && Last(held + [l]) == l;
  }

  lemma {:induction false} MaskSame(lv: Levels, base: nat, held: seq<nat>, l: nat)
    requires LevelOf(lv, l) < IRQ_LEVEL
    ensures MaskOf(lv, base, held + [l]) == MaskOf(lv, base, held)
    ensures MasksSeen(lv, base, held + [l]) == MasksSeen(lv, base, held)
  {
    assert Init(held + [l]) == held && Last(held + [l]) == l;
  }

  lemma CritsTop(core: Core, f: Frame)
    requires |core.frames| > 0
    ensures Crits(WithTop(core, f).frames) == Crits(core.frames[..|core.frames| - 1]) + f.crit
  {
    assert WithTop(core, f).frames[..|core.frames| - 1] == core.frames[..|core.frames| - 1];
  }

  lemma SpinFrame(lv: Levels, f: Frame, mask: nat, l: nat)
    requires LevelsOk(lv) && FrameOk(lv, f, mask) && f.pc == Spin(l)
    ensures FrameOk(lv, f.(pc := User, held := f.held + [l]), mask)
  {
    assert l in Wanted(f.pc);
    NestedBounds(lv, f.level, f.held);
    if lv[l] >= IRQ_LEVEL { MaskAbove(lv, f.level, f.held, l); } else { MaskSame(lv, f.level, f.held, l); }
    assert Init(f.held + [l]) == f.held && Last(f.held + [l]) == l;
  }

  lemma UnlockFrame(lv: Levels, f: Frame, mask: nat, l: nat)
    requires LevelsOk(lv) && FrameOk(lv, f, mask) && f.pc == Unlock(l)
    ensures FrameOk(lv, f.(pc := if LevelOf(lv, l) >= IRQ_LEVEL then LeaveMask else User, held := Init(f.held)), mask)
  {
    assert f.held == Init(f.held) + [l];
    if LevelOf(lv, l) >= IRQ_LEVEL {
      MaskAbove(lv, f.level, Init(f.held), l);
    } else {
      MaskSame(lv, f.level, Init(f.held), l);
    }
  }

  lemma PopFrame(lv: Levels, f: Frame, mask: nat)
    requires FrameOk(lv, f, mask) && f.pc == LeavePop
    ensures |f.crit| > 0 && FrameOk(lv, f.(pc := LeaveSet(Last(f.crit)), crit := Init(f.crit)), mask)
  {
    hide Nested, MaskOf, MasksSeen;
    assert f.crit == MasksSeen(lv, f.level, f.held) + [MaskOf(lv, f.level, f.held)];
  }

  /** The other steps leave the locks alone. */
  lemma PlainFrame(lv: Levels, core: Core)
    requires LevelsOk(lv) && |core.frames| > 0 && FrameOk(lv, Top(core), core.mask)
    requires !Top(core).pc.Spin? && !Top(core).pc.Unlock? && !Top(core).pc.LeavePop?
    ensures FrameOk(lv, Top(Advance(lv, core)), Advance(lv, core).mask)
  {
    hide Nested, MaskOf, MasksSeen;
    var f := Top(core);
    match f.pc
    case EnterRead(l) => assert l in Wanted(f.pc);
    case EnterMask(l, seen) => assert l in Wanted(f.pc);
    case EnterPush(l, seen) => assert l in Wanted(f.pc);
    case EnterOpen(l) => assert l in Wanted(f.pc);
    case _ =>
  }

  /** A step of its own keeps the running context in order. */
  lemma AdvanceFrame(lv: Levels, core: Core)
    requires LevelsOk(lv) && |core.frames| > 0 && FrameOk(lv, Top(core), core.mask)
    requires Top(core).pc == LeavePop ==> Last(core.saved) == Last(Top(core).crit)
    ensures FrameOk(lv, Top(Advance(lv, core)), Advance(lv, core).mask)
  {
    hide FrameOk;
    var f := Top(core);
    match f.pc
    case Spin(l) => SpinFrame(lv, f, core.mask, l);
    case Unlock(l) => UnlockFrame(lv, f, core.mask, l);
    case LeavePop => PopFrame(lv, f, core.mask);
    case _ => PlainFrame(lv, core);
  }

  lemma AdvanceEffect(lv: Levels, core: Core)
    requires |core.frames| > 0
    ensures var core', f, f' := Advance(lv, core), Top(core), Top(Advance(lv, core));
      && core'.frames == WithTop(core, f').frames
      && match f.pc
         case EnterPush(_, seen) => core'.saved == core.saved + [seen] && f'.crit == f.crit + [seen]
         case LeavePop => core'.saved == Init(core.saved) && f'.crit == Init(f.crit)
         case _ => core'.saved == core.saved && f'.crit == f.crit
  {
  }

  /** The stack of saved masks goes along with the critical sections of the running context. */
  lemma AdvanceSaved(lv: Levels, core: Core)
    requires CoreOk(lv, core)
    ensures Top(core).pc == LeavePop ==> |core.saved| > 0 && Last(core.saved) == Last(Top(core).crit)
    ensures Advance(lv, core).saved == Crits(Advance(lv, core).frames)
  {
    var f, f', below := Top(core), Top(Advance(lv, core)), Crits(core.frames[..|core.frames| - 1]);
    TopFrameOk(lv, core);
    CritsTop(core, f);
    CritsTop(core, f');
    AdvanceEffect(lv, core);
    assert WithTop(core, f) == core;
    hide FrameOk, Crits, CoreOk, Advance, WithTop;
    if f.pc == LeavePop {
      PopFrame(lv, f, core.mask);
      assert Init(below + f.crit) == below + Init(f.crit);
    } else if f.pc.EnterPush? {
      assert below + (f.crit + [f.pc.seen]) == below + f.crit + [f.pc.seen];
    }
  }

  lemma TopFrameOk(lv: Levels, core: Core)
    requires CoreOk(lv, core)
    ensures FrameOk(lv, Top(core), core.mask) && core.saved == Crits(core.frames)
  {
    assert FrameOk(lv, core.frames[|core.frames| - 1], MaskAt(core, |core.frames| - 1));
  }

  lemma GoCore(lv: Levels, core: Core)
    requires LevelsOk(lv) && CoreOk(lv, core)
    ensures CoreOk(lv, Advance(lv, core))
  {
    var core', n := Advance(lv, core), |core.frames|;
    TopFrameOk(lv, core);
    AdvanceSaved(lv, core);
    AdvanceFrame(lv, core);
    AdvanceEffect(lv, core);
    AdvanceLevel(lv, core);
    OtherFrames(lv, core, core', Top(core'));
  }

  lemma AdvanceLevel(lv: Levels, core: Core)
    requires |core.frames| > 0
    ensures Top(Advance(lv, core)).level == Top(core).level && Top(Advance(lv, core)).resume == Top(core).resume
  {
  }

  /** Contexts that are interrupted do not notice what the running one does. */
  lemma OtherFrames(lv: Levels, core: Core, core': Core, f: Frame)
    requires CoreOk(lv, core) && core'.frames == WithTop(core, f).frames && core'.saved == Crits(core'.frames)
    requires f.level == Top(core).level && f.resume == Top(core).resume && FrameOk(lv, f, core'.mask)
    ensures CoreOk(lv, core')
  {
    hide FrameOk, Crits;
    forall i | 0 <= i < |core'.frames| ensures FrameOk(lv, core'.frames[i], MaskAt(core', i)) {
      assert FrameOk(lv, core.frames[i], MaskAt(core, i));
    }
  }

  lemma AcquireFrame(lv: Levels, f: Frame, mask: nat, l: nat)
    requires LevelsOk(lv) && FrameOk(lv, f, mask) && f.pc == User && l < |lv| && f.level <= lv[l] && l !in f.held
    requires lv[l] == IRQ_LEVEL ==> mask < FIQ_LEVEL
    ensures FrameOk(lv, f.(pc := if LevelOf(lv, l) >= IRQ_LEVEL then EnterRead(l) else Spin(l)), mask)
  {
    hide Nested, MaskOf, MasksSeen;
  }

  lemma ReleaseFrame(lv: Levels, f: Frame, mask: nat)
    requires FrameOk(lv, f, mask) && f.pc == User && |f.held| > 0
    ensures FrameOk(lv, f.(pc := Unlock(Last(f.held))), mask)
  {
    hide Nested, MaskOf, MasksSeen;
  }

  lemma ProgramCore(lv: Levels, core: Core, a: Action)
    requires LevelsOk(lv) && CoreOk(lv, core) && (a.Acquire? || a == Release) && Top(core).pc == User
    requires a.Acquire? ==> a.l < |lv| && Top(core).level <= lv[a.l] && a.l !in Top(core).held
    requires a.Acquire? && lv[a.l] == IRQ_LEVEL ==> core.mask < FIQ_LEVEL
    requires a == Release ==> |Top(core).held| > 0
    ensures CoreOk(lv, Act(lv, core, a))
  {
    hide FrameOk, Crits;
    TopFrameOk(lv, core);
    var f, core' := Top(core), Act(lv, core, a);
    if a.Acquire? { AcquireFrame(lv, f, core.mask, a.l); } else { ReleaseFrame(lv, f, core.mask); }
    CritsTop(core, f);
    CritsTop(core, Top(core'));
    assert WithTop(core, f) == core;
    OtherFrames(lv, core, core', Top(core'));
  }

  lemma InterruptCore(lv: Levels, core: Core, k: nat)
    requires CoreOk(lv, core) && core.mask < k <= FIQ_LEVEL
    ensures CoreOk(lv, Act(lv, core, Interrupt(k)))
  {
    var core', n := Act(lv, core, Interrupt(k)), |core.frames|;
    assert core'.frames[..n] == core.frames;
    assert FrameOk(lv, core'.frames[n], k);
    hide FrameOk, Crits;
    assert Crits(core'.frames) == Crits(core.frames) + [] by {
      CritsTop(core', core'.frames[n]);
      assert WithTop(core', core'.frames[n]) == core';
    }
    forall i | 0 <= i < |core'.frames| ensures FrameOk(lv, core'.frames[i], MaskAt(core', i)) {
      if i < n { assert FrameOk(lv, core.frames[i], MaskAt(core, i)); }
    }
  }

  lemma ReturnCore(lv: Levels, core: Core)
    requires CoreOk(lv, core) && |core.frames| > 1 && Top(core).pc == User && Top(core).held == []
    ensures CoreOk(lv, Act(lv, core, Return))
  {
    var core', n := Act(lv, core, Return), |core.frames|;
    TopFrameOk(lv, core);
    assert Top(core).crit == [];
    hide FrameOk, Crits;
    CritsTop(core, Top(core));
    assert WithTop(core, Top(core)) == core;
    forall i | 0 <= i < |core'.frames| ensures FrameOk(lv, core'.frames[i], MaskAt(core', i)) {
      assert FrameOk(lv, core.frames[i], MaskAt(core, i));
    }
  }

  // ---------------------------------------------------------------- who holds what

  /** All locks held on a core, in the order in which they were taken. */
  function Held(frames: seq<Frame>): seq<nat> {
    if |frames| == 0 then [] else Held(frames[..|frames| - 1]) + frames[|frames| - 1].held
  }

  predicate Once(s: seq<nat>) {
    forall i, j :: 0 <= i < j < |s| ==> s[i] != s[j]
  }

  /** The locks held on each core. */
  function Helds(cores: seq<Core>): seq<seq<nat>> {
    seq(|cores|, c requires 0 <= c < |cores| => Held(cores[c].frames))
  }

  /** The locks say who holds them, and nobody holds one twice. */
  predicate Agree(helds: seq<seq<nat>>, owner: seq<int>) {
    && (forall c :: 0 <= c < |helds| ==> Once(helds[c]))
    && (forall c, l {:trigger l in helds[c]} :: 0 <= c < |helds| && l in helds[c] ==> l < |owner| && owner[l] == c)
    && forall l :: 0 <= l < |owner| && owner[l] != FREE ==> 0 <= owner[l] < |helds| && l in helds[owner[l]]
  }

  predicate OwnersOk(s: State) {
    Agree(Helds(s.cores), s.owner)
  }

  lemma TakeAgrees(helds: seq<seq<nat>>, owner: seq<int>, c: nat, l: nat)
    requires Agree(helds, owner) && c < |helds| && l < |owner| && owner[l] == FREE
    ensures Agree(helds[c := helds[c] + [l]], owner[l := c])
  {
    var held, helds', owner' := helds[c] + [l], helds[c := helds[c] + [l]], owner[l := c];
    assert forall m :: m in held <==> m in helds[c] || m == l;
    assert l !in helds[c];
    assert forall i :: 0 <= i < |helds[c]| ==> held[i] == helds[c][i] && helds[c][i] in helds[c];
    assert Once(held);
    forall d, m | 0 <= d < |helds'| && m in helds'[d] ensures m < |owner'| && owner'[m] == d {
      assert m in helds[d] || (d == c && m == l);
    }
    forall m | 0 <= m < |owner'| && owner'[m] != FREE ensures 0 <= owner'[m] < |helds'| && m in helds'[owner'[m]] {
      assert m != l ==> m in helds[owner[m]];
    }
  }

  lemma FreeAgrees(helds: seq<seq<nat>>, owner: seq<int>, c: nat)
    requires Agree(helds, owner) && c < |helds| && |helds[c]| > 0
    ensures Last(helds[c]) < |owner| && Agree(helds[c := Init(helds[c])], owner[Last(helds[c]) := FREE])
  {
    var held, l := Init(helds[c]), Last(helds[c]);
    assert helds[c] == held + [l];
    assert l in helds[c];
    assert forall m :: m in held ==> m in helds[c] && m != l;
    assert forall m :: m in helds[c] ==> m in held || m == l;
    var helds', owner' := helds[c := held], owner[l := FREE];
    forall d, m | 0 <= d < |helds'| && m in helds'[d] ensures m < |owner'| && owner'[m] == d {
      assert m in helds[d];
      assert m == l ==> d == c;
    }
    forall m | 0 <= m < |owner'| && owner'[m] != FREE ensures 0 <= owner'[m] < |helds'| && m in helds'[owner'[m]] {
      assert m in helds[owner[m]];
    }
  }

  predicate Inv(lv: Levels, s: State) {
    && LevelsOk(lv) && |s.owner| == |lv| && OwnersOk(s)
    && forall c :: 0 <= c < |s.cores| ==> CoreOk(lv, s.cores[c])
  }

  lemma HeldTop(core: Core, f: Frame)
    requires |core.frames| > 0
    ensures Held(WithTop(core, f).frames) == Held(core.frames[..|core.frames| - 1]) + f.held
  {
    assert WithTop(core, f).frames[..|core.frames| - 1] == core.frames[..|core.frames| - 1];
  }

  /** What a step does to the locks held on its core. */
  lemma ActHeld(lv: Levels, core: Core, a: Action)
    requires |core.frames| > 0
    requires a == Return ==> Top(core).held == [] && |core.frames| > 1
    requires a == Go && Top(core).pc.Unlock? ==> |Top(core).held| > 0
    ensures var f, held, held' := Top(core), Held(core.frames), Held(Act(lv, core, a).frames);
      if a == Go && f.pc.Spin? then held' == held + [f.pc.l]
      else if a == Go && f.pc.Unlock? then |held| > 0 && held' == Init(held) && Last(held) == Last(f.held)
      else held' == held
  {
    var f, n, core' := Top(core), |core.frames|, Act(lv, core, a);
    HeldTop(core, f);
    assert WithTop(core, f) == core;
    match a
    case Interrupt(k) => assert core'.frames[..n] == core.frames;
    case Return => assert Held(core.frames) == Held(core.frames[..n - 1]) + [];
    case _ =>
      if a == Go { AdvanceEffect(lv, core); }
      assert core'.frames == WithTop(core, Top(core')).frames;
      HeldTop(core, Top(core'));
  }

  /** Nobody holds the lock a context takes, so its core is the only one to hold it then. */
  lemma OwnersStep(lv: Levels, s: State, c: nat, a: Action)
    requires |s.owner| == |lv| && OwnersOk(s) && Can(lv, s, c, a)
    requires Top(s.cores[c]).pc.Spin? ==> Top(s.cores[c]).pc.l < |lv|
    requires var f := Top(s.cores[c]); f.pc.Unlock? ==> |f.held| > 0 && Last(f.held) == f.pc.l
    ensures OwnersOk(Next(lv, s, c, a))
  {
    hide Held, Act, Agree;
    var core, s', helds := s.cores[c], Next(lv, s, c, a), Helds(s.cores);
    var f, held' := Top(core), Held(Act(lv, core, a).frames);
    ActHeld(lv, core, a);
    if !(a == Go && Blocked(s, f)) {
      assert Helds(s'.cores) == helds[c := held'];
      if a == Go && f.pc.Spin? {
        TakeAgrees(helds, s.owner, c, f.pc.l);
      } else if a == Go && f.pc.Unlock? {
        FreeAgrees(helds, s.owner, c);
      } else {
        assert helds[c := held'] == helds;
      }
    }
  }

  lemma ActCore(lv: Levels, s: State, c: nat, a: Action)
    requires LevelsOk(lv) && Can(lv, s, c, a) && CoreOk(lv, s.cores[c])
    ensures CoreOk(lv, Act(lv, s.cores[c], a))
  {
    hide CoreOk, Act;
    var core := s.cores[c];
    match a
    case Go => GoCore(lv, core); ActGo(lv, core);
    case Interrupt(k) => InterruptCore(lv, core, k);
    case Return => ReturnCore(lv, core);
    case _ => ProgramCore(lv, core, a);
  }

  lemma ActGo(lv: Levels, core: Core)
    requires |core.frames| > 0
    ensures Act(lv, core, Go) == Advance(lv, core)
  {
  }

  /** Every step keeps every core in order and the locks in agreement with it. */
  lemma StepInv(lv: Levels, s: State, c: nat, a: Action)
    requires Inv(lv, s) && Can(lv, s, c, a)
    ensures Inv(lv, Next(lv, s, c, a))
  {
    hide FrameOk, Act, Advance, OwnersOk, LevelsOk;
    TopFrameOk(lv, s.cores[c]);
    TopNeeds(lv, Top(s.cores[c]), s.cores[c].mask);
    OwnersStep(lv, s, c, a);
    ActCore(lv, s, c, a);
    hide CoreOk;
  }

  lemma TopNeeds(lv: Levels, f: Frame, mask: nat)
    requires FrameOk(lv, f, mask)
    ensures f.pc.Spin? ==> f.pc.l < |lv|
    ensures f.pc.Unlock? ==> |f.held| > 0 && Last(f.held) == f.pc.l
  {
    assert f.pc.Spin? ==> f.pc.l in Wanted(f.pc);
  }

  // ---------------------------------------------------------------- runs

  datatype Step = Step(core: nat, action: Action)

  /** One step after the other, each of them possible when its turn comes. */
  predicate Possible(lv: Levels, s: State, steps: seq<Step>)
    decreases |steps|
  {
    |steps| > 0 ==>
      && Can(lv, s, steps[0].core, steps[0].action)
      && Possible(lv, Next(lv, s, steps[0].core, steps[0].action), steps[1..])
  }

  function After(lv: Levels, s: State, steps: seq<Step>): State
    requires Possible(lv, s, steps)
    decreases |steps|
  {
    if |steps| == 0 then s else After(lv, Next(lv, s, steps[0].core, steps[0].action), steps[1..])
  }

  function Idle(): Core {
    Core(TASK_LEVEL, [], [Frame(TASK_LEVEL, User, [], [], 0)])
  }

  /** All cores run a task with interrupts allowed, and all locks are free. */
  function Start(cores: nat, locks: nat): State {
    State(seq(cores, _ => Idle()), seq(locks, _ => FREE))
  }

  lemma StartInv(lv: Levels, cores: nat)
    requires LevelsOk(lv)
    ensures Inv(lv, Start(cores, |lv|))
  {
    var f := Frame(TASK_LEVEL, User, [], [], 0);
    assert [f][..0] == [];
    assert Held([f]) == Held([]) + [] && Crits([f]) == Crits([]) + [];
    assert FrameOk(lv, f, TASK_LEVEL);
    assert CoreOk(lv, Idle());
  }

  lemma {:induction false} RunInv(lv: Levels, s: State, steps: seq<Step>)
    requires Inv(lv, s) && Possible(lv, s, steps)
    ensures Inv(lv, After(lv, s, steps))
    decreases |steps|
  {
    if |steps| > 0 {
      StepInv(lv, s, steps[0].core, steps[0].action);
      RunInv(lv, Next(lv, s, steps[0].core, steps[0].action), steps[1..]);
    }
  }

  lemma {:induction false} HeldHas(frames: seq<Frame>, i: nat, l: nat)
    requires i < |frames| && l in frames[i].held
    ensures l in Held(frames)
  {
    var n := |frames| - 1;
    if i < n { HeldHas(frames[..n], i, l); }
  }

  lemma {:induction false} HeldOnce(frames: seq<Frame>, i: nat, j: nat, l: nat)
    requires i < j < |frames| && l in frames[i].held && l in frames[j].held
    ensures !Once(Held(frames))
  {
    var n := |frames| - 1;
    var below, held := Held(frames[..n]), Held(frames);
    if j < n {
      HeldOnce(frames[..n], i, j, l);
      var x, y :| 0 <= x < y < |below| && below[x] == below[y];
      assert held[x] == held[y];
    } else {
      HeldHas(frames[..n], i, l);
      var x, y :| 0 <= x < |below| && below[x] == l && 0 <= y < |frames[n].held| && frames[n].held[y] == l;
      assert held[x] == l && held[|below| + y] == l;
    }
  }

  lemma HeldApart(s: State, c: nat, i: nat, d: nat, j: nat, l: nat)
    requires OwnersOk(s)
    requires c < |s.cores| && i < |s.cores[c].frames| && l in s.cores[c].frames[i].held
    requires d < |s.cores| && j < |s.cores[d].frames| && l in s.cores[d].frames[j].held
    ensures c == d && i == j
  {
    hide Once, Held;
    HeldHas(s.cores[c].frames, i, l);
    HeldHas(s.cores[d].frames, j, l);
    var helds := Helds(s.cores);
    assert l in helds[c] && l in helds[d];
    assert c == s.owner[l] == d;
    assert Once(helds[c]);
    if c == d && i < j { HeldOnce(s.cores[c].frames, i, j, l); }
    if c == d && j < i { HeldOnce(s.cores[c].frames, j, i, l); }
  }

  /** In every run a lock is held by one context at a time, on one core. */
  lemma MutualExclusion(lv: Levels, cores: nat, steps: seq<Step>, c: nat, i: nat, d: nat, j: nat, l: nat)
    requires LevelsOk(lv) && Possible(lv, Start(cores, |lv|), steps)
    requires var s := After(lv, Start(cores, |lv|), steps);
      && c < |s.cores| && i < |s.cores[c].frames| && l in s.cores[c].frames[i].held
      && d < |s.cores| && j < |s.cores[d].frames| && l in s.cores[d].frames[j].held
    ensures c == d && i == j
  {
    hide OwnersOk, CoreOk;
    StartInv(lv, cores);
    RunInv(lv, Start(cores, |lv|), steps);
    HeldApart(After(lv, Start(cores, |lv|), steps), c, i, d, j, l);
  }

  lemma {:induction false} HeldWhere(frames: seq<Frame>, l: nat) returns (i: nat)
    requires l in Held(frames)
    ensures i < |frames| && l in frames[i].held
  {
    var n := |frames| - 1;
    if l in frames[n].held { return n; }
    i := HeldWhere(frames[..n], l);
  }

  /** What a context masks lets no handler of its level or below interrupt it, so levels only go up. */
  lemma {:induction false} LevelsRise(lv: Levels, core: Core, i: nat, j: nat)
    requires CoreOk(lv, core) && i < j < |core.frames|
    ensures MaskAt(core, i) < core.frames[j].level
    decreases j - i
  {
    assert core.frames[i + 1].resume < core.frames[i + 1].level;
    if i + 1 < j {
      LevelsRise(lv, core, i + 1, j);
      var f := core.frames[i + 1];
      assert FrameOk(lv, f, MaskAt(core, i + 1));
      NestedBounds(lv, f.level, f.held);
    }
  }

  /** While a lock is held, its core masks the interrupts of the lock's level. */
  lemma HeldMasks(lv: Levels, core: Core, i: nat, l: nat)
    requires CoreOk(lv, core) && i < |core.frames| && l in core.frames[i].held
    ensures l < |lv| && lv[l] <= MaskAt(core, i)
  {
    var f := core.frames[i];
    assert FrameOk(lv, f, MaskAt(core, i));
    NestedBounds(lv, f.level, f.held);
  }

  /** In every run a context that tries to take a lock does not find it held on its own core: neither by
      itself nor by anything it interrupted. */
  lemma NeverWaitsForItself(lv: Levels, cores: nat, steps: seq<Step>, c: nat)
    requires LevelsOk(lv) && Possible(lv, Start(cores, |lv|), steps)
    requires c < |After(lv, Start(cores, |lv|), steps).cores|
    ensures var s := After(lv, Start(cores, |lv|), steps);
      && |s.cores[c].frames| > 0
      && (Top(s.cores[c]).pc.Spin? ==> Top(s.cores[c]).pc.l < |s.owner| && s.owner[Top(s.cores[c]).pc.l] != c)
  {
    StartInv(lv, cores);
    RunInv(lv, Start(cores, |lv|), steps);
    var s := After(lv, Start(cores, |lv|), steps);
    var core := s.cores[c];
    assert CoreOk(lv, core);
    if Top(core).pc.Spin? {
      SpinElsewhere(lv, core, Top(core).pc.l);
      assert Top(core).pc.l !in Helds(s.cores)[c];
    }
  }

  lemma SpinElsewhere(lv: Levels, core: Core, l: nat)
    requires CoreOk(lv, core) && Top(core).pc == Spin(l)
    ensures l < |lv| && l !in Held(core.frames)
  {
    var n := |core.frames| - 1;
    TopFrameOk(lv, core);
    assert l in Wanted(Top(core).pc);
    hide Held, Nested, MaskOf, MasksSeen, Crits;
    if l in Held(core.frames) {
      var i := HeldWhere(core.frames, l);
      HeldMasks(lv, core, i, l);
      if i < n { LevelsRise(lv, core, i, n); }
    }
  }

  /** In every run: what a context is about to restore on leaving a critical section is the mask it saw on
      entering that section, and it is the mask the locks it still holds call for. */
  lemma LeaveRestores(lv: Levels, cores: nat, steps: seq<Step>, c: nat)
    requires LevelsOk(lv) && Possible(lv, Start(cores, |lv|), steps)
    requires c < |After(lv, Start(cores, |lv|), steps).cores|
    ensures var core := After(lv, Start(cores, |lv|), steps).cores[c];
      && |core.frames| > 0
      && var f := Top(core);
      && (f.pc == LeavePop ==>
        |core.saved| > 0 && |f.crit| > 0 && Last(core.saved) == Last(f.crit) == MaskOf(lv, f.level, f.held))
      && (f.pc.LeaveSet? ==> f.pc.m == MaskOf(lv, f.level, f.held))
      && (f.pc == User ==> core.mask == MaskOf(lv, f.level, f.held))
  {
    StartInv(lv, cores);
    RunInv(lv, Start(cores, |lv|), steps);
    var core := After(lv, Start(cores, |lv|), steps).cores[c];
    assert CoreOk(lv, core);
    TopFrameOk(lv, core);
    AdvanceSaved(lv, core);
    if Top(core).pc == LeavePop { PopFrame(lv, Top(core), core.mask); }
  }

  /** A core is running a handler, or handlers on top of it, that interrupted it in the state `was`. */
  predicate OnTop(core: Core, was: Core) {
    && |core.frames| > |was.frames| && core.frames[..|was.frames|] == was.frames
    && core.frames[|was.frames|].resume == was.mask
  }

  /** A core keeps running what it runs on top of `was` in all of these steps. */
  predicate StaysOnTop(lv: Levels, s: State, steps: seq<Step>, c: nat, was: Core)
    requires Possible(lv, s, steps)
    decreases |steps|
  {
    && c < |s.cores| && |s.cores[c].frames| > |was.frames|
    && (|steps| > 0 ==> StaysOnTop(lv, Next(lv, s, steps[0].core, steps[0].action), steps[1..], c, was))
  }

  lemma {:induction false} OnTopStays(lv: Levels, s: State, steps: seq<Step>, c: nat, was: Core)
    requires Possible(lv, s, steps) && StaysOnTop(lv, s, steps, c, was) && OnTop(s.cores[c], was) && |was.frames| > 0
    ensures c < |After(lv, s, steps).cores| && OnTop(After(lv, s, steps).cores[c], was)
    decreases |steps|
  {
    if |steps| > 0 {
      var d, a := steps[0].core, steps[0].action;
      OnTopStep(lv, s, d, a, c, was);
      OnTopStays(lv, Next(lv, s, d, a), steps[1..], c, was);
    }
  }

  lemma OnTopStep(lv: Levels, s: State, d: nat, a: Action, c: nat, was: Core)
    requires Can(lv, s, d, a) && c < |s.cores| && OnTop(s.cores[c], was) &&
      |Next(lv, s, d, a).cores[c].frames| > |was.frames|
    ensures OnTop(Next(lv, s, d, a).cores[c], was)
  {
    var core := s.cores[c];
    if d == c && !(a == Go && Blocked(s, Top(core))) {
      var core' := Act(lv, core, a);
      if a == Go { AdvanceEffect(lv, core); AdvanceLevel(lv, core); }
      assert forall i :: 0 <= i < |was.frames| ==> core'.frames[i] == core.frames[i] == core.frames[..|was.frames|][i];
    }
  }

  /** A handler leaves no trace.  Whatever all cores do from an interrupt on and whatever interrupts the
      handler in turn, the core is as it was before once the handler has returned. */
  lemma HandlerRestores(lv: Levels, s: State, c: nat, k: nat, steps: seq<Step>)
    requires Inv(lv, s) && Can(lv, s, c, Interrupt(k))
    requires var s1 := Next(lv, s, c, Interrupt(k));
      && Possible(lv, s1, steps) && StaysOnTop(lv, s1, steps, c, s.cores[c])
      && Can(lv, After(lv, s1, steps), c, Return)
      && |After(lv, s1, steps).cores[c].frames| == |s.cores[c].frames| + 1
    ensures Next(lv, After(lv, Next(lv, s, c, Interrupt(k)), steps), c, Return).cores[c] == s.cores[c]
  {
    hide OwnersOk, FrameOk;
    var was, s1 := s.cores[c], Next(lv, s, c, Interrupt(k));
    var s2 := After(lv, s1, steps);
    assert CoreOk(lv, was);
    assert s1.cores[c].frames[..|was.frames|] == was.frames;
    OnTopStays(lv, s1, steps, c, was);
    StepInv(lv, s, c, Interrupt(k));
    RunInv(lv, s1, steps);
    ReturnRestores(lv, s2, c, was);
  }

  lemma ReturnRestores(lv: Levels, s: State, c: nat, was: Core)
    requires Inv(lv, s) && Can(lv, s, c, Return) && CoreOk(lv, was)
    requires OnTop(s.cores[c], was) && |s.cores[c].frames| == |was.frames| + 1
    ensures Next(lv, s, c, Return).cores[c] == was
  {
    hide OwnersOk, FrameOk;
    StepInv(lv, s, c, Return);
    var core' := Next(lv, s, c, Return).cores[c];
    assert CoreOk(lv, core');
    assert core'.frames == was.frames;
  }

  // ---------------------------------------------------------------- locks are taken and given back

  /** A context that finds the lock free takes it with its next step; one that finds it taken goes on waiting. */
  lemma SpinTakes(lv: Levels, s: State, c: nat)
    requires c < |s.cores| && |s.cores[c].frames| > 0 && Top(s.cores[c]).pc.Spin?
    requires Top(s.cores[c]).pc.l < |s.owner|
    ensures Can(lv, s, c, Go)
    ensures var f, s' := Top(s.cores[c]), Next(lv, s, c, Go);
      && (s.owner[f.pc.l] != FREE ==> s' == s)
      && (s.owner[f.pc.l] == FREE ==>
        && s'.owner == s.owner[f.pc.l := c]
        && s'.cores == s.cores[c := s.cores[c].(frames := s.cores[c].frames[|s.cores[c].frames| - 1 :=
            f.(pc := User, held := f.held + [f.pc.l])])])
  {
  }

  /** In every run the owner of a lock is a core on which some context holds it, and a free lock is held by nobody. */
  lemma OwnerHolds(lv: Levels, cores: nat, steps: seq<Step>, l: nat)
    requires LevelsOk(lv) && Possible(lv, Start(cores, |lv|), steps) && l < |lv|
    ensures var s := After(lv, Start(cores, |lv|), steps);
      && |s.owner| == |lv| && (s.owner[l] == FREE || 0 <= s.owner[l] < |s.cores|)
      && forall c :: 0 <= c < |s.cores| ==>
        (s.owner[l] == c <==> exists i :: 0 <= i < |s.cores[c].frames| && l in s.cores[c].frames[i].held)
  {
    StartInv(lv, cores);
    RunInv(lv, Start(cores, |lv|), steps);
    var s := After(lv, Start(cores, |lv|), steps);
    hide CoreOk, Held, Once;
    var helds := Helds(s.cores);
    forall c | 0 <= c < |s.cores|
      ensures s.owner[l] == c <==> exists i :: 0 <= i < |s.cores[c].frames| && l in s.cores[c].frames[i].held
    {
      if s.owner[l] == c {
        assert l in helds[c];
        var i := HeldWhere(s.cores[c].frames, l);
      }
      if exists i :: 0 <= i < |s.cores[c].frames| && l in s.cores[c].frames[i].held {
        var i :| 0 <= i < |s.cores[c].frames| && l in s.cores[c].frames[i].held;
        HeldHas(s.cores[c].frames, i, l);
        assert l in helds[c];
      }
    }
  }

  /** The same action of one core again and again. */
  function Goes(c: nat, n: nat): (r: seq<Step>)
    ensures |r| == n && forall i :: 0 <= i < n ==> r[i] == Step(c, Go)
  {
    seq(n, i requires 0 <= i < n => Step(c, Go))
  }

  lemma GoesOn(lv: Levels, s: State, c: nat, n: nat)
    requires n > 0 && Can(lv, s, c, Go) && Possible(lv, Next(lv, s, c, Go), Goes(c, n - 1))
    ensures Possible(lv, s, Goes(c, n))
    ensures After(lv, s, Goes(c, n)) == After(lv, Next(lv, s, c, Go), Goes(c, n - 1))
  {
    assert Goes(c, n)[1..] == Goes(c, n - 1);
  }

  /** A core whose running context is `f`. */
  function Running(core: Core, f: Frame, mask: nat, saved: seq<nat>): Core
    requires |core.frames| > 0
  {
    Core(mask, saved, core.frames[|core.frames| - 1 := f])
  }

  function With(s: State, c: nat, core: Core, owner: seq<int>): State
    requires c < |s.cores|
  {
    State(s.cores[c := core], owner)
  }

  /** The steps of entering a critical section. */
  lemma EnterStep(lv: Levels, s: State, c: nat, core: Core, f: Frame, mask: nat, saved: seq<nat>, owner: seq<int>)
    requires c < |s.cores| && |core.frames| > 0
    requires f.pc.EnterRead? || f.pc.EnterMask? || f.pc.EnterPush? || f.pc.EnterOpen?
    ensures var t := With(s, c, Running(core, f, mask, saved), owner);
      && Can(lv, t, c, Go)
      && Next(lv, t, c, Go) == With(s, c, match f.pc
        case EnterRead(l) => Running(core, f.(pc := EnterMask(l, mask)), mask, saved)
        case EnterMask(l, seen) => Running(core, f.(pc := EnterPush(l, seen)), FIQ_LEVEL, saved)
        case EnterPush(l, seen) => Running(core, f.(pc := EnterOpen(l), crit := f.crit + [seen]), mask, saved + [seen])
        case EnterOpen(l) =>
          Running(core, f.(pc := Spin(l)), if LevelOf(lv, l) == IRQ_LEVEL then IRQ_LEVEL else mask, saved)
        case _ => core, owner)
  {
    GoOf(lv, s, c, core, f, mask, saved, owner);
    TopTwice(core, f, Top(Advance(lv, Running(core, f, mask, saved))), mask, saved);
  }

  lemma TopTwice(core: Core, f: Frame, g: Frame, mask: nat, saved: seq<nat>)
    requires |core.frames| > 0
    ensures Running(core, f, mask, saved).frames[|core.frames| - 1 := g] == core.frames[|core.frames| - 1 := g]
    ensures Top(Running(core, f, mask, saved)) == f
  {
  }

  lemma GoOf(lv: Levels, s: State, c: nat, core: Core, f: Frame, mask: nat, saved: seq<nat>, owner: seq<int>)
    requires c < |s.cores| && |core.frames| > 0 && f.pc != User
    ensures var t := With(s, c, Running(core, f, mask, saved), owner);
      && Can(lv, t, c, Go) && t.cores[c] == Running(core, f, mask, saved) && Top(t.cores[c]) == f
      && (!Blocked(t, f) ==>
        Next(lv, t, c, Go) == With(s, c, Advance(lv, Running(core, f, mask, saved)), NextOwner(t, c, f)))
  {
    var t := With(s, c, Running(core, f, mask, saved), owner);
    var core' := Advance(lv, t.cores[c]);
    assert t.cores[c := core'] == s.cores[c := core'];
  }

  lemma TakeStep(lv: Levels, s: State, c: nat, core: Core, f: Frame, mask: nat, saved: seq<nat>, owner: seq<int>)
    requires c < |s.cores| && |core.frames| > 0 && f.pc.Spin? && f.pc.l < |owner| && owner[f.pc.l] == FREE
    ensures var t := With(s, c, Running(core, f, mask, saved), owner);
      && Can(lv, t, c, Go)
      && Next(lv, t, c, Go) ==
        With(s, c, Running(core, f.(pc := User, held := f.held + [f.pc.l]), mask, saved), owner[f.pc.l := c])
  {
    GoOf(lv, s, c, core, f, mask, saved, owner);
    TopTwice(core, f, Top(Advance(lv, Running(core, f, mask, saved))), mask, saved);
  }

  /** Acquiring a free lock takes five steps, or one for a lock of task level, if nothing comes in between: the
      context then holds it, the interrupts of its level are masked, and the mask seen has been saved. */
  lemma AcquireTakes(lv: Levels, s: State, c: nat, l: nat)
    requires LevelsOk(lv) && c < |s.cores| && |s.cores[c].frames| > 0 && l < |lv| == |s.owner| && s.owner[l] == FREE
    requires var f := Top(s.cores[c]);
      f.pc == User && f.level <= lv[l] && l !in f.held && (lv[l] == IRQ_LEVEL ==> s.cores[c].mask < FIQ_LEVEL)
    ensures Can(lv, s, c, Acquire(l))
    ensures var critical, s1 := lv[l] >= IRQ_LEVEL, Next(lv, s, c, Acquire(l));
      var n := if critical then 5 else 1;
      && Possible(lv, s1, Goes(c, n))
      && var core, f, s' := s.cores[c], Top(s.cores[c]), After(lv, s1, Goes(c, n));
      && s'.owner == s.owner[l := c]
      && s'.cores == s.cores[c := if critical
        then Running(core, f.(held := f.held + [l], crit := f.crit + [core.mask]), lv[l], core.saved + [core.mask])
        else Running(core, f.(held := f.held + [l]), core.mask, core.saved)]
  {
    var core, f, m, o := s.cores[c], Top(s.cores[c]), s.cores[c].mask, s.owner;
    var s1 := Next(lv, s, c, Acquire(l));
    if lv[l] < IRQ_LEVEL {
      assert s1 == With(s, c, Running(core, f.(pc := Spin(l)), m, core.saved), o);
      TakeStep(lv, s, c, core, f.(pc := Spin(l)), m, core.saved, o);
      hide Next, Can;
      GoesOn(lv, s1, c, 1);
    } else {
      assert s1 == With(s, c, Running(core, f.(pc := EnterRead(l)), m, core.saved), o);
      EnterSection(lv, s, c, l);
    }
  }

  lemma EnterSection(lv: Levels, s: State, c: nat, l: nat)
    requires LevelsOk(lv) && c < |s.cores| && |s.cores[c].frames| > 0 && l < |lv| && lv[l] >= IRQ_LEVEL
    requires l < |s.owner| && s.owner[l] == FREE && Top(s.cores[c]).pc == User
    ensures var core, f := s.cores[c], Top(s.cores[c]);
      var s1 := With(s, c, Running(core, f.(pc := EnterRead(l)), core.mask, core.saved), s.owner);
      && Possible(lv, s1, Goes(c, 5))
      && After(lv, s1, Goes(c, 5)) == With(s, c, Running(core, f.(held := f.held + [l], crit := f.crit + [core.mask]),
          lv[l], core.saved + [core.mask]), s.owner[l := c])
  {
    hide Next, Can;
    var core, f, m, o, sv := s.cores[c], Top(s.cores[c]), s.cores[c].mask, s.owner, s.cores[c].saved;
    var f1, f2, f3 := f.(pc := EnterRead(l)), f.(pc := EnterMask(l, m)), f.(pc := EnterPush(l, m));
    var f4 := f.(pc := EnterOpen(l), crit := f.crit + [m]);
    var f5 := f.(pc := Spin(l), crit := f.crit + [m]);
    EnterStep(lv, s, c, core, f1, m, sv, o);
    EnterStep(lv, s, c, core, f2, m, sv, o);
    EnterStep(lv, s, c, core, f3, FIQ_LEVEL, sv, o);
    EnterStep(lv, s, c, core, f4, FIQ_LEVEL, sv + [m], o);
    TakeStep(lv, s, c, core, f5, lv[l], sv + [m], o);
    hide With, Running;
    GoesOn(lv, With(s, c, Running(core, f5, lv[l], sv + [m]), o), c, 1);
    GoesOn(lv, With(s, c, Running(core, f4, FIQ_LEVEL, sv + [m]), o), c, 2);
    GoesOn(lv, With(s, c, Running(core, f3, FIQ_LEVEL, sv), o), c, 3);
    GoesOn(lv, With(s, c, Running(core, f2, m, sv), o), c, 4);
    GoesOn(lv, With(s, c, Running(core, f1, m, sv), o), c, 5);
  }

  /** The steps of giving a lock back and of leaving its critical section. */
  lemma LeaveStep(lv: Levels, s: State, c: nat, core: Core, f: Frame, mask: nat, saved: seq<nat>, owner: seq<int>)
    requires c < |s.cores| && |core.frames| > 0
    requires f.pc.Unlock? || f.pc == LeaveMask || f.pc == LeavePop || f.pc.LeaveSet?
    requires f.pc.Unlock? ==> f.pc.l < |owner|
    ensures var t := With(s, c, Running(core, f, mask, saved), owner);
      && Can(lv, t, c, Go)
      && Next(lv, t, c, Go) == match f.pc
        case Unlock(l) =>
          With(s, c, Running(core, f.(pc := if LevelOf(lv, l) >= IRQ_LEVEL then LeaveMask else User,
            held := Init(f.held)), mask, saved), owner[l := FREE])
        case LeaveMask => With(s, c, Running(core, f.(pc := LeavePop), FIQ_LEVEL, saved), owner)
        case LeavePop =>
          With(s, c, Running(core, f.(pc := LeaveSet(Last(saved)), crit := Init(f.crit)), mask, Init(saved)), owner)
        case LeaveSet(m) => With(s, c, Running(core, f.(pc := User), m, saved), owner)
        case _ => s
  {
    GoOf(lv, s, c, core, f, mask, saved, owner);
    TopTwice(core, f, Top(Advance(lv, Running(core, f, mask, saved))), mask, saved);
  }

  /** Releasing gives the lock taken last back with the first step, and takes three more to leave its critical
      section, with the mask that was saved last. */
  lemma ReleaseFrees(lv: Levels, s: State, c: nat)
    requires c < |s.cores| && |s.cores[c].frames| > 0 && Top(s.cores[c]).pc == User
    requires |Top(s.cores[c]).held| > 0 && Last(Top(s.cores[c]).held) < |s.owner|
    ensures Can(lv, s, c, Release)
    ensures var core, f, s1 := s.cores[c], Top(s.cores[c]), Next(lv, s, c, Release);
      var l := Last(f.held);
      var critical := LevelOf(lv, l) >= IRQ_LEVEL;
      var n := if critical then 4 else 1;
      && Possible(lv, s1, Goes(c, 1)) && After(lv, s1, Goes(c, 1)).owner == s.owner[l := FREE]
      && Possible(lv, s1, Goes(c, n))
      && var s' := After(lv, s1, Goes(c, n));
      && s'.owner == s.owner[l := FREE]
      && s'.cores == s.cores[c := if critical
        then Running(core, f.(held := Init(f.held), crit := Init(f.crit)), Last(core.saved), Init(core.saved))
        else Running(core, f.(held := Init(f.held)), core.mask, core.saved)]
  {
    var core, f, s1 := s.cores[c], Top(s.cores[c]), Next(lv, s, c, Release);
    var l := Last(f.held);
    assert s1 == With(s, c, Running(core, f.(pc := Unlock(l)), core.mask, core.saved), s.owner);
    LeaveSection(lv, s, c);
  }

  lemma LeaveSection(lv: Levels, s: State, c: nat)
    requires c < |s.cores| && |s.cores[c].frames| > 0 && Top(s.cores[c]).pc == User
    requires |Top(s.cores[c]).held| > 0 && Last(Top(s.cores[c]).held) < |s.owner|
    ensures var core, f := s.cores[c], Top(s.cores[c]);
      var l := Last(f.held);
      var s1 := With(s, c, Running(core, f.(pc := Unlock(l)), core.mask, core.saved), s.owner);
      var critical := LevelOf(lv, l) >= IRQ_LEVEL;
      && Possible(lv, s1, Goes(c, 1)) && After(lv, s1, Goes(c, 1)).owner == s.owner[l := FREE]
      && Possible(lv, s1, Goes(c, if critical then 4 else 1))
      && After(lv, s1, Goes(c, if critical then 4 else 1)) == With(s, c, if critical
        then Running(core, f.(held := Init(f.held), crit := Init(f.crit)), Last(core.saved), Init(core.saved))
        else Running(core, f.(held := Init(f.held)), core.mask, core.saved), s.owner[l := FREE])
  {
    hide Next, Can;
    var core, f, m, sv := s.cores[c], Top(s.cores[c]), s.cores[c].mask, s.cores[c].saved;
    var l := Last(f.held);
    var f1, o' := f.(pc := Unlock(l)), s.owner[l := FREE];
    var g := f.(held := Init(f.held));
    LeaveStep(lv, s, c, core, f1, m, sv, s.owner);
    LeaveStep(lv, s, c, core, g.(pc := LeaveMask), m, sv, o');
    LeaveStep(lv, s, c, core, g.(pc := LeavePop), FIQ_LEVEL, sv, o');
    var g' := g.(crit := Init(f.crit));
    LeaveStep(lv, s, c, core, g'.(pc := LeaveSet(Last(sv))), FIQ_LEVEL, Init(sv), o');
    hide Running;
    GoesOn(lv, With(s, c, Running(core, f1, m, sv), s.owner), c, 1);
    if LevelOf(lv, l) >= IRQ_LEVEL {
      GoesOn(lv, With(s, c, Running(core, g'.(pc := LeaveSet(Last(sv))), FIQ_LEVEL, Init(sv)), o'), c, 1);
      GoesOn(lv, With(s, c, Running(core, g.(pc := LeavePop), FIQ_LEVEL, sv), o'), c, 2);
      GoesOn(lv, With(s, c, Running(core, g.(pc := LeaveMask), m, sv), o'), c, 3);
      GoesOn(lv, With(s, c, Running(core, f1, m, sv), s.owner), c, 4);
    }
  }

  /** An interrupt comes if and only if the core does not mask it.  Its handler runs with interrupts of its level and
      below masked, on top of all contexts, and a handler without locks can return at once. */
  lemma InterruptComes(lv: Levels, s: State, c: nat, k: nat)
    requires c < |s.cores| && |s.cores[c].frames| > 0 && k <= FIQ_LEVEL
    ensures Can(lv, s, c, Interrupt(k)) <==> s.cores[c].mask < k
    ensures Can(lv, s, c, Interrupt(k)) ==>
      var core, s' := s.cores[c], Next(lv, s, c, Interrupt(k));
      && s'.owner == s.owner
      && s'.cores == s.cores[c := Core(k, core.saved, core.frames + [Frame(k, User, [], [], core.mask)])]
      && Can(lv, s', c, Return) && Next(lv, s', c, Return) == s
  {
    if s.cores[c].mask < k {
      var core, s' := s.cores[c], Next(lv, s, c, Interrupt(k));
      assert s'.cores[c].frames[..|core.frames|] == core.frames;
      assert s'.cores[c := core] == s.cores;
    }
  }

  // ---------------------------------------------------------------- no deadlock among ordered locks

  /** Each context of a core wants a lock only after all that it and those below it hold. */
  predicate Upwards(frames: seq<Frame>) {
    forall i, l :: 0 <= i < |frames| && l in Wanted(frames[i].pc) ==>
      forall j :: 0 <= j <= i ==> forall m :: m in frames[j].held ==> m < l
  }

  /** All cores take locks in the order of their numbers. */
  predicate InOrder(s: State) {
    forall c :: 0 <= c < |s.cores| ==> Upwards(s.cores[c].frames)
  }

  /** A core waits for a lock that is taken. */
  predicate Waits(s: State, c: nat)
    requires c < |s.cores|
  {
    |s.cores[c].frames| > 0 && Blocked(s, Top(s.cores[c]))
  }

  /** What a core does next if it takes no new locks and no interrupts come. */
  function Onward(core: Core): Action
    requires |core.frames| > 0
  {
    var f := Top(core);
    if f.pc != User then Go else if |f.held| > 0 then Release else Return
  }

  /** How many such steps a context takes until it has given all its locks back, at most. */
  function FrameLeft(f: Frame): nat {
    var n := 5 * |f.held|;
    match f.pc
    case User => n
    case EnterRead(_) => n + 10
    case EnterMask(_, _) => n + 9
    case EnterPush(_, _) => n + 8
    case EnterOpen(_) => n + 7
    case Spin(_) => n + 6
    case Unlock(_) => if n > 0 then n - 1 else 0
    case LeaveMask => n + 3
    case LeavePop => n + 2
    case LeaveSet(_) => n + 1
  }

  function FramesLeft(frames: seq<Frame>): nat {
    if |frames| == 0 then 0 else FramesLeft(frames[..|frames| - 1]) + FrameLeft(frames[|frames| - 1]) + 1
  }

  lemma FramesTop(frames: seq<Frame>, f: Frame)
    requires |frames| > 0
    ensures FramesLeft(frames[|frames| - 1 := f]) == FramesLeft(frames[..|frames| - 1]) + FrameLeft(f) + 1
  {
    var n := |frames| - 1;
    assert frames[n := f][..n] == frames[..n];
  }

  lemma HeldTopOnly(frames: seq<Frame>)
    requires |frames| == 1 && frames[0].held == []
    ensures Held(frames) == []
  {
    assert frames[..0] == [];
    assert Held(frames) == Held(frames[..0]) + frames[0].held;
  }

  lemma CanGoOn(lv: Levels, s: State, c: nat)
    requires Inv(lv, s) && c < |s.cores| && |Held(s.cores[c].frames)| > 0
    ensures |s.cores[c].frames| > 0 && Can(lv, s, c, Onward(s.cores[c]))
    ensures var f := Top(s.cores[c]); f.pc.Unlock? ==> |f.held| > 0
  {
    var core := s.cores[c];
    assert CoreOk(lv, core);
    TopFrameOk(lv, core);
    TopNeeds(lv, Top(core), core.mask);
    hide OwnersOk, CoreOk, FrameOk, Held;
    if |core.frames| == 1 && Top(core).held == [] { HeldTopOnly(core.frames); }
  }

  /** What a step onward makes of the running context. */
  lemma OnwardTop(lv: Levels, core: Core)
    requires |core.frames| > 0 && (Top(core).pc.Unlock? ==> |Top(core).held| > 0) && Onward(core) != Return
    ensures var core', f := Act(lv, core, Onward(core)), Top(core);
      && |core'.frames| == |core.frames| && core'.frames == core.frames[|core.frames| - 1 := Top(core')]
      && var f' := Top(core');
      && FrameLeft(f') < FrameLeft(f) && Wanted(f'.pc) <= Wanted(f.pc)
      && (forall m :: m in f'.held ==> m in f.held || (m in Wanted(f.pc) && Wanted(f'.pc) == {}))
  {
  }

  lemma OnwardUpwards(lv: Levels, core: Core)
    requires |core.frames| > 0 && (Top(core).pc.Unlock? ==> |Top(core).held| > 0) && Upwards(core.frames)
    ensures Upwards(Act(lv, core, Onward(core)).frames)
  {
    var core', n := Act(lv, core, Onward(core)), |core.frames| - 1;
    if Onward(core) != Return {
      OnwardTop(lv, core);
      hide Act, Wanted, Onward;
      forall i, l | 0 <= i < |core'.frames| && l in Wanted(core'.frames[i].pc)
        ensures forall j :: 0 <= j <= i ==> forall m :: m in core'.frames[j].held ==> m < l
      {
        assert l in Wanted(core.frames[i].pc);
      }
    }
  }

  lemma OnwardLess(lv: Levels, core: Core)
    requires |core.frames| > 0 && (Top(core).pc.Unlock? ==> |Top(core).held| > 0)
    ensures FramesLeft(Act(lv, core, Onward(core)).frames) < FramesLeft(core.frames)
  {
    var n := |core.frames| - 1;
    FramesTop(core.frames, Top(core));
    assert core.frames[n := Top(core)] == core.frames;
    if Onward(core) != Return {
      OnwardTop(lv, core);
      FramesTop(core.frames, Top(Act(lv, core, Onward(core))));
    }
  }

  /** The steps all other cores have left. */
  function Left(cores: seq<Core>, c: nat): nat {
    if |cores| == 0 then 0
    else Left(cores[..|cores| - 1], c) + if |cores| - 1 == c then 0 else FramesLeft(cores[|cores| - 1].frames)
  }

  lemma {:induction false} LeftLess(cores: seq<Core>, c: nat, d: nat, core: Core)
    requires d < |cores| && d != c && FramesLeft(core.frames) < FramesLeft(cores[d].frames)
    ensures Left(cores[d := core], c) < Left(cores, c)
  {
    hide FramesLeft;
    var n := |cores| - 1;
    if d < n {
      LeftLess(cores[..n], c, d, core);
      assert cores[d := core][..n] == cores[..n][d := core];
    } else {
      assert cores[d := core][..n] == cores[..n];
    }
  }

  /** Among ordered locks the cores that wait for one another end at one that does not wait. */
  lemma {:induction false} WaitsForSome(lv: Levels, s: State, c: nat) returns (d: nat)
    requires Inv(lv, s) && InOrder(s) && c < |s.cores| && Waits(s, c)
    ensures d < |s.cores| && d != c && !Waits(s, d) && |Held(s.cores[d].frames)| > 0
    decreases |lv| - Top(s.cores[c]).pc.l
  {
    var l := Top(s.cores[c]).pc.l;
    d := OwnerOf(lv, s, c);
    if Waits(s, d) {
      HigherWanted(lv, s, d, l);
      var e := WaitsForSome(lv, s, d);
      d := e;
    }
  }

  lemma OwnerOf(lv: Levels, s: State, c: nat) returns (d: nat)
    requires Inv(lv, s) && c < |s.cores| && Waits(s, c)
    ensures d < |s.cores| && d != c && s.owner[Top(s.cores[c]).pc.l] == d
    ensures Top(s.cores[c]).pc.l in Held(s.cores[d].frames)
  {
    var l := Top(s.cores[c]).pc.l;
    d := s.owner[l];
    assert l in Helds(s.cores)[d];
    SpinElsewhere(lv, s.cores[c], l);
  }

  lemma HigherWanted(lv: Levels, s: State, d: nat, l: nat)
    requires Inv(lv, s) && InOrder(s) && d < |s.cores| && Waits(s, d) && l in Held(s.cores[d].frames)
    ensures l < Top(s.cores[d]).pc.l < |lv|
  {
    var frames := s.cores[d].frames;
    var i := HeldWhere(frames, l);
    assert Top(s.cores[d]).pc.l in Wanted(frames[|frames| - 1].pc);
    assert Upwards(frames);
  }

  lemma StepOnward(lv: Levels, s: State, d: nat, c: nat)
    requires Inv(lv, s) && InOrder(s) && d < |s.cores| && !Waits(s, d) && |Held(s.cores[d].frames)| > 0 && c != d
    requires c < |s.cores|
    ensures |s.cores[d].frames| > 0
    ensures var a := Onward(s.cores[d]);
      && Can(lv, s, d, a) && (a == Go || a == Release || a == Return)
      && var s' := Next(lv, s, d, a);
      && Inv(lv, s') && InOrder(s') && |s'.cores| == |s.cores| && s'.cores[c] == s.cores[c]
      && Left(s'.cores, c) < Left(s.cores, c)
  {
    CanGoOn(lv, s, d);
    var core, a := s.cores[d], Onward(s.cores[d]);
    StepInv(lv, s, d, a);
    OnwardLess(lv, core);
    OnwardUpwards(lv, core);
    hide Inv, Act, FramesLeft, Upwards, Left, Held;
    LeftLess(s.cores, c, d, Act(lv, core, a));
  }

  /** After these steps, none of them its own, the lock that a core waits for is free, and it can take it. */
  predicate Frees(lv: Levels, s: State, steps: seq<Step>, c: nat) {
    && c < |s.cores| && |s.cores[c].frames| > 0 && Top(s.cores[c]).pc.Spin? && Possible(lv, s, steps)
    && (forall i :: 0 <= i < |steps| ==>
      steps[i].core != c && (steps[i].action == Go || steps[i].action == Release || steps[i].action == Return))
    && var s', l := After(lv, s, steps), Top(s.cores[c]).pc.l;
    && c < |s'.cores| && s'.cores[c] == s.cores[c] && l < |s'.owner| && s'.owner[l] == FREE
    && Can(lv, s', c, Go) && Next(lv, s', c, Go).owner == s'.owner[l := c]
  }

  lemma FreesMore(lv: Levels, s: State, d: nat, a: Action, steps: seq<Step>, c: nat)
    requires c < |s.cores| && d != c && Can(lv, s, d, a) && (a == Go || a == Release || a == Return)
    requires c < |Next(lv, s, d, a).cores| && Next(lv, s, d, a).cores[c] == s.cores[c]
    requires Frees(lv, Next(lv, s, d, a), steps, c)
    ensures Frees(lv, s, [Step(d, a)] + steps, c)
  {
    hide Next, Can;
    var all := [Step(d, a)] + steps;
    assert all[1..] == steps;
    assert forall i :: 0 < i < |all| ==> all[i] == steps[i - 1];
  }

  lemma FreesNow(lv: Levels, s: State, c: nat)
    requires c < |s.cores| && |s.cores[c].frames| > 0 && Top(s.cores[c]).pc.Spin? && !Waits(s, c)
    requires Top(s.cores[c]).pc.l < |s.owner|
    ensures Frees(lv, s, [], c)
  {
    SpinTakes(lv, s, c);
  }

  /** If all cores take locks in the order of their numbers, then a core that waits for a lock gets it: the others
      can go on until the lock is free, without taking new ones. */
  lemma {:induction false} WaitEnds(lv: Levels, s: State, c: nat) returns (steps: seq<Step>)
    requires Inv(lv, s) && InOrder(s) && c < |s.cores| && Waits(s, c)
    ensures Frees(lv, s, steps, c) && |steps| <= Left(s.cores, c)
    decreases Left(s.cores, c)
  {
    var d := WaitsForSome(lv, s, c);
    StepOnward(lv, s, d, c);
    var a := Onward(s.cores[d]);
    var s1 := Next(lv, s, d, a);
    OwnersKept(lv, s, d, a);
    hide Inv, InOrder, Left, Can, Onward, Held, Frees, Next;
    if Waits(s1, c) {
      steps := WaitEnds(lv, s1, c);
    } else {
      steps := [];
      FreesNow(lv, s1, c);
    }
    FreesMore(lv, s, d, a, steps, c);
    steps := [Step(d, a)] + steps;
  }

  lemma OwnersKept(lv: Levels, s: State, c: nat, a: Action)
    requires Can(lv, s, c, a)
    ensures |Next(lv, s, c, a).owner| == |s.owner|
  {
  }

  /** A task that runs or waits with these locks held. */
  function Task(pc: Pc, held: seq<nat>): Core {
    Core(TASK_LEVEL, [], [Frame(TASK_LEVEL, pc, held, [], 0)])
  }

  /** A task that does one thing on the first or second of two cores. */
  lemma TaskStep(lv: Levels, cores: seq<Core>, owner: seq<int>, c: nat, a: Action, pc: Pc, held: seq<nat>)
    requires lv == [0, 0] && c < |cores| == 2 && |owner| == 2 && cores[c] == Task(pc, held)
    ensures pc == User && a.Acquire? && a.l < 2 && a.l !in held ==>
      Can(lv, State(cores, owner), c, a)
      && Next(lv, State(cores, owner), c, a) == State(cores[c := Task(Spin(a.l), held)], owner)
    ensures a == Go && pc.Spin? && pc.l < 2 && owner[pc.l] == FREE ==>
      Can(lv, State(cores, owner), c, a)
      && Next(lv, State(cores, owner), c, a) == State(cores[c := Task(User, held + [pc.l])], owner[pc.l := c])
    ensures a == Go && pc.Spin? && pc.l < 2 && owner[pc.l] != FREE ==>
      Can(lv, State(cores, owner), c, a) && Next(lv, State(cores, owner), c, a) == State(cores, owner)
  {
    var f := Frame(TASK_LEVEL, pc, held, [], 0);
    assert [f][0 := f.(pc := User)] == [f.(pc := User)];
    if a.Acquire? { assert [f][0 := f.(pc := Spin(a.l))] == [f.(pc := Spin(a.l))]; }
    if pc.Spin? { assert [f][0 := f.(pc := User, held := held + [pc.l])] == [f.(pc := User, held := held + [pc.l])]; }
  }

  predicate Leads(lv: Levels, s: State, steps: seq<Step>, t: State) {
    Possible(lv, s, steps) && After(lv, s, steps) == t
  }

  lemma LeadsMore(lv: Levels, s: State, c: nat, a: Action, s1: State, steps: seq<Step>, t: State)
    requires Can(lv, s, c, a) && Next(lv, s, c, a) == s1 && Leads(lv, s1, steps, t)
    ensures Leads(lv, s, [Step(c, a)] + steps, t)
  {
    assert ([Step(c, a)] + steps)[1..] == steps;
  }

  /** A task asks for a lock. */
  lemma TaskAsks(cores: seq<Core>, owner: seq<int>, c: nat, l: nat, held: seq<nat>, steps: seq<Step>, t: State)
    requires c < |cores| == 2 && |owner| == 2 && l < 2 && l !in held && cores[c] == Task(User, held)
    requires Leads([0, 0], State(cores[c := Task(Spin(l), held)], owner), steps, t)
    ensures Leads([0, 0], State(cores, owner), [Step(c, Acquire(l))] + steps, t)
  {
    TaskStep([0, 0], cores, owner, c, Acquire(l), User, held);
    hide Next, Can, Task, Leads;
    LeadsMore([0, 0], State(cores, owner), c, Acquire(l), State(cores[c := Task(Spin(l), held)], owner), steps, t);
  }

  /** A task takes a lock. */
  lemma TaskTakes(cores: seq<Core>, owner: seq<int>, c: nat, l: nat, steps: seq<Step>, t: State)
    requires c < |cores| == 2 && |owner| == 2 && l < 2 && cores[c] == Task(Spin(l), []) && owner[l] == FREE
    requires Leads([0, 0], State(cores[c := Task(User, [l])], owner[l := c]), steps, t)
    ensures Leads([0, 0], State(cores, owner), [Step(c, Go)] + steps, t)
  {
    TaskStep([0, 0], cores, owner, c, Go, Spin(l), []);
    assert [] + [l] == [l];
    hide Next, Can, Task, Leads;
    LeadsMore([0, 0], State(cores, owner), c, Go, State(cores[c := Task(User, [l])], owner[l := c]), steps, t);
  }

  function Two(a: Core, b: Core, x: int, y: int): State {
    State([a, b], [x, y])
  }

  lemma FirstAsks(b: Core, x: int, y: int, l: nat, held: seq<nat>, steps: seq<Step>, t: State)
    requires l < 2 && l !in held && Leads([0, 0], Two(Task(Spin(l), held), b, x, y), steps, t)
    ensures Leads([0, 0], Two(Task(User, held), b, x, y), [Step(0, Acquire(l))] + steps, t)
  {
    hide Leads, Task;
    assert [Task(User, held), b][0 := Task(Spin(l), held)] == [Task(Spin(l), held), b];
    TaskAsks([Task(User, held), b], [x, y], 0, l, held, steps, t);
  }

  lemma SecondAsks(a: Core, x: int, y: int, l: nat, held: seq<nat>, steps: seq<Step>, t: State)
    requires l < 2 && l !in held && Leads([0, 0], Two(a, Task(Spin(l), held), x, y), steps, t)
    ensures Leads([0, 0], Two(a, Task(User, held), x, y), [Step(1, Acquire(l))] + steps, t)
  {
    hide Leads, Task;
    assert [a, Task(User, held)][1 := Task(Spin(l), held)] == [a, Task(Spin(l), held)];
    TaskAsks([a, Task(User, held)], [x, y], 1, l, held, steps, t);
  }

  lemma FirstTakes(b: Core, y: int, steps: seq<Step>, t: State)
    requires Leads([0, 0], Two(Task(User, [0]), b, 0, y), steps, t)
    ensures Leads([0, 0], Two(Task(Spin(0), []), b, FREE, y), [Step(0, Go)] + steps, t)
  {
    hide Leads, Task;
    assert [Task(Spin(0), []), b][0 := Task(User, [0])] == [Task(User, [0]), b] && [FREE, y][0 := 0] == [0, y];
    TaskTakes([Task(Spin(0), []), b], [FREE, y], 0, 0, steps, t);
  }

  lemma SecondTakes(a: Core, x: int, steps: seq<Step>, t: State)
    requires Leads([0, 0], Two(a, Task(User, [1]), x, 1), steps, t)
    ensures Leads([0, 0], Two(a, Task(Spin(1), []), x, FREE), [Step(1, Go)] + steps, t)
  {
    hide Leads, Task;
    assert [a, Task(Spin(1), [])][1 := Task(User, [1])] == [a, Task(User, [1])] && [x, FREE][1 := 1] == [x, 1];
    TaskTakes([a, Task(Spin(1), [])], [x, FREE], 1, 1, steps, t);
  }

  /** Without such an order two tasks that take two locks in opposite orders come to wait for each other, and no
      step of theirs changes anything. */
  lemma OppositeOrders() returns (steps: seq<Step>)
    ensures var s := Two(Task(Spin(1), [0]), Task(Spin(0), [1]), 0, 1);
      && Leads([0, 0], Start(2, 2), steps, s) && Waits(s, 0) && Waits(s, 1) && !InOrder(s)
      && Can([0, 0], s, 0, Go) && Next([0, 0], s, 0, Go) == s && Can([0, 0], s, 1, Go) && Next([0, 0], s, 1, Go) == s
  {
    var s := Two(Task(Spin(1), [0]), Task(Spin(0), [1]), 0, 1);
    Stuck(s);
    steps := OnTheWay(s);
  }

  lemma OnTheWay(s: State) returns (end: seq<Step>)
    requires s == Two(Task(Spin(1), [0]), Task(Spin(0), [1]), 0, 1)
    ensures Leads([0, 0], Start(2, 2), end, s)
  {
    assert Start(2, 2) == Two(Task(User, []), Task(User, []), FREE, FREE);
    assert Leads([0, 0], s, [], s);
    hide Leads, Task, Two, Start;
    end := [];
    SecondAsks(Task(Spin(1), [0]), 0, 1, 0, [1], end, s);
    end := [Step(1, Acquire(0))] + end;
    FirstAsks(Task(User, [1]), 0, 1, 1, [0], end, s);
    end := [Step(0, Acquire(1))] + end;
    SecondTakes(Task(User, [0]), 0, end, s);
    end := [Step(1, Go)] + end;
    SecondAsks(Task(User, [0]), 0, FREE, 1, [], end, s);
    end := [Step(1, Acquire(1))] + end;
    FirstTakes(Task(User, []), FREE, end, s);
    end := [Step(0, Go)] + end;
    FirstAsks(Task(User, []), FREE, FREE, 0, [], end, s);
    end := [Step(0, Acquire(0))] + end;
  }

  lemma Stuck(s: State)
    requires s == Two(Task(Spin(1), [0]), Task(Spin(0), [1]), 0, 1)
    ensures Waits(s, 0) && Waits(s, 1) && !InOrder(s)
    ensures Can([0, 0], s, 0, Go) && Next([0, 0], s, 0, Go) == s && Can([0, 0], s, 1, Go) && Next([0, 0], s, 1, Go) == s
  {
    assert 0 in Wanted(s.cores[1].frames[0].pc) && 1 in s.cores[1].frames[0].held;
    assert !Upwards(s.cores[1].frames);
  }
}
