/** Entering and leaving critical sections on one core, as the code does it, and how this relates to the
    single steps between which interrupts may come. */
module CriticalSection {
  import opened SpinLocks

  const MAX_CRITICAL_LEVEL := 20

  /** The interrupts a processor status word masks. */
  datatype Status = Status(irq: bool, fiq: bool) {
    /** FIQs are never masked alone. */
    predicate Ordered() {
      fiq ==> irq
    }

    /** The highest level masked. */
    function Level(): nat {
      if fiq then FIQ_LEVEL else if irq then IRQ_LEVEL else TASK_LEVEL
    }
  }

  function SavedLevels(words: seq<Status>): (r: seq<nat>)
    ensures |r| == |words|
  {
    seq(|words|, i requires 0 <= i < |words| => words[i].Level())
  }

  class Processor {
    var status: Status
    var level: nat
    const words: array<Status>

    ghost predicate Valid()
      reads this, words
    {
      && words.Length == MAX_CRITICAL_LEVEL && level <= MAX_CRITICAL_LEVEL && status.Ordered()
      && forall i :: 0 <= i < level ==> words[i].Ordered()
    }

    /** The levels masked by the status words that are saved and not yet taken back. */
    ghost function Saved(): seq<nat>
      requires Valid()
      reads this, words
    {
      SavedLevels(words[..level])
    }

    /** This processor while it runs these contexts. */
    ghost function Running(frames: seq<Frame>): Core
      requires Valid()
      reads this, words
    {
      Core(status.Level(), Saved(), frames)
    }

    constructor ()
      ensures Valid() && Saved() == [] && status == Status(false, false)
    {
      status, level := Status(false, false), 0;
      words := new Status[MAX_CRITICAL_LEVEL];
    }

    /** Just the interrupts of the execution level and below are masked. */
    method CurrentExecutionLevel() returns (r: nat)
      requires Valid()
      ensures (status.irq <==> IRQ_LEVEL <= r) && (status.fiq <==> FIQ_LEVEL <= r) && r <= FIQ_LEVEL
    {
      if status.fiq { return FIQ_LEVEL; }
      if status.irq { return IRQ_LEVEL; }
      return TASK_LEVEL;
    }

    /** As far as nothing interrupts it, this does what the steps from `EnterRead` to `Spin` do. */
    method EnterCritical(target: nat, ghost lv: Levels, ghost frames: seq<Frame>, ghost l: nat)
      requires Valid() && level < MAX_CRITICAL_LEVEL && (target == IRQ_LEVEL || target == FIQ_LEVEL)
      requires target == FIQ_LEVEL || !status.fiq
      requires |frames| > 0 && frames[|frames| - 1].pc == EnterRead(l) && l < |lv| && lv[l] == target
      modifies this, words
      ensures Valid() && status.Level() == target && Saved() == old(Saved()) + [old(status.Level())]
      ensures var before := old(Running(frames));
        var after := Steps(lv, before, 4);
        after.frames == WithTop(before, Top(after)).frames && Top(after).pc == Spin(l) && Running(after.frames) == after
    {
      var seen := status;
      status := Status(true, true);
      words[level] := seen;
      level := level + 1;
      if target == IRQ_LEVEL { status := status.(fiq := false); }
      EnterSteps(lv, old(Running(frames)), l);
      assert words[..level] == old(words[..level]) + [seen];
      assert Saved() == old(Saved()) + [seen.Level()];
    }

    /** As far as nothing interrupts it, this does what the steps from `LeaveMask` to `User` do. */
    method LeaveCritical(ghost lv: Levels, ghost frames: seq<Frame>)
      requires Valid() && level > 0
      requires |frames| > 0 && frames[|frames| - 1].pc == LeaveMask
      modifies this
      ensures Valid() && status.Level() == Last(old(Saved())) && Saved() == Init(old(Saved()))
      ensures var before := old(Running(frames));
        var after := Steps(lv, before, 3);
        after.frames == WithTop(before, Top(after)).frames && Top(after).pc == User && Running(after.frames) == after
    {
      status := status.(fiq := true);
      level := level - 1;
      status := words[level];
      LeaveSteps(lv, old(Running(frames)));
      assert words[..level] == old(words[..level])[..level];
      assert Saved() == Init(old(Saved()));
    }
  }

  /** Steps of the running context without an interrupt in between. */
  function Steps(lv: Levels, core: Core, n: nat): (r: Core)
    requires |core.frames| > 0
    ensures |r.frames| == |core.frames|
    decreases n
  {
    if n == 0 then core else Steps(lv, Advance(lv, core), n - 1)
  }

  lemma EnterSteps(lv: Levels, core: Core, l: nat)
    requires |core.frames| > 0 && Top(core).pc == EnterRead(l) && l < |lv| && IRQ_LEVEL <= lv[l] <= FIQ_LEVEL
    ensures var f := Top(core).(pc := Spin(l), crit := Top(core).crit + [core.mask]);
      Steps(lv, core, 4) == WithTop(core, f).(mask := lv[l], saved := core.saved + [core.mask])
  {
    var c1 := Advance(lv, core);
    var c2 := Advance(lv, c1);
    var c3 := Advance(lv, c2);
    var c4 := Advance(lv, c3);
    assert Steps(lv, c3, 1) == Steps(lv, c4, 0);
    assert Steps(lv, core, 4) == Steps(lv, c1, 3) == Steps(lv, c2, 2) == Steps(lv, c3, 1) == c4;
    assert c4.frames == WithTop(core, Top(c4)).frames;
  }

  lemma LeaveSteps(lv: Levels, core: Core)
    requires |core.frames| > 0 && Top(core).pc == LeaveMask && |core.saved| > 0
    ensures var f := Top(core).(pc := User, crit := Init(Top(core).crit));
      Steps(lv, core, 3) == WithTop(core, f).(mask := Last(core.saved), saved := Init(core.saved))
  {
    var c1 := Advance(lv, core);
    var c2 := Advance(lv, c1);
    var c3 := Advance(lv, c2);
    assert Steps(lv, c2, 1) == Steps(lv, c3, 0);
    assert Steps(lv, core, 3) == Steps(lv, c1, 2) == Steps(lv, c2, 1) == c3;
    assert c3.frames == WithTop(core, Top(c3)).frames;
  }
}
