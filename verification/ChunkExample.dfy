/** A document whose second branch has been collapsed: its leaf does not know the branch, and 30 lines come
    before it. */
module ChunkExample {
  import opened StyledText
  import opened ChunkShape
  import opened ChunkChain
  import opened ChunkTree

  const ROOT: Id := 0
  const FIRST: Id := 1
  const SECOND: Id := 2
  const LEAF: Id := 3
  const TOLD: Id := 4
  const UNTOLD: Id := 5
  const LAST: Id := 30

  /** Lines from number 0 on. */
  function Rows(n: nat): (rows: seq<Row>)
    ensures |rows| == n && forall i :: 0 <= i < n ==> rows[i] == Row(i, 1)
  {
    seq(n, (i: nat) => Row(i, 1))
  }

  function Parent(l: Id, leaf: Id): Id {
    if l < LAST then LEAF else leaf
  }

  /** Two branches with one leaf each, one of 30 lines and one of a single line. */
  function Store(leaf: Id, parent: Ref): State {
    var a, b := Rows(30), [Row(LAST, 1)];
    State(
      map[ROOT := Branch([FIRST, SECOND], 31, Null, 31), FIRST := Branch([LEAF], 30, To(ROOT), 30),
          SECOND := Branch([leaf], 1, To(ROOT), 1), LEAF := Leaf(LinesOf(a), To(FIRST), 30),
          leaf := Leaf([LAST], parent, 1)],
      map l: Id | l <= LAST :: Line("", [Fragment("", Plain)], 1, To(Parent(l, leaf))),
      map[ROOT := Info(Null, 2, a + b, [a, b]), FIRST := Info(To(ROOT), 1, a, [a]),
          SECOND := Info(To(ROOT), 1, b, [b]), LEAF := Info(To(FIRST), 0, a, []), leaf := Info(To(SECOND), 0, b, [])],
      ROOT, true)
  }

  lemma {:induction false} OneEach(rows: seq<Row>)
    requires forall i :: 0 <= i < |rows| ==> rows[i].height == 1
    ensures HeightSum(rows) == |rows|
  {
    if |rows| > 0 { OneEach(rows[1..]); }
  }

  lemma Parts(a: seq<Row>, b: seq<Row>)
    ensures Flatten([a]) == a && Flatten([a, b]) == a + b
  {
    assert [a][1..] == [] && [a, b][1..] == [b] && [b][1..] == [];
    assert Flatten([b]) == b + Flatten([]) && b + [] == b && a + [] == a;
  }

  lemma Fields(leaf: Id, parent: Ref)
    requires leaf == TOLD || leaf == UNTOLD
    ensures var st, a, b := Store(leaf, parent), Rows(30), [Row(LAST, 1)];
      && st.h && st.root == ROOT && st.ch.Keys == st.info.Keys == {ROOT, FIRST, SECOND, LEAF, leaf}
      && st.ch[ROOT] == Branch([FIRST, SECOND], 31, Null, 31) && st.ch[FIRST] == Branch([LEAF], 30, To(ROOT), 30)
      && st.ch[SECOND] == Branch([leaf], 1, To(ROOT), 1) && st.ch[LEAF] == Leaf(LinesOf(a), To(FIRST), 30)
      && st.ch[leaf] == Leaf([LAST], parent, 1)
      && st.info[ROOT] == Info(Null, 2, a + b, [a, b]) && st.info[FIRST] == Info(To(ROOT), 1, a, [a])
      && st.info[SECOND] == Info(To(ROOT), 1, b, [b]) && st.info[LEAF] == Info(To(FIRST), 0, a, [])
      && st.info[leaf] == Info(To(SECOND), 0, b, [])
  {
  }

  lemma Lines(leaf: Id, parent: Ref)
    ensures var ln := Store(leaf, parent).ln;
      && (forall l: Id :: l in ln <==> l <= LAST)
      && forall l: Id :: l <= LAST ==> ln[l] == Line("", [Fragment("", Plain)], 1, To(Parent(l, leaf)))
  {
  }

  lemma Sums()
    ensures var a, b := Rows(30), [Row(LAST, 1)];
      && HeightSum(a) == 30 && HeightSum(b) == 1 && HeightSum(a + b) == 31
      && Flatten([a]) == a && Flatten([b]) == b && Flatten([a, b]) == a + b
      && NoLineTwice(a + b) && NoLineTwice(a) && NoLineTwice(b)
  {
    var a, b := Rows(30), [Row(LAST, 1)];
    OneEach(a);
    OneEach(b);
    OneEach(a + b);
    Parts(a, b);
    Parts(b, a);
  }

  lemma LeavesOwn(leaf: Id, parent: Ref)
    requires leaf == TOLD || leaf == UNTOLD
    ensures Owned(Rows(30), Store(leaf, parent).ln, To(LEAF)) && Owned([Row(LAST, 1)], Store(leaf, parent).ln, To(leaf))
    ensures LinesOf([Row(LAST, 1)]) == [LAST]
  {
    Lines(leaf, parent);
    hide Store, Rows;
  }

  lemma LeavesOk(leaf: Id, parent: Ref)
    requires leaf == TOLD || leaf == UNTOLD
    ensures Ok(Store(leaf, parent), LEAF) && Ok(Store(leaf, parent), leaf)
  {
    Fields(leaf, parent);
    Sums();
    LeavesOwn(leaf, parent);
    hide Store, HeightSum, Flatten, Rows, Owned, LinesOf, NoLineTwice;
  }

  lemma ChildrenOk(leaf: Id, parent: Ref)
    requires leaf == TOLD || leaf == UNTOLD
    requires parent == Null || parent == To(SECOND)
    ensures var st := Store(leaf, parent);
      && ROOT in st.ch && FIRST in st.ch && SECOND in st.ch && ROOT in st.info && FIRST in st.info && SECOND in st.info
      && st.ch[ROOT] == Branch([FIRST, SECOND], 31, Null, 31) && |st.info[ROOT].parts| == 2
      && st.ch[FIRST] == Branch([LEAF], 30, To(ROOT), 30) && |st.info[FIRST].parts| == 1
      && st.ch[SECOND] == Branch([leaf], 1, To(ROOT), 1) && |st.info[SECOND].parts| == 1
      && ChildOk(st, FIRST, 0) && ChildOk(st, SECOND, 0) && ChildOk(st, ROOT, 0) && ChildOk(st, ROOT, 1)
  {
    Fields(leaf, parent);
    hide Store, Rows;
  }

  /** A branch with exact size and height; its children are another matter. */
  predicate Exact(st: State, c: Id) {
    && c in st.ch && c in st.info && st.ch[c].Branch? && NoLineTwice(st.info[c].rows) && st.h
    && st.ch[c].size == |st.info[c].rows| && st.ch[c].height == HeightSum(st.info[c].rows)
    && |st.info[c].parts| == |st.ch[c].children| > 0 && st.info[c].rows == Flatten(st.info[c].parts)
    && Distinct(st.ch[c].children)
  }

  lemma BranchFrom(st: State, c: Id)
    requires Exact(st, c) && forall i :: 0 <= i < |st.ch[c].children| ==> ChildOk(st, c, i)
    ensures Ok(st, c)
  {
    hide HeightSum, Flatten, NoLineTwice, ChildOk, Distinct;
  }

  lemma RootSum()
    ensures var rows := Rows(30) + [Row(LAST, 1)];
      HeightSum(rows) == 31 && Flatten([Rows(30), [Row(LAST, 1)]]) == rows && NoLineTwice(rows) && |rows| == 31
  {
    Sums();
    hide HeightSum, Flatten, Rows, NoLineTwice;
  }

  lemma ExactRoot(leaf: Id, parent: Ref)
    requires leaf == TOLD || leaf == UNTOLD
    ensures Exact(Store(leaf, parent), ROOT)
  {
    Fields(leaf, parent);
    RootSum();
    hide Store, HeightSum, Flatten, Rows, NoLineTwice, LinesOf;
  }

  lemma ExactBelow(leaf: Id, parent: Ref)
    requires leaf == TOLD || leaf == UNTOLD
    ensures Exact(Store(leaf, parent), FIRST) && Exact(Store(leaf, parent), SECOND)
  {
    Fields(leaf, parent);
    Sums();
    hide Store, HeightSum, Flatten, Rows, NoLineTwice, LinesOf;
  }

  lemma BranchesOk(leaf: Id, parent: Ref)
    requires leaf == TOLD || leaf == UNTOLD
    requires parent == Null || parent == To(SECOND)
    ensures Ok(Store(leaf, parent), ROOT) && Ok(Store(leaf, parent), FIRST) && Ok(Store(leaf, parent), SECOND)
  {
    ExactRoot(leaf, parent);
    ExactBelow(leaf, parent);
    ChildrenOk(leaf, parent);
    hide Store, Exact, ChildOk, Ok;
    BranchFrom(Store(leaf, parent), ROOT);
    BranchFrom(Store(leaf, parent), FIRST);
    BranchFrom(Store(leaf, parent), SECOND);
  }

  lemma AllLinked(leaf: Id, parent: Ref)
    requires leaf == TOLD || leaf == UNTOLD
    ensures forall c {:trigger Linked(Store(leaf, parent), c)} :: c in Store(leaf, parent).info ==>
      Linked(Store(leaf, parent), c)
  {
    Fields(leaf, parent);
    hide Store, Rows;
  }

  lemma StoreBounded(leaf: Id, parent: Ref)
    requires leaf == TOLD || leaf == UNTOLD
    ensures BoundedBut({}, Store(leaf, parent))
  {
    Fields(leaf, parent);
    hide Store, Rows, LinesOf;
  }

  /** This is a document in order, with exact heights. */
  lemma StoreOk(leaf: Id, parent: Ref)
    requires leaf == TOLD || leaf == UNTOLD
    requires parent == Null || parent == To(SECOND)
    ensures InvBut({}, Store(leaf, parent)) && BoundedBut({}, Store(leaf, parent))
  {
    StoreBounded(leaf, parent);
    LeavesOk(leaf, parent);
    BranchesOk(leaf, parent);
    AllLinked(leaf, parent);
    Chunks(leaf, parent);
    hide Store, Ok, Linked, BoundedBut;
    InvFrom(Store(leaf, parent), leaf);
  }

  lemma Chunks(leaf: Id, parent: Ref)
    requires leaf == TOLD || leaf == UNTOLD
    ensures var st := Store(leaf, parent);
      st.ch.Keys == st.info.Keys == {ROOT, FIRST, SECOND, LEAF, leaf} && st.root == ROOT
  {
    Fields(leaf, parent);
    hide Store, Rows, LinesOf;
  }

  lemma InvFrom(st: State, leaf: Id)
    requires st.ch.Keys == st.info.Keys == {ROOT, FIRST, SECOND, LEAF, leaf} && st.root == ROOT
    requires Ok(st, ROOT) && Ok(st, FIRST) && Ok(st, SECOND) && Ok(st, LEAF) && Ok(st, leaf)
    requires forall c {:trigger Linked(st, c)} :: c in st.info ==> Linked(st, c)
    ensures InvBut({}, st)
  {
    hide Ok, Linked;
    forall c | c in st.info ensures Ok(st, c) { assert c in {ROOT, FIRST, SECOND, LEAF, leaf}; }
  }

  lemma CollapseStarts()
    ensures CanCollapse(Store(TOLD, To(SECOND)), SECOND, {SECOND, TOLD}, UNTOLD)
    ensures InvBut({}, Store(TOLD, To(SECOND))) && AllTold(Store(TOLD, To(SECOND)))
  {
    StoreOk(TOLD, To(SECOND));
    CollapseReady();
    NoneUntold();
    hide Store, CanCollapse, InvBut, AllTold;
  }

  lemma NoneUntold()
    ensures AllTold(Store(TOLD, To(SECOND)))
  {
    Fields(TOLD, To(SECOND));
    hide Store, Rows;
  }

  lemma CollapseReady()
    ensures CanCollapse(Store(TOLD, To(SECOND)), SECOND, {SECOND, TOLD}, UNTOLD)
  {
    Fields(TOLD, To(SECOND));
    LeavesOwn(TOLD, To(SECOND));
    ExactBelow(TOLD, To(SECOND));
    ChildrenOk(TOLD, To(SECOND));
    hide Store, HeightSum, Flatten, Rows, ChildOk, NoLineTwice, LinesOf;
  }

  /** The document after the second branch, all of whose chunks know their branches, has been collapsed. */
  function After(): (st: State) {
    CollapseStarts();
    Collapse(Store(TOLD, To(SECOND)), SECOND, {SECOND, TOLD}, UNTOLD)
  }

  lemma CollapsedChunks()
    ensures After().ch == Store(UNTOLD, Null).ch[TOLD := Leaf([LAST], To(SECOND), 1)]
  {
    CollapseStarts();
    var st, b := Store(TOLD, To(SECOND)), [Row(LAST, 1)];
    assert After().ch == st.ch[SECOND := st.ch[SECOND].(children := [UNTOLD])]
      [UNTOLD := Leaf(LinesOf(b), Null, HeightSum(b))];
    LeavesOwn(TOLD, To(SECOND));
    assert LinesOf(b) == [LAST] && HeightSum(b) == 1;
    hide After, HeightSum, Flatten, Rows, LinesOf;
  }

  lemma CollapsedLines()
    ensures After().ln == Store(UNTOLD, Null).ln
  {
    CollapseStarts();
    LeavesOwn(TOLD, To(SECOND));
    hide HeightSum, Flatten, Rows, CanCollapse, LinesOf;
  }

  lemma CollapsedInfo()
    ensures After().info == Store(UNTOLD, Null).info
  {
    CollapseStarts();
    hide HeightSum, Flatten, Rows, CanCollapse, LinesOf, LinesUnder;
  }

  /** The leaf that held the line is dead, and the new one is untold. */
  lemma Collapsed()
    ensures var was := Store(UNTOLD, Null);
      && TOLD !in was.info && After() == was.(ch := was.ch[TOLD := Leaf([LAST], To(SECOND), 1)])
  {
    CollapsedChunks();
    CollapsedLines();
    CollapsedInfo();
    Fields(UNTOLD, Null);
    assert After().root == ROOT && After().h;
    hide Store, After;
  }

  /** Chunks that are not in the tree do not matter. */
  lemma DeadChunk(st: State, d: Id, b: Chunk)
    requires InvBut({}, st) && d !in st.info
    ensures InvBut({}, st.(ch := st.ch[d := b]))
  {
    hide Flatten, HeightSum, NoLineTwice, LinesOf;
    var st' := st.(ch := st.ch[d := b]);
    forall c | c in st'.info ensures Linked(st', c) && Ok(st', c) {
      assert Linked(st, c) && Ok(st, c);
      if st.ch[c].Branch? {
        forall i | 0 <= i < |st.ch[c].children| ensures ChildOk(st', c, i) { assert ChildOk(st, c, i); }
      }
    }
  }

  /** The document is in order after the collapse; line 30 is found to be line 0. */
  lemma NumberGoesWrong()
    ensures var st := After();
      && InvBut({}, st) && Untold(st, UNTOLD) && Home(st, LAST, UNTOLD) && st.info[UNTOLD].rows[0].line == LAST
      && Before(st, UNTOLD) != 0 && st.info[st.root].rows[LAST].line == LAST && st.info[st.root].rows[0].line == 0
  {
    var st := After();
    StoreOk(UNTOLD, Null);
    Fields(UNTOLD, Null);
    Lines(UNTOLD, Null);
    Collapsed();
    hide Store, InvBut, Before, After;
    DeadChunk(Store(UNTOLD, Null), TOLD, Leaf([LAST], To(SECOND), 1));
    UntoldLeaf(st, LAST, UNTOLD, 0);
  }

  /** And a new height for it makes the height of the root wrong. */
  lemma HeightGoesWrong()
    ensures var st := After();
      InvBut({}, st) && LAST in st.ln && !InvBut({}, Resized(st, LAST, 2, {UNTOLD}, true))
  {
    var st := After();
    StoreOk(UNTOLD, Null);
    Fields(UNTOLD, Null);
    Lines(UNTOLD, Null);
    Collapsed();
    hide Store, InvBut, Resized, After;
    DeadChunk(Store(UNTOLD, Null), TOLD, Leaf([LAST], To(SECOND), 1));
    assert st.info[ROOT].rows[LAST] == Row(LAST, 1);
    RootUntold(st, LAST, 2, {UNTOLD});
  }
}
