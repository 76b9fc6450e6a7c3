/** The chunks of a CodeMirror document as records in a store, and what it means for them to
    form a tree over the lines.  References are identifiers, so an update through one reference
    is seen through every other one. */
module ChunkShape {
  import opened StyledText

  type Id = nat

  datatype Ref = Null | To(id: Id)

  datatype Line = Line(text: string, styles: seq<Fragment>, height: nat, parent: Ref)

  datatype Chunk =
    | Leaf(lines: seq<Id>, parent: Ref, height: int)
    | Branch(children: seq<Id>, size: int, parent: Ref, height: int)
  {
    function ChunkSize(): int {
      if Leaf? then |lines| else size
    }

    function WithHeight(height: int): Chunk {
      match this
      case Leaf(lines, parent, _) => Leaf(lines, parent, height)
      case Branch(children, size, parent, _) => Branch(children, size, parent, height)
    }

    function Below(p: Ref): Chunk {
      match this
      case Leaf(lines, _, height) => Leaf(lines, p, height)
      case Branch(children, size, _, height) => Branch(children, size, p, height)
    }
  }

  // ---------------------------------------------------------------- contents

  /** A line of the document with its height. */
  datatype Row = Row(line: Id, height: nat)

  function LinesOf(rows: seq<Row>): (ls: seq<Id>)
    ensures |ls| == |rows|
  {
    seq(|rows|, i requires 0 <= i < |rows| => rows[i].line)
  }

  function HeightSum(rows: seq<Row>): nat {
    if |rows| == 0 then 0 else rows[0].height + HeightSum(rows[1..])
  }

  lemma {:induction false} HeightSumConcat(a: seq<Row>, b: seq<Row>)
    ensures HeightSum(a + b) == HeightSum(a) + HeightSum(b)
  {
    if |a| == 0 {
      assert a + b == b;
    } else {
      assert (a + b)[1..] == a[1..] + b;
      HeightSumConcat(a[1..], b);
    }
  }

  lemma HeightSumInsert(r: seq<Row>, at: nat, more: seq<Row>)
    requires at <= |r|
    ensures HeightSum(r[..at] + more + r[at..]) == HeightSum(r) + HeightSum(more)
  {
    HeightSumConcat(r[..at] + more, r[at..]);
    HeightSumConcat(r[..at], more);
    HeightSumConcat(r[..at], r[at..]);
    assert r[..at] + r[at..] == r;
  }

  predicate Distinct<T(==)>(s: seq<T>) {
    forall i, j :: 0 <= i < j < |s| ==> s[i] != s[j]
  }

  predicate NoLineTwice(rows: seq<Row>) {
    forall i, j :: 0 <= i < j < |rows| ==> rows[i].line != rows[j].line
  }

  lemma PartNoLineTwice(parts: seq<seq<Row>>, i: nat)
    requires i < |parts| && NoLineTwice(Flatten(parts))
    ensures NoLineTwice(parts[i])
  {
    FlattenSplit(parts, i);
    var all, k := Flatten(parts), |Flatten(parts[..i])|;
    assert forall j :: 0 <= j < |parts[i]| ==> parts[i][j] == all[k + j];
  }

  function Flatten<T>(parts: seq<seq<T>>): seq<T> {
    if |parts| == 0 then [] else parts[0] + Flatten(parts[1..])
  }

  lemma {:induction false} FlattenConcat<T>(a: seq<seq<T>>, b: seq<seq<T>>)
    ensures Flatten(a + b) == Flatten(a) + Flatten(b)
  {
    if |a| == 0 {
      assert a + b == b;
    } else {
      assert (a + b)[1..] == a[1..] + b;
      FlattenConcat(a[1..], b);
    }
  }

  lemma FlattenSplit<T>(parts: seq<seq<T>>, i: nat)
    requires i < |parts|
    ensures Flatten(parts) == Flatten(parts[..i]) + parts[i] + Flatten(parts[i + 1..])
  {
    assert parts == parts[..i] + parts[i..];
    FlattenConcat(parts[..i], parts[i..]);
  }

  lemma FlattenPrefix(parts: seq<seq<Row>>, i: nat)
    requires i < |parts|
    ensures Flatten(parts[..i + 1]) == Flatten(parts[..i]) + parts[i]
    ensures HeightSum(Flatten(parts[..i + 1])) == HeightSum(Flatten(parts[..i])) + HeightSum(parts[i])
  {
    assert parts[..i + 1] == parts[..i] + [parts[i]];
    FlattenConcat(parts[..i], [parts[i]]);
    assert Flatten([parts[i]]) == parts[i];
    HeightSumConcat(Flatten(parts[..i]), parts[i]);
  }

  // ---------------------------------------------------------------- invariant

  /** What a chunk stands for: the branch that holds it, a number smaller than that of this
      branch, its lines, and for a branch the lines of each child. */
  datatype Info = Info(up: Ref, rank: nat, rows: seq<Row>, parts: seq<seq<Row>>)

  /** The store, what its chunks stand for, the root, and whether cached heights are exact. */
  datatype State = State(ch: map<Id, Chunk>, ln: map<Id, Line>, info: map<Id, Info>, root: Id, h: bool)

  predicate Owned(rows: seq<Row>, ln: map<Id, Line>, parent: Ref) {
    forall i :: 0 <= i < |rows| ==>
      rows[i].line in ln && ln[rows[i].line].parent == parent && ln[rows[i].line].height == rows[i].height
  }

  predicate LeafOk(st: State, c: Id, rows: seq<Row>)
    requires c in st.ch && st.ch[c].Leaf?
  {
    && st.ch[c].lines == LinesOf(rows)
    && Owned(rows, st.ln, To(c))
    && (st.h ==> st.ch[c].height == HeightSum(rows))
  }

  predicate ChildOk(st: State, c: Id, i: nat)
    requires c in st.ch && c in st.info && st.ch[c].Branch?
    requires i < |st.ch[c].children| == |st.info[c].parts|
  {
    var k := st.ch[c].children[i];
    && k in st.info && k in st.ch
    && st.info[k].up == To(c) && st.info[k].rank < st.info[c].rank
    && st.info[k].rows == st.info[c].parts[i]
    && (st.ch[k].parent == To(c) || (st.ch[k].Leaf? && st.ch[k].parent == Null && i == 0))
  }

  predicate BranchOk(st: State, c: Id)
    requires c in st.ch && c in st.info && st.ch[c].Branch?
  {
    var b, f := st.ch[c], st.info[c];
    && b.size == |f.rows| && (st.h ==> b.height == HeightSum(f.rows))
    && |f.parts| == |b.children| > 0 && f.rows == Flatten(f.parts)
    && Distinct(b.children)
    && forall i :: 0 <= i < |b.children| ==> ChildOk(st, c, i)
  }

  predicate Ok(st: State, c: Id) {
    && c in st.ch && c in st.info && NoLineTwice(st.info[c].rows)
    && if st.ch[c].Leaf? then LeafOk(st, c, st.info[c].rows) else BranchOk(st, c)
  }

  predicate Linked(st: State, c: Id) {
    && c in st.ch && c in st.info && st.root in st.info
    && st.info[c].rank <= st.info[st.root].rank
    && if c == st.root then
         st.info[c].up == Null && st.ch[c].parent == Null && st.ch[c].Branch?
       else
         && st.info[c].up.To? && st.info[c].up.id in st.info && st.info[c].up.id in st.ch
         && st.ch[st.info[c].up.id].Branch? && c in st.ch[st.info[c].up.id].children
  }

  /** All live chunks but those in `broken` are consistent. */
  predicate InvBut(broken: set<Id>, st: State) {
    && st.root in st.info && st.info.Keys <= st.ch.Keys
    && (forall c {:trigger Linked(st, c)} :: c in st.info ==> Linked(st, c))
    && (forall c {:trigger Ok(st, c)} :: c in st.info && c !in broken ==> Ok(st, c))
  }

  lemma KidFacts(st: State, c: Id, k: Id)
    requires c in st.ch && st.ch[c].Branch? && Ok(st, c) && k in st.ch[c].children
    ensures k in st.info && k in st.ch && st.info[k].up == To(c) && st.info[k].rank < st.info[c].rank
  {
    var i :| 0 <= i < |st.ch[c].children| && st.ch[c].children[i] == k;
    assert ChildOk(st, c, i);
  }

  lemma AllKidFacts(st: State, c: Id)
    requires c in st.ch && st.ch[c].Branch? && Ok(st, c)
    ensures forall k :: k in st.ch[c].children ==>
      k in st.info && k in st.ch && st.info[k].up == To(c) && st.info[k].rank < st.info[c].rank
  {
    forall k | k in st.ch[c].children
      ensures k in st.info && k in st.ch && st.info[k].up == To(c) && st.info[k].rank < st.info[c].rank
    {
      KidFacts(st, c, k);
    }
  }

  // ---------------------------------------------------------------- updates of many records

  function Under(ch: map<Id, Chunk>, ids: seq<Id>, p: Ref): map<Id, Chunk> {
    map c | c in ch :: if c in ids then ch[c].Below(p) else ch[c]
  }

  function UnderInfo(info: map<Id, Info>, ids: seq<Id>, p: Ref): map<Id, Info> {
    map c | c in info :: if c in ids then info[c].(up := p) else info[c]
  }

  lemma UnderNone(ch: map<Id, Chunk>, p: Ref)
    ensures Under(ch, [], p) == ch
  {
  }

  lemma UnderKeys(ch: map<Id, Chunk>, ids: seq<Id>, p: Ref)
    ensures Under(ch, ids, p).Keys == ch.Keys
  {
  }

  lemma UnderStep(ch: map<Id, Chunk>, ids: seq<Id>, i: nat, p: Ref)
    requires i < |ids| && ids[i] in ch
    ensures ids[i] in Under(ch, ids[..i], p)
    ensures Under(ch, ids[..i + 1], p)
      == Under(ch, ids[..i], p)[ids[i] := Under(ch, ids[..i], p)[ids[i]].Below(p)]
    ensures var c := Under(ch, ids[..i], p)[ids[i]];
      c.ChunkSize() == ch[ids[i]].ChunkSize() && c.height == ch[ids[i]].height
  {
    assert ids[..i + 1] == ids[..i] + [ids[i]];
  }

  // ---------------------------------------------------------------- spilling

  /** `me`, the k-th child of `p`, keeps its first `n` children and gives the others to the new
      branch `sib` on its right; the heights of the two are then `hMe` and `hSib`. */
  datatype Cut = Cut(me: Id, p: Id, k: nat, n: nat, sib: Id, hMe: int, hSib: int)

  predicate CanSplit(st: State, x: Cut) {
    && st.root in st.info && x.me in st.info && x.p in st.info && Ok(st, x.me) && Ok(st, x.p)
    && st.ch[x.me].Branch? && st.ch[x.p].Branch? && x.me != x.p && x.me != st.root
    && st.info[x.me].up == To(x.p) && x.k < |st.ch[x.p].children| && st.ch[x.p].children[x.k] == x.me
    && 0 < x.n < |st.ch[x.me].children| && x.sib !in st.info && x.sib !in st.ch
    && (st.h ==> x.hSib == HeightSum(Flatten(st.info[x.me].parts[x.n..])) && x.hMe == st.ch[x.me].height - x.hSib)
    && st.info[x.me].rank <= st.info[st.root].rank
  }

  function SplitRight(st: State, x: Cut): State
    requires CanSplit(st, x)
  {
    var b, f, pb, pf := st.ch[x.me], st.info[x.me], st.ch[x.p], st.info[x.p];
    var l, r, k := Flatten(f.parts[..x.n]), Flatten(f.parts[x.n..]), x.k;
    var spilled := b.children[x.n..];
    State(
      Under(st.ch, spilled, To(x.sib))
        [x.me := b.(children := b.children[..x.n], size := b.size - |r|, height := x.hMe)]
        [x.p := pb.(children := pb.children[..k + 1] + [x.sib] + pb.children[k + 1..])]
        [x.sib := Branch(spilled, |r|, To(x.p), x.hSib)],
      st.ln,
      UnderInfo(st.info, spilled, To(x.sib))
        [x.me := f.(rows := l, parts := f.parts[..x.n])]
        [x.p := pf.(parts := pf.parts[..k] + [l, r] + pf.parts[k + 1..])]
        [x.sib := Info(To(x.p), f.rank, r, f.parts[x.n..])],
      st.root, st.h)
  }

  lemma SplitMe(st: State, x: Cut)
    requires CanSplit(st, x)
    ensures var st' := SplitRight(st, x); Ok(st', x.me) && Ok(st', x.sib)
  {
    SplitKept(st, x);
    SplitShed(st, x);
    hide Ok, SplitRight;
  }

  /** The rows and heights of the two halves of a branch. */
  lemma SplitHalves(st: State, c: Id, n: nat)
    requires c in st.ch && c in st.info && Ok(st, c) && st.ch[c].Branch? && n <= |st.info[c].parts|
    ensures var f := st.info[c]; var l, r := Flatten(f.parts[..n]), Flatten(f.parts[n..]);
      && |l| + |r| == |f.rows| && NoLineTwice(l) && NoLineTwice(r)
      && (st.h ==> st.ch[c].height == HeightSum(l) + HeightSum(r))
  {
    hide Flatten, HeightSum;
    var f := st.info[c];
    var l, r := Flatten(f.parts[..n]), Flatten(f.parts[n..]);
    assert f.parts == f.parts[..n] + f.parts[n..];
    FlattenConcat(f.parts[..n], f.parts[n..]);
    HeightSumConcat(l, r);
    assert f.rows[..|l|] == l && f.rows[|l|..] == r;
  }

  lemma SplitKept(st: State, x: Cut)
    requires CanSplit(st, x)
    ensures Ok(SplitRight(st, x), x.me)
  {
    hide Flatten, HeightSum, LeafOk, NoLineTwice;
    var st' := SplitRight(st, x);
    SplitHalves(st, x.me, x.n);
    AllKidFacts(st, x.p);
    forall i | 0 <= i < x.n ensures ChildOk(st', x.me, i) { assert ChildOk(st, x.me, i); }
  }

  lemma SplitShed(st: State, x: Cut)
    requires CanSplit(st, x)
    ensures Ok(SplitRight(st, x), x.sib)
  {
    hide Flatten, HeightSum, LeafOk, NoLineTwice;
    var st', b := SplitRight(st, x), st.ch[x.me];
    SplitHalves(st, x.me, x.n);
    AllKidFacts(st, x.p);
    forall i | 0 <= i < |b.children| - x.n ensures ChildOk(st', x.sib, i) {
      assert ChildOk(st, x.me, x.n + i);
      assert b.children[x.n..][i] == b.children[x.n + i];
    }
  }

  lemma SplitParentKids(st: State, x: Cut, i: nat)
    requires CanSplit(st, x) && i <= |st.ch[x.p].children|
    ensures ChildOk(SplitRight(st, x), x.p, i)
  {
    hide Flatten, HeightSum, LeafOk, NoLineTwice;
    var st', pb := SplitRight(st, x), st.ch[x.p];
    AllKidFacts(st, x.p);
    AllKidFacts(st, x.me);
    if i != x.k + 1 {
      var j := if i <= x.k then i else i - 1;
      assert ChildOk(st, x.p, j) && st'.ch[x.p].children[i] == pb.children[j];
    }
  }

  lemma SplitParent(st: State, x: Cut)
    requires CanSplit(st, x)
    ensures Ok(SplitRight(st, x), x.p)
  {
    hide Flatten, HeightSum, LeafOk;
    var f, pf := st.info[x.me], st.info[x.p];
    var l, r := f.parts[..x.n], f.parts[x.n..];
    assert f.parts == l + r;
    FlattenConcat(l, r);
    assert ChildOk(st, x.p, x.k);
    FlattenSplice(pf.parts, x.k, Flatten(l), Flatten(r));
    AllKidFacts(st, x.p);
    DistinctInsert(st.ch[x.p].children, x.k + 1, x.sib);
    forall i | 0 <= i <= |st.ch[x.p].children| ensures ChildOk(SplitRight(st, x), x.p, i) {
      SplitParentKids(st, x, i);
    }
  }

  /** Cutting one part in two. */
  lemma FlattenSplice<T>(parts: seq<seq<T>>, k: nat, l: seq<T>, r: seq<T>)
    requires k < |parts| && parts[k] == l + r
    ensures Flatten(parts[..k] + [l, r] + parts[k + 1..]) == Flatten(parts)
  {
    FlattenSplit(parts, k);
    FlattenConcat(parts[..k] + [l, r], parts[k + 1..]);
    FlattenConcat(parts[..k], [l, r]);
    assert Flatten([l, r]) == l + r by { assert [l, r][1..] == [r]; assert Flatten([r]) == r; }
  }

  lemma DistinctInsert<T>(s: seq<T>, k: nat, x: T)
    requires Distinct(s) && k <= |s| && x !in s
    ensures Distinct(s[..k] + [x] + s[k..])
  {
    var t := s[..k] + [x] + s[k..];
    forall i, j | 0 <= i < j < |t| ensures t[i] != t[j] {
      assert t[i] == x || t[i] in s;
      assert j == k || t[j] == s[if j < k then j else j - 1];
      assert i == k || t[i] == s[if i < k then i else i - 1];
    }
  }

  lemma SplitOthers(st: State, x: Cut, c: Id)
    requires CanSplit(st, x) && c in st.info && c != x.me && c != x.p && Ok(st, c)
    ensures Ok(SplitRight(st, x), c)
  {
    hide Flatten, HeightSum;
    if st.ch[c].Branch? {
      AllKidFacts(st, x.me);
      forall i | 0 <= i < |st.ch[c].children| ensures ChildOk(SplitRight(st, x), c, i) {
        assert ChildOk(st, c, i);
      }
    }
  }

  /** Where the chunks hang after a split. */
  lemma SplitUps(st: State, x: Cut, c: Id)
    requires CanSplit(st, x) && c in st.info && Linked(st, c)
    ensures var st', spilled := SplitRight(st, x), st.ch[x.me].children[x.n..];
      && c in st'.ch && c in st'.info && st'.root == st.root && x.sib in st'.ch && x.sib in st'.info
      && st'.info[c].rank == st.info[c].rank && st'.ch[c].Branch? == st.ch[c].Branch?
      && st'.info[c].up == (if c in spilled then To(x.sib) else st.info[c].up)
      && (c !in spilled ==> st'.ch[c].parent == st.ch[c].parent)
  {
    hide Flatten, HeightSum, LeafOk, ChildOk, NoLineTwice, Distinct;
    AllKidFacts(st, x.me);
    AllKidFacts(st, x.p);
  }

  /** What the branches hold after a split. */
  lemma SplitKids(st: State, x: Cut, c: Id)
    requires CanSplit(st, x) && c in st.ch && c in st.info && st.ch[c].Branch?
    ensures var st', b := SplitRight(st, x), st.ch[x.me];
      && c in st'.ch && st'.ch[c].Branch? && x.sib in st'.ch && st'.ch[x.sib].Branch?
      && st'.ch[x.sib].children == b.children[x.n..]
      && (forall k :: k in st.ch[c].children && k !in b.children[x.n..] ==> k in st'.ch[c].children)
      && x.sib in st'.ch[x.p].children
  {
    hide Flatten, HeightSum, LeafOk, ChildOk, NoLineTwice, Distinct;
    var st', b, pb := SplitRight(st, x), st.ch[x.me], st.ch[x.p];
    assert b.children == b.children[..x.n] + b.children[x.n..];
    assert pb.children == pb.children[..x.k + 1] + pb.children[x.k + 1..];
    assert x.sib in st'.ch[x.p].children;
  }

  lemma SplitLinks(st: State, x: Cut, c: Id)
    requires CanSplit(st, x) && (c == x.sib || (c in st.info && Linked(st, c)))
    ensures Linked(SplitRight(st, x), c)
  {
    AllKidFacts(st, x.me);
    SplitKids(st, x, x.p);
    if c != x.sib {
      hide Flatten, HeightSum, LeafOk, ChildOk, NoLineTwice, Distinct, SplitRight;
      SplitUps(st, x, c);
      if c != st.root { SplitKids(st, x, st.info[c].up.id); }
    }
  }

  lemma SplitRightOk(st: State, x: Cut)
    requires CanSplit(st, x) && InvBut({}, st)
    ensures InvBut({}, SplitRight(st, x))
  {
    var st' := SplitRight(st, x);
    forall c | c in st'.info ensures Ok(st', c) && Linked(st', c) {
      assert c in st.info ==> Linked(st, c) && Ok(st, c);
      SplitLinks(st, x, c);
      if c == x.me || c == x.sib { SplitMe(st, x); }
      else if c == x.p { SplitParent(st, x); }
      else { SplitOthers(st, x, c); }
    }
  }

  predicate CanWrap(st: State, copy: Id, hc: int) {
    && st.root in st.info && Ok(st, st.root) && Linked(st, st.root)
    && copy !in st.info && copy !in st.ch
    && (st.h ==> hc == HeightSum(st.info[st.root].rows))
  }

  /** The root gives all its children to a new branch, which becomes its only child. */
  function Wrap(st: State, copy: Id, hc: int): State
    requires CanWrap(st, copy, hc)
  {
    var r, b, f := st.root, st.ch[st.root], st.info[st.root];
    State(
      Under(st.ch, b.children, To(copy))
        [r := b.(children := [copy])]
        [copy := Branch(b.children, b.size, To(r), hc)],
      st.ln,
      UnderInfo(st.info, b.children, To(copy))
        [r := f.(parts := [f.rows], rank := f.rank + 1)]
        [copy := Info(To(r), f.rank, f.rows, f.parts)],
      r, st.h)
  }

  lemma WrapTop(st: State, copy: Id, hc: int)
    requires CanWrap(st, copy, hc)
    ensures var st' := Wrap(st, copy, hc); Ok(st', st.root) && Ok(st', copy)
  {
    hide HeightSum, LeafOk;
    var st', b, f := Wrap(st, copy, hc), st.ch[st.root], st.info[st.root];
    AllKidFacts(st, st.root);
    assert Flatten([f.rows]) == f.rows;
    assert ChildOk(st', st.root, 0);
    forall i | 0 <= i < |b.children| ensures ChildOk(st', copy, i) {
      assert ChildOk(st, st.root, i);
    }
  }

  lemma WrapOthers(st: State, copy: Id, hc: int, c: Id)
    requires CanWrap(st, copy, hc) && c in st.info && c != st.root && Ok(st, c)
    ensures Ok(Wrap(st, copy, hc), c)
  {
    hide Flatten, HeightSum;
    if st.ch[c].Branch? {
      AllKidFacts(st, st.root);
      forall i | 0 <= i < |st.ch[c].children| ensures ChildOk(Wrap(st, copy, hc), c, i) {
        assert ChildOk(st, c, i);
      }
    }
  }

  lemma WrapLinks(st: State, copy: Id, hc: int, c: Id)
    requires CanWrap(st, copy, hc) && (c == copy || (c in st.info && Linked(st, c)))
    ensures Linked(Wrap(st, copy, hc), c)
  {
    hide Flatten, HeightSum, LeafOk;
    AllKidFacts(st, st.root);
  }

  lemma WrapOk(st: State, copy: Id, hc: int)
    requires CanWrap(st, copy, hc) && InvBut({}, st)
    ensures InvBut({}, Wrap(st, copy, hc))
  {
    var st' := Wrap(st, copy, hc);
    forall c | c in st'.info ensures Ok(st', c) && Linked(st', c) {
      assert c in st.info ==> Linked(st, c) && Ok(st, c);
      WrapLinks(st, copy, hc, c);
      if c == st.root || c == copy { WrapTop(st, copy, hc); }
      else { WrapOthers(st, copy, hc, c); }
    }
  }

  // ---------------------------------------------------------------- inserting

  function Inserted<T>(s: seq<T>, at: nat, more: seq<T>): seq<T>
    requires at <= |s|
  {
    s[..at] + more + s[at..]
  }

  /** The rows `more` are announced at position `at` of `c`, which held `r`, but not yet put there. */
  predicate Stale(st: State, c: Id, r: seq<Row>, at: nat, more: seq<Row>) {
    && c in st.info && at <= |r| && st.info[c].rows == Inserted(r, at, more) && NoLineTwice(st.info[c].rows)
    && Ok(st.(info := st.info[c := st.info[c].(rows := r)]), c)
  }

  function Announce(st: State, c: Id, at: nat, more: seq<Row>): State
    requires c in st.info && at <= |st.info[c].rows|
  {
    st.(info := st.info[c := st.info[c].(rows := Inserted(st.info[c].rows, at, more))])
  }

  lemma AnnounceRoot(st: State, at: nat, more: seq<Row>)
    requires InvBut({}, st) && at <= |st.info[st.root].rows|
    requires NoLineTwice(Inserted(st.info[st.root].rows, at, more))
    ensures var st' := Announce(st, st.root, at, more);
      InvBut({st.root}, st') && Stale(st', st.root, st.info[st.root].rows, at, more)
  {
    hide Flatten, HeightSum;
    var st' := Announce(st, st.root, at, more);
    assert Linked(st, st.root) && Ok(st, st.root);
    assert st'.info[st.root := st'.info[st.root].(rows := st.info[st.root].rows)] == st.info;
    forall c | c in st.info ensures Linked(st', c) && (c != st.root ==> Ok(st', c)) {
      assert Linked(st, c) && Ok(st, c);
      if c != st.root { OtherOk(st, st', st.root, c); }
    }
  }

  /** Only the branch above `k` looks at what `k` stands for. */
  lemma OtherOk(st: State, st': State, k: Id, c: Id)
    requires k in st.info && c in st.info && c != k && Ok(st, c) && st.info[k].up != To(c)
    requires exists rows :: st' == st.(info := st.info[k := st.info[k].(rows := rows)])
    ensures Ok(st', c)
  {
    hide Flatten, HeightSum;
    if st.ch[c].Branch? {
      forall i | 0 <= i < |st.ch[c].children| ensures ChildOk(st', c, i) {
        assert ChildOk(st, c, i);
      }
    }
  }

  /** The branch `c` counts the announced rows and passes them to its i-th child. */
  function StepDown(st: State, c: Id, i: nat, at: nat, more: seq<Row>, hh: int): State
    requires c in st.ch && c in st.info && st.ch[c].Branch? && i < |st.ch[c].children| == |st.info[c].parts|
    requires at <= |st.info[c].parts[i]| && st.ch[c].children[i] in st.info
  {
    var b, f, k := st.ch[c], st.info[c], st.ch[c].children[i];
    var part := Inserted(f.parts[i], at, more);
    st.(ch := st.ch[c := b.(size := b.size + |more|, height := b.height + hh)],
        info := st.info[c := f.(parts := f.parts[i := part])][k := st.info[k].(rows := part)])
  }

  lemma FlattenUpdate<T>(parts: seq<seq<T>>, i: nat, at: nat, more: seq<T>)
    requires i < |parts| && at <= |parts[i]|
    ensures |Flatten(parts[..i])| + at <= |Flatten(parts)|
    ensures Flatten(parts[i := Inserted(parts[i], at, more)])
      == Inserted(Flatten(parts), |Flatten(parts[..i])| + at, more)
  {
    hide Flatten;
    var after := parts[i := Inserted(parts[i], at, more)];
    FlattenSplit(parts, i);
    FlattenSplit(after, i);
    assert after[..i] == parts[..i] && after[i + 1..] == parts[i + 1..];
    InsertInside(Flatten(parts[..i]), parts[i], Flatten(parts[i + 1..]), at, more);
  }

  lemma InsertInside<T>(before: seq<T>, part: seq<T>, after: seq<T>, at: nat, more: seq<T>)
    requires at <= |part|
    ensures Inserted(before + part + after, |before| + at, more) == before + Inserted(part, at, more) + after
  {
  }

  predicate CanStep(st: State, c: Id, r: seq<Row>, i: nat, at: nat, more: seq<Row>, hh: int) {
    && c in st.ch && c in st.info && st.ch[c].Branch? && i < |st.ch[c].children| == |st.info[c].parts|
    && at <= |st.info[c].parts[i]| && st.ch[c].children[i] in st.info
    && Stale(st, c, r, |Flatten(st.info[c].parts[..i])| + at, more)
    && (st.h ==> hh == HeightSum(more))
  }

  lemma StepChild(st: State, c: Id, r: seq<Row>, i: nat, at: nat, more: seq<Row>, hh: int)
    requires CanStep(st, c, r, i, at, more, hh) && Ok(st, st.ch[c].children[i])
    ensures var st' := StepDown(st, c, i, at, more, hh);
      Stale(st', st.ch[c].children[i], st.info[c].parts[i], at, more)
  {
    hide Flatten, HeightSum;
    var st', k, f := StepDown(st, c, i, at, more, hh), st.ch[c].children[i], st.info[c];
    var was := st.(info := st.info[c := f.(rows := r)]);
    assert ChildOk(was, c, i);
    FlattenUpdate(f.parts, i, at, more);
    PartNoLineTwice(f.parts[i := Inserted(f.parts[i], at, more)], i);
    var now := st'.(info := st'.info[k := st'.info[k].(rows := f.parts[i])]);
    if st.ch[k].Branch? {
      forall j | 0 <= j < |st.ch[k].children| ensures ChildOk(now, k, j) {
        assert ChildOk(st, k, j);
      }
    }
  }

  lemma StepSelf(st: State, c: Id, r: seq<Row>, i: nat, at: nat, more: seq<Row>, hh: int)
    requires CanStep(st, c, r, i, at, more, hh)
    ensures Ok(StepDown(st, c, i, at, more, hh), c)
  {
    hide Flatten, HeightSum;
    var st', b, f := StepDown(st, c, i, at, more, hh), st.ch[c], st.info[c];
    var was := st.(info := st.info[c := f.(rows := r)]);
    assert ChildOk(was, c, i);
    FlattenUpdate(f.parts, i, at, more);
    HeightSumInsert(r, |Flatten(f.parts[..i])| + at, more);
    forall j | 0 <= j < |b.children| ensures ChildOk(st', c, j) {
      assert ChildOk(was, c, j);
    }
  }

  lemma StepOthers(st: State, c: Id, r: seq<Row>, i: nat, at: nat, more: seq<Row>, hh: int, x: Id)
    requires CanStep(st, c, r, i, at, more, hh)
    requires x in st.info && x != c && x != st.ch[c].children[i] && Ok(st, x)
    ensures Ok(StepDown(st, c, i, at, more, hh), x)
  {
    hide Flatten, HeightSum;
    var st' := StepDown(st, c, i, at, more, hh);
    var was := st.(info := st.info[c := st.info[c].(rows := r)]);
    assert ChildOk(was, c, i);
    if st.ch[x].Branch? {
      forall j | 0 <= j < |st.ch[x].children| ensures ChildOk(st', x, j) {
        assert ChildOk(st, x, j);
      }
    }
  }

  lemma StepDownOk(st: State, c: Id, r: seq<Row>, i: nat, at: nat, more: seq<Row>, hh: int)
    requires InvBut({c}, st) && CanStep(st, c, r, i, at, more, hh)
    ensures var st' := StepDown(st, c, i, at, more, hh);
      var k := st.ch[c].children[i];
      && InvBut({k}, st') && Stale(st', k, st.info[c].parts[i], at, more)
      && st'.info[k].rank < st.info[c].rank
  {
    hide Flatten, HeightSum, Stale;
    var st', k := StepDown(st, c, i, at, more, hh), st.ch[c].children[i];
    KidOfStale(st, c, r, i, |Flatten(st.info[c].parts[..i])| + at, more);
    assert Ok(st, k);
    StepChild(st, c, r, i, at, more, hh);
    StepSelf(st, c, r, i, at, more, hh);
    forall x | x in st'.info ensures Linked(st', x) && (x != k ==> Ok(st', x)) {
      assert Linked(st, x);
      if x != c && x != k {
        assert Ok(st, x);
        StepOthers(st, c, r, i, at, more, hh, x);
      }
    }
  }

  lemma KidOfStale(st: State, c: Id, r: seq<Row>, i: nat, at: nat, more: seq<Row>)
    requires Stale(st, c, r, at, more) && c in st.ch && st.ch[c].Branch? && i < |st.ch[c].children|
    ensures var k := st.ch[c].children[i];
      && |st.info[c].parts| == |st.ch[c].children|
      && k != c && k in st.info && k in st.ch && st.info[k].up == To(c) && st.info[k].rank < st.info[c].rank
      && st.info[k].rows == st.info[c].parts[i]
  {
    hide Flatten, HeightSum;
    assert ChildOk(st.(info := st.info[c := st.info[c].(rows := r)]), c, i);
  }

  function LinesUnder(ln: map<Id, Line>, ls: seq<Id>, p: Ref): map<Id, Line> {
    map l | l in ln :: if l in ls then ln[l].(parent := p) else ln[l]
  }

  lemma LinesUnderNone(ln: map<Id, Line>, p: Ref)
    ensures LinesUnder(ln, [], p) == ln
  {
  }

  lemma LinesUnderStep(ln: map<Id, Line>, ls: seq<Id>, i: nat, p: Ref)
    requires i < |ls| && ls[i] in ln
    ensures ls[i] in LinesUnder(ln, ls[..i], p)
    ensures LinesUnder(ln, ls[..i + 1], p)
      == LinesUnder(ln, ls[..i], p)[ls[i] := LinesUnder(ln, ls[..i], p)[ls[i]].(parent := p)]
    ensures LinesUnder(ln, ls[..i], p)[ls[i]].height == ln[ls[i]].height
  {
    assert ls[..i + 1] == ls[..i] + [ls[i]];
  }

  /** A leaf takes up the announced rows. */
  function FillLeaf(st: State, c: Id, at: nat, more: seq<Row>, hh: int): State
    requires c in st.ch && st.ch[c].Leaf? && at <= |st.ch[c].lines|
  {
    var b := st.ch[c];
    st.(ch := st.ch[c := b.(lines := Inserted(b.lines, at, LinesOf(more)), height := b.height + hh)],
        ln := LinesUnder(st.ln, LinesOf(more), To(c)))
  }

  lemma LinesOfInserted(r: seq<Row>, at: nat, more: seq<Row>)
    requires at <= |r|
    ensures LinesOf(Inserted(r, at, more)) == Inserted(LinesOf(r), at, LinesOf(more))
  {
  }

  /** Every listed line exists, is in no leaf, and has the stated height. */
  predicate Loose(more: seq<Row>, ln: map<Id, Line>) {
    Owned(more, ln, Null)
  }

  lemma FillLeafSelf(st: State, c: Id, r: seq<Row>, at: nat, more: seq<Row>, hh: int)
    requires Stale(st, c, r, at, more) && c in st.ch && st.ch[c].Leaf?
    requires Loose(more, st.ln) && (st.h ==> hh == HeightSum(more)) && at <= |st.ch[c].lines|
    ensures Ok(FillLeaf(st, c, at, more, hh), c)
  {
    hide HeightSum;
    var st' := FillLeaf(st, c, at, more, hh);
    LinesOfInserted(r, at, more);
    HeightSumInsert(r, at, more);
    var rows := st.info[c].rows;
    forall i | 0 <= i < |rows|
      ensures rows[i].line in st'.ln && st'.ln[rows[i].line].parent == To(c)
        && st'.ln[rows[i].line].height == rows[i].height
    {
      if i < at { assert rows[i] == r[i]; }
      else if i < at + |more| { assert rows[i] == more[i - at] && LinesOf(more)[i - at] == rows[i].line; }
      else { assert rows[i] == r[i - |more|]; }
    }
  }

  lemma FillLeafOthers(st: State, c: Id, at: nat, more: seq<Row>, hh: int, x: Id)
    requires c in st.ch && st.ch[c].Leaf? && at <= |st.ch[c].lines| && Loose(more, st.ln)
    requires x != c && Ok(st, x)
    ensures Ok(FillLeaf(st, c, at, more, hh), x)
  {
    hide Flatten, HeightSum;
    var st' := FillLeaf(st, c, at, more, hh);
    if st.ch[x].Branch? {
      forall j | 0 <= j < |st.ch[x].children| ensures ChildOk(st', x, j) {
        assert ChildOk(st, x, j);
      }
    } else {
      assert forall j :: 0 <= j < |more| ==> LinesOf(more)[j] == more[j].line && st.ln[more[j].line].parent == Null;
    }
  }

  lemma FillLeafOk(st: State, c: Id, r: seq<Row>, at: nat, more: seq<Row>, hh: int)
    requires InvBut({c}, st) && Stale(st, c, r, at, more) && st.ch[c].Leaf?
    requires Loose(more, st.ln) && (st.h ==> hh == HeightSum(more))
    ensures at <= |st.ch[c].lines| && InvBut({}, FillLeaf(st, c, at, more, hh))
  {
    hide Flatten, HeightSum;
    var st' := FillLeaf(st, c, at, more, hh);
    FillLeafSelf(st, c, r, at, more, hh);
    forall x | x in st'.info ensures Linked(st', x) && Ok(st', x) {
      assert Linked(st, x);
      if x != c {
        assert Ok(st, x);
        FillLeafOthers(st, c, at, more, hh, x);
      }
    }
  }

  // ---------------------------------------------------------------- splitting leaves

  /** The leaf `me`, the k-th child of `p`, keeps its first `n` lines and gives the others to the
      new leaf `sib` on its right. */
  predicate CanCut(st: State, x: Cut) {
    && st.root in st.info && x.me in st.info && x.p in st.info && Ok(st, x.me) && Ok(st, x.p)
    && st.ch[x.me].Leaf? && st.ch[x.p].Branch? && x.me != x.p && x.me != st.root
    && st.info[x.me].up == To(x.p) && x.k < |st.ch[x.p].children| && st.ch[x.p].children[x.k] == x.me
    && x.n <= |st.ch[x.me].lines| && x.sib !in st.info && x.sib !in st.ch
    && (st.h ==> x.hSib == HeightSum(st.info[x.me].rows[x.n..]) && x.hMe == st.ch[x.me].height - x.hSib)
    && st.info[x.me].rank <= st.info[st.root].rank
  }

  function CutLeaf(st: State, x: Cut): State
    requires CanCut(st, x)
  {
    var b, f, pb, pf := st.ch[x.me], st.info[x.me], st.ch[x.p], st.info[x.p];
    var l, r, k := f.rows[..x.n], f.rows[x.n..], x.k;
    State(
      st.ch
        [x.me := b.(lines := b.lines[..x.n], height := x.hMe)]
        [x.p := pb.(children := pb.children[..k + 1] + [x.sib] + pb.children[k + 1..])]
        [x.sib := Leaf(b.lines[x.n..], To(x.p), x.hSib)],
      LinesUnder(st.ln, b.lines[x.n..], To(x.sib)),
      st.info
        [x.me := f.(rows := l)]
        [x.p := pf.(parts := pf.parts[..k] + [l, r] + pf.parts[k + 1..])]
        [x.sib := Info(To(x.p), f.rank, r, [])],
      st.root, st.h)
  }

  lemma CutMe(st: State, x: Cut)
    requires CanCut(st, x)
    ensures var st' := CutLeaf(st, x); Ok(st', x.me) && Ok(st', x.sib)
  {
    CutKept(st, x);
    CutShed(st, x);
    hide Ok, CutLeaf;
  }

  /** The rows of the two halves of a leaf. */
  lemma CutHalves(st: State, c: Id, n: nat)
    requires c in st.ch && c in st.info && Ok(st, c) && st.ch[c].Leaf? && n <= |st.ch[c].lines|
    ensures var lines, rows := st.ch[c].lines, st.info[c].rows;
      && |rows| == |lines| && LinesOf(rows[..n]) == lines[..n] && LinesOf(rows[n..]) == lines[n..]
      && NoLineTwice(rows[..n]) && NoLineTwice(rows[n..])
      && (st.h ==> st.ch[c].height == HeightSum(rows[..n]) + HeightSum(rows[n..]))
      && (forall i :: 0 <= i < |rows| ==> (rows[i].line in lines[n..] <==> i >= n))
  {
    hide HeightSum, BranchOk;
    var lines, rows := st.ch[c].lines, st.info[c].rows;
    assert rows == rows[..n] + rows[n..];
    HeightSumConcat(rows[..n], rows[n..]);
    forall i | n <= i < |rows| ensures rows[i].line in lines[n..] { assert lines[n..][i - n] == rows[i].line; }
  }

  lemma CutKept(st: State, x: Cut)
    requires CanCut(st, x)
    ensures Ok(CutLeaf(st, x), x.me)
  {
    CutHalves(st, x.me, x.n);
    hide HeightSum, BranchOk, Flatten, LinesOf;
  }

  lemma CutShed(st: State, x: Cut)
    requires CanCut(st, x)
    ensures Ok(CutLeaf(st, x), x.sib)
  {
    CutHalves(st, x.me, x.n);
    hide HeightSum, BranchOk, Flatten, LinesOf;
    var rows, n := st.info[x.me].rows, x.n;
    forall i | 0 <= i < |rows[n..]| ensures rows[n..][i].line in st.ch[x.me].lines[n..] {
      assert rows[n..][i] == rows[n + i];
    }
  }

  lemma CutParent(st: State, x: Cut)
    requires CanCut(st, x)
    ensures Ok(CutLeaf(st, x), x.p)
  {
    hide Flatten, HeightSum, LinesUnder, LinesOf;
    var st', f, pf, pb := CutLeaf(st, x), st.info[x.me], st.info[x.p], st.ch[x.p];
    var l, r := f.rows[..x.n], f.rows[x.n..];
    assert f.rows == l + r;
    assert ChildOk(st, x.p, x.k);
    FlattenSplice(pf.parts, x.k, l, r);
    AllKidFacts(st, x.p);
    DistinctInsert(pb.children, x.k + 1, x.sib);
    forall i | 0 <= i <= |pb.children| ensures ChildOk(st', x.p, i) {
      if i != x.k + 1 {
        var j := if i <= x.k then i else i - 1;
        assert ChildOk(st, x.p, j) && st'.ch[x.p].children[i] == pb.children[j];
      }
    }
  }

  lemma CutOthers(st: State, x: Cut, c: Id)
    requires CanCut(st, x) && c in st.info && c != x.me && c != x.p && Ok(st, c)
    ensures Ok(CutLeaf(st, x), c)
  {
    hide Flatten, HeightSum;
    var st' := CutLeaf(st, x);
    if st.ch[c].Branch? {
      forall i | 0 <= i < |st.ch[c].children| ensures ChildOk(st', c, i) {
        assert ChildOk(st, c, i);
      }
    } else {
      var rows := st.info[x.me].rows;
      forall i | 0 <= i < |st.info[c].rows| ensures st.info[c].rows[i].line !in st.ch[x.me].lines {
        assert forall j :: 0 <= j < |rows| ==> rows[j].line == st.ch[x.me].lines[j];
      }
      assert forall l :: l in st.ch[x.me].lines[x.n..] ==> l in st.ch[x.me].lines;
    }
  }

  lemma CutLinks(st: State, x: Cut, c: Id)
    requires CanCut(st, x) && (c == x.sib || (c in st.info && Linked(st, c)))
    ensures Linked(CutLeaf(st, x), c)
  {
    hide Flatten, HeightSum, LeafOk;
    var st', pb := CutLeaf(st, x), st.ch[x.p];
    AllKidFacts(st, x.p);
    assert pb.children == pb.children[..x.k + 1] + pb.children[x.k + 1..];
    assert x.sib in st'.ch[x.p].children;
  }

  lemma CutLeafOk(st: State, x: Cut)
    requires CanCut(st, x) && InvBut({}, st)
    ensures InvBut({}, CutLeaf(st, x))
  {
    var st' := CutLeaf(st, x);
    forall c | c in st'.info ensures Ok(st', c) && Linked(st', c) {
      assert c in st.info ==> Linked(st, c) && Ok(st, c);
      CutLinks(st, x, c);
      if c == x.me || c == x.sib { CutMe(st, x); }
      else if c == x.p { CutParent(st, x); }
      else { CutOthers(st, x, c); }
    }
  }

  // ---------------------------------------------------------------- removing

  function Removed<T>(s: seq<T>, at: nat, n: nat): seq<T>
    requires at + n <= |s|
  {
    s[..at] + s[at + n..]
  }

  lemma HeightSumRemoved(r: seq<Row>, at: nat, n: nat)
    requires at + n <= |r|
    ensures HeightSum(Removed(r, at, n)) == HeightSum(r) - HeightSum(r[at..at + n])
  {
    hide HeightSum;
    assert r == r[..at] + (r[at..at + n] + r[at + n..]);
    HeightSumConcat(r[..at], r[at..at + n] + r[at + n..]);
    HeightSumConcat(r[at..at + n], r[at + n..]);
    HeightSumConcat(r[..at], r[at + n..]);
  }

  lemma RemovedNoLineTwice(r: seq<Row>, at: nat, n: nat)
    requires at + n <= |r| && NoLineTwice(r)
    ensures NoLineTwice(Removed(r, at, n))
  {
    var s := Removed(r, at, n);
    assert forall i :: 0 <= i < |s| ==> s[i] == r[if i < at then i else i + n];
  }

  predicate CanTrim(st: State, c: Id, at: nat, n: nat) {
    c in st.info && c in st.ch && st.ch[c].Leaf? && Ok(st, c) && at + n <= |st.info[c].rows| && st.root in st.info
  }

  /** The leaf `c` gives up `n` lines. */
  function TrimLeaf(st: State, c: Id, at: nat, n: nat): State
    requires CanTrim(st, c, at, n)
  {
    var b, f := st.ch[c], st.info[c];
    st.(ch := st.ch[c := b.(lines := Removed(b.lines, at, n), height := b.height - HeightSum(f.rows[at..at + n]))],
        ln := LinesUnder(st.ln, b.lines[at..at + n], Null),
        info := st.info[c := f.(rows := Removed(f.rows, at, n))])
  }

  lemma TrimSelf(st: State, c: Id, at: nat, n: nat)
    requires CanTrim(st, c, at, n)
    ensures Ok(TrimLeaf(st, c, at, n), c)
  {
    hide HeightSum, Flatten;
    var st', r, b := TrimLeaf(st, c, at, n), st.info[c].rows, st.ch[c];
    HeightSumRemoved(r, at, n);
    var rows, cut := st'.info[c].rows, b.lines[at..at + n];
    assert b.lines == LinesOf(r);
    forall i | 0 <= i < |rows|
      ensures rows[i].line in st'.ln && st'.ln[rows[i].line].parent == To(c)
        && st'.ln[rows[i].line].height == rows[i].height
    {
      var j := if i < at then i else i + n;
      assert rows[i] == r[j];
      assert forall m :: 0 <= m < n ==> cut[m] == r[at + m].line;
      assert rows[i].line !in cut;
    }
    assert LinesOf(rows) == st'.ch[c].lines;
  }

  lemma TrimOthers(st: State, c: Id, at: nat, n: nat, x: Id)
    requires CanTrim(st, c, at, n) && x in st.info && x != c && Ok(st, x) && st.info[c].up != To(x)
    ensures Ok(TrimLeaf(st, c, at, n), x)
  {
    hide HeightSum, Flatten;
    var st', r, cut := TrimLeaf(st, c, at, n), st.info[c].rows, st.ch[c].lines[at..at + n];
    if st.ch[x].Branch? {
      forall j | 0 <= j < |st.ch[x].children| ensures ChildOk(st', x, j) {
        assert ChildOk(st, x, j);
      }
    } else {
      assert forall m :: 0 <= m < n ==> cut[m] == r[at + m].line;
    }
  }

  lemma TrimLeafOk(broken: set<Id>, st: State, c: Id, at: nat, n: nat)
    requires InvBut(broken, st) && CanTrim(st, c, at, n)
    requires c == st.root || (st.info[c].up.To? && st.info[c].up.id in broken)
    ensures InvBut(broken, TrimLeaf(st, c, at, n))
  {
    var st' := TrimLeaf(st, c, at, n);
    forall x | x in st'.info ensures Linked(st', x) && (x !in broken ==> Ok(st', x)) {
      assert Linked(st, x) && Linked(st, c);
      if x == c { TrimSelf(st, c, at, n); }
      else if x !in broken { assert Ok(st, x); TrimOthers(st, c, at, n, x); }
    }
  }

  /** The branch `c` with its children, while `n` of its lines are still to be removed. */
  predicate HalfOk(st: State, c: Id, n: int) {
    && c in st.ch && c in st.info && st.ch[c].Branch? && NoLineTwice(st.info[c].rows)
    && var b, f := st.ch[c], st.info[c];
    && b.size == |f.rows| - n && (st.h ==> b.height == HeightSum(f.rows))
    && |f.parts| == |b.children| && f.rows == Flatten(f.parts)
    && Distinct(b.children)
    && forall i :: 0 <= i < |b.children| ==> ChildOk(st, c, i)
  }

  /** The branch `c` takes note that its i-th child has changed. */
  function Renew(st: State, c: Id, i: nat, dh: int): State
    requires c in st.ch && c in st.info && st.ch[c].Branch? && i < |st.ch[c].children| == |st.info[c].parts|
    requires st.ch[c].children[i] in st.info
  {
    var b, f := st.ch[c], st.info[c];
    var parts := f.parts[i := st.info[b.children[i]].rows];
    st.(ch := st.ch[c := b.(height := b.height - dh)],
        info := st.info[c := f.(rows := Flatten(parts), parts := parts)])
  }

  lemma RemoveInside<T>(a: seq<T>, p: seq<T>, b: seq<T>, at: nat, n: nat)
    requires at + n <= |p|
    ensures Removed(a + p + b, |a| + at, n) == a + Removed(p, at, n) + b
    ensures (a + p + b)[|a| + at..|a| + at + n] == p[at..at + n]
  {
  }

  lemma FlattenRemove<T>(parts: seq<seq<T>>, i: nat, at: nat, n: nat)
    requires i < |parts| && at + n <= |parts[i]|
    ensures var k := |Flatten(parts[..i])| + at;
      && k + n <= |Flatten(parts)| && Flatten(parts)[k..k + n] == parts[i][at..at + n]
      && Flatten(parts[i := Removed(parts[i], at, n)]) == Removed(Flatten(parts), k, n)
  {
    var after := parts[i := Removed(parts[i], at, n)];
    FlattenSplit(parts, i);
    FlattenSplit(after, i);
    assert after[..i] == parts[..i] && after[i + 1..] == parts[i + 1..];
    RemoveInside(Flatten(parts[..i]), parts[i], Flatten(parts[i + 1..]), at, n);
  }

  /** `st1` differs from `st` below the i-th child `k` of `c`, which has lost `m` rows. */
  predicate Shrunk(st: State, st1: State, c: Id, i: nat, at: nat, m: nat, n: int) {
    && HalfOk(st, c, n) && i < |st.ch[c].children| && at + m <= |st.info[c].parts[i]|
    && (forall x :: x in st.ch[c].children ==> x in st.ch && x in st.info)
    && c in st1.ch && c in st1.info && st1.ch[c] == st.ch[c] && st1.info[c] == st.info[c] && st1.h == st.h
    && var k := st.ch[c].children[i];
    && k in st1.ch && k in st1.info && st1.ch[k].parent == st.ch[k].parent && st1.ch[k].Leaf? == st.ch[k].Leaf?
    && st1.info[k].rows == Removed(st.info[c].parts[i], at, m)
    && st1.info[k].up == To(c) && st1.info[k].rank == st.info[k].rank
    && forall x :: x in st.ch[c].children && x != k ==>
      x in st1.ch && x in st1.info && st1.ch[x] == st.ch[x] && st1.info[x] == st.info[x]
  }

  lemma RenewOk(st: State, st1: State, c: Id, i: nat, at: nat, m: nat, n: int, dh: int)
    requires Shrunk(st, st1, c, i, at, m, n)
    requires st.h ==> dh == HeightSum(st.info[c].parts[i][at..at + m])
    ensures HalfOk(Renew(st1, c, i, dh), c, n - m)
  {
    hide HeightSum, Flatten;
    var b, f, st2 := st.ch[c], st.info[c], Renew(st1, c, i, dh);
    FlattenRemove(f.parts, i, at, m);
    HeightSumRemoved(f.rows, |Flatten(f.parts[..i])| + at, m);
    RemovedNoLineTwice(f.rows, |Flatten(f.parts[..i])| + at, m);
    forall j | 0 <= j < |b.children| ensures ChildOk(st2, c, j) {
      assert ChildOk(st, c, j) && ChildOk(st, c, i);
      assert b.children[j] in b.children;
    }
  }

  lemma RenewInv(broken: set<Id>, st: State, c: Id, i: nat, dh: int)
    requires InvBut(broken, st) && c in st.ch && c in st.info && c in broken && st.ch[c].Branch?
    requires i < |st.ch[c].children| == |st.info[c].parts| && st.ch[c].children[i] in st.info
    requires c == st.root || (st.info[c].up.To? && st.info[c].up.id in broken)
    ensures InvBut(broken, Renew(st, c, i, dh))
  {
    hide HeightSum, Flatten;
    var st' := Renew(st, c, i, dh);
    forall x | x in st'.info ensures Linked(st', x) && (x !in broken ==> Ok(st', x)) {
      assert Linked(st, x) && Linked(st, c);
      if x !in broken {
        assert Ok(st, x);
        if st.ch[x].Branch? {
          forall j | 0 <= j < |st.ch[x].children| ensures ChildOk(st', x, j) {
            assert ChildOk(st, x, j);
          }
        }
      }
    }
  }

  /** The i-th child `k` of `c` is empty; below it there is at most one leaf. */
  predicate CanDrop(st: State, c: Id, i: nat, n: int) {
    && st.root in st.info && HalfOk(st, c, n) && i < |st.ch[c].children| && st.info[c].parts[i] == []
    && var k := st.ch[c].children[i];
    && k in st.info && k in st.ch && Ok(st, k)
    && (st.ch[k].Branch? ==>
          |st.ch[k].children| == 1 && st.ch[k].children[0] in st.ch && st.ch[st.ch[k].children[0]].Leaf?)
  }

  function Dropped(st: State, k: Id): set<Id>
    requires k in st.ch
  {
    {k} + if st.ch[k].Branch? then (set x | x in st.ch[k].children) else {}
  }

  function DropKid(st: State, c: Id, i: nat, n: int): State
    requires CanDrop(st, c, i, n)
  {
    var b, f, k := st.ch[c], st.info[c], st.ch[c].children[i];
    st.(ch := st.ch[c := b.(children := b.children[..i] + b.children[i + 1..])][k := st.ch[k].Below(Null)],
        info := (st.info - Dropped(st, k))[c := f.(parts := f.parts[..i] + f.parts[i + 1..])])
  }

  lemma DropSelf(st: State, c: Id, i: nat, n: int)
    requires CanDrop(st, c, i, n)
    ensures HalfOk(DropKid(st, c, i, n), c, n)
  {
    hide HeightSum, Flatten;
    var st', b, f, k := DropKid(st, c, i, n), st.ch[c], st.info[c], st.ch[c].children[i];
    FlattenSplit(f.parts, i);
    FlattenConcat(f.parts[..i], f.parts[i + 1..]);
    if st.ch[k].Branch? { AllKidFacts(st, k); }
    forall j | 0 <= j < |b.children| - 1 ensures ChildOk(st', c, j) {
      assert ChildOk(st, c, if j < i then j else j + 1) && ChildOk(st, c, i);
    }
  }

  lemma DropLinked(st: State, c: Id, i: nat, n: int, x: Id)
    requires CanDrop(st, c, i, n) && x in st.info && x !in Dropped(st, st.ch[c].children[i])
    requires Linked(st, x) && Linked(st, st.root)
    ensures Linked(DropKid(st, c, i, n), x)
  {
    hide HeightSum, Flatten, LeafOk;
    var st', b, k := DropKid(st, c, i, n), st.ch[c], st.ch[c].children[i];
    assert ChildOk(st, c, i);
    if st.ch[k].Branch? { AllKidFacts(st, k); }
    assert b.children == b.children[..i] + [k] + b.children[i + 1..];
    if x != st.root {
      var u := st.info[x].up.id;
      assert u != k;
      assert u !in Dropped(st, k);
    }
  }

  lemma DropOther(st: State, c: Id, i: nat, n: int, x: Id)
    requires CanDrop(st, c, i, n) && x in st.info && x != c && x !in Dropped(st, st.ch[c].children[i])
    requires Ok(st, x) && st.info[c].up != To(x)
    ensures Ok(DropKid(st, c, i, n), x)
  {
    hide HeightSum, Flatten;
    var k := st.ch[c].children[i];
    assert ChildOk(st, c, i);
    if st.ch[k].Branch? { AllKidFacts(st, k); }
    if st.ch[x].Branch? {
      forall j | 0 <= j < |st.ch[x].children| ensures ChildOk(DropKid(st, c, i, n), x, j) {
        assert ChildOk(st, x, j);
      }
    }
  }

  lemma DropKidOk(broken: set<Id>, st: State, c: Id, i: nat, n: int)
    requires InvBut(broken, st) && CanDrop(st, c, i, n) && c in broken
    requires c == st.root || (st.info[c].up.To? && st.info[c].up.id in broken)
    ensures InvBut(broken, DropKid(st, c, i, n))
  {
    hide HeightSum, Flatten, LeafOk;
    var st', k := DropKid(st, c, i, n), st.ch[c].children[i];
    assert ChildOk(st, c, i) && Linked(st, st.root) && Linked(st, c);
    if st.ch[k].Branch? { AllKidFacts(st, k); }
    forall x | x in st'.info ensures Linked(st', x) && (x !in broken ==> Ok(st', x)) {
      assert Linked(st, x);
      DropLinked(st, c, i, n, x);
      if x !in broken { assert Ok(st, x); DropOther(st, c, i, n, x); }
    }
  }

  // ---------------------------------------------------------------- collapsing

  /** `gone` is `c` and everything below it. */
  predicate Below(st: State, c: Id, gone: set<Id>) {
    && c in gone && c in st.info && gone <= st.info.Keys
    && (forall x :: x in gone && x != c ==> st.info[x].up.To? && st.info[x].up.id in gone)
    && (forall x :: x in st.info && st.info[x].up.To? && st.info[x].up.id in gone ==> x in gone)
  }

  predicate HeldBy(rows: seq<Row>, ln: map<Id, Line>, gone: set<Id>) {
    forall i :: 0 <= i < |rows| ==>
      && rows[i].line in ln && ln[rows[i].line].height == rows[i].height
      && ln[rows[i].line].parent.To? && ln[rows[i].line].parent.id in gone
  }

  predicate CanCollapse(st: State, c: Id, gone: set<Id>, leaf: Id) {
    && st.root in st.info && HalfOk(st, c, 0) && st.info[c].rank > 0 && Below(st, c, gone)
    && HeldBy(st.info[c].rows, st.ln, gone) && leaf !in st.info && leaf !in st.ch
  }

  /** All lines of `c` move to a single new leaf, which is not told its parent. */
  function Collapse(st: State, c: Id, gone: set<Id>, leaf: Id): State
    requires CanCollapse(st, c, gone, leaf)
  {
    var b, f := st.ch[c], st.info[c];
    st.(ch := st.ch[c := b.(children := [leaf])][leaf := Leaf(LinesOf(f.rows), Null, HeightSum(f.rows))],
        ln := LinesUnder(st.ln, LinesOf(f.rows), To(leaf)),
        info := (st.info - (gone - {c}))[c := f.(parts := [f.rows])][leaf := Info(To(c), 0, f.rows, [])])
  }

  lemma CollapseSelf(st: State, c: Id, gone: set<Id>, leaf: Id)
    requires CanCollapse(st, c, gone, leaf)
    ensures var st' := Collapse(st, c, gone, leaf); Ok(st', c) && Ok(st', leaf)
  {
    hide HeightSum;
    var st', rows := Collapse(st, c, gone, leaf), st.info[c].rows;
    assert Flatten([rows]) == rows;
    assert ChildOk(st', c, 0);
    assert forall i :: 0 <= i < |rows| ==> LinesOf(rows)[i] == rows[i].line;
  }

  lemma CollapseOther(st: State, c: Id, gone: set<Id>, leaf: Id, x: Id)
    requires CanCollapse(st, c, gone, leaf) && x in st.info && x !in gone
    requires Ok(st, x) && st.info[c].up != To(x)
    ensures Ok(Collapse(st, c, gone, leaf), x)
  {
    hide HeightSum, Flatten;
    var st', rows := Collapse(st, c, gone, leaf), st.info[c].rows;
    if st.ch[x].Branch? {
      forall j | 0 <= j < |st.ch[x].children| ensures ChildOk(st', x, j) {
        assert ChildOk(st, x, j);
      }
    } else {
      assert forall i :: 0 <= i < |rows| ==> LinesOf(rows)[i] == rows[i].line;
    }
  }

  lemma CollapseOk(broken: set<Id>, st: State, c: Id, gone: set<Id>, leaf: Id)
    requires InvBut(broken + {c}, st) && CanCollapse(st, c, gone, leaf) && broken !! gone
    requires c == st.root || (st.info[c].up.To? && st.info[c].up.id in broken)
    ensures InvBut(broken, Collapse(st, c, gone, leaf))
  {
    hide HeightSum, Flatten, LeafOk, ChildOk;
    var st' := Collapse(st, c, gone, leaf);
    CollapseSelf(st, c, gone, leaf);
    assert Linked(st, st.root) && Linked(st, c);
    forall x | x in st'.info ensures Linked(st', x) && (x !in broken ==> Ok(st', x)) {
      if x != leaf {
        assert Linked(st, x);
        if x != c && x !in broken { assert Ok(st, x); CollapseOther(st, c, gone, leaf, x); }
      }
    }
  }
}
