/** The operations of CodeMirror on its tree of chunks. */
module ChunkTree {
  import opened Common
  import opened StyledText
  import opened ChunkShape
  import opened ChunkChain


  /** Chunk sizes: at most 50 lines in a leaf and at most 10 children in a branch. */
  ghost predicate BoundedBut(except: set<Id>, st: State) {
    forall c :: c in st.info && c in st.ch && c !in except ==>
      if st.ch[c].Leaf? then |st.ch[c].lines| <= 50 else |st.ch[c].children| <= 10
  }

  class Document {
    var ch: map<Id, Chunk>
    var ln: map<Id, Line>
    var nextChunk: Id
    var nextLine: Id
    const root: Id
    ghost var info: map<Id, Info>

    /** A document with a single empty line. */
    constructor ()
      ensures Valid(true) && FreshLines() && Rows(true) == [Row(0, 1)] && AllTold(St(true))
      ensures ln.Keys == {0} && ln[0].text == "" && ln[0].styles == [Fragment("", Plain)]
    {
      root := 1;
      ch, nextChunk := map[0 := Leaf([0], To(1), 1), 1 := Branch([0], 1, Null, 1)], 2;
      ln, nextLine := map[0 := Line("", [Fragment("", Plain)], 1, To(0))], 1;
      info := map[0 := Info(To(1), 0, [Row(0, 1)], []), 1 := Info(Null, 1, [Row(0, 1)], [[Row(0, 1)]])];
      new;
      InitialOk(St(true));
    }

    ghost predicate FreshLines()
      reads this`ln, this`nextLine
    {
      forall l :: l in ln ==> l < nextLine
    }

    /** A line that is not in the document yet. */
    method NewLine(text: string, styles: seq<Fragment>, ghost h: bool) returns (l: Id)
      requires Valid(h) && FreshLines()
      modifies this`ln, this`nextLine
      ensures l == old(nextLine) && l !in old(ln) && ln == old(ln)[l := Line(text, styles, 1, Null)]
      ensures Valid(h) && FreshLines() && Rows(h) == old(Rows(h))
    {
      ghost var st := St(h);
      l, nextLine := nextLine, nextLine + 1;
      ln := ln[l := Line(text, styles, 1, Null)];
      OtherLines({}, st, ln);
    }

    /** Another text for a line, wherever it is. */
    method SetText(l: Id, text: string, styles: seq<Fragment>, ghost h: bool)
      requires Valid(h) && l in ln
      modifies this`ln
      ensures ln == old(ln)[l := old(ln)[l].(text := text, styles := styles)]
      ensures Valid(h) && Rows(h) == old(Rows(h)) && (old(FreshLines()) ==> FreshLines())
    {
      ghost var st := St(h);
      ln := ln[l := ln[l].(text := text, styles := styles)];
      OtherLines({}, st, ln);
    }

    ghost function St(h: bool): State
      reads this
    {
      State(ch, ln, info, root, h)
    }

    ghost predicate FreshChunks()
      reads this`ch, this`nextChunk
    {
      forall c :: c in ch ==> c < nextChunk
    }

    /** A new branch over existing chunks. */
    method NewBranch(cs: seq<Id>, ghost parts: seq<seq<Row>>, ghost h: bool) returns (b: Id)
      requires FreshChunks() && |cs| == |parts|
      requires forall i :: 0 <= i < |cs| ==> cs[i] in ch && ch[cs[i]].ChunkSize() == |parts[i]|
      requires forall i :: 0 <= i < |cs| ==> h ==> ch[cs[i]].height == HeightSum(parts[i])
      modifies this`ch, this`nextChunk
      ensures b == old(nextChunk) && nextChunk == b + 1 && FreshChunks()
      ensures b in ch && (h ==> ch[b].height == HeightSum(Flatten(parts)))
      ensures ch == Under(old(ch), cs, To(b))[b := Branch(cs, |Flatten(parts)|, Null, ch[b].height)]
    {
      hide Under;
      UnderNone(ch, To(nextChunk));
      b := nextChunk;
      nextChunk := nextChunk + 1;
      var size, height := 0, 0;
      for i := 0 to |cs|
        invariant ch == Under(old(ch), cs[..i], To(b)) && nextChunk == b + 1
        invariant size == |Flatten(parts[..i])| && (h ==> height == HeightSum(Flatten(parts[..i])))
      {
        FlattenPrefix(parts, i);
        UnderStep(old(ch), cs, i, To(b));
        var c := ch[cs[i]];
        size := size + c.ChunkSize();
        height := height + c.height;
        ch := ch[cs[i] := c.Below(To(b))];
      }
      assert cs[..|cs|] == cs && parts[..|cs|] == parts;
      UnderKeys(old(ch), cs, To(b));
      ch := ch[b := Branch(cs, size, Null, height)];
    }

    /** Moves all but the first `n` children of `me` to a new branch. */
    method Shed(me: Id, n: nat, ghost parts: seq<seq<Row>>, ghost h: bool) returns (sibling: Id)
      requires FreshChunks() && me in ch && ch[me].Branch? && n <= |ch[me].children| == |parts|
      requires forall i :: 0 <= i < |parts| ==>
        var c := ch[me].children[i];
        c in ch && c != me && ch[c].ChunkSize() == |parts[i]| && (h ==> ch[c].height == HeightSum(parts[i]))
      modifies this`ch, this`nextChunk
      ensures FreshChunks() && sibling == old(nextChunk) && nextChunk == sibling + 1 && sibling in ch
      ensures h ==> ch[sibling].height == HeightSum(Flatten(parts[n..]))
      ensures var kids := old(ch)[me].children;
        ch == Under(old(ch), kids[n..], To(sibling))
          [me := old(ch)[me].(children := kids[..n])]
          [sibling := Branch(kids[n..], |Flatten(parts[n..])|, Null, ch[sibling].height)]
    {
      hide Flatten, HeightSum;
      var kids := ch[me].children;
      ch := ch[me := ch[me].(children := kids[..n])];
      sibling := NewBranch(kids[n..], parts[n..], h);
    }

    /** Tells the lines `ls` that they belong to `p` now. */
    method SetLineParents(ls: seq<Id>, p: Ref)
      requires forall l :: l in ls ==> l in ln
      modifies this`ln
      ensures ln == LinesUnder(old(ln), ls, p) && SameText(old(ln), ln)
    {
      hide LinesUnder;
      LinesUnderText(ln, ls, p);
      LinesUnderNone(ln, p);
      for i := 0 to |ls|
        invariant ln == LinesUnder(old(ln), ls[..i], p)
      {
        LinesUnderStep(old(ln), ls, i, p);
        ln := ln[ls[i] := ln[ls[i]].(parent := p)];
      }
      assert ls[..|ls|] == ls;
    }

    method SumHeights(ls: seq<Id>, ghost rows: seq<Row>) returns (height: int)
      requires Measured(rows, ln) && ls == LinesOf(rows)
      ensures height == HeightSum(rows)
    {
      height := 0;
      for i := 0 to |ls|
        invariant height == HeightSum(rows[..i])
      {
        height := height + ln[ls[i]].height;
        assert rows[..i + 1] == rows[..i] + [rows[i]];
        HeightSumConcat(rows[..i], [rows[i]]);
      }
      assert rows[..|ls|] == rows;
    }

    /** A new leaf over existing lines. */
    method NewLeaf(ls: seq<Id>, ghost rows: seq<Row>) returns (leaf: Id)
      requires FreshChunks() && ls == LinesOf(rows) && Measured(rows, ln)
      modifies this`ch, this`nextChunk, this`ln
      ensures leaf == old(nextChunk) && nextChunk == leaf + 1 && FreshChunks()
      ensures ch == old(ch)[leaf := Leaf(ls, Null, HeightSum(rows))] && ln == LinesUnder(old(ln), ls, To(leaf)) &&
        SameText(old(ln), ln)
    {
      hide LinesUnder, HeightSum;
      leaf := nextChunk;
      nextChunk := nextChunk + 1;
      var height := SumHeights(ls, rows);
      SetLineParents(ls, To(leaf));
      ch := ch[leaf := Leaf(ls, Null, height)];
    }

    /** The last 25 lines of the overfull leaf `me`, the i-th child of `p`, go to a new leaf. */
    method SpillLeaf(me: Id, p: Id, i: nat, ghost h: bool) returns (ghost x: Cut)
      requires InvBut({}, St(h)) && FreshChunks() && IsKid(St(h), me, p)
      requires ch[me].Leaf? && |ch[me].lines| > 50 && i < |ch[p].children| && ch[p].children[i] == me
      modifies this`ch, this`nextChunk, this`ln, this`info
      ensures CanCut(old(St(h)), x) && St(h) == CutLeaf(old(St(h)), x) && FreshChunks()
      ensures x.me == me && x.p == p && x.k == i && x.n == |old(ch)[me].lines| - 25 && nextChunk > old(nextChunk) &&
        SameText(old(ln), ln)
    {
      hide Flatten, HeightSum, InvBut, LinesUnder, SameText;
      ghost var st := St(h);
      LeafLinks(st, me, p);
      var n := |ch[me].lines| - 25;
      var spilled := ch[me].lines[n..];
      ghost var rows := info[me].rows[n..];
      LeafTail(st, me, n);
      ch := ch[me := ch[me].(lines := ch[me].lines[..n])];
      var newleaf := NewLeaf(spilled, rows);
      ch := ch[me := ch[me].WithHeight(ch[me].height - ch[newleaf].height)];
      ch := ch[p := ch[p].(children := ch[p].children[..i + 1] + [newleaf] + ch[p].children[i + 1..])];
      ch := ch[newleaf := ch[newleaf].Below(To(p))];
      x := Cut(me, p, i, n, newleaf, ch[me].height, ch[newleaf].height);
      info := CutLeaf(st, x).info;
    }

    /** The child of `c` in which position `at` lies, and the position there. */
    method FindChild(c: Id, at: nat, ghost h: bool) returns (i: nat, at': nat)
      requires c in ch && c in info && ch[c].Branch? && KidsSized(St(h), c)
      requires |ch[c].children| == |info[c].parts| > 0 && at <= |Flatten(info[c].parts)|
      ensures i < |ch[c].children| && at' <= |info[c].parts[i]|
      ensures |Flatten(info[c].parts[..i])| + at' == at && (i > 0 ==> at' > 0)
    {
      ghost var parts := info[c].parts;
      i, at' := 0, at;
      while at' > ch[ch[c].children[i]].ChunkSize()
        invariant i < |ch[c].children| && |Flatten(parts[..i])| + at' == at && (i > 0 ==> at' > 0)
        decreases |ch[c].children| - i
      {
        FlattenPrefix(parts, i);
        at' := at' - ch[ch[c].children[i]].ChunkSize();
        i := i + 1;
        NotPastEnd(parts, i);
      }
    }

    /** Puts the lines `ls`, announced at position `at` of the branch `c`, into the tree. */
    method InsertHeight(c: Id, at: nat, ls: seq<Id>, height: int, ghost r: seq<Row>, ghost more: seq<Row>,
      ghost h: bool)
      requires InvBut({c}, St(h)) && FreshChunks() && BoundedBut({}, St(h))
      requires c in ch && c in info && Stale(St(h), c, r, at, more) && ch[c].Branch?
      requires ls == LinesOf(more) && Loose(more, ln) && height == HeightSum(more)
      modifies this`ch, this`nextChunk, this`ln, this`info
      ensures InvBut({}, St(h)) && FreshChunks() && BoundedBut({}, St(h)) && SameRows(old(St(h)), St(h))
      ensures SameText(old(ln), ln)
      decreases info[c].rank
    {
      hide Flatten, HeightSum, InvBut, Ok, SameText, SameRows, BoundedBut;
      ghost var st := St(h);
      StaleKids(st, c, r, at, more);
      ch := ch[c := ch[c].(size := ch[c].size + |ls|, height := ch[c].height + height)];
      var i, at' := FindChild(c, at, h);
      var k := ch[c].children[i];
      ghost var part := info[c].parts[i];
      StepEffect(st, c, r, i, at', more, height);
      info := StepDown(st, c, i, at', more, height).info;
      ghost var mid := St(h);
      if ch[k].Branch? {
        InsertHeight(k, at', ls, height, part, more, h);
      } else {
        InsertIntoLeaf(k, c, i, at', ls, height, part, more, h);
      }
      SameRowsTrans(st, mid, St(h));
    }

    method InsertIntoLeaf(k: Id, c: Id, i: nat, at: nat, ls: seq<Id>, height: int,
                          ghost r: seq<Row>, ghost more: seq<Row>, ghost h: bool)
      requires InvBut({k}, St(h)) && FreshChunks() && BoundedBut({}, St(h)) && IsKid(St(h), k, c) && k != c
      requires Stale(St(h), k, r, at, more) && ch[k].Leaf? && i < |ch[c].children| && ch[c].children[i] == k
      requires ls == LinesOf(more) && Loose(more, ln) && height == HeightSum(more)
      modifies this`ch, this`nextChunk, this`ln, this`info
      ensures InvBut({}, St(h)) && FreshChunks() && BoundedBut({}, St(h)) && SameRows(old(St(h)), St(h))
      ensures SameText(old(ln), ln)
    {
      hide Flatten, HeightSum, InvBut, Ok, SameRows;
      ghost var st := St(h);
      FillEffect(st, k, c, i, r, at, more, height);
      ch := ch[k := Leaf(ch[k].lines[..at] + ls + ch[k].lines[at..], ch[k].parent, ch[k].height + height)];
      LooseIn(more, ln);
      SetLineParents(ls, To(k));
      ghost var mid := St(h);
      SpillLeaves(k, c, i, h);
      SameRowsTrans(st, mid, St(h));
    }

    /** Cuts the leaf `me` down to 50 lines and lets its branch `c` spill if need be. */
    method SpillLeaves(me: Id, c: Id, i: nat, ghost h: bool)
      requires InvBut({}, St(h)) && FreshChunks() && BoundedBut({me}, St(h)) && IsKid(St(h), me, c) && ch[me].Leaf?
      requires i < |ch[c].children| && ch[c].children[i] == me
      modifies this`ch, this`nextChunk, this`ln, this`info
      ensures InvBut({}, St(h)) && FreshChunks() && BoundedBut({}, St(h)) && SameRows(old(St(h)), St(h))
      ensures SameText(old(ln), ln)
    {
      hide Flatten, HeightSum, InvBut, Ok, BoundedBut, SameRows;
      ghost var st0 := St(h);
      LeafLinks(st0, me, c);
      SameRowsSelf(st0);
      BoundedMore(St(h), {me}, {c});
      assert {me} + {c} == {me, c} && {me} - {me} == {} && {me, c} - {me} == {c};
      if |ch[me].lines| > 50 {
        while |ch[me].lines| > 50
          invariant InvBut({}, St(h)) && FreshChunks() && BoundedBut({me, c}, St(h)) && IsKid(St(h), me, c) &&
            ch[me].Leaf?
          invariant SameRows(st0, St(h)) && SameText(old(ln), ln) && i < |ch[c].children| && ch[c].children[i] == me
          decreases |ch[me].lines|
        {
          ghost var st := St(h);
          ghost var x := SpillLeaf(me, c, i, h);
          CutEffect(st, x, {me, c});
          SameRowsTrans(st0, st, St(h));
        }
        LeafBoundedNow(St(h), {me, c}, me);
        ghost var mid := St(h);
        MaybeSpill(c, h);
        SameRowsTrans(st0, mid, St(h));
      } else {
        LeafBoundedNow(St(h), {me}, me);
      }
    }

    /** The document is well formed; if `h` then its cached heights are exact. */
    ghost predicate Valid(h: bool)
      reads this
    {
      InvBut({}, St(h)) && FreshChunks() && BoundedBut({}, St(h))
    }

    /** The lines of the document in order. */
    ghost function Rows(h: bool): seq<Row>
      requires Valid(h)
      reads this
    {
      info[root].rows
    }

    /** Inserts the lines `ls` before line `at`. */
    method Insert(at: nat, ls: seq<Id>, ghost more: seq<Row>, ghost h: bool)
      requires Valid(h) && at <= |Rows(h)| && ls == LinesOf(more) && Loose(more, ln)
      requires NoLineTwice(Inserted(Rows(h), at, more))
      modifies this`ch, this`nextChunk, this`ln, this`info
      ensures Valid(h) && Rows(h) == Inserted(old(Rows(h)), at, more) && SameText(old(ln), ln)
      ensures old(AllTold(St(h))) ==> AllTold(St(h))
    {
      hide Flatten, HeightSum, Ok;
      RootLinks(St(h));
      var height := SumHeights(ls, more);
      ghost var r := Rows(h);
      AnnounceRoot(St(h), at, more);
      info := Announce(St(h), root, at, more).info;
      InsertHeight(root, at, ls, height, r, more, h);
    }

    /** Appends the lines of `c` to `acc`; `gone` is `c` with everything below it. */
    method CollapseInto(c: Id, acc: seq<Id>, ghost broken: set<Id>, ghost h: bool)
      returns (acc': seq<Id>, ghost gone: set<Id>)
      requires InvBut(broken, St(h)) && c in info && c in ch
      requires if ch[c].Leaf? then Ok(St(h), c) else KidsOk(St(h), c)
      requires forall b :: b in broken ==> b in info && info[b].rank >= info[c].rank
      ensures acc' == acc + LinesOf(info[c].rows)
      ensures Below(St(h), c, gone) && HeldBy(info[c].rows, ln, gone)
      ensures forall x :: x in gone && x != c ==> info[x].rank < info[c].rank
      decreases info[c].rank
    {
      hide Flatten, HeightSum, InvBut, Ok, BelowKids, HeldBy, Below;
      if ch[c].Leaf? {
        acc', gone := acc + ch[c].lines, {c};
        LeafBelow(broken, St(h), c);
      } else {
        ghost var parts, kids := info[c].parts, {};
        acc' := acc;
        FlattenNone(parts);
        NoneBelow(St(h), c);
        for i := 0 to |ch[c].children|
          invariant acc' == acc + LinesOf(Flatten(parts[..i])) && HeldBy(Flatten(parts[..i]), ln, kids)
          invariant BelowKids(St(h), c, i, kids)
        {
          ghost var k, more := ch[c].children[i], {};
          FlattenPrefix(parts, i);
          KidReady(broken, St(h), c, i);
          acc', more := CollapseInto(ch[c].children[i], acc', broken, h);
          GrowBelow(St(h), c, i, kids, more);
          HeldMore(Flatten(parts[..i]), parts[i], ln, kids, more);
          LinesOfConcat(Flatten(parts[..i]), parts[i]);
          kids := kids + more;
        }
        assert parts[..|parts|] == parts;
        gone := kids + {c};
        HeldMore(Flatten(parts), [], ln, kids, {c});
        assert Flatten(parts) + [] == Flatten(parts);
        AllBelow(broken, St(h), c, kids);
      }
    }

    /** Removes `n` lines from position `at` of `c`; `path` are the branches above `c`. */
    method RemoveFrom(c: Id, at: nat, n: nat, ghost path: set<Id>, ghost h: bool)
      requires CanRemove(St(h), c, path) && FreshChunks() && BoundedBut({}, St(h)) && at + n <= |info[c].rows|
      modifies this`ch, this`nextChunk, this`ln, this`info
      ensures InvBut(path, St(h)) && FreshChunks() && BoundedBut({}, St(h))
      ensures Thinned(old(St(h)), St(h), c, at, n) && Around(old(St(h)), St(h), c, path)
      ensures Freed(old(info)[c].rows[at..at + n], ln)
      decreases info[c].rank, 2
    {
      hide Flatten, HeightSum, InvBut, Ok, BoundedBut;
      if ch[c].Leaf? {
        RemoveLines(c, at, n, path, h);
      } else {
        ghost var st := St(h);
        RemoveFromKids(c, at, n, path, h);
        if ch[c].size < 25 {
          ghost var mid := St(h);
          CollapseBranch(c, path, h);
          StillFreed(st.info[c].rows[at..at + n], mid, St(h), c, path);
          AroundTrans(st, mid, St(h), c, path);
        } else {
          WholeAgain(path, St(h), c);
        }
      }
    }

    method RemoveLines(c: Id, at: nat, n: nat, ghost path: set<Id>, ghost h: bool)
      requires CanRemove(St(h), c, path) && FreshChunks() && BoundedBut({}, St(h)) && at + n <= |info[c].rows|
      requires ch[c].Leaf?
      modifies this`ch, this`ln, this`info
      ensures InvBut(path, St(h)) && FreshChunks() && BoundedBut({}, St(h))
      ensures Thinned(old(St(h)), St(h), c, at, n) && Around(old(St(h)), St(h), c, path)
      ensures Freed(old(info)[c].rows[at..at + n], ln)
    {
      hide Flatten, HeightSum, LinesUnder, SameText, Ok, InvBut, BoundedBut, Thinned, Around, Measured, LinesOf;
      ghost var st := St(h);
      TrimEffect(st, c, path, at, n);
      CutRows(st, c, at, n);
      var lines := ch[c].lines;
      var height := SumHeights(lines[at..at + n], info[c].rows[at..at + n]);
      SetLineParents(lines[at..at + n], Null);
      ch := ch[c := Leaf(lines[..at] + lines[at + n..], ch[c].parent, ch[c].height - height)];
      info := TrimLeaf(st, c, at, n).info;
      assert St(h).ch == TrimLeaf(st, c, at, n).ch;
    }

    /** Removes `n` lines below `c`, leaving out children that become empty. */
    method RemoveFromKids(c: Id, at: nat, n: nat, ghost path: set<Id>, ghost h: bool)
      requires CanRemove(St(h), c, path) && FreshChunks() && BoundedBut({}, St(h)) && at + n <= |info[c].rows|
      requires ch[c].Branch?
      modifies this`ch, this`nextChunk, this`ln, this`info
      ensures Halfway(St(h), c, path, 0) && FreshChunks() && BoundedBut({}, St(h))
      ensures info[c].rows == Removed(old(info)[c].rows, at, n) && Around(old(St(h)), St(h), c, path)
      ensures Freed(old(info)[c].rows[at..at + n], ln)
      decreases info[c].rank, 1
    {
      hide Flatten, HeightSum, InvBut, Ok, HalfOk, BoundedBut, Around, KeptAround, SameTop, Freed, ToGo, Removed;
      BeginHalf(St(h), c, path, at, n);
      ghost var st := St(h);
      ch := ch[c := ch[c].(size := ch[c].size - n)];
      ghost var rows := info[c].rows;
      NoneFreed(ln);
      assert rows[at..at] == [];
      var i: nat, at': nat, n': nat, done := 0, at, n, false;
      while !done && i < |ch[c].children|
        invariant Halfway(St(h), c, path, n') && FreshChunks() && BoundedBut({}, St(h)) && Around(st, St(h), c, path)
        invariant info[c].rank == st.info[c].rank
        invariant n' <= n && Freed(rows[at..at + n - n'], ln)
        invariant if done then n' == 0 && info[c].rows == Removed(rows, at, n)
          else Pending(St(h), c, i, at', n', rows, at, n)
        decreases !done, |ch[c].children| - i
      {
        ghost var mid := St(h);
        KidCanRemove(mid, c, i, path, n');
        var size := ch[ch[c].children[i]].ChunkSize();
        if at' < size {
          var m := if n' < size - at' then n' else size - at';
          var gone := RemoveFromKid(c, i, at', m, n', path, h);
          AroundTrans(st, mid, St(h), c, path);
          PendingStep(St(h), c, i, at', m, n', mid.info[c].parts, rows, at, n, gone);
          FreedMore(rows, at, n - n', m, mid, St(h), c, path);
          if !gone { i := i + 1; }
          n' := n' - m;
          done := n' == 0;
          at' := 0;
        } else {
          PendingSkip(mid, c, i, at', n', rows, at, n);
          at', i := at' - size, i + 1;
        }
      }
      PendingEnd(St(h), c, i, at', n', rows, at, n, done);
    }

    /** Removes `m` lines from the i-th child of `c`, and the child itself if nothing is left of it. */
    method RemoveFromKid(c: Id, i: nat, at: nat, m: nat, ghost n: int, ghost path: set<Id>, ghost h: bool)
      returns (gone: bool)
      requires Halfway(St(h), c, path, n) && FreshChunks() && BoundedBut({}, St(h)) && c in info && c in ch &&
        ch[c].Branch?
      requires i < |ch[c].children| == |info[c].parts| && at + m <= |info[c].parts[i]|
      modifies this`ch, this`nextChunk, this`ln, this`info
      ensures Halfway(St(h), c, path, n - m) && FreshChunks() && BoundedBut({}, St(h))
      ensures Around(old(St(h)), St(h), c, path) && Freed(old(info)[c].parts[i][at..at + m], ln)
      ensures gone == (|old(info)[c].parts[i]| == m) && c in info && info[c].rank == old(info)[c].rank
      ensures info[c].parts == if gone
        then old(info)[c].parts[..i] + old(info)[c].parts[i + 1..]
        else old(info)[c].parts[i := Removed(old(info)[c].parts[i], at, m)]
      decreases info[c].rank, 0
    {
      hide Flatten, HeightSum, InvBut, Ok, HalfOk, Halfway, KeptAround, BoundedBut;
      ghost var st := St(h);
      KidCanRemove(st, c, i, path, n);
      var k := ch[c].children[i];
      var size, height := ch[k].ChunkSize(), ch[k].height;
      RemoveFrom(k, at, m, path + {c}, h);
      ghost var st1 := St(h);
      RenewAfter(st, st1, c, i, at, m, n, path);
      ch := ch[c := ch[c].WithHeight(ch[c].height - (height - ch[k].height))];
      info := Renew(st1, c, i, height - ch[k].height).info;
      gone := size == m;
      if gone {
        ghost var st2 := St(h);
        DropAfter(st2, c, i, path, n - m);
        AroundTrans(st, st2, DropKid(st2, c, i, n - m), c, path);
        DropChild(c, i, n - m, h);
      }
    }

    method DropChild(c: Id, i: nat, ghost n: int, ghost h: bool)
      requires CanDrop(St(h), c, i, n)
      modifies this`ch, this`info
      ensures St(h) == DropKid(old(St(h)), c, i, n) && (old(FreshChunks()) ==> FreshChunks())
    {
      hide Flatten, HeightSum;
      ghost var st := St(h);
      assert ChildOk(st, c, i);
      var k := ch[c].children[i];
      ch := ch[c := ch[c].(children := ch[c].children[..i] + ch[c].children[i + 1..])];
      ch := ch[k := ch[k].Below(Null)];
      info := DropKid(st, c, i, n).info;
    }

    /** A branch with few lines keeps them all in one new leaf. */
    method CollapseBranch(c: Id, ghost path: set<Id>, ghost h: bool)
      requires Halfway(St(h), c, path, 0) && FreshChunks() && BoundedBut({}, St(h)) && ch[c].size < 25
      modifies this`ch, this`nextChunk, this`ln, this`info
      ensures InvBut(path, St(h)) && FreshChunks() && BoundedBut({}, St(h))
      ensures Around(old(St(h)), St(h), c, path) && info[c].rows == old(info)[c].rows
      ensures |ch[c].children| == 1 && ch[c].children[0] in ch && ch[ch[c].children[0]].Leaf?
    {
      hide Flatten, HeightSum, InvBut, Ok, SameText, Around, HalfOk, LinesUnder, LinesOf, Measured, BoundedBut, HeldBy,
        Below;
      ghost var st := St(h);
      var ls;
      ghost var gone;
      CollapseReady(st, c, path);
      ls, gone := CollapseInto(c, [], path + {c}, h);
      assert ls == LinesOf(info[c].rows);
      CanCollapseNow(st, c, path, gone, nextChunk);
      var leaf := NewLeaf(ls, info[c].rows);
      ch := ch[c := ch[c].(children := [leaf])];
      info := Collapse(st, c, gone, leaf).info;
      CollapseEffect(st, c, path, gone, leaf);
      assert St(h).ch == Collapse(st, c, gone, leaf).ch;
    }

    /** Removes `n` lines from line `at` on. */
    method Remove(at: nat, n: nat, ghost h: bool)
      requires Valid(h) && at + n <= |Rows(h)|
      modifies this`ch, this`nextChunk, this`ln, this`info
      ensures Valid(h) && Rows(h) == Removed(old(Rows(h)), at, n) && SameText(old(ln), ln) && StayLoose(old(ln), ln)
      ensures Freed(old(Rows(h))[at..at + n], ln)
      ensures root in ch && (ch[root].Branch? && |Rows(h)| < 25 ==>
        |ch[root].children| == 1 && ch[root].children[0] in ch && ch[ch[root].children[0]].Leaf?)
    {
      hide Flatten, HeightSum, Ok;
      RootLinks(St(h));
      RemoveFrom(root, at, n, {}, h);
    }

    // -------------------------------------------------------------- lookups

    /** Passes over the children of `c` that end at or before line `n`. */
    method ScanLines(c: Id, n: nat, ghost h: bool) returns (i: nat, n': nat, height: int)
      requires InvBut({}, St(h)) && c in info && c in ch && ch[c].Branch?
      ensures |ch[c].children| == |info[c].parts| && i <= |info[c].parts|
      ensures |Flatten(info[c].parts[..i])| + n' == n && (i < |info[c].parts| ==> n' < |info[c].parts[i]|)
      ensures h ==> height == HeightSum(Flatten(info[c].parts[..i]))
    {
      hide Flatten, InvBut, HeightSum;
      KidSizes(St(h), c);
      ghost var parts := info[c].parts;
      FlattenNone(parts);
      NoHeight();
      i, n', height := 0, n, 0;
      while i < |ch[c].children|
        invariant i <= |ch[c].children| && |Flatten(parts[..i])| + n' == n
        invariant h ==> height == HeightSum(Flatten(parts[..i]))
      {
        var size := ch[ch[c].children[i]].ChunkSize();
        if n' < size {
          break;
        }
        FlattenPrefix(parts, i);
        n' := n' - size;
        height := height + ch[ch[c].children[i]].height;
        i := i + 1;
      }
    }

    /** The line with number `n0`; a number past the end wraps round. */
    method GetLineAt(n0: nat, ghost h: bool) returns (line: Id)
      requires Valid(h) && |Rows(h)| > 0
      ensures line == Rows(h)[Wrapped(n0, |Rows(h)|)].line
    {
      hide Flatten, HeightSum, BoundedBut, Ok, InvBut, Wrapped;
      RootLinks(St(h));
      var chunk: Id, n: nat := root, n0;
      ghost var size := |Rows(h)|;
      while ch[chunk].Branch?
        invariant chunk in info && chunk in ch && (ch[chunk].Leaf? ==> LeafOk(St(h), chunk, info[chunk].rows))
        invariant if chunk == root then Wrapped(n, size) == Wrapped(n0, size)
          else n < |info[chunk].rows| && info[chunk].rows[n] == Rows(h)[Wrapped(n0, size)]
        decreases info[chunk].rank, n
      {
        var i, n', height := ScanLines(chunk, n, h);
        if i < |ch[chunk].children| {
          KidOf(St(h), chunk, i);
          FlattenAt(info[chunk].parts, i, n');
          chunk, n := ch[chunk].children[i], n';
        } else {
          AllPassed(St(h), chunk, n, n');
          n := n';
        }
      }
      line := ch[chunk].lines[n];
    }

    /** The height of everything above line `n0`. */
    method HeightAtLine(n0: nat) returns (top: int)
      requires Valid(true)
      ensures top == HeightSum(Rows(true)[..if n0 < |Rows(true)| then n0 else |Rows(true)|])
    {
      hide Flatten, HeightSum, BoundedBut;
      RootLinks(St(true));
      var chunk: Id, n: nat := root, n0;
      top := 0;
      NoHeight();
      while ch[chunk].Branch?
        invariant chunk in info && chunk in ch && (chunk == root || n <= |info[chunk].rows|) && Ok(St(true), chunk)
        invariant top + HeightSum(info[chunk].rows[..Min(n, |info[chunk].rows|)])
          == HeightSum(Rows(true)[..Min(n0, |Rows(true)|)])
        invariant chunk != root ==> n < |info[chunk].rows|
        decreases info[chunk].rank
      {
        var i, n', height := ScanLines(chunk, n, true);
        KidSizes(St(true), chunk);
        top := top + height;
        if i == |ch[chunk].children| {
          PastAll(info[chunk].parts, n, n');
          return;
        }
        assert ChildOk(St(true), chunk, i);
        assert Ok(St(true), ch[chunk].children[i]);
        HeightInside(info[chunk].parts, i, n');
        chunk, n := ch[chunk].children[i], n';
      }
      var lines := ch[chunk].lines;
      ghost var rows := info[chunk].rows;
      ghost var above := top;
      for j := 0 to n
        invariant top == above + HeightSum(rows[..j])
      {
        top := top + ln[lines[j]].height;
        assert rows[..j + 1] == rows[..j] + [rows[j]];
        HeightSumConcat(rows[..j], [rows[j]]);
        OneHeight(rows[j]);
      }
    }

    /** Passes over the children of `c` that end above height `y` or at it. */
    method ScanHeights(c: Id, y: int) returns (i: nat, y': int, n: nat)
      requires InvBut({}, St(true)) && c in info && c in ch && ch[c].Branch?
      ensures |ch[c].children| == |info[c].parts| && i <= |info[c].parts|
      ensures HeightSum(Flatten(info[c].parts[..i])) + y' == y && n == |Flatten(info[c].parts[..i])|
      ensures i < |info[c].parts| ==> y' < HeightSum(info[c].parts[i])
      ensures i > 0 ==> y' >= 0
    {
      hide Flatten, InvBut, HeightSum;
      KidSizes(St(true), c);
      ghost var parts := info[c].parts;
      FlattenNone(parts);
      NoHeight();
      i, y', n := 0, y, 0;
      while i < |ch[c].children|
        invariant i <= |ch[c].children| && HeightSum(Flatten(parts[..i])) + y' == y
        invariant n == |Flatten(parts[..i])| && (i > 0 ==> y' >= 0)
      {
        var height := ch[ch[c].children[i]].height;
        if y' < height {
          break;
        }
        FlattenPrefix(parts, i);
        y' := y' - height;
        n := n + ch[ch[c].children[i]].ChunkSize();
        i := i + 1;
      }
    }

    /** The number of the line at height `y0`, or of the line past the end if the document is lower. */
    method LineAtHeight(y0: int) returns (no: nat)
      requires Valid(true)
      ensures LineAt(Rows(true), y0, no)
    {
      hide Flatten, HeightSum, BoundedBut, Ok, InvBut;
      RootLinks(St(true));
      var chunk, y := root, y0;
      no := 0;
      LeadsFromTop(Rows(true), y0);
      while ch[chunk].Branch?
        invariant chunk in info && chunk in ch && (ch[chunk].Leaf? ==> LeafOk(St(true), chunk, info[chunk].rows))
        invariant chunk != root ==> y < HeightSum(info[chunk].rows)
        invariant LeadsTo(Rows(true), y0, info[chunk].rows, y, no)
        decreases info[chunk].rank
      {
        var i, y', n := ScanHeights(chunk, y);
        if i == |ch[chunk].children| {
          SomeKid(St(true), chunk);
          BelowAll(Rows(true), y0, info[chunk].parts, y, y', n, no);
          no := no + n;
          return;
        }
        KidOf(St(true), chunk, i);
        LeadsIn(Rows(true), y0, info[chunk].parts, i, y, y', n, no);
        no := no + n;
        chunk, y := ch[chunk].children[i], y';
      }
      var lines := ch[chunk].lines;
      ghost var rows := info[chunk].rows;
      ghost var y1 := y;
      var i := 0;
      NoHeight();
      while i < |lines|
        invariant i <= |rows| && HeightSum(rows[..i]) + y == y1 && (i > 0 ==> y >= 0)
      {
        var height := ln[lines[i]].height;
        if y < height {
          break;
        }
        SnocHeight(rows, i);
        y := y - height;
        i := i + 1;
      }
      Arrive(Rows(true), y0, rows, y1, no, i);
      no := no + i;
    }

    /** Visits `n` lines of `c` from position `at` on, until `stop` says so; a branch may have fewer. */
    method IterN(c: Id, at: nat, n: nat, stop: Id -> bool, ghost h: bool) returns (seen: seq<Id>, stopped: bool)
      requires InvBut({}, St(h)) && c in info && c in ch && at <= |info[c].rows|
      requires ch[c].Leaf? ==> at + n <= |info[c].rows|
      ensures (seen, stopped) == Visit(LinesOf(info[c].rows[at..Min(at + n, |info[c].rows|)]), stop)
      decreases info[c].rank
    {
      hide Flatten, HeightSum, InvBut, Ok, Visit;
      if ch[c].Leaf? {
        LeafRows(St(h), c);
        seen, stopped := IterLines(ch[c].lines[at..at + n], stop);
        LinesOfSlice(info[c].rows, at, n);
      } else {
        SomeKid(St(h), c);
        ghost var rows, parts := info[c].rows, info[c].parts;
        FlattenNone(parts);
        var i: nat, at': nat, n': nat := 0, at, n;
        seen, stopped := [], false;
        VisitNone(stop);
        assert rows[at..at] == [] && LinesOf([]) == [];
        while i < |ch[c].children| && n' > 0
          invariant i <= |parts| && n' <= n && at + n - n' <= |rows|
          invariant n' > 0 ==> |Flatten(parts[..i])| + at' == at + n - n'
          invariant (seen, false) == Visit(LinesOf(rows[at..at + n - n']), stop) && !stopped
        {
          KidOf(St(h), c, i);
          var k := ch[c].children[i];
          KidSize(St(h), c, i);
          var size := ch[k].ChunkSize();
          if at' < size {
            var used := if n' < size - at' then n' else size - at';
            FlattenRemove(parts, i, at', used);
            var more;
            more, stopped := IterN(k, at', used, stop, h);
            VisitSlices(rows, at, at + n - n', used, stop);
            seen := seen + more;
            if stopped {
              VisitStopped(rows, at, at + n - n' + used, Min(at + n, |rows|), stop);
              return;
            }
            n' := n' - used;
            at' := 0;
          } else {
            at' := at' - size;
          }
          FlattenSnoc(parts, i);
          i := i + 1;
        }
        AllVisited(parts, i, at, n, n', at');
      }
    }

    method IterLines(ls: seq<Id>, stop: Id -> bool) returns (seen: seq<Id>, stopped: bool)
      ensures (seen, stopped) == Visit(ls, stop)
    {
      seen, stopped := [], false;
      VisitNone(stop);
      for i := 0 to |ls|
        invariant !stopped && (seen, false) == Visit(ls[..i], stop)
      {
        VisitNext(ls, i, stop);
        seen := seen + [ls[i]];
        if stop(ls[i]) {
          stopped := true;
          return;
        }
      }
      assert ls[..|ls|] == ls;
    }

    /** The number of `line`, found by climbing from its leaf as far as the references lead. */
    method LineNo(line: Id, ghost h: bool) returns (no: Option<nat>)
      requires Valid(h) && line in ln && (ln[line].parent == Null || Holds(Rows(h), line))
      ensures no.None? <==> ln[line].parent == Null
      ensures no.Some? ==> Home(St(h), line, ln[line].parent.id)
      ensures no.Some? ==>
        var leaf := ln[line].parent.id;
        var rows := if ch[leaf].parent.To? then Rows(h) else info[leaf].rows;
        no.value < |rows| && rows[no.value].line == line
      ensures no.Some? && AllTold(St(h)) ==> no.value < |Rows(h)| && Rows(h)[no.value].line == line
    {
      hide Flatten, HeightSum, InvBut;
      if ln[line].parent == Null {
        return None;
      }
      RootLinks(St(h));
      FindHome(St(h), root, line);
      var cur := ln[line].parent.id;
      var n: nat := IndexOf(ch[cur].lines, line);
      HomeRow(St(h), line, cur, n);
      var chunk := ch[cur].parent;
      ghost var leaf := cur;
      ChunkAbove(St(h), cur);
      while chunk.To?
        invariant cur in info && n < |info[cur].rows| && info[cur].rows[n].line == line
        invariant cur in ch && chunk == ch[cur].parent && (chunk.To? || cur == root || cur == leaf)
        invariant ch[leaf].parent == Null ==> cur == leaf
        decreases InvBut({}, St(h)), RankGap(St(h), cur)
      {
        n := Offset(cur, n, line, h);
        cur, chunk := chunk.id, ch[chunk.id].parent;
        ChunkAbove(St(h), cur);
      }
      no := Some(n);
    }

    /** Adds the sizes of the chunks left of `cur` in the branch above it. */
    method Offset(cur: Id, n0: nat, ghost line: Id, ghost h: bool) returns (n: nat)
      requires InvBut({}, St(h)) && cur in info && cur in ch && ch[cur].parent.To?
      requires n0 < |info[cur].rows| && info[cur].rows[n0].line == line
      ensures var p := ch[cur].parent.id;
        && p in info && p in ch && ch[p].Branch? && info[cur].rank < info[p].rank
        && n < |info[p].rows| && info[p].rows[n].line == line
    {
      hide Flatten, HeightSum;
      ChunkAbove(St(h), cur);
      UpFacts(St(h), cur);
      var p := ch[cur].parent.id;
      ghost var parts, place := info[p].parts, Place(ch[p].children, cur);
      KidSizes(St(h), p);
      FlattenNone(parts);
      n := n0;
      var i := 0;
      while ch[p].children[i] != cur
        invariant i <= place && n == n0 + |Flatten(parts[..i])|
        decreases place - i
      {
        FlattenPrefix(parts, i);
        n := n + ch[ch[p].children[i]].ChunkSize();
        i := i + 1;
      }
      assert Distinct(ch[p].children);
      FlattenAt(parts, i, n0);
    }

    /** Gives `line` another height and tells the chunks above it, as far as the references lead. */
    method UpdateLineHeight(line: Id, height: nat, ghost h: bool)
      requires Valid(h) && Holds(Rows(h), line)
      modifies this`ch, this`ln, this`info
      ensures line in old(ln) && ln == old(ln)[line := old(ln)[line].(height := height)]
      ensures Valid(false) && Rows(false) == Reheight(old(Rows(h)), line, height)
      ensures old(ln[line].parent.To? && Home(St(h), line, ln[line].parent.id))
      ensures h ==> (Valid(true) <==> old(ch[ln[line].parent.id].parent.To? || ln[line].height == height))
      ensures old(AllTold(St(h))) ==> AllTold(St(false)) && (h ==> Valid(true))
    {
      hide Resized, Chain, InvBut, Flatten, HeightSum, Untold;
      ghost var st, told := St(h), {};
      RootLinks(st);
      FindHome(st, root, line);
      var diff := height - ln[line].height;
      var n := ln[line].parent;
      ghost var leaf := n.id;
      ln := ln[line := ln[line].(height := height)];
      BeginTelling(st, line, leaf, height);
      while n.To?
        invariant ch == Resized(st, line, height, told, h).ch && StillToTell(st, leaf, told, n)
        invariant ln == st.ln[line := st.ln[line].(height := height)] && info == st.info
        decreases n.To?, if n.To? && InvBut({}, st) && n.id in st.info then RankGap(st, n.id) else 0
      {
        TellNext(st, leaf, told, n);
        ToldStep(st, line, height, told, h, n.id);
        ch := ch[n.id := ch[n.id].WithHeight(ch[n.id].height + diff)];
        told := told + {n.id};
        n := ch[n.id].parent;
      }
      info := Resized(st, line, height, told, h).info;
      ToldAll(st, line, leaf, height, told);
      ResizedFields(st, line, height, told, true);
      ResizedFields(st, line, height, told, false);
      ResizedTold(st, line, height, told);
      LeafTold(st, leaf);
    }

    /** One round of spilling below the root: the last five children go to a new right neighbour. */
    method SpillRight(me: Id, ghost h: bool) returns (ghost x: Cut)
      requires InvBut({}, St(h)) && FreshChunks()
      requires me in info && me != root && ch[me].Branch? && |ch[me].children| > 5
      modifies this`ch, this`nextChunk, this`info
      ensures CanSplit(old(St(h)), x) && St(h) == SplitRight(old(St(h)), x) && FreshChunks()
      ensures x.me == me && x.n == |old(ch)[me].children| - 5 && x.sib == old(nextChunk) && nextChunk == x.sib + 1
    {
      hide Flatten, HeightSum, InvBut, SplitRight;
      ghost var st := St(h);
      BranchLinks(st, me);
      var n := |ch[me].children| - 5;
      var sibling := Shed(me, n, info[me].parts, h);
      ch := ch[me := ch[me].(size := ch[me].size - ch[sibling].size, height := ch[me].height - ch[sibling].height)];
      var p := ch[me].parent.id;
      var k := IndexOf(ch[p].children, me);
      ch := ch[p := ch[p].(children := ch[p].children[..k + 1] + [sibling] + ch[p].children[k + 1..])];
      ch := ch[sibling := ch[sibling].Below(ch[me].parent)];
      x := Cut(me, p, k, n, sibling, ch[me].height, ch[sibling].height);
      SplitFields(st, x);
      info := SplitRight(st, x).info;
    }

    /** The first round of spilling at the root: the root stays the root, its children move to two
        new branches below it. */
    method SpillRoot(ghost h: bool) returns (copy: Id, ghost hc: int, ghost x: Cut)
      requires InvBut({}, St(h)) && FreshChunks() && root in ch && ch[root].Branch? && |ch[root].children| > 5
      modifies this`ch, this`nextChunk, this`info
      ensures CanWrap(old(St(h)), copy, hc) && CanSplit(Wrap(old(St(h)), copy, hc), x)
      ensures St(h) == SplitRight(Wrap(old(St(h)), copy, hc), x) && FreshChunks()
      ensures x.me == copy && x.n == |old(ch)[root].children| - 5 && x.p == root
    {
      hide Flatten, HeightSum, InvBut, Under, Wrap, SplitRight;
      ghost var st := St(h);
      RootLinks(st);
      var n := |ch[root].children| - 5;
      var sibling;
      copy, sibling := TwoHalves(n, h);
      hc := ch[copy].height + ch[sibling].height;
      x := Cut(copy, root, 0, n, sibling, ch[copy].height, ch[sibling].height);
      RootHeights(info[root].parts, n);
      WrapThenSplit(st, copy, hc, x);
      SpillRootMap(st, copy, hc, x);
      info := SplitRight(Wrap(st, copy, hc), x).info;
      SplitWrapFields(st, copy, hc, x);
    }

    /** One round of spilling.  Returns the branch that holds the remaining children of `m` and its parent. */
    method SpillRound(m: Id, ghost h: bool) returns (m': Id, ghost p: Id)
      requires InvBut({}, St(h)) && FreshChunks() && m in info && ch[m].Branch? && |ch[m].children| > 10
      requires BoundedBut({m} + Above(St(h), m), St(h))
      modifies this`ch, this`nextChunk, this`info
      ensures InvBut({}, St(h)) && FreshChunks() && BoundedBut({m', p}, St(h))
      ensures m' != root && IsKid(St(h), m', p) && SameRows(old(St(h)), St(h))
      ensures ch[m'].Branch? && |ch[m'].children| == |old(ch)[m].children| - 5
      ensures if m == root then p == root && |ch[p].children| == 2 else
        && m' == m && To(p) == old(info)[m].up && RankGap(St(h), m) == old(RankGap(St(h), m))
        && p in old(ch) && old(ch)[p].Branch? && |ch[p].children| == |old(ch)[p].children| + 1
    {
      hide Flatten, HeightSum, InvBut, SplitRight, Wrap, CanWrap, BoundedBut, Ok, SameRows;
      ghost var x;
      ghost var st := St(h);
      if m == root {
        RootLinks(st);
        assert {m} + Above(st, m) == {root};
        ghost var hc;
        m', hc, x := SpillRoot(h);
        p := root;
        WrapOk(st, m', hc);
        WrapEffect(st, m', hc);
        SplitEffect(Wrap(st, m', hc), x, {m'});
        SameRowsTrans(st, Wrap(st, m', hc), St(h));
        assert {m'} + {m', p} == {m', p};
      } else {
        m' := m;
        x := SpillRight(m, h);
        p := x.p;
        SplitEffect(st, x, {m} + Above(st, m));
        assert {m} + Above(st, m) + {m, p} == {m, p};
      }
    }

    /** Splits `me` until it has at most 10 children, then goes on with its parent. */
    method MaybeSpill(me: Id, ghost h: bool)
      requires InvBut({}, St(h)) && FreshChunks() && me in info && ch[me].Branch? && BoundedBut({me}, St(h))
      modifies this`ch, this`nextChunk, this`info
      ensures InvBut({}, St(h)) && FreshChunks() && BoundedBut({}, St(h)) && SameRows(old(St(h)), St(h))
      decreases RankGap(St(h), me), |ch[me].children|
    {
      hide Flatten, HeightSum, Ok, InvBut, RankGap, BoundedBut, SameRows;
      ghost var st := St(h);
      RootLinks(st);
      SameRowsSelf(st);
      assert {me} - {me} == {};
      if |ch[me].children| <= 10 {
        BoundedNow(St(h), {me}, me);
        return;
      }
      BoundedMore(St(h), {me}, Above(St(h), me));
      var m;
      ghost var p;
      m, p := SpillRound(me, h);
      while |ch[m].children| > 10
        invariant InvBut({}, St(h)) && FreshChunks() && BoundedBut({m, p}, St(h))
        invariant m != root && IsKid(St(h), m, p) && ch[m].Branch? && SameRows(st, St(h))
        invariant if me == root
          then p == root && |ch[m].children| > 5 &&
            |ch[m].children| + 5 * (|ch[root].children| - 1) == |old(ch)[me].children|
          else m == me && RankGap(St(h), m) == old(RankGap(St(h), me))
        decreases |ch[m].children|
      {
        assert {m, p} == {m} + Above(St(h), m);
        ghost var mid := St(h);
        m, p := SpillRound(m, h);
        SameRowsTrans(st, mid, St(h));
      }
      BoundedNow(St(h), {m, p}, m);
      BoundedMore(St(h), {m, p} - {m}, {p});
      assert {m, p} - {m} + {p} == {p};
      KidBranch(St(h), m, p);
      ghost var last := St(h);
      MaybeSpill(ch[m].parent.id, h);
      SameRowsTrans(st, last, St(h));
    }

    method TwoHalves(n: nat, ghost h: bool) returns (copy: Id, sibling: Id)
      requires FreshChunks() && root in ch && root in info && Ok(St(h), root) && ch[root].Branch?
      requires n <= |ch[root].children|
      requires KidsSized(St(h), root)
      modifies this`ch, this`nextChunk
      ensures FreshChunks() && copy !in old(ch) && sibling !in old(ch) && copy != sibling && copy in ch && sibling in ch
      ensures h ==> ch[copy].height == HeightSum(Flatten(info[root].parts[..n]))
      ensures h ==> ch[sibling].height == HeightSum(Flatten(info[root].parts[n..]))
      ensures var kids, parts := old(ch)[root].children, info[root].parts;
        ch == Under(Under(old(ch), kids[n..], To(sibling)), kids[..n], To(copy))
          [copy := Branch(kids[..n], |Flatten(parts[..n])|, To(root), ch[copy].height)]
          [root := old(ch)[root].(children := [copy, sibling])]
          [sibling := Branch(kids[n..], |Flatten(parts[n..])|, To(root), ch[sibling].height)]
    {
      hide Flatten, HeightSum;
      ghost var parts := info[root].parts;
      sibling := Shed(root, n, parts, h);
      copy := NewBranch(ch[root].children, parts[..n], h);
      ch := ch[copy := ch[copy].Below(To(root))];
      ch := ch[root := ch[root].(children := [copy, sibling])];
      ch := ch[sibling := ch[sibling].Below(ch[copy].parent)];
    }
  }

  lemma InitialOk(st: State)
    requires st == State(
      map[0 := Leaf([0], To(1), 1), 1 := Branch([0], 1, Null, 1)],
      map[0 := Line("", [Fragment("", Plain)], 1, To(0))],
      map[0 := Info(To(1), 0, [Row(0, 1)], []), 1 := Info(Null, 1, [Row(0, 1)], [[Row(0, 1)]])],
      1, true)
    ensures InvBut({}, st) && BoundedBut({}, st)
  {
    var rows := [Row(0, 1)];
    assert Flatten([rows]) == rows && HeightSum(rows) == 1 && LinesOf(rows) == [0];
    assert Ok(st, 0);
    assert ChildOk(st, 1, 0);
    assert Ok(st, 1);
  }

  /** Lines may get other texts, and new lines may be made, without any chunk noticing. */
  lemma OtherLines(broken: set<Id>, st: State, ln: map<Id, Line>)
    requires InvBut(broken, st) && st.ln.Keys <= ln.Keys
    requires forall l :: l in st.ln ==> ln[l].parent == st.ln[l].parent && ln[l].height == st.ln[l].height
    ensures InvBut(broken, st.(ln := ln))
  {
    hide Flatten, HeightSum;
    var st' := st.(ln := ln);
    forall c | c in st'.info ensures Linked(st', c) && (c !in broken ==> Ok(st', c)) {
      assert Linked(st, c);
      if c !in broken {
        assert Ok(st, c);
        if st.ch[c].Branch? {
          forall i | 0 <= i < |st.ch[c].children| ensures ChildOk(st', c, i) { assert ChildOk(st, c, i); }
        }
      }
    }
  }

  lemma HomeRow(st: State, l: Id, leaf: Id, n: nat)
    requires Home(st, l, leaf) && n < |st.ch[leaf].lines| && st.ch[leaf].lines[n] == l
    ensures n < |st.info[leaf].rows| && st.info[leaf].rows[n].line == l
  {
  }

  /** The chunks in `told` know the new height of a line of `leaf`; `n` is the next one to be told. */
  ghost predicate StillToTell(st: State, leaf: Id, told: set<Id>, n: Ref) {
    && InvBut({}, st) && leaf in st.info && leaf in st.ch && st.ch[leaf].Leaf?
    && if n.To? then
         && n.id in st.info && n.id in st.ch && n.id !in told && Chain(st, leaf) == told + Chain(st, n.id)
         && (forall t :: t in told ==> t in st.info && st.info[t].rank < st.info[n.id].rank)
         && (if n.id == leaf then told == {} else st.ch[n.id].Branch? && st.ch[leaf].parent.To?)
       else told == if st.ch[leaf].parent.To? then Chain(st, leaf) else {leaf}
  }

  /** New heights do not matter for what a leaf knows. */
  lemma ResizedTold(st: State, l: Id, height: nat, told: set<Id>)
    requires l in st.ln
    ensures AllTold(st) ==> AllTold(Resized(st, l, height, told, false))
  {
    forall c | c in st.info && Untold(Resized(st, l, height, told, false), c) ensures Untold(st, c) { }
  }

  lemma LeafTold(st: State, leaf: Id)
    requires leaf in st.info && leaf in st.ch && st.ch[leaf].Leaf?
    ensures AllTold(st) ==> st.ch[leaf].parent.To?
  {
    assert AllTold(st) ==> !Untold(st, leaf);
  }

  lemma BeginTelling(st: State, l: Id, leaf: Id, height: nat)
    requires InvBut({}, st) && Home(st, l, leaf)
    ensures StillToTell(st, leaf, {}, To(leaf)) && Resized(st, l, height, {}, st.h).ch == st.ch
  {
    ToldNone(st, l, height, st.h);
  }

  lemma TellNext(st: State, leaf: Id, told: set<Id>, n: Ref)
    requires StillToTell(st, leaf, told, n) && n.To?
    ensures StillToTell(st, leaf, told + {n.id}, st.ch[n.id].parent)
    ensures st.ch[n.id].parent.To? ==> RankGap(st, st.ch[n.id].parent.id) < RankGap(st, n.id)
  {
    hide Chain;
    var c := n.id;
    ChunkAbove(st, c);
    if c != st.root { UpFacts(st, c); }
    if st.ch[c].parent.To? {
      var p := st.ch[c].parent.id;
      assert p !in told + {c};
      assert told + Chain(st, c) == told + {c} + Chain(st, p);
      assert p != leaf;
    }
  }

  lemma ToldAll(st: State, l: Id, leaf: Id, height: nat, told: set<Id>)
    requires Home(st, l, leaf) && StillToTell(st, leaf, told, Null) && BoundedBut({}, st)
    requires st.root in st.info && Holds(st.info[st.root].rows, l)
    ensures var st' := Resized(st, l, height, told, false); InvBut({}, st') && BoundedBut({}, st')
    ensures st.h ==>
      (InvBut({}, Resized(st, l, height, told, true)) <==> st.ch[leaf].parent.To? || st.ln[l].height == height)
  {
    hide Chain, Ok, Linked;
    ResizedInv(st, l, height, told, false);
    if st.h {
      if st.ch[leaf].parent.To? {
        HoldersUp(st, leaf, l);
        forall c | c in st.info && Holds(st.info[c].rows, l) ensures c in told { HoldersDown(st, leaf, l, c); }
        ResizedInv(st, l, height, told, true);
      } else if st.ln[l].height != height {
        assert leaf != st.root by { RootLinks(st); assert Linked(st, st.root); }
        RootUntold(st, l, height, told);
      } else {
        ResizedInv(st, l, height, told, true);
      }
    }
  }

  lemma SplitWrapFields(st: State, copy: Id, hc: int, x: Cut)
    requires CanWrap(st, copy, hc) && CanSplit(Wrap(st, copy, hc), x)
    ensures var st' := SplitRight(Wrap(st, copy, hc), x); st'.ln == st.ln && st'.root == st.root && st'.h == st.h
  {
  }

  /** Lines may have moved to other leaves, but nothing else about them has changed. */
  ghost predicate SameText(a: map<Id, Line>, b: map<Id, Line>) {
    a.Keys == b.Keys && forall l :: l in a ==> b[l] == a[l].(parent := b[l].parent)
  }

  /** Lines that belong to no leaf still belong to none. */
  ghost predicate StayLoose(a: map<Id, Line>, b: map<Id, Line>) {
    forall l :: l in a && l in b && a[l].parent == Null ==> b[l].parent == Null
  }

  lemma LinesUnderText(ln: map<Id, Line>, ls: seq<Id>, p: Ref)
    ensures SameText(ln, LinesUnder(ln, ls, p))
  {
  }

  ghost predicate Measured(rows: seq<Row>, ln: map<Id, Line>) {
    forall i :: 0 <= i < |rows| ==> rows[i].line in ln && ln[rows[i].line].height == rows[i].height
  }

  lemma LeafLinks(st: State, me: Id, p: Id)
    requires InvBut({}, st) && IsKid(st, me, p) && st.ch[me].Leaf?
    ensures Ok(st, me) && Ok(st, p) && me != st.root && st.root in st.info && st.info.Keys <= st.ch.Keys
    ensures st.info[me].rank <= st.info[st.root].rank && p in st.info
  {
    assert Ok(st, me) && Ok(st, p) && Linked(st, me) && Linked(st, st.root);
  }

  lemma LeafTail(st: State, me: Id, n: nat)
    requires Ok(st, me) && st.ch[me].Leaf? && n <= |st.ch[me].lines|
    ensures n <= |st.info[me].rows|
    ensures st.ch[me].lines[n..] == LinesOf(st.info[me].rows[n..]) && Measured(st.info[me].rows[n..], st.ln)
  {
  }

  lemma CutEffect(st: State, x: Cut, except: set<Id>)
    requires CanCut(st, x) && InvBut({}, st) && BoundedBut(except, st) && {x.me, x.p} <= except
    requires x.n == |st.ch[x.me].lines| - 25
    ensures var st' := CutLeaf(st, x);
      && InvBut({}, st') && BoundedBut(except, st') && SameRows(st, st') && IsKid(st', x.me, x.p)
      && st'.ch[x.me].Leaf? && |st'.ch[x.me].lines| == x.n
      && x.k < |st'.ch[x.p].children| && st'.ch[x.p].children[x.k] == x.me
  {
    hide Flatten, HeightSum, Ok, Linked;
    CutLeafOk(st, x);
  }

  lemma LeafBoundedNow(st: State, except: set<Id>, c: Id)
    requires BoundedBut(except, st) && c in st.ch && st.ch[c].Leaf? && |st.ch[c].lines| <= 50
    ensures BoundedBut(except - {c}, st)
  {
  }

  lemma NotPastEnd<T>(parts: seq<seq<T>>, i: nat)
    requires i <= |parts| && |Flatten(parts[..i])| < |Flatten(parts)|
    ensures i < |parts|
  {
    assert parts[..|parts|] == parts;
  }

  lemma LooseIn(more: seq<Row>, ln: map<Id, Line>)
    requires Loose(more, ln)
    ensures forall l :: l in LinesOf(more) ==> l in ln
  {
    assert forall i :: 0 <= i < |more| ==> LinesOf(more)[i] == more[i].line && more[i].line in ln;
  }

  lemma StepEffect(st: State, c: Id, r: seq<Row>, i: nat, at: nat, more: seq<Row>, hh: int)
    requires InvBut({c}, st) && CanStep(st, c, r, i, at, more, hh) && BoundedBut({}, st)
    ensures var st', k := StepDown(st, c, i, at, more, hh), st.ch[c].children[i];
      && InvBut({k}, st') && Stale(st', k, st.info[c].parts[i], at, more) && st'.info[k].rank < st.info[c].rank
      && k in st'.ch && SameRows(st, st') && BoundedBut({}, st') && IsKid(st', k, c) && k != c
  {
    hide Flatten, HeightSum, Stale, Ok;
    StepDownOk(st, c, r, i, at, more, hh);
    KidOfStale(st, c, r, i, |Flatten(st.info[c].parts[..i])| + at, more);
    assert Linked(st, st.root) && Linked(st, st.ch[c].children[i]);
  }

  lemma FillEffect(st: State, k: Id, c: Id, i: nat, r: seq<Row>, at: nat, more: seq<Row>, hh: int)
    requires InvBut({k}, st) && Stale(st, k, r, at, more) && k in st.ch && st.ch[k].Leaf? && IsKid(st, k, c) && k != c
    requires Loose(more, st.ln) && (st.h ==> hh == HeightSum(more)) && BoundedBut({}, st)
    ensures at <= |st.ch[k].lines|
    ensures var st' := FillLeaf(st, k, at, more, hh);
      && InvBut({}, st') && SameRows(st, st') && BoundedBut({k}, st') && IsKid(st', k, c) && st'.ch[c] == st.ch[c]
  {
    hide Flatten, HeightSum, Stale, Ok;
    FillLeafOk(st, k, r, at, more, hh);
  }

  /** The children of a branch that waits for more lines are consistent. */
  lemma StaleKids(st: State, c: Id, r: seq<Row>, at: nat, more: seq<Row>)
    requires InvBut({c}, st) && Stale(st, c, r, at, more) && c in st.ch && st.ch[c].Branch?
    ensures |st.ch[c].children| == |st.info[c].parts| > 0 && r == Flatten(st.info[c].parts)
    ensures KidsSized(st, c) && forall k :: k in st.ch[c].children ==> k in st.info && k in st.ch
  {
    hide HeightSum, Flatten;
    forall i | 0 <= i < |st.ch[c].children|
      ensures var k := st.ch[c].children[i];
        && k in st.info && k in st.ch && k != c
        && st.ch[k].ChunkSize() == |st.info[c].parts[i]| && (st.h ==> st.ch[k].height == HeightSum(st.info[c].parts[i]))
    {
      KidOfStale(st, c, r, i, at, more);
      assert Ok(st, st.ch[c].children[i]);
    }
  }

  /** A branch agrees with its children. */
  ghost predicate KidsOk(st: State, c: Id) {
    && c in st.ch && c in st.info && st.ch[c].Branch? && |st.info[c].parts| == |st.ch[c].children|
    && st.info[c].rows == Flatten(st.info[c].parts)
    && forall i :: 0 <= i < |st.ch[c].children| ==> ChildOk(st, c, i)
  }

  lemma FlattenNone<T>(parts: seq<seq<T>>)
    ensures Flatten(parts[..0]) == []
  {
  }

  lemma LinesOfConcat(a: seq<Row>, b: seq<Row>)
    ensures LinesOf(a + b) == LinesOf(a) + LinesOf(b)
  {
  }

  lemma LeafBelow(broken: set<Id>, st: State, c: Id)
    requires InvBut(broken, st) && c in st.info && Ok(st, c) && st.ch[c].Leaf?
    ensures Below(st, c, {c}) && HeldBy(st.info[c].rows, st.ln, {c})
    ensures st.ch[c].lines == LinesOf(st.info[c].rows)
  {
    forall x | x in st.info ensures st.info[x].up != To(c) { assert Linked(st, x); }
  }

  /** `kids` is everything in and below the first `n` children of `c`. */
  ghost predicate BelowKids(st: State, c: Id, n: nat, kids: set<Id>) {
    && c in st.ch && c in st.info && st.ch[c].Branch? && n <= |st.ch[c].children| && kids <= st.info.Keys
    && (forall j :: 0 <= j < n ==> st.ch[c].children[j] in kids)
    && (forall x :: x in kids ==> st.info[x].rank < st.info[c].rank)
    && (forall x :: x in kids ==> st.info[x].up.To? && (st.info[x].up.id == c || st.info[x].up.id in kids))
    && (forall x :: x in st.info && st.info[x].up.To? && st.info[x].up.id in kids ==> x in kids)
  }

  lemma KidReady(broken: set<Id>, st: State, c: Id, i: nat)
    requires InvBut(broken, st) && KidsOk(st, c) && i < |st.ch[c].children|
    requires forall b :: b in broken ==> b in st.info && st.info[b].rank >= st.info[c].rank
    ensures var k := st.ch[c].children[i];
      && k in st.info && k in st.ch && st.info[k].rank < st.info[c].rank && st.info[k].rows == st.info[c].parts[i]
      && st.info[k].up == To(c) && Ok(st, k) && (st.ch[k].Branch? ==> KidsOk(st, k))
  {
    assert ChildOk(st, c, i);
    assert Ok(st, st.ch[c].children[i]);
  }

  lemma GrowBelow(st: State, c: Id, i: nat, kids: set<Id>, more: set<Id>)
    requires BelowKids(st, c, i, kids) && i < |st.ch[c].children|
    requires var k := st.ch[c].children[i];
      k in st.info && st.info[k].up == To(c) && st.info[k].rank < st.info[c].rank && Below(st, k, more)
      && forall x :: x in more && x != k ==> st.info[x].rank < st.info[k].rank
    ensures BelowKids(st, c, i + 1, kids + more)
  {
  }

  lemma NoneBelow(st: State, c: Id)
    requires c in st.ch && c in st.info && st.ch[c].Branch?
    ensures BelowKids(st, c, 0, {}) && HeldBy([], st.ln, {})
  {
  }

  lemma HeldMore(a: seq<Row>, b: seq<Row>, ln: map<Id, Line>, kids: set<Id>, more: set<Id>)
    requires HeldBy(a, ln, kids) && HeldBy(b, ln, more)
    ensures HeldBy(a + b, ln, kids + more)
  {
  }

  lemma AllBelow(broken: set<Id>, st: State, c: Id, kids: set<Id>)
    requires InvBut(broken, st) && c in st.ch && st.ch[c].Branch? && BelowKids(st, c, |st.ch[c].children|, kids)
    ensures Below(st, c, kids + {c}) && forall x :: x in kids ==> st.info[x].rank < st.info[c].rank
  {
    forall x | x in st.info && st.info[x].up == To(c) ensures x in kids { assert Linked(st, x); }
  }

  ghost predicate CanRemove(st: State, c: Id, path: set<Id>) {
    && InvBut(path, st) && c in st.info && c !in path && c in st.ch
    && (c != st.root ==> st.info[c].up.To? && st.info[c].up.id in path)
    && (forall p :: p in path ==> p in st.info && st.info[p].rank > st.info[c].rank)
  }

  /** `c` has lost `n` rows; a small branch then has a single leaf. */
  ghost predicate Thinned(st: State, st': State, c: Id, at: nat, n: nat) {
    && c in st.info && c in st'.info && c in st.ch && c in st'.ch && at + n <= |st.info[c].rows|
    && st'.info[c].rows == Removed(st.info[c].rows, at, n)
    && st'.info[c].up == st.info[c].up && st'.info[c].rank == st.info[c].rank
    && st'.ch[c].parent == st.ch[c].parent && st'.ch[c].Leaf? == st.ch[c].Leaf?
    && (st'.ch[c].Branch? && |st'.info[c].rows| < 25 ==>
          |st'.ch[c].children| == 1 && st'.ch[c].children[0] in st'.ch && st'.ch[st'.ch[c].children[0]].Leaf?)
  }

  ghost predicate HangsFrom(st: State, x: Id, path: set<Id>) {
    x in st.info && st.info[x].up.To? && st.info[x].up.id in path
  }

  /** The branches above `c` and their other children are as before. */
  ghost predicate KeptAround(st: State, st': State, c: Id, path: set<Id>) {
    forall x :: x in st.info && x in st.ch && x != c && (x in path || HangsFrom(st, x, path)) ==>
      x in st'.info && x in st'.ch && st'.info[x] == st.info[x] && st'.ch[x] == st.ch[x]
  }

  lemma CutRows(st: State, c: Id, at: nat, n: nat)
    requires Ok(st, c) && st.ch[c].Leaf? && at + n <= |st.info[c].rows|
    ensures |st.ch[c].lines| == |st.info[c].rows|
    ensures st.ch[c].lines[at..at + n] == LinesOf(st.info[c].rows[at..at + n])
    ensures Measured(st.info[c].rows[at..at + n], st.ln)
    ensures forall l :: l in st.ch[c].lines[at..at + n] ==> l in st.ln
  {
    assert forall i :: at <= i < at + n ==> st.ch[c].lines[i] == st.info[c].rows[i].line;
  }

  /** While lines are being removed below `c`: the branches in `path` above it wait, too. */
  ghost predicate Halfway(st: State, c: Id, path: set<Id>, n: int) {
    && InvBut(path + {c}, st) && HalfOk(st, c, n) && c in st.info && c in st.ch && st.ch[c].Branch?
    && c !in path && st.info[c].rank > 0
    && (c != st.root ==> st.info[c].up.To? && st.info[c].up.id in path)
    && (forall p :: p in path ==> p in st.info && st.info[p].rank > st.info[c].rank)
  }

  ghost predicate SameTop(st: State, st': State, c: Id) {
    && c in st.info && c in st'.info && c in st.ch && c in st'.ch
    && st'.info[c].up == st.info[c].up && st'.info[c].rank == st.info[c].rank
    && st'.ch[c].parent == st.ch[c].parent && st'.ch[c].Leaf? == st.ch[c].Leaf?
  }

  /** Everything around `c` is as before, and so are all texts. */
  ghost predicate Around(st: State, st': State, c: Id, path: set<Id>) {
    SameTop(st, st', c) && KeptAround(st, st', c, path) && SameText(st.ln, st'.ln) && StayLoose(st.ln, st'.ln)
  }

  lemma AroundTrans(st: State, mid: State, st': State, c: Id, path: set<Id>)
    requires Around(st, mid, c, path) && Around(mid, st', c, path)
    ensures Around(st, st', c, path)
  {
  }

  lemma WholeAgain(path: set<Id>, st: State, c: Id)
    requires Halfway(st, c, path, 0) && st.ch[c].size > 0
    ensures InvBut(path, st)
  {
    assert |st.ch[c].children| > 0;
    assert Ok(st, c);
  }

  lemma KidCanRemove(st: State, c: Id, i: nat, path: set<Id>, n: int)
    requires Halfway(st, c, path, n) && i < |st.ch[c].children|
    ensures var k := st.ch[c].children[i];
      && CanRemove(st, k, path + {c}) && st.info[k].rank < st.info[c].rank && Ok(st, k)
      && st.info[k].rows == st.info[c].parts[i] && st.ch[k].ChunkSize() == |st.info[c].parts[i]|
      && c in st.ch && st.ch[c].Branch? && |st.ch[c].children| == |st.info[c].parts|
  {
    hide Flatten, HeightSum;
    assert ChildOk(st, c, i);
    assert Ok(st, st.ch[c].children[i]) && Linked(st, st.root);
  }

  /** The i-th child of `c` has lost `m` lines, as the branch `c` does not know yet. */
  ghost predicate KidThinned(st: State, st1: State, c: Id, i: nat, at: nat, m: nat, n: int, path: set<Id>) {
    && Halfway(st, c, path, n) && i < |st.ch[c].children| && at + m <= |st.info[c].parts[i]|
    && InvBut(path + {c}, st1) && st1.h == st.h && st1.root == st.root
    && var k := st.ch[c].children[i];
    && Thinned(st, st1, k, at, m) && Around(st, st1, k, path + {c})
  }

  lemma KidShrunk(st: State, st1: State, c: Id, i: nat, at: nat, m: nat, n: int, path: set<Id>)
    requires KidThinned(st, st1, c, i, at, m, n, path)
    ensures Shrunk(st, st1, c, i, at, m, n)
    ensures st1.ch[c].Branch?
    ensures var k := st.ch[c].children[i];
      k in st.ch && k in st1.ch &&
        (st.h ==> st.ch[k].height - st1.ch[k].height == HeightSum(st.info[c].parts[i][at..at + m]))
  {
    hide Flatten, HeightSum;
    var k := st.ch[c].children[i];
    AllHalfKids(st, c, n);
    assert ChildOk(st, c, i);
    assert k in st.ch[c].children;
    forall x | x in st.ch[c].children ensures HangsFrom(st, x, path + {c}) { }
    assert Ok(st, k) && Ok(st1, k);
    HeightSumRemoved(st.info[k].rows, at, m);
  }

  lemma RenewAfter(st: State, st1: State, c: Id, i: nat, at: nat, m: nat, n: int, path: set<Id>)
    requires KidThinned(st, st1, c, i, at, m, n, path)
    ensures var k := st.ch[c].children[i];
      && k in st1.ch && k in st.ch && c in st1.ch && c in st1.info && st1.ch[c] == st.ch[c] && st1.info[c] == st.info[c]
      && k in st1.info
      && var st2 := Renew(st1, c, i, st.ch[k].height - st1.ch[k].height);
      && Halfway(st2, c, path, n - m) && Around(st, st2, c, path)
      && st2.info[c].parts == st.info[c].parts[i := Removed(st.info[c].parts[i], at, m)]
      && (BoundedBut({}, st1) ==> BoundedBut({}, st2))
  {
    hide Flatten, HeightSum, Ok, InvBut, ChildOk;
    var k := st.ch[c].children[i];
    KidShrunk(st, st1, c, i, at, m, n, path);
    var dh := st.ch[k].height - st1.ch[k].height;
    RenewOk(st, st1, c, i, at, m, n, dh);
    RenewInv(path + {c}, st1, c, i, dh);
    RenewKept(st, st1, c, i, dh, path, k, n);
  }

  lemma RenewKept(st: State, st1: State, c: Id, i: nat, dh: int, path: set<Id>, k: Id, n: int)
    requires Halfway(st, c, path, n) && i < |st.ch[c].children| && k == st.ch[c].children[i]
    requires KeptAround(st, st1, k, path + {c}) && c in st1.ch && c in st1.info && st1.ch[c] == st.ch[c] &&
      st1.info[c] == st.info[c]
    requires k in st1.info && st1.root == st.root
    ensures KeptAround(st, Renew(st1, c, i, dh), c, path)
    ensures forall p :: p in path ==> p in st1.info && st1.info[p].rank == st.info[p].rank
  {
    hide Flatten, HeightSum, Ok;
    assert ChildOk(st, c, i);
    forall x | x in st.info && x in st.ch && (x in path || HangsFrom(st, x, path))
      ensures x != k && (x in path + {c} || HangsFrom(st, x, path + {c})) { }
    forall p | p in path ensures p in st.ch { assert Linked(st, p); }
  }

  /** The i-th child of `c` is empty, and so is the one leaf it may still have. */
  ghost predicate EmptyKid(st: State, c: Id, i: nat, path: set<Id>, n: int) {
    && Halfway(st, c, path, n) && i < |st.ch[c].children| && st.info[c].parts[i] == []
    && var k := st.ch[c].children[i];
    && k in st.ch && (st.ch[k].Branch? ==>
        |st.ch[k].children| == 1 && st.ch[k].children[0] in st.ch && st.ch[st.ch[k].children[0]].Leaf?)
  }

  lemma EmptyCanDrop(st: State, c: Id, i: nat, path: set<Id>, n: int)
    requires EmptyKid(st, c, i, path, n)
    ensures CanDrop(st, c, i, n) && st.info[st.ch[c].children[i]].up == To(c)
    ensures forall x :: x in Dropped(st, st.ch[c].children[i]) ==> x in st.info && st.info[x].rank < st.info[c].rank
    ensures forall x :: x in Dropped(st, st.ch[c].children[i]) ==> x !in path && x != st.root && !HangsFrom(st, x, path)
  {
    hide Flatten, HeightSum;
    var k := st.ch[c].children[i];
    KidCanRemove(st, c, i, path, n);
    if st.ch[k].Branch? { AllKidFacts(st, k); }
    assert ChildOk(st, c, i) && Linked(st, st.root);
  }

  /** What a removed child leaves behind. */
  lemma DropAfter(st: State, c: Id, i: nat, path: set<Id>, n: int)
    requires EmptyKid(st, c, i, path, n)
    ensures CanDrop(st, c, i, n)
    ensures var st' := DropKid(st, c, i, n);
      && Halfway(st', c, path, n) && Around(st, st', c, path)
      && st'.info[c].parts == st.info[c].parts[..i] + st.info[c].parts[i + 1..]
      && (BoundedBut({}, st) ==> BoundedBut({}, st'))
  {
    hide Flatten, HeightSum, InvBut, ChildOk, Ok;
    EmptyCanDrop(st, c, i, path, n);
    DropSelf(st, c, i, n);
    DropKidOk(path + {c}, st, c, i, n);
  }

  lemma BeginHalf(st: State, c: Id, path: set<Id>, at: nat, n: nat)
    requires CanRemove(st, c, path) && st.ch[c].Branch? && at + n <= |st.info[c].rows| && BoundedBut({}, st)
    ensures var st' := st.(ch := st.ch[c := st.ch[c].(size := st.ch[c].size - n)]);
      && Halfway(st', c, path, n) && BoundedBut({}, st') && Around(st, st', c, path)
      && Pending(st', c, 0, at, n, st.info[c].rows, at, n)
  {
    hide Flatten, HeightSum;
    var st' := st.(ch := st.ch[c := st.ch[c].(size := st.ch[c].size - n)]);
    assert Ok(st, c);
    assert ChildOk(st, c, 0);
    FlattenNone(st.info[c].parts);
    forall i | 0 <= i < |st.ch[c].children| ensures ChildOk(st', c, i) { assert ChildOk(st, c, i); }
    SmallerInv(st, c, path, n);
  }

  lemma SmallerInv(st: State, c: Id, path: set<Id>, n: int)
    requires InvBut(path, st) && c in st.info && st.ch[c].Branch?
    ensures InvBut(path + {c}, st.(ch := st.ch[c := st.ch[c].(size := st.ch[c].size - n)]))
  {
    hide Flatten, HeightSum;
    var st' := st.(ch := st.ch[c := st.ch[c].(size := st.ch[c].size - n)]);
    forall x | x in st.info ensures Linked(st', x) && (x !in path + {c} ==> Ok(st', x)) {
      assert Linked(st, x);
      if x !in path + {c} {
        assert Ok(st, x);
        if st.ch[x].Branch? {
          forall i | 0 <= i < |st.ch[x].children| ensures ChildOk(st', x, i) { assert ChildOk(st, x, i); }
        }
      }
    }
  }

  /** From child `i` on, `n` rows starting `at` rows further are still to go of the `total` rows from `start` on
      that are to be removed from `all`. */
  ghost predicate Pending(st: State, c: Id, i: nat, at: nat, n: nat, all: seq<Row>, start: nat, total: nat) {
    && c in st.info && c in st.ch && st.ch[c].Branch? && i <= |st.ch[c].children| == |st.info[c].parts|
    && ToGo(st.info[c].parts, i, at, n, all, start, total) && st.info[c].rows == Flatten(st.info[c].parts)
  }

  ghost predicate ToGo<T>(parts: seq<seq<T>>, i: nat, at: nat, n: nat, all: seq<T>, start: nat, total: nat) {
    && i <= |parts| && |Flatten(parts[..i])| + at == start && n <= total && start + total <= |all|
    && Flatten(parts) == Removed(all, start, total - n)
  }

  lemma ToGoSkip<T>(parts: seq<seq<T>>, i: nat, at: nat, n: nat, all: seq<T>, start: nat, total: nat)
    requires ToGo(parts, i, at, n, all, start, total) && i < |parts| && at >= |parts[i]|
    ensures ToGo(parts, i + 1, at - |parts[i]|, n, all, start, total)
  {
    FlattenSnoc(parts, i);
  }

  lemma ToGoStep<T>(parts: seq<seq<T>>, i: nat, at: nat, m: nat, n: nat, all: seq<T>, start: nat, total: nat)
    requires ToGo(parts, i, at, n, all, start, total) && i < |parts| && at < |parts[i]|
    requires m <= n && at + m <= |parts[i]| && (m == n || at + m == |parts[i]|)
    ensures var parts', gone := parts[i := Removed(parts[i], at, m)], start + total - n;
      && parts[i][at..at + m] == all[gone..gone + m] && Flatten(parts') == Removed(all, start, total - n + m)
      && (m < n ==> ToGo(parts', i + 1, 0, n - m, all, start, total))
  {
    hide Flatten;
    var parts' := parts[i := Removed(parts[i], at, m)];
    FlattenRemove(parts, i, at, m);
    assert parts'[..i] == parts[..i];
    FlattenSnoc(parts', i);
    RemovedTwice(all, start, total - n, total - n + m);
    assert Removed(all, start, total - n)[start..start + m] == all[start + total - n..start + total - n + m];
  }

  lemma RemovedTwice<T>(s: seq<T>, at: nat, m: nat, n: nat)
    requires m <= n && at + n <= |s|
    ensures Removed(Removed(s, at, m), at, n - m) == Removed(s, at, n)
  {
  }

  lemma FlattenSnoc<T>(parts: seq<seq<T>>, i: nat)
    requires i < |parts|
    ensures Flatten(parts[..i + 1]) == Flatten(parts[..i]) + parts[i]
  {
    assert parts[..i + 1] == parts[..i] + [parts[i]];
    FlattenConcat(parts[..i], [parts[i]]);
    assert Flatten([parts[i]]) == parts[i];
  }

  lemma ToGoDrop<T>(parts: seq<seq<T>>, i: nat, n: nat, all: seq<T>, start: nat, total: nat)
    requires i < |parts| && parts[i] == []
    ensures Flatten(parts[..i] + parts[i + 1..]) == Flatten(parts)
    ensures ToGo(parts, i + 1, 0, n, all, start, total) ==>
      ToGo(parts[..i] + parts[i + 1..], i, 0, n, all, start, total)
  {
    hide Flatten;
    FlattenSplit(parts, i);
    FlattenConcat(parts[..i], parts[i + 1..]);
    FlattenSnoc(parts, i);
    assert (parts[..i] + parts[i + 1..])[..i] == parts[..i];
  }

  lemma PendingStep(st: State, c: Id, i: nat, at: nat, m: nat, n: nat, was: seq<seq<Row>>,
                    all: seq<Row>, start: nat, total: nat, gone: bool)
    requires HalfOk(st, c, n - m) && i < |was| && ToGo(was, i, at, n, all, start, total) && at < |was[i]|
    requires m == if n < |was[i]| - at then n else |was[i]| - at
    requires gone == (|was[i]| == m)
    requires st.info[c].parts == if gone then was[..i] + was[i + 1..] else was[i := Removed(was[i], at, m)]
    ensures was[i][at..at + m] == all[start + total - n..start + total - n + m]
    ensures if m == n then st.info[c].rows == Removed(all, start, total)
      else Pending(st, c, if gone then i else i + 1, 0, n - m, all, start, total)
  {
    hide Flatten, HeightSum;
    ToGoStep(was, i, at, m, n, all, start, total);
    if gone {
      var now := was[i := Removed(was[i], at, m)];
      ToGoDrop(now, i, n - m, all, start, total);
      assert now[..i] + now[i + 1..] == was[..i] + was[i + 1..];
    }
  }

  lemma PendingSkip(st: State, c: Id, i: nat, at: nat, n: nat, all: seq<Row>, start: nat, total: nat)
    requires Pending(st, c, i, at, n, all, start, total) && i < |st.ch[c].children| && at >= |st.info[c].parts[i]|
    ensures Pending(st, c, i + 1, at - |st.info[c].parts[i]|, n, all, start, total)
  {
    ToGoSkip(st.info[c].parts, i, at, n, all, start, total);
  }

  lemma PendingEnd(st: State, c: Id, i: nat, at: nat, n: nat, all: seq<Row>, start: nat, total: nat, done: bool)
    requires c in st.info && c in st.ch && st.ch[c].Branch? && start + total <= |all|
    requires if done then n == 0 && st.info[c].rows == Removed(all, start, total)
      else Pending(st, c, i, at, n, all, start, total)
    requires done || i >= |st.ch[c].children|
    ensures n == 0 && st.info[c].rows == Removed(all, start, total)
  {
    if !done { assert st.info[c].parts[..|st.info[c].parts|] == st.info[c].parts; }
  }

  /** Lines that belong to no leaf. */
  ghost predicate Freed(rows: seq<Row>, ln: map<Id, Line>) {
    forall i :: 0 <= i < |rows| ==> rows[i].line in ln && ln[rows[i].line].parent == Null
  }

  lemma NoneFreed(ln: map<Id, Line>)
    ensures Freed([], ln)
  {
  }

  lemma StillFreed(rows: seq<Row>, st: State, st': State, c: Id, path: set<Id>)
    requires Freed(rows, st.ln) && Around(st, st', c, path)
    ensures Freed(rows, st'.ln)
  {
  }

  lemma FreedMore(rows: seq<Row>, at: nat, m: nat, n: nat, st: State, st': State, c: Id, path: set<Id>)
    requires at + m + n <= |rows| && Around(st, st', c, path)
    requires Freed(rows[at..at + m], st.ln) && Freed(rows[at + m..at + m + n], st'.ln)
    ensures Freed(rows[at..at + m + n], st'.ln)
  {
    StillFreed(rows[at..at + m], st, st', c, path);
    hide Around;
    var ln := st'.ln;
    var r := rows[at..at + m + n];
    forall i | 0 <= i < |r| ensures r[i].line in ln && ln[r[i].line].parent == Null {
      assert r[i] == if i < m then rows[at..at + m][i] else rows[at + m..at + m + n][i - m];
    }
  }

  lemma TrimEffect(st: State, c: Id, path: set<Id>, at: nat, n: nat)
    requires CanRemove(st, c, path) && BoundedBut({}, st) && at + n <= |st.info[c].rows| && st.ch[c].Leaf?
    ensures Ok(st, c) && CanTrim(st, c, at, n)
    ensures var st' := TrimLeaf(st, c, at, n);
      && InvBut(path, st') && BoundedBut({}, st') && Thinned(st, st', c, at, n) && Around(st, st', c, path)
      && Freed(st.info[c].rows[at..at + n], st'.ln)
  {
    hide Flatten, HeightSum, LinesUnder;
    assert Ok(st, c) && Linked(st, c);
    TrimLeafOk(path, st, c, at, n);
    TrimAround(st, c, path, at, n);
    hide InvBut, Ok, Around;
  }

  lemma TrimAround(st: State, c: Id, path: set<Id>, at: nat, n: nat)
    requires CanTrim(st, c, at, n) && st.info.Keys <= st.ch.Keys
    ensures var st' := TrimLeaf(st, c, at, n);
      Around(st, st', c, path) && Freed(st.info[c].rows[at..at + n], st'.ln)
  {
    hide Flatten, HeightSum;
    var st', cut := TrimLeaf(st, c, at, n), st.info[c].rows[at..at + n];
    CutRows(st, c, at, n);
    forall i | 0 <= i < |cut| ensures cut[i].line in st'.ln && st'.ln[cut[i].line].parent == Null {
      assert LinesOf(cut)[i] == cut[i].line;
    }
  }

  lemma CollapseReady(st: State, c: Id, path: set<Id>)
    requires Halfway(st, c, path, 0)
    ensures KidsOk(st, c) && forall b :: b in path + {c} ==> b in st.info && st.info[b].rank >= st.info[c].rank
  {
  }

  lemma CanCollapseNow(st: State, c: Id, path: set<Id>, gone: set<Id>, leaf: Id)
    requires Halfway(st, c, path, 0) && Below(st, c, gone) && HeldBy(st.info[c].rows, st.ln, gone) && leaf !in st.ch
    requires forall x :: x in gone && x != c ==> st.info[x].rank < st.info[c].rank
    ensures CanCollapse(st, c, gone, leaf) && Measured(st.info[c].rows, st.ln) && path !! gone
  {
  }

  lemma HeldNotLoose(rows: seq<Row>, ln: map<Id, Line>, gone: set<Id>, p: Ref)
    requires HeldBy(rows, ln, gone)
    ensures StayLoose(ln, LinesUnder(ln, LinesOf(rows), p))
  {
  }

  lemma CollapseAround(st: State, c: Id, path: set<Id>, gone: set<Id>, leaf: Id)
    requires CanCollapse(st, c, gone, leaf) && path !! gone && c in st.ch
    ensures Around(st, Collapse(st, c, gone, leaf), c, path)
  {
    hide Flatten, HeightSum, Ok, Linked, ChildOk, HeldBy, LinesUnder, LinesOf, SameText, StayLoose;
    LinesUnderText(st.ln, LinesOf(st.info[c].rows), To(leaf));
    HeldNotLoose(st.info[c].rows, st.ln, gone, To(leaf));
    forall x | HangsFrom(st, x, path) && x != c ensures x !in gone {
      assert st.info[x].up.id !in gone;
    }
  }

  lemma CollapseEffect(st: State, c: Id, path: set<Id>, gone: set<Id>, leaf: Id)
    requires Halfway(st, c, path, 0) && CanCollapse(st, c, gone, leaf) && path !! gone && BoundedBut({}, st)
    requires st.ch[c].size < 25
    ensures var st' := Collapse(st, c, gone, leaf);
      InvBut(path, st') && Around(st, st', c, path) && BoundedBut({}, st')
  {
    hide Flatten, HeightSum, Ok, Linked, Around, InvBut;
    CollapseOk(path, st, c, gone, leaf);
    CollapseAround(st, c, path, gone, leaf);
  }

  lemma AllHalfKids(st: State, c: Id, n: int)
    requires HalfOk(st, c, n)
    ensures forall k :: k in st.ch[c].children ==>
      k in st.info && k in st.ch && st.info[k].up == To(c) && st.info[k].rank < st.info[c].rank
  {
    forall k | k in st.ch[c].children
      ensures k in st.info && k in st.ch && st.info[k].up == To(c) && st.info[k].rank < st.info[c].rank
    {
      var i :| 0 <= i < |st.ch[c].children| && st.ch[c].children[i] == k;
      assert ChildOk(st, c, i);
    }
  }

  lemma NoHeight()
    ensures HeightSum([]) == 0
  {
  }

  lemma OneHeight(r: Row)
    ensures HeightSum([r]) == r.height
  {
  }

  lemma WrapsRound<T>(parts: seq<seq<T>>, n: nat, n': nat)
    requires |Flatten(parts[..|parts|])| + n' == n && |Flatten(parts)| > 0
    ensures Wrapped(n', |Flatten(parts)|) == Wrapped(n, |Flatten(parts)|) && n' < n
  {
    hide Flatten;
    assert parts[..|parts|] == parts;
  }

  lemma AllPassed(st: State, c: Id, n: nat, n': nat)
    requires InvBut({}, st) && c in st.info && c in st.ch && st.ch[c].Branch?
    requires |Flatten(st.info[c].parts[..|st.info[c].parts|])| + n' == n
    ensures n >= |st.info[c].rows|
    ensures |st.info[c].rows| > 0 ==> Wrapped(n', |st.info[c].rows|) == Wrapped(n, |st.info[c].rows|) && n' < n
  {
    assert Ok(st, c);
    assert st.info[c].parts[..|st.info[c].parts|] == st.info[c].parts;
    if |st.info[c].rows| > 0 { WrapsRound(st.info[c].parts, n, n'); }
  }

  /** A child as its branch sees it. */
  lemma KidOf(st: State, c: Id, i: nat)
    requires InvBut({}, st) && c in st.info && c in st.ch && st.ch[c].Branch? && i < |st.ch[c].children|
    ensures |st.info[c].parts| == |st.ch[c].children| && st.info[c].rows == Flatten(st.info[c].parts)
    ensures var k := st.ch[c].children[i];
      && k in st.info && k in st.ch && k != st.root && st.info[k].rank < st.info[c].rank
      && st.info[k].rows == st.info[c].parts[i] && (st.ch[k].Leaf? ==> LeafOk(st, k, st.info[k].rows))
  {
    assert Ok(st, c);
    assert ChildOk(st, c, i);
    assert Ok(st, st.ch[c].children[i]) && Linked(st, st.root);
  }

  lemma PastAll(parts: seq<seq<Row>>, n: nat, n': nat)
    requires |Flatten(parts[..|parts|])| + n' == n
    ensures n >= |Flatten(parts)| && parts[..|parts|] == parts
    ensures Flatten(parts)[..Min(n, |Flatten(parts)|)] == Flatten(parts)
  {
    assert parts[..|parts|] == parts;
  }

  lemma HeightInside(parts: seq<seq<Row>>, i: nat, n: nat)
    requires i < |parts| && n <= |parts[i]|
    ensures |Flatten(parts[..i])| + n <= |Flatten(parts)|
    ensures HeightSum(Flatten(parts)[..|Flatten(parts[..i])| + n])
      == HeightSum(Flatten(parts[..i])) + HeightSum(parts[i][..n])
  {
    FlattenSplit(parts, i);
    assert Flatten(parts)[..|Flatten(parts[..i])| + n] == Flatten(parts[..i]) + parts[i][..n];
    HeightSumConcat(Flatten(parts[..i]), parts[i][..n]);
  }

  /** `no` is the number of the line that covers height `y`, or of the line past the end. */
  ghost predicate LineAt(rows: seq<Row>, y: int, no: nat) {
    && no <= |rows|
    && (y >= 0 ==> HeightSum(rows[..no]) <= y)
    && (no < |rows| ==> y < HeightSum(rows[..no + 1]))
    && (y < 0 ==> no == 0)
  }

  lemma PrefixHeights(rows: seq<Row>, i: nat, j: nat)
    requires i <= j <= |rows|
    ensures HeightSum(rows[..i]) <= HeightSum(rows[..j])
  {
    hide HeightSum;
    assert rows[..j] == rows[..i] + rows[i..j];
    HeightSumConcat(rows[..i], rows[i..j]);
  }

  /** At most one line is at a height, hidden lines or not. */
  lemma LineAtUnique(rows: seq<Row>, y: int, a: nat, b: nat)
    requires LineAt(rows, y, a) && LineAt(rows, y, b)
    ensures a == b
  {
    hide HeightSum;
    if a < b { PrefixHeights(rows, a + 1, b); }
    if b < a { PrefixHeights(rows, b + 1, a); }
  }

  /** To find height `y0` in `all` is to find height `y` in its part `rows` after `no` rows. */
  ghost predicate LeadsTo(all: seq<Row>, y0: int, rows: seq<Row>, y: int, no: nat) {
    && no + |rows| <= |all| && all[no..no + |rows|] == rows
    && y0 == HeightSum(all[..no]) + y && (no > 0 ==> y >= 0)
    && (no + |rows| < |all| ==> y < HeightSum(rows))
  }

  lemma SnocHeight(rows: seq<Row>, i: nat)
    requires i < |rows|
    ensures HeightSum(rows[..i + 1]) == HeightSum(rows[..i]) + rows[i].height
  {
    assert rows[..i + 1] == rows[..i] + [rows[i]];
    HeightSumConcat(rows[..i], [rows[i]]);
  }

  lemma Through(all: seq<Row>, rows: seq<Row>, no: nat, i: nat)
    requires no + |rows| <= |all| && all[no..no + |rows|] == rows && i <= |rows|
    ensures HeightSum(all[..no + i]) == HeightSum(all[..no]) + HeightSum(rows[..i])
  {
    assert all[..no + i] == all[..no] + rows[..i];
    HeightSumConcat(all[..no], rows[..i]);
  }

  lemma LeadsFromTop(all: seq<Row>, y: int)
    ensures LeadsTo(all, y, all, y, 0)
  {
  }

  lemma SomeKid(st: State, c: Id)
    requires InvBut({}, st) && c in st.info && c in st.ch && st.ch[c].Branch?
    ensures |st.info[c].parts| == |st.ch[c].children| > 0 && st.info[c].rows == Flatten(st.info[c].parts)
  {
    assert Ok(st, c);
  }

  lemma ArriveInside(all: seq<Row>, y0: int, rows: seq<Row>, y: int, no: nat, i: nat)
    requires LeadsTo(all, y0, rows, y, no) && i < |rows|
    requires i > 0 ==> HeightSum(rows[..i]) <= y
    requires y < HeightSum(rows[..i]) + rows[i].height
    ensures LineAt(all, y0, no + i)
  {
    NoHeight();
    hide HeightSum;
    assert rows[..0] == [] && all[..0] == [];
    Through(all, rows, no, i);
    Through(all, rows, no, i + 1);
    SnocHeight(rows, i);
  }

  lemma Arrive(all: seq<Row>, y0: int, rows: seq<Row>, y: int, no: nat, i: nat)
    requires LeadsTo(all, y0, rows, y, no) && i <= |rows| && y < HeightSum(rows)
    requires i > 0 ==> HeightSum(rows[..i]) <= y
    requires i < |rows| ==> y < HeightSum(rows[..i]) + rows[i].height
    ensures LineAt(all, y0, no + i)
  {
    if i < |rows| {
      ArriveInside(all, y0, rows, y, no, i);
    } else {
      assert rows[..|rows|] == rows;
    }
  }

  lemma BelowAll(all: seq<Row>, y0: int, parts: seq<seq<Row>>, y: int, y': int, n: nat, no: nat)
    requires LeadsTo(all, y0, Flatten(parts), y, no) && |parts| > 0 && y' >= 0
    requires HeightSum(Flatten(parts[..|parts|])) + y' == y && n == |Flatten(parts[..|parts|])|
    ensures LineAt(all, y0, no + n)
  {
    hide Flatten;
    assert parts[..|parts|] == parts;
    var rows := Flatten(parts);
    Through(all, rows, no, |rows|);
    assert rows[..|rows|] == rows;
  }

  lemma Slice(all: seq<Row>, no: nat, rows: seq<Row>, a: nat, b: nat)
    requires no + |rows| <= |all| && all[no..no + |rows|] == rows && a <= b <= |rows|
    ensures all[no + a..no + b] == rows[a..b]
  {
    var x, y := all[no + a..no + b], rows[a..b];
    forall i | 0 <= i < |x| ensures x[i] == y[i] {
      assert rows[a + i] == all[no..no + |rows|][a + i] == all[no + (a + i)];
    }
  }

  lemma LeadsIn(all: seq<Row>, y0: int, parts: seq<seq<Row>>, i: nat, y: int, y': int, n: nat, no: nat)
    requires LeadsTo(all, y0, Flatten(parts), y, no) && i < |parts|
    requires HeightSum(Flatten(parts[..i])) + y' == y && n == |Flatten(parts[..i])| && (i > 0 ==> y' >= 0)
    requires y' < HeightSum(parts[i])
    ensures LeadsTo(all, y0, parts[i], y', no + n)
  {
    FlattenNone(parts);
    hide Flatten, HeightSum;
    NoHeight();
    var rows, part := Flatten(parts), parts[i];
    FlattenSplit(parts, i);
    Through(all, rows, no, n);
    assert rows[..n] == Flatten(parts[..i]);
    assert rows[n..n + |part|] == part;
    Slice(all, no, rows, n, n + |part|);
    if i == 0 { assert parts[..0] == []; }
  }

  // ---------------------------------------------------------------- visiting

  /** The lines seen, up to the first one that stops the visit, and whether there is one. */
  function Visit(ls: seq<Id>, stop: Id -> bool): (seq<Id>, bool) {
    if |ls| == 0 then ([], false)
    else if stop(ls[0]) then ([ls[0]], true)
    else var (seen, stopped) := Visit(ls[1..], stop); ([ls[0]] + seen, stopped)
  }

  /** A visit that is never stopped sees everything in order. */
  lemma {:induction false} VisitAll(ls: seq<Id>, stop: Id -> bool)
    requires forall l :: l in ls ==> !stop(l)
    ensures Visit(ls, stop) == (ls, false)
  {
    if |ls| > 0 {
      assert ls == [ls[0]] + ls[1..];
      VisitAll(ls[1..], stop);
    }
  }

  /** A visit sees a prefix that ends with the first line that stops it. */
  lemma {:induction false} VisitFirst(ls: seq<Id>, stop: Id -> bool)
    ensures var (seen, stopped) := Visit(ls, stop);
      && seen <= ls && (stopped <==> exists l :: l in ls && stop(l))
      && (if stopped then |seen| > 0 && stop(seen[|seen| - 1]) else seen == ls)
      && forall i :: 0 <= i < |seen| - 1 ==> !stop(seen[i])
  {
    if |ls| > 0 && !stop(ls[0]) {
      VisitFirst(ls[1..], stop);
      var (seen, stopped) := Visit(ls[1..], stop);
      assert Visit(ls, stop) == ([ls[0]] + seen, stopped);
      assert forall l :: l in ls <==> l == ls[0] || l in ls[1..];
      assert ls == [ls[0]] + ls[1..];
    }
  }

  lemma VisitNone(stop: Id -> bool)
    ensures Visit([], stop) == ([], false)
  {
  }

  lemma {:induction false} VisitConcat(a: seq<Id>, b: seq<Id>, stop: Id -> bool)
    ensures Visit(a + b, stop) ==
      if Visit(a, stop).1 then Visit(a, stop) else (Visit(a, stop).0 + Visit(b, stop).0, Visit(b, stop).1)
  {
    if |a| == 0 {
      assert a + b == b && [] + Visit(b, stop).0 == Visit(b, stop).0;
    } else {
      assert (a + b)[1..] == a[1..] + b;
      VisitConcat(a[1..], b, stop);
      var (x, y) := (Visit(a[1..], stop).0, Visit(b, stop).0);
      assert [a[0]] + (x + y) == [a[0]] + x + y;
    }
  }

  lemma VisitNext(ls: seq<Id>, i: nat, stop: Id -> bool)
    requires i < |ls| && !Visit(ls[..i], stop).1
    ensures Visit(ls[..i + 1], stop) == (Visit(ls[..i], stop).0 + [ls[i]], stop(ls[i]))
    ensures stop(ls[i]) ==> Visit(ls, stop) == Visit(ls[..i + 1], stop)
  {
    hide Visit;
    assert ls[..i + 1] == ls[..i] + [ls[i]];
    assert ls == ls[..i + 1] + ls[i + 1..];
    VisitConcat(ls[..i], [ls[i]], stop);
    VisitConcat(ls[..i + 1], ls[i + 1..], stop);
    VisitOne(ls[i], stop);
  }

  lemma VisitOne(l: Id, stop: Id -> bool)
    ensures Visit([l], stop) == ([l], stop(l))
  {
    assert [l][1..] == [];
    VisitNone(stop);
    assert [l] + [] == [l];
  }

  lemma VisitSlices(rows: seq<Row>, at: nat, mid: nat, used: nat, stop: Id -> bool)
    requires at <= mid && mid + used <= |rows| && !Visit(LinesOf(rows[at..mid]), stop).1
    ensures Visit(LinesOf(rows[at..mid + used]), stop)
      == (Visit(LinesOf(rows[at..mid]), stop).0 + Visit(LinesOf(rows[mid..mid + used]), stop).0,
          Visit(LinesOf(rows[mid..mid + used]), stop).1)
  {
    assert rows[at..mid + used] == rows[at..mid] + rows[mid..mid + used];
    LinesOfConcat(rows[at..mid], rows[mid..mid + used]);
    VisitConcat(LinesOf(rows[at..mid]), LinesOf(rows[mid..mid + used]), stop);
  }

  lemma VisitStopped(rows: seq<Row>, at: nat, mid: nat, end: nat, stop: Id -> bool)
    requires at <= mid <= end <= |rows| && Visit(LinesOf(rows[at..mid]), stop).1
    ensures Visit(LinesOf(rows[at..end]), stop) == Visit(LinesOf(rows[at..mid]), stop)
  {
    assert rows[at..end] == rows[at..mid] + rows[mid..end];
    LinesOfConcat(rows[at..mid], rows[mid..end]);
    VisitConcat(LinesOf(rows[at..mid]), LinesOf(rows[mid..end]), stop);
  }

  lemma AllVisited<T>(parts: seq<seq<T>>, i: nat, at: nat, n: nat, n': nat, at': nat)
    requires i <= |parts| && n' <= n && at + n - n' <= |Flatten(parts)|
    requires n' > 0 ==> |Flatten(parts[..i])| + at' == at + n - n'
    requires i >= |parts| || n' == 0
    ensures at + n - n' == Min(at + n, |Flatten(parts)|)
  {
    assert parts[..|parts|] == parts;
  }

  lemma LeafRows(st: State, c: Id)
    requires InvBut({}, st) && c in st.info && c in st.ch && st.ch[c].Leaf?
    ensures st.ch[c].lines == LinesOf(st.info[c].rows) && Owned(st.info[c].rows, st.ln, To(c)) &&
      NoLineTwice(st.info[c].rows)
  {
    assert Ok(st, c);
  }

  lemma LinesOfSlice(rows: seq<Row>, at: nat, n: nat)
    requires at + n <= |rows|
    ensures LinesOf(rows)[at..at + n] == LinesOf(rows[at..at + n])
  {
  }

  lemma KidSize(st: State, c: Id, i: nat)
    requires InvBut({}, st) && c in st.info && c in st.ch && st.ch[c].Branch? && i < |st.ch[c].children|
    ensures var k := st.ch[c].children[i];
      |st.info[c].parts| == |st.ch[c].children| && k in st.ch && st.ch[k].ChunkSize() == |st.info[c].parts[i]|
  {
    KidSizes(st, c);
  }

  /** The children of `me` know their sizes. */
  ghost predicate KidsSized(st: State, me: Id)
    requires me in st.ch && me in st.info && st.ch[me].Branch?
  {
    forall i :: 0 <= i < |st.ch[me].children| && i < |st.info[me].parts| ==>
      var c := st.ch[me].children[i];
      && c in st.ch && c != me
      && st.ch[c].ChunkSize() == |st.info[me].parts[i]| && (st.h ==> st.ch[c].height == HeightSum(st.info[me].parts[i]))
  }

  lemma RootHeights(parts: seq<seq<Row>>, n: nat)
    requires n <= |parts|
    ensures |Flatten(parts)| == |Flatten(parts[..n])| + |Flatten(parts[n..])|
    ensures HeightSum(Flatten(parts)) == HeightSum(Flatten(parts[..n])) + HeightSum(Flatten(parts[n..]))
  {
    assert parts == parts[..n] + parts[n..];
    FlattenConcat(parts[..n], parts[n..]);
    HeightSumConcat(Flatten(parts[..n]), Flatten(parts[n..]));
  }

  /** The records after the first round of spilling at the root. */
  lemma SpillRootMap(st: State, copy: Id, hc: int, x: Cut)
    requires CanWrap(st, copy, hc) && CanSplit(Wrap(st, copy, hc), x)
    requires x.me == copy && x.p == st.root && x.k == 0 && x.n <= |st.ch[st.root].children|
    ensures var kids, parts := st.ch[st.root].children, st.info[st.root].parts;
      SplitRight(Wrap(st, copy, hc), x).ch ==
        Under(Under(st.ch, kids[x.n..], To(x.sib)), kids[..x.n], To(copy))
          [copy := Branch(kids[..x.n], |Flatten(parts[..x.n])|, To(st.root), x.hMe)]
          [st.root := st.ch[st.root].(children := [copy, x.sib])]
          [x.sib := Branch(kids[x.n..], |Flatten(parts[x.n..])|, To(st.root), x.hSib)]
  {
    hide Flatten, HeightSum, LeafOk, ChildOk, NoLineTwice, UnderInfo;
    var kids, parts := st.ch[st.root].children, st.info[st.root].parts;
    RootHeights(parts, x.n);
    AllKidFacts(st, st.root);
    DistinctHalves(kids, x.n);
    assert [copy][..1] + [x.sib] + [copy][1..] == [copy, x.sib];
  }

  lemma DistinctHalves<T>(s: seq<T>, n: nat)
    requires Distinct(s) && n <= |s|
    ensures forall x :: x in s <==> x in s[..n] || x in s[n..]
    ensures forall x :: x in s[..n] ==> x !in s[n..]
  {
    assert s == s[..n] + s[n..];
  }

  /** After wrapping the root, its new only child can be split. */
  lemma WrapThenSplit(st: State, copy: Id, hc: int, x: Cut)
    requires CanWrap(st, copy, hc) && x.me == copy && x.p == st.root && x.k == 0
    requires 0 < x.n < |st.ch[st.root].children| && x.sib !in st.info && x.sib !in st.ch && x.sib != copy
    requires x.hMe == hc - x.hSib && (st.h ==> x.hSib == HeightSum(Flatten(st.info[st.root].parts[x.n..])))
    ensures CanSplit(Wrap(st, copy, hc), x)
  {
    hide Flatten, HeightSum;
    WrapTop(st, copy, hc);
    WrapLinks(st, copy, hc, copy);
  }

  lemma KidSizes(st: State, me: Id)
    requires InvBut({}, st) && me in st.info && st.ch[me].Branch?
    ensures Ok(st, me) && KidsSized(st, me)
  {
    assert Ok(st, me);
    forall i | 0 <= i < |st.ch[me].children|
      ensures var c := st.ch[me].children[i];
        && c in st.ch && c != me
        && st.ch[c].ChunkSize() == |st.info[me].parts[i]| &&
          (st.h ==> st.ch[c].height == HeightSum(st.info[me].parts[i]))
    {
      assert ChildOk(st, me, i);
      assert Ok(st, st.ch[me].children[i]);
    }
  }

  lemma RootLinks(st: State)
    requires InvBut({}, st)
    ensures st.root in st.info && Ok(st, st.root) && Linked(st, st.root) && st.info.Keys <= st.ch.Keys
    ensures KidsSized(st, st.root)
  {
    assert Linked(st, st.root);
    KidSizes(st, st.root);
  }

  /** How far below the root a chunk is, at most. */
  ghost function RankGap(st: State, c: Id): (g: nat)
    requires InvBut({}, st) && c in st.info
  {
    assert Linked(st, c);
    st.info[st.root].rank - st.info[c].rank
  }

  ghost function Above(st: State, c: Id): set<Id> {
    if c in st.info && st.info[c].up.To? then {st.info[c].up.id} else {}
  }

  ghost predicate IsKid(st: State, c: Id, p: Id) {
    && c in st.info && c in st.ch && st.info[c].up == To(p)
    && p in st.info && p in st.ch && st.ch[p].Branch?
  }

  ghost predicate SameRows(st: State, st': State) {
    && st'.root == st.root && st.root in st.info && st.root in st'.info
    && st'.info[st.root].rows == st.info[st.root].rows
    && st.info.Keys <= st'.info.Keys && st.ch.Keys <= st'.ch.Keys
    && forall c :: c in st'.info && Untold(st', c) ==> Untold(st, c)
  }

  lemma SameRowsSelf(st: State)
    requires st.root in st.info
    ensures SameRows(st, st)
  {
  }

  lemma SameRowsTrans(st: State, mid: State, st': State)
    requires SameRows(st, mid) && SameRows(mid, st')
    ensures SameRows(st, st')
  {
  }

  /** A leaf that does not know the branch it hangs from. */
  ghost predicate Untold(st: State, c: Id) {
    c in st.info && c in st.ch && st.ch[c].Leaf? && st.ch[c].parent == Null
  }

  ghost predicate AllTold(st: State) {
    forall c :: c in st.info ==> !Untold(st, c)
  }

  lemma BoundedNow(st: State, except: set<Id>, c: Id)
    requires BoundedBut(except, st) && c in st.ch && st.ch[c].Branch? && |st.ch[c].children| <= 10
    ensures BoundedBut(except - {c}, st)
  {
  }

  lemma BoundedMore(st: State, except: set<Id>, more: set<Id>)
    requires BoundedBut(except, st)
    ensures BoundedBut(except + more, st)
  {
  }

  lemma KidBranch(st: State, c: Id, p: Id)
    requires InvBut({}, st) && IsKid(st, c, p) && st.ch[c].Branch? && c != st.root
    ensures st.ch[c].parent == To(p) && RankGap(st, p) < RankGap(st, c)
    ensures p == st.root ==> RankGap(st, p) == 0
  {
    BranchLinks(st, c);
    KidFacts(st, p, c);
  }

  lemma SplitEffect(st: State, x: Cut, except: set<Id>)
    requires CanSplit(st, x) && InvBut({}, st) && BoundedBut(except, st) && x.n == |st.ch[x.me].children| - 5
    ensures var st' := SplitRight(st, x);
      && InvBut({}, st') && BoundedBut(except + {x.me, x.p}, st') && SameRows(st, st')
      && IsKid(st', x.me, x.p) && RankGap(st', x.me) == RankGap(st, x.me)
      && st'.ch[x.me].Branch? && |st'.ch[x.me].children| == x.n
      && x.p in st.ch && |st'.ch[x.p].children| == |st.ch[x.p].children| + 1
  {
    hide Flatten, HeightSum, Ok, Linked;
    SplitRightOk(st, x);
    AllKidFacts(st, x.me);
    AllKidFacts(st, x.p);
  }

  lemma SplitFields(st: State, x: Cut)
    requires CanSplit(st, x)
    ensures var st', b, pb, f := SplitRight(st, x), st.ch[x.me], st.ch[x.p], st.info[x.me];
      && st'.ch == Under(st.ch, b.children[x.n..], To(x.sib))
          [x.me := b.(children := b.children[..x.n], size := b.size - |Flatten(f.parts[x.n..])|, height := x.hMe)]
          [x.p := pb.(children := pb.children[..x.k + 1] + [x.sib] + pb.children[x.k + 1..])]
          [x.sib := Branch(b.children[x.n..], |Flatten(f.parts[x.n..])|, To(x.p), x.hSib)]
      && st'.ln == st.ln && st'.root == st.root && st'.h == st.h
  {
  }

  lemma WrapEffect(st: State, copy: Id, hc: int)
    requires CanWrap(st, copy, hc) && InvBut({}, st) && BoundedBut({st.root}, st)
    ensures var st' := Wrap(st, copy, hc);
      && BoundedBut({copy}, st') && SameRows(st, st') && copy in st'.ch && st'.ch[copy].Branch?
      && st'.ch[copy].children == st.ch[st.root].children && |st'.ch[st.root].children| == 1
  {
    hide Flatten, HeightSum;
    RootLinks(st);
    AllKidFacts(st, st.root);
  }

  /** What a branch below the root knows about its surroundings. */
  lemma BranchLinks(st: State, me: Id)
    requires InvBut({}, st) && me in st.info && me != st.root && st.ch[me].Branch?
    ensures Ok(st, me) && KidsSized(st, me)
    ensures st.info[me].up.To? && st.ch[me].parent == st.info[me].up
    ensures var p := st.info[me].up.id;
      p in st.info && p in st.ch && st.ch[p].Branch? && Ok(st, p) && p != me && me in st.ch[p].children
    ensures st.root in st.info && st.info[me].rank <= st.info[st.root].rank && st.info.Keys <= st.ch.Keys
    ensures st.info[me].up.id !in st.ch[me].children
  {
    assert Linked(st, me);
    KidSizes(st, me);
    AllKidFacts(st, me);
    var p := st.info[me].up.id;
    assert Ok(st, p);
    var j :| 0 <= j < |st.ch[p].children| && st.ch[p].children[j] == me;
    assert ChildOk(st, p, j);
  }

  method IndexOf(cs: seq<Id>, c: Id) returns (i: nat)
    requires c in cs
    ensures i < |cs| && cs[i] == c && c !in cs[..i]
  {
    i := 0;
    while cs[i] != c
      invariant i < |cs| && c !in cs[..i]
      decreases |cs| - i
    {
      i := i + 1;
    }
  }
}
