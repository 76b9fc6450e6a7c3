/** Climbing from a leaf to the root of a document: line numbers and changed line heights. */
module ChunkChain {
  import opened ChunkShape

  /** `c` and the branches above it. */
  ghost function Chain(st: State, c: Id): set<Id>
    requires InvBut({}, st) && c in st.info
    decreases st.info[st.root].rank - st.info[c].rank
  {
    assert Linked(st, c);
    if c == st.root then {c}
    else
      UpFacts(st, c);
      {c} + Chain(st, st.info[c].up.id)
  }

  /** How many lines come before those of `c`. */
  ghost function Before(st: State, c: Id): nat
    requires InvBut({}, st) && c in st.info
    decreases st.info[st.root].rank - st.info[c].rank
  {
    assert Linked(st, c);
    if c == st.root then 0
    else
      UpFacts(st, c);
      var p := st.info[c].up.id;
      Before(st, p) + |Flatten(st.info[p].parts[..Place(st.ch[p].children, c)])|
  }

  function Place(cs: seq<Id>, c: Id): (i: nat)
    requires c in cs
    ensures i < |cs| && cs[i] == c
  {
    if cs[0] == c then 0 else 1 + Place(cs[1..], c)
  }

  lemma UpFacts(st: State, c: Id)
    requires InvBut({}, st) && c in st.info && c != st.root
    ensures st.info[c].up.To? && st.info[c].up.id in st.info && st.info[c].up.id in st.ch
    ensures var p := st.info[c].up.id;
      && st.ch[p].Branch? && c in st.ch[p].children && st.info[c].rank < st.info[p].rank <= st.info[st.root].rank
      && |st.info[p].parts| == |st.ch[p].children| && st.info[p].rows == Flatten(st.info[p].parts)
      && st.info[p].parts[Place(st.ch[p].children, c)] == st.info[c].rows
  {
    assert Linked(st, c);
    var p := st.info[c].up.id;
    assert Ok(st, p) && Linked(st, p);
    KidFacts(st, p, c);
    assert ChildOk(st, p, Place(st.ch[p].children, c));
  }

  lemma FlattenAt<T>(parts: seq<seq<T>>, i: nat, j: nat)
    requires i < |parts| && j < |parts[i]|
    ensures |Flatten(parts[..i])| + j < |Flatten(parts)|
    ensures Flatten(parts)[|Flatten(parts[..i])| + j] == parts[i][j]
  {
    FlattenSplit(parts, i);
  }

  lemma {:induction false} FlattenFrom<T>(parts: seq<seq<T>>, x: T)
    requires x in Flatten(parts)
    ensures exists i :: 0 <= i < |parts| && x in parts[i]
  {
    if x in parts[0] {
    } else {
      FlattenFrom(parts[1..], x);
      var i :| 0 <= i < |parts[1..]| && x in parts[1..][i];
      assert x in parts[i + 1];
    }
  }

  /** A line of `c` stands as far behind the lines before `c` in the document as it does in `c`. */
  lemma {:induction false} RowFromRoot(st: State, c: Id, j: nat)
    requires InvBut({}, st) && c in st.info && j < |st.info[c].rows|
    ensures st.root in st.info && Before(st, c) + j < |st.info[st.root].rows|
    ensures st.info[st.root].rows[Before(st, c) + j] == st.info[c].rows[j]
    decreases st.info[st.root].rank - st.info[c].rank
  {
    assert Linked(st, c);
    if c != st.root {
      UpFacts(st, c);
      var p := st.info[c].up.id;
      var i := Place(st.ch[p].children, c);
      FlattenAt(st.info[p].parts, i, j);
      RowFromRoot(st, p, |Flatten(st.info[p].parts[..i])| + j);
    }
  }

  ghost predicate Holds(rows: seq<Row>, l: Id) {
    exists i :: 0 <= i < |rows| && rows[i].line == l
  }

  /** The chunks that hold a line are those on the way from its leaf to the root. */
  lemma {:induction false} HoldersUp(st: State, leaf: Id, l: Id)
    requires InvBut({}, st) && leaf in st.info && Holds(st.info[leaf].rows, l)
    ensures forall c :: c in Chain(st, leaf) ==> c in st.info && Holds(st.info[c].rows, l)
    decreases st.info[st.root].rank - st.info[leaf].rank
  {
    assert Linked(st, leaf);
    if leaf != st.root {
      UpFacts(st, leaf);
      var p := st.info[leaf].up.id;
      var j :| 0 <= j < |st.info[leaf].rows| && st.info[leaf].rows[j].line == l;
      FlattenAt(st.info[p].parts, Place(st.ch[p].children, leaf), j);
      HoldersUp(st, p, l);
    }
  }

  lemma {:induction false} ChainClosed(st: State, c: Id, k: Id)
    requires InvBut({}, st) && c in st.info && k in Chain(st, c)
    ensures k in st.info && (k != st.root ==> st.info[k].up.To? && st.info[k].up.id in Chain(st, c))
    ensures st.info[c].rank <= st.info[k].rank
    decreases st.info[st.root].rank - st.info[c].rank
  {
    assert Linked(st, c);
    if c != st.root {
      UpFacts(st, c);
      if k != c { ChainClosed(st, st.info[c].up.id, k); }
      else { assert st.info[c].up.id in Chain(st, st.info[c].up.id); }
    }
  }

  lemma {:induction false} HoldersDown(st: State, leaf: Id, l: Id, c: Id)
    requires InvBut({}, st) && leaf in st.info && l in st.ln && st.ln[l].parent == To(leaf)
    requires c in st.info && Holds(st.info[c].rows, l)
    ensures c in Chain(st, leaf)
    decreases st.info[c].rank
  {
    hide Chain;
    assert Ok(st, c);
    var j :| 0 <= j < |st.info[c].rows| && st.info[c].rows[j].line == l;
    if st.ch[c].Leaf? {
      assert c == leaf;
      InChain(st, c);
    } else {
      FlattenFrom(st.info[c].parts, st.info[c].rows[j]);
      var i :| 0 <= i < |st.info[c].parts| && st.info[c].rows[j] in st.info[c].parts[i];
      assert ChildOk(st, c, i);
      var k := st.ch[c].children[i];
      HoldersDown(st, leaf, l, k);
      ChainClosed(st, leaf, k);
      assert Linked(st, k) && Linked(st, st.root);
    }
  }

  lemma InChain(st: State, c: Id)
    requires InvBut({}, st) && c in st.info
    ensures c in Chain(st, c)
  {
  }

  // ---------------------------------------------------------------- another height for one line

  function Reheight(rows: seq<Row>, l: Id, height: nat): (r: seq<Row>)
    ensures |r| == |rows|
    ensures forall i :: 0 <= i < |rows| ==> r[i] == if rows[i].line == l then Row(l, height) else rows[i]
  {
    seq(|rows|, i requires 0 <= i < |rows| => if rows[i].line == l then Row(l, height) else rows[i])
  }

  function ReheightAll(parts: seq<seq<Row>>, l: Id, height: nat): (r: seq<seq<Row>>)
    ensures |r| == |parts| && forall i :: 0 <= i < |parts| ==> r[i] == Reheight(parts[i], l, height)
  {
    seq(|parts|, i requires 0 <= i < |parts| => Reheight(parts[i], l, height))
  }

  lemma {:induction false} ReheightFlatten(parts: seq<seq<Row>>, l: Id, height: nat)
    ensures Flatten(ReheightAll(parts, l, height)) == Reheight(Flatten(parts), l, height)
  {
    if |parts| > 0 {
      ReheightFlatten(parts[1..], l, height);
      assert ReheightAll(parts, l, height)[1..] == ReheightAll(parts[1..], l, height);
    }
  }

  lemma {:induction false} ReheightSum(rows: seq<Row>, l: Id, was: nat, height: nat)
    requires NoLineTwice(rows) && forall i :: 0 <= i < |rows| && rows[i].line == l ==> rows[i].height == was
    ensures HeightSum(Reheight(rows, l, height)) == HeightSum(rows) + if Holds(rows, l) then height - was else 0
  {
    if |rows| > 0 {
      ReheightSum(rows[1..], l, was, height);
      assert Reheight(rows, l, height)[1..] == Reheight(rows[1..], l, height);
      assert Holds(rows, l) <==> rows[0].line == l || Holds(rows[1..], l) by {
        if Holds(rows[1..], l) {
          var i :| 0 <= i < |rows[1..]| && rows[1..][i].line == l;
          assert rows[i + 1].line == l;
        }
      }
    }
  }

  /** The line `l` gets another height, and the chunks in `told` hear of the difference. */
  ghost function Resized(st: State, l: Id, height: nat, told: set<Id>, h: bool): State
    requires l in st.ln
  {
    State(
      map c | c in st.ch ::
        if c in told then st.ch[c].WithHeight(st.ch[c].height + height - st.ln[l].height) else st.ch[c],
      st.ln[l := st.ln[l].(height := height)],
      map c | c in st.info ::
        st.info[c].(rows := Reheight(st.info[c].rows, l, height), parts := ReheightAll(st.info[c].parts, l, height)),
      st.root, h)
  }

  lemma ResizedLink(st: State, l: Id, height: nat, told: set<Id>, h: bool, c: Id)
    requires InvBut({}, st) && l in st.ln && c in st.info
    ensures Linked(Resized(st, l, height, told, h), c)
  {
    hide Flatten, HeightSum, Ok;
    assert Linked(st, c);
  }

  /** Heights stay exact at `c` if it is told just when it holds the line. */
  lemma ResizedOk(st: State, l: Id, height: nat, told: set<Id>, h: bool, c: Id)
    requires InvBut({}, st) && l in st.ln && c in st.info && (h ==> st.h)
    requires forall i :: 0 <= i < |st.info[c].rows| && st.info[c].rows[i].line == l ==>
      st.info[c].rows[i].height == st.ln[l].height
    requires h && height != st.ln[l].height ==> (c in told <==> Holds(st.info[c].rows, l))
    ensures Ok(Resized(st, l, height, told, h), c)
  {
    hide Flatten, HeightSum;
    var st', rows := Resized(st, l, height, told, h), st.info[c].rows;
    assert Ok(st, c);
    ReheightSum(rows, l, st.ln[l].height, height);
    if st.ch[c].Branch? {
      ReheightFlatten(st.info[c].parts, l, height);
      forall i | 0 <= i < |st.ch[c].children| ensures ChildOk(st', c, i) {
        assert ChildOk(st, c, i);
      }
    } else {
      assert LinesOf(Reheight(rows, l, height)) == LinesOf(rows);
    }
  }

  /** A line has the height its row says, whichever chunk one asks. */
  lemma {:induction false} RowHeight(st: State, c: Id, i: nat)
    requires InvBut({}, st) && c in st.info && i < |st.info[c].rows|
    ensures st.info[c].rows[i].line in st.ln && st.ln[st.info[c].rows[i].line].height == st.info[c].rows[i].height
    decreases st.info[c].rank
  {
    assert Ok(st, c);
    if st.ch[c].Branch? {
      FlattenFrom(st.info[c].parts, st.info[c].rows[i]);
      var j :| 0 <= j < |st.info[c].parts| && st.info[c].rows[i] in st.info[c].parts[j];
      var m :| 0 <= m < |st.info[c].parts[j]| && st.info[c].parts[j][m] == st.info[c].rows[i];
      assert ChildOk(st, c, j);
      RowHeight(st, st.ch[c].children[j], m);
    }
  }

  lemma ResizedInv(st: State, l: Id, height: nat, told: set<Id>, h: bool)
    requires InvBut({}, st) && l in st.ln && (h ==> st.h)
    requires h && height != st.ln[l].height ==> forall c :: c in st.info ==> (c in told <==> Holds(st.info[c].rows, l))
    ensures InvBut({}, Resized(st, l, height, told, h))
  {
    hide Ok, Linked, Resized, Reheight, ReheightAll;
    var st' := Resized(st, l, height, told, h);
    assert st'.info.Keys == st.info.Keys && st'.ch.Keys == st.ch.Keys && st'.root == st.root by {
      ResizedKeys(st, l, height, told, h);
    }
    forall c | c in st'.info ensures Ok(st', c) && Linked(st', c) {
      ResizedLink(st, l, height, told, h, c);
      forall i | 0 <= i < |st.info[c].rows| && st.info[c].rows[i].line == l
        ensures st.info[c].rows[i].height == st.ln[l].height
      {
        RowHeight(st, c, i);
      }
      ResizedOk(st, l, height, told, h, c);
    }
  }

  lemma ResizedKeys(st: State, l: Id, height: nat, told: set<Id>, h: bool)
    requires l in st.ln
    ensures var st' := Resized(st, l, height, told, h);
      st'.info.Keys == st.info.Keys && st'.ch.Keys == st.ch.Keys && st'.root == st.root
  {
  }

  /** If the root is not told, its height is wrong from then on, unless nothing changed. */
  lemma RootUntold(st: State, l: Id, height: nat, told: set<Id>)
    requires InvBut({}, st) && st.h && l in st.ln && Holds(st.info[st.root].rows, l) && st.root !in told
    requires height != st.ln[l].height
    ensures !InvBut({}, Resized(st, l, height, told, true))
  {
    hide Flatten, HeightSum;
    var rows := st.info[st.root].rows;
    assert Linked(st, st.root) && Ok(st, st.root);
    forall i | 0 <= i < |rows| && rows[i].line == l ensures rows[i].height == st.ln[l].height {
      RowHeight(st, st.root, i);
    }
    ReheightSum(rows, l, st.ln[l].height, height);
    var st' := Resized(st, l, height, told, true);
    assert !Ok(st', st.root);
  }

  /** One more chunk hears of the difference. */
  lemma ToldStep(st: State, l: Id, height: nat, told: set<Id>, h: bool, c: Id)
    requires l in st.ln && c in st.ch && c !in told
    ensures c in Resized(st, l, height, told, h).ch && Resized(st, l, height, told, h).ch[c] == st.ch[c]
    ensures Resized(st, l, height, told + {c}, h).ch
      == Resized(st, l, height, told, h).ch[c := st.ch[c].WithHeight(st.ch[c].height + (height - st.ln[l].height))]
  {
  }

  lemma ResizedFields(st: State, l: Id, height: nat, told: set<Id>, h: bool)
    requires l in st.ln && st.root in st.info
    ensures var a, b := Resized(st, l, height, told, st.h), Resized(st, l, height, told, h);
      && b == State(a.ch, st.ln[l := st.ln[l].(height := height)], a.info, st.root, h)
      && st.root in b.info && b.info[st.root].rows == Reheight(st.info[st.root].rows, l, height)
      && b.ch.Keys == st.ch.Keys
  {
  }

  lemma ToldNone(st: State, l: Id, height: nat, h: bool)
    requires l in st.ln
    ensures Resized(st, l, height, {}, h).ch == st.ch
  {
  }

  // ---------------------------------------------------------------- the leaf of a line

  /** The leaf that holds line `l`. */
  ghost predicate Home(st: State, l: Id, leaf: Id) {
    && leaf in st.info && leaf in st.ch && st.ch[leaf].Leaf?
    && l in st.ln && st.ln[l].parent == To(leaf)
    && st.ch[leaf].lines == LinesOf(st.info[leaf].rows) && l in st.ch[leaf].lines
    && Holds(st.info[leaf].rows, l)
  }

  lemma {:induction false} FindHome(st: State, c: Id, l: Id)
    requires InvBut({}, st) && c in st.info && Holds(st.info[c].rows, l)
    ensures l in st.ln && st.ln[l].parent.To? && Home(st, l, st.ln[l].parent.id)
    decreases st.info[c].rank
  {
    hide HeightSum;
    assert Ok(st, c);
    var i :| 0 <= i < |st.info[c].rows| && st.info[c].rows[i].line == l;
    if st.ch[c].Branch? {
      FlattenFrom(st.info[c].parts, st.info[c].rows[i]);
      var j :| 0 <= j < |st.info[c].parts| && st.info[c].rows[i] in st.info[c].parts[j];
      assert ChildOk(st, c, j);
      FindHome(st, st.ch[c].children[j], l);
    } else {
      assert st.ch[c].lines[i] == l;
    }
  }

  /** A leaf that does not know its branch can tell the number of a line just when no line
      comes before the leaf. */
  lemma UntoldLeaf(st: State, l: Id, leaf: Id, n: nat)
    requires InvBut({}, st) && Home(st, l, leaf) && n < |st.info[leaf].rows| && st.info[leaf].rows[n].line == l
    ensures st.root in st.info && n < |st.info[st.root].rows|
    ensures st.info[st.root].rows[n].line == l <==> Before(st, leaf) == 0
  {
    RowFromRoot(st, leaf, n);
    assert Ok(st, st.root);
  }

  lemma ChunkAbove(st: State, c: Id)
    requires InvBut({}, st) && c in st.info
    ensures c in st.ch && st.root in st.info && st.info[c].rank <= st.info[st.root].rank
    ensures c == st.root ==> st.ch[c].parent == Null
    ensures c != st.root ==> st.info[c].up.To? && st.info[c].up.id in st.info
    ensures c != st.root && (st.ch[c].Branch? || st.ch[c].parent.To?) ==> st.ch[c].parent == st.info[c].up
    ensures c != st.root ==> Chain(st, c) == {c} + Chain(st, st.info[c].up.id)
    ensures c == st.root ==> Chain(st, c) == {c}
  {
    assert Linked(st, c);
    if c != st.root {
      UpFacts(st, c);
      var p := st.info[c].up.id;
      assert Ok(st, p);
      assert ChildOk(st, p, Place(st.ch[p].children, c));
    }
  }
}
