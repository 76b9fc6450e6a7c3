/** Flattened device trees: the trees, their bytes as laid out in section 5.4 of the Devicetree
    Specification, and what a search for a path means. */
module DeviceTree {
  import opened Common

  const BEGIN_NODE := 1
  const END_NODE := 2
  const PROP := 3
  const NOP := 4

  datatype Item = Nop | Prop(nameoff: nat, data: seq<byte>)

  /** A node: the FDT_NOPs in front of it, its name, properties and children, and the FDT_NOPs in
      front of its FDT_END_NODE. */
  datatype Tree = Tree(gap: nat, name: seq<byte>, items: seq<Item>, kids: seq<Tree>, tail: nat)

  // ---------------------------------------------------------------- bytes

  function Be(n: nat): (s: seq<byte>)
    requires n < WORD
    ensures |s| == 4
  {
    [n / 0x100_0000, n / 0x1_0000 % 0x100, n / 0x100 % 0x100, n % 0x100]
  }

  function WordAt(buf: seq<byte>, off: nat): nat
    requires off + 4 <= |buf|
  {
    var b0: int, b1: int, b2: int, b3: int := buf[off], buf[off + 1], buf[off + 2], buf[off + 3];
    ((b0 * 0x100 + b1) * 0x100 + b2) * 0x100 + b3
  }

  /** The bytes `s` stand in `buf` from `off` on. */
  predicate Holds(buf: seq<byte>, off: nat, s: seq<byte>) {
    off + |s| <= |buf| && buf[off..off + |s|] == s
  }

  lemma HoldsBoth(buf: seq<byte>, off: nat, a: seq<byte>, b: seq<byte>)
    requires Holds(buf, off, a + b)
    ensures Holds(buf, off, a) && Holds(buf, off + |a|, b)
  {
    var s := buf[off..off + |a + b|];
    assert buf[off..off + |a|] == s[..|a|] == a;
    assert buf[off + |a|..off + |a| + |b|] == s[|a|..] == b;
  }

  lemma WordHeld(buf: seq<byte>, off: nat, n: nat)
    requires n < WORD && Holds(buf, off, Be(n))
    ensures WordAt(buf, off) == n
  {
    var s := buf[off..off + 4];
    assert buf[off] == s[0] && buf[off + 1] == s[1] && buf[off + 2] == s[2] && buf[off + 3] == s[3];
  }

  function Zeros(k: nat): (s: seq<byte>)
    ensures |s| == k
  {
    seq(k, i => 0)
  }

  /** `n` rounded up to a multiple of four. */
  function AlignUp(n: nat): (r: nat)
    ensures n <= r < n + 4 && r % 4 == 0
  {
    (n + 3) / 4 * 4
  }

  function Padded(s: seq<byte>): (r: seq<byte>)
    ensures |r| == AlignUp(|s|)
  {
    s + Zeros(AlignUp(|s|) - |s|)
  }

  function Nops(k: nat): (s: seq<byte>)
    ensures |s| == 4 * k
  {
    if k == 0 then [] else Be(NOP) + Nops(k - 1)
  }

  predicate ItemOk(i: Item) {
    i.Prop? ==> i.nameoff < WORD && |i.data| < WORD
  }

  function ItemBytes(i: Item): seq<byte>
    requires ItemOk(i)
  {
    match i
    case Nop => Be(NOP)
    case Prop(nameoff, data) => Be(PROP) + Be(|data|) + Be(nameoff) + Padded(data)
  }

  /** Items, then other bytes. */
  function ItemsThen(items: seq<Item>, rest: seq<byte>): seq<byte>
    requires forall i :: i in items ==> ItemOk(i)
  {
    if |items| == 0 then rest else ItemBytes(items[0]) + ItemsThen(items[1..], rest)
  }

  predicate NodeOk(t: Tree) {
    && 0 !in t.name && (forall i :: i in t.items ==> ItemOk(i))
    && (|t.kids| > 0 ==> t.kids[0].gap == 0)
    && forall k :: k in t.kids ==> NodeOk(k)
  }

  function NodeBytes(t: Tree): seq<byte>
    requires NodeOk(t)
    decreases t
  {
    Be(BEGIN_NODE) + (Padded(t.name + [0]) + ItemsThen(t.items, KidsThen(t.kids, Nops(t.tail) + Be(END_NODE))))
  }

  /** Children, then other bytes. */
  function KidsThen(kids: seq<Tree>, rest: seq<byte>): seq<byte>
    requires forall k :: k in kids ==> NodeOk(k)
    decreases kids
  {
    if |kids| == 0 then rest
    else Nops(kids[0].gap) + (NodeBytes(kids[0]) + KidsThen(kids[1..], rest))
  }

  // ---------------------------------------------------------------- searching

  const SLASH: byte := 47

  /** The first component of a path. */
  function Component(path: seq<byte>): (c: seq<byte>)
    ensures |c| <= |path| && c == path[..|c|] && SLASH !in c
    ensures |c| < |path| ==> path[|c|] == SLASH
  {
    if |path| == 0 || path[0] == SLASH then [] else [path[0]] + Component(path[1..])
  }

  /** A search finds a node, given by the positions of the children that lead to it, or nothing in
      this subtree, or it stops for good. */
  datatype Outcome = Found(pos: seq<nat>) | Skip | Stop

  /** The search for a path at `t`: a node whose name is the first component is committed to, and
      the rest of the path is then sought from this node on; other nodes are searched in order. */
  function Find(t: Tree, path: seq<byte>, strict: bool): Outcome
    decreases |path|, t
  {
    if |path| == 0 then Found([])
    else
      var c := Component(path);
      if |c| == 0 then Stop
      else if t.name == c then
        if |c| == |path| then Found([])
        else
          var o := Find(t, path[|c| + 1..], strict);
          if o.Skip? then Stop else o
      else FindKids(t.kids, 0, path, strict)
  }

  /** If `strict`, the search does not go on beyond FDT_NOPs between two children. */
  function FindKids(kids: seq<Tree>, n: nat, path: seq<byte>, strict: bool): Outcome
    decreases |path|, kids
  {
    if |kids| == 0 then Skip
    else if strict && kids[0].gap > 0 then Stop
    else
      match Find(kids[0], path, strict)
      case Found(pos) => Found([n] + pos)
      case Stop => Stop
      case Skip => FindKids(kids[1..], n + 1, path, strict)
  }

  /** No FDT_NOPs between children, anywhere in the tree. */
  predicate Compact(t: Tree) {
    forall k :: k in t.kids ==> k.gap == 0 && Compact(k)
  }

  lemma {:induction false} CompactFind(t: Tree, path: seq<byte>)
    requires Compact(t)
    ensures Find(t, path, true) == Find(t, path, false)
    decreases |path|, t
  {
    var c := Component(path);
    if |c| > 0 {
      if t.name == c {
        if |c| < |path| { CompactFind(t, path[|c| + 1..]); }
      } else {
        CompactFindKids(t.kids, 0, path);
      }
    }
  }

  lemma {:induction false} CompactFindKids(kids: seq<Tree>, n: nat, path: seq<byte>)
    requires forall k :: k in kids ==> k.gap == 0 && Compact(k)
    ensures FindKids(kids, n, path, true) == FindKids(kids, n, path, false)
    decreases |path|, kids
  {
    if |kids| > 0 {
      assert kids[0] in kids;
      CompactFind(kids[0], path);
      CompactFindKids(kids[1..], n + 1, path);
    }
  }

  /** A node behind an FDT_NOP between two children is not found. */
  lemma GapHidesNode()
    ensures var t := Tree(0, [], [], [Tree(0, [97], [], [], 0), Tree(1, [98], [], [], 0)], 0);
      && NodeOk(t) && Find(t, [98], false) == Found([1]) && Find(t, [98], true) == Stop
  {
    var a, b := Tree(0, [97], [], [], 0), Tree(1, [98], [], [], 0);
    var kids := [a, b];
    var t := Tree(0, [], [], kids, 0);
    assert Component([98]) == [98] by { assert [98][1..] == []; }
    assert NodeOk(a) && NodeOk(b);
    assert kids[1..] == [b];
    assert Find(a, [98], false) == Skip && Find(a, [98], true) == Skip;
    assert Find(b, [98], false) == Found([]);
    assert FindKids(kids[1..], 1, [98], false) == Found([1] + []);
    assert [1] + [] == [1];
    assert FindKids(kids[1..], 1, [98], true) == Stop;
  }

  // ---------------------------------------------------------------- what is found

  ghost predicate Inside(t: Tree, pos: seq<nat>)
    decreases |pos|
  {
    |pos| > 0 ==> pos[0] < |t.kids| && Inside(t.kids[pos[0]], pos[1..])
  }

  ghost function Sub(t: Tree, pos: seq<nat>): Tree
    requires Inside(t, pos)
    decreases |pos|
  {
    if |pos| == 0 then t else Sub(t.kids[pos[0]], pos[1..])
  }

  /** The name that a node found by this path has: the last component, but for a trailing slash. */
  function LastName(path: seq<byte>): seq<byte>
    decreases |path|
  {
    var c := Component(path);
    if |c| + 1 >= |path| then c else LastName(path[|c| + 1..])
  }

  /** A search only finds nodes of the tree. */
  lemma {:induction false} FoundInside(t: Tree, path: seq<byte>, strict: bool)
    requires Find(t, path, strict).Found?
    ensures Inside(t, Find(t, path, strict).pos)
    decreases |path|, t
  {
    var c := Component(path);
    if |path| > 0 {
      if t.name == c {
        if |c| < |path| { FoundInside(t, path[|c| + 1..], strict); }
      } else {
        FoundInsideKids(t, 0, path, strict);
      }
    }
  }

  lemma {:induction false} FoundInsideKids(t: Tree, n: nat, path: seq<byte>, strict: bool)
    requires n <= |t.kids| && FindKids(t.kids[n..], n, path, strict).Found?
    ensures Inside(t, FindKids(t.kids[n..], n, path, strict).pos)
    decreases |path|, t, 0, |t.kids| - n
  {
    if n < |t.kids| {
      assert t.kids[n..][1..] == t.kids[n + 1..];
      if Find(t.kids[n], path, strict).Found? {
        FoundInside(t.kids[n], path, strict);
        var pos := Find(t.kids[n], path, strict).pos;
        assert ([n] + pos)[1..] == pos;
      } else {
        FoundInsideKids(t, n + 1, path, strict);
      }
    }
  }

  /** Nothing is passed over: when a search skips a subtree, no node in it has the name sought. */
  lemma {:induction false} SkipMeansAbsent(t: Tree, path: seq<byte>, strict: bool, pos: seq<nat>)
    requires Find(t, path, strict) == Skip && Inside(t, pos)
    ensures Sub(t, pos).name != Component(path)
    decreases t
  {
    if |pos| > 0 {
      SkipKids(t.kids, 0, path, strict, pos[0]);
      SkipMeansAbsent(t.kids[pos[0]], path, strict, pos[1..]);
    }
  }

  lemma {:induction false} SkipKids(kids: seq<Tree>, n: nat, path: seq<byte>, strict: bool, i: nat)
    requires FindKids(kids, n, path, strict) == Skip && i < |kids|
    ensures Find(kids[i], path, strict) == Skip
    decreases i
  {
    if i > 0 { SkipKids(kids[1..], n + 1, path, strict, i - 1); }
  }

  /** A search that finds something in the children has skipped the ones before. */
  lemma {:induction false} KidsFound(kids: seq<Tree>, n: nat, path: seq<byte>, strict: bool) returns (i: nat)
    requires FindKids(kids, n, path, strict).Found?
    ensures i < |kids| && Find(kids[i], path, strict).Found?
    ensures FindKids(kids, n, path, strict) == Found([n + i] + Find(kids[i], path, strict).pos)
    ensures forall j :: 0 <= j < i ==> Find(kids[j], path, strict) == Skip
    decreases |kids|
  {
    if Find(kids[0], path, strict).Found? {
      i := 0;
    } else {
      i := KidsFound(kids[1..], n + 1, path, strict);
      i := i + 1;
      forall j | 0 <= j < i ensures Find(kids[j], path, strict) == Skip {
        assert j > 0 ==> kids[j] == kids[1..][j - 1];
      }
    }
  }

  /** The node that is found has the name that the path ends with. */
  lemma {:induction false} FoundName(t: Tree, path: seq<byte>, strict: bool)
    requires |path| > 0 && Find(t, path, strict).Found?
    ensures Inside(t, Find(t, path, strict).pos)
    ensures Sub(t, Find(t, path, strict).pos).name == LastName(path)
    decreases |path|, t
  {
    FoundInside(t, path, strict);
    var c := Component(path);
    if t.name == c {
      if |c| + 1 < |path| { FoundName(t, path[|c| + 1..], strict); }
    } else {
      var i := KidsFound(t.kids, 0, path, strict);
      FoundName(t.kids[i], path, strict);
      var pos := Find(t.kids[i], path, strict).pos;
      assert ([i] + pos)[1..] == pos;
    }
  }

  /** Whether a node comes before another one in the order in which the tree is written. */
  ghost predicate Earlier(p: seq<nat>, q: seq<nat>)
    decreases |p|
  {
    |q| > 0 && (|p| == 0 || p[0] < q[0] || (p[0] == q[0] && Earlier(p[1..], q[1..])))
  }

  lemma {:induction false} WholeComponent(path: seq<byte>)
    requires SLASH !in path
    ensures Component(path) == path
  {
    if |path| > 0 {
      assert path[0] in path;
      WholeComponent(path[1..]);
    }
  }

  /** The first node with the name sought is the one that is found. */
  lemma {:induction false} FoundFirst(t: Tree, path: seq<byte>, strict: bool, pos: seq<nat>)
    requires |path| > 0 && SLASH !in path && Find(t, path, strict).Found?
    requires Inside(t, pos) && Earlier(pos, Find(t, path, strict).pos)
    ensures Sub(t, pos).name != path
    decreases t
  {
    WholeComponent(path);
    if t.name != path && |pos| > 0 {
      var i := KidsFound(t.kids, 0, path, strict);
      var found := Find(t.kids[i], path, strict).pos;
      assert ([i] + found)[1..] == found;
      if pos[0] == i {
        FoundFirst(t.kids[i], path, strict, pos[1..]);
      } else {
        SkipMeansAbsent(t.kids[pos[0]], path, strict, pos[1..]);
      }
    }
  }

  // ---------------------------------------------------------------- when something is found

  /** What a search finds, or passes over, a search that ignores FDT_NOPs finds or passes over, too. */
  lemma {:induction false} StrictIsPlain(t: Tree, path: seq<byte>)
    requires Find(t, path, true) != Stop
    ensures Find(t, path, false) == Find(t, path, true)
    decreases |path|, t
  {
    var c := Component(path);
    if |c| > 0 {
      if t.name == c {
        if |c| < |path| { StrictIsPlain(t, path[|c| + 1..]); }
      } else {
        StrictIsPlainKids(t.kids, 0, path);
      }
    }
  }

  lemma {:induction false} StrictIsPlainKids(kids: seq<Tree>, n: nat, path: seq<byte>)
    requires FindKids(kids, n, path, true) != Stop
    ensures FindKids(kids, n, path, false) == FindKids(kids, n, path, true)
    decreases |path|, kids
  {
    if |kids| > 0 {
      StrictIsPlain(kids[0], path);
      if Find(kids[0], path, true) == Skip { StrictIsPlainKids(kids[1..], n + 1, path); }
    }
  }

  /** There are no FDT_NOPs in front of this node, of those it is in, and of those written before it,
      but for the root. */
  ghost predicate Clear(t: Tree, pos: seq<nat>) {
    forall q :: Inside(t, q) && |q| > 0 && (q == pos || Earlier(q, pos)) ==> Sub(t, q).gap == 0
  }

  /** There are none in a subtree that a search passes over. */
  lemma {:induction false} SkipClear(t: Tree, path: seq<byte>, q: seq<nat>)
    requires Find(t, path, true) == Skip && Inside(t, q) && |q| > 0
    ensures Sub(t, q).gap == 0
    decreases t
  {
    SkipGaps(t.kids, 0, path, q[0]);
    SkipKids(t.kids, 0, path, true, q[0]);
    if |q| > 1 { SkipClear(t.kids[q[0]], path, q[1..]); }
  }

  lemma {:induction false} SkipGaps(kids: seq<Tree>, n: nat, path: seq<byte>, i: nat)
    requires FindKids(kids, n, path, true) == Skip && i < |kids|
    ensures kids[i].gap == 0
    decreases i
  {
    if i > 0 { SkipGaps(kids[1..], n + 1, path, i - 1); }
  }

  lemma {:induction false} FoundGaps(kids: seq<Tree>, n: nat, path: seq<byte>, i: nat)
    requires FindKids(kids, n, path, true).Found? && i < |kids|
    requires forall j :: 0 <= j < i ==> Find(kids[j], path, true) == Skip
    ensures kids[i].gap == 0
    decreases i
  {
    if i > 0 {
      assert Find(kids[0], path, true) == Skip;
      assert forall j :: 0 <= j < i - 1 ==> kids[1..][j] == kids[j + 1];
      FoundGaps(kids[1..], n + 1, path, i - 1);
    }
  }

  lemma {:induction false} FoundClear(t: Tree, path: seq<byte>, q: seq<nat>)
    requires |path| > 0 && SLASH !in path && Find(t, path, true).Found? && Inside(t, q) && |q| > 0
    requires q == Find(t, path, true).pos || Earlier(q, Find(t, path, true).pos)
    ensures Sub(t, q).gap == 0
    decreases t
  {
    WholeComponent(path);
    var i := KidsFound(t.kids, 0, path, true);
    var found := Find(t.kids[i], path, true).pos;
    assert ([i] + found)[1..] == found;
    FoundGaps(t.kids, 0, path, q[0]);
    if |q| > 1 {
      if q[0] == i { FoundClear(t.kids[i], path, q[1..]); } else { SkipClear(t.kids[q[0]], path, q[1..]); }
    }
  }

  /** All that is written before a clear node is compact. */
  lemma {:induction false} CompactBefore(t: Tree)
    requires forall q :: Inside(t, q) && |q| > 0 ==> Sub(t, q).gap == 0
    ensures Compact(t)
    decreases t
  {
    forall k | k in t.kids ensures k.gap == 0 && Compact(k) {
      var i :| 0 <= i < |t.kids| && t.kids[i] == k;
      var p: seq<nat> := [i];
      assert p[1..] == [] && Inside(k, []) && Sub(k, []) == k;
      assert Inside(t, p) && Sub(t, p) == k;
      forall q | Inside(k, q) && |q| > 0 ensures Sub(k, q).gap == 0 {
        assert ([i] + q)[1..] == q;
        assert Inside(t, [i] + q) && Sub(t, [i] + q) == Sub(k, q);
      }
      CompactBefore(k);
    }
  }

  lemma ClearBefore(t: Tree, pos: seq<nat>, j: nat)
    requires Inside(t, pos) && Clear(t, pos) && |pos| > 0 && j <= pos[0]
    ensures t.kids[j].gap == 0 && (j < pos[0] ==> Compact(t.kids[j])) && (j == pos[0] ==> Clear(t.kids[j], pos[1..]))
  {
    var k := t.kids[j];
    forall q | Inside(k, q) && (j < pos[0] || q == pos[1..] || Earlier(q, pos[1..])) ensures Sub(k, q).gap == 0 {
      assert ([j] + q)[1..] == q;
      assert Inside(t, [j] + q) && Sub(t, [j] + q) == Sub(k, q);
      assert q == pos[1..] && j == pos[0] ==> [j] + q == pos;
      assert [j] + q == pos || Earlier([j] + q, pos);
    }
    assert Inside(k, []) && Sub(k, []) == k;
    if j < pos[0] { CompactBefore(k); }
  }

  lemma {:induction false} KidsReach(kids: seq<Tree>, n: nat, path: seq<byte>, i: nat)
    requires i < |kids| && (forall j :: 0 <= j <= i ==> kids[j].gap == 0) && Find(kids[i], path, true).Found?
    requires forall j :: 0 <= j < i ==> Find(kids[j], path, true) != Stop
    ensures FindKids(kids, n, path, true).Found?
    decreases i
  {
    if i > 0 && Find(kids[0], path, true) == Skip {
      assert forall j :: 0 <= j <= i - 1 ==> kids[1..][j] == kids[j + 1];
      KidsReach(kids[1..], n + 1, path, i - 1);
    }
  }

  lemma {:induction false} ClearFound(t: Tree, path: seq<byte>, pos: seq<nat>)
    requires |path| > 0 && SLASH !in path && Inside(t, pos) && Sub(t, pos).name == path && Clear(t, pos)
    ensures Find(t, path, true).Found?
    decreases t
  {
    WholeComponent(path);
    if t.name != path {
      forall j | 0 <= j <= pos[0]
        ensures t.kids[j].gap == 0 && (j < pos[0] ==> Find(t.kids[j], path, true) != Stop)
      {
        ClearBefore(t, pos, j);
        if j < pos[0] {
          CompactFind(t.kids[j], path);
          NeverStops(t.kids[j], path);
        }
      }
      ClearBefore(t, pos, pos[0]);
      ClearFound(t.kids[pos[0]], path, pos[1..]);
      KidsReach(t.kids, 0, path, pos[0]);
    }
  }

  /** A node with a given name is found just when there is one that no FDT_NOP between children comes
      before. */
  lemma FoundIffThere(t: Tree, path: seq<byte>)
    requires |path| > 0 && SLASH !in path
    ensures Find(t, path, true).Found? <==> exists pos :: Inside(t, pos) && Sub(t, pos).name == path && Clear(t, pos)
  {
    WholeComponent(path);
    if Find(t, path, true).Found? {
      FoundName(t, path, true);
      var pos := Find(t, path, true).pos;
      forall q | Inside(t, q) && |q| > 0 && (q == pos || Earlier(q, pos)) ensures Sub(t, q).gap == 0 {
        FoundClear(t, path, q);
      }
    }
    forall pos | Inside(t, pos) && Sub(t, pos).name == path && Clear(t, pos) ensures Find(t, path, true).Found? {
      ClearFound(t, path, pos);
    }
  }

  /** A path of several names leads to what its rest finds at the node that its first name finds. */
  lemma {:induction false} FindByNames(t: Tree, path: seq<byte>, strict: bool)
    requires 0 < |Component(path)| < |path|
    ensures var c, rest := Component(path), path[|Component(path)| + 1..];
      match Find(t, c, strict)
      case Found(pos) => Inside(t, pos) &&
        Find(t, path, strict) == (match Find(Sub(t, pos), rest, strict)
          case Found(more) => Found(pos + more)
          case _ => Stop)
      case o => Find(t, path, strict) == o
    decreases t
  {
    var c := Component(path);
    WholeComponent(c);
    if t.name == c {
      assert Find(t, c, strict) == Found([]);
      var o := Find(t, path[|c| + 1..], strict);
      if o.Found? { assert [] + o.pos == o.pos; }
    } else {
      FindKidsByNames(t.kids, 0, path, strict);
      if Find(t, c, strict).Found? {
        var pos := Find(t, c, strict).pos;
        assert pos[0] < |t.kids| && Inside(t.kids[pos[0]], pos[1..]);
      }
    }
  }

  lemma {:induction false} FindKidsByNames(kids: seq<Tree>, n: nat, path: seq<byte>, strict: bool)
    requires 0 < |Component(path)| < |path|
    ensures var c, rest := Component(path), path[|Component(path)| + 1..];
      match FindKids(kids, n, c, strict)
      case Found(pos) =>
        && |pos| > 0 && n <= pos[0] < n + |kids| && Inside(kids[pos[0] - n], pos[1..])
        && FindKids(kids, n, path, strict) == (match Find(Sub(kids[pos[0] - n], pos[1..]), rest, strict)
             case Found(more) => Found(pos + more)
             case _ => Stop)
      case o => FindKids(kids, n, path, strict) == o
    decreases kids
  {
    var c := Component(path);
    hide Component, Inside, Sub, Find;
    if |kids| > 0 {
      FindByNames(kids[0], path, strict);
      var o := Find(kids[0], c, strict);
      if o.Found? {
        assert ([n] + o.pos)[1..] == o.pos;
        InFirstKid(n, o.pos, Find(Sub(kids[0], o.pos), path[|c| + 1..], strict));
      } else if o.Skip? {
        FindKidsByNames(kids[1..], n + 1, path, strict);
      }
    }
  }

  lemma InFirstKid(n: nat, pos: seq<nat>, o: Outcome)
    ensures o.Found? ==> [n] + (pos + o.pos) == [n] + pos + o.pos
  {
  }

  /** No path at all stands for the node where the search begins, a slash behind a name makes no difference, and an
      empty name is never found. */
  lemma SlashAtEnd(t: Tree, name: seq<byte>, rest: seq<byte>, strict: bool)
    requires |name| > 0 && SLASH !in name
    ensures Find(t, [], strict) == Found([])
    ensures Find(t, name + [SLASH], strict) == Find(t, name, strict)
    ensures Find(t, [SLASH] + rest, strict) == Stop
  {
    var path := name + [SLASH];
    FirstComponent(name);
    FindByNames(t, path, strict);
    assert path[|name| + 1..] == [];
    var o := Find(t, name, strict);
    if o.Found? { assert o.pos + [] == o.pos; }
  }

  lemma {:induction false} FirstComponent(name: seq<byte>)
    requires SLASH !in name
    ensures Component(name + [SLASH]) == name
  {
    if |name| > 0 {
      FirstComponent(name[1..]);
      assert (name + [SLASH])[1..] == name[1..] + [SLASH];
    }
  }

  /** The search commits to the first node with the first name: the path a/x misses the x in the second
      of two nodes a. */
  lemma CommitMisses()
    ensures var x := Tree(0, [120], [], [], 0);
      var t := Tree(0, [], [], [Tree(0, [97], [], [], 0), Tree(0, [97], [], [x], 0)], 0);
      && NodeOk(t) && Inside(t, [1, 0]) && Sub(t, [1, 0]) == x && Compact(t)
      && Find(t, [97, SLASH, 120], true) == Stop
  {
    var x := Tree(0, [120], [], [], 0);
    var a, b := Tree(0, [97], [], [], 0), Tree(0, [97], [], [x], 0);
    var kids := [a, b];
    var t := Tree(0, [], [], kids, 0);
    var path: seq<byte> := [97, SLASH, 120];
    assert [120][1..] == [] && path[1..] == [SLASH, 120] && path[2..] == [120];
    assert Component([120]) == [120] && Component(path) == [97] + Component(path[1..]);
    assert [1, 0][1..] == [0] && [0][1..] == [];
    assert NodeOk(x) && NodeOk(a) && NodeOk(b) && Compact(x) && Compact(a) && Compact(b);
    assert Find(a, [120], true) == Skip;
    assert Find(a, path, true) == Stop;
  }

  lemma {:induction false} NeverStops(t: Tree, path: seq<byte>)
    requires |path| > 0 && SLASH !in path
    ensures Find(t, path, false) != Stop
    decreases t
  {
    WholeComponent(path);
    if t.name != path { NeverStopsKids(t.kids, 0, path); }
  }

  lemma {:induction false} NeverStopsKids(kids: seq<Tree>, n: nat, path: seq<byte>)
    requires |path| > 0 && SLASH !in path
    ensures FindKids(kids, n, path, false) != Stop
    decreases kids
  {
    if |kids| > 0 {
      NeverStops(kids[0], path);
      NeverStopsKids(kids[1..], n + 1, path);
    }
  }

  // ---------------------------------------------------------------- where nodes are

  function Size(t: Tree): nat
    requires NodeOk(t)
  {
    |NodeBytes(t)|
  }

  function ItemsSize(items: seq<Item>): nat
    requires forall i :: i in items ==> ItemOk(i)
  {
    if |items| == 0 then 0 else |ItemBytes(items[0])| + ItemsSize(items[1..])
  }

  /** How many bytes come before the children. */
  function Head(t: Tree): nat
    requires NodeOk(t)
  {
    4 + AlignUp(|t.name| + 1) + ItemsSize(t.items)
  }

  /** The offset of the i-th of several children whose bytes start at `off`. */
  ghost function KidOffset(kids: seq<Tree>, off: nat, i: nat): nat
    requires i < |kids| && forall k :: k in kids ==> NodeOk(k)
  {
    4 * kids[i].gap + if i == 0 then off else KidOffset(kids, off, i - 1) + Size(kids[i - 1])
  }

  /** The offset of a node in a tree whose bytes start at `off`. */
  ghost function OffsetOf(t: Tree, off: nat, pos: seq<nat>): nat
    requires NodeOk(t) && Inside(t, pos)
    decreases |pos|
  {
    if |pos| == 0 then off
    else OffsetOf(t.kids[pos[0]], KidOffset(t.kids, off + Head(t), pos[0]), pos[1..])
  }

  /** The node stands where it is said to stand. */
  lemma {:induction false} NodeThere(buf: seq<byte>, t: Tree, off: nat, pos: seq<nat>)
    requires NodeOk(t) && Inside(t, pos) && Holds(buf, off, NodeBytes(t))
    ensures NodeOk(Sub(t, pos)) && Holds(buf, OffsetOf(t, off, pos), NodeBytes(Sub(t, pos)))
    decreases |pos|
  {
    hide Holds, NodeBytes, Nops, Be, KidsThen;
    if |pos| > 0 {
      var rest := Nops(t.tail) + Be(END_NODE);
      KidsHeld(buf, t, off);
      KidThere(buf, t.kids, off + Head(t), rest, pos[0]);
      NodeThere(buf, t.kids[pos[0]], KidOffset(t.kids, off + Head(t), pos[0]), pos[1..]);
    }
  }

  lemma {:induction false} ItemsHeld(buf: seq<byte>, off: nat, items: seq<Item>, rest: seq<byte>)
    requires (forall i :: i in items ==> ItemOk(i)) && Holds(buf, off, ItemsThen(items, rest))
    ensures Holds(buf, off + ItemsSize(items), rest)
    ensures |ItemsThen(items, rest)| == ItemsSize(items) + |rest|
    decreases items
  {
    hide Holds, Be;
    if |items| > 0 {
      HoldsBoth(buf, off, ItemBytes(items[0]), ItemsThen(items[1..], rest));
      ItemsHeld(buf, off + |ItemBytes(items[0])|, items[1..], rest);
    }
  }

  lemma KidsHeld(buf: seq<byte>, t: Tree, off: nat)
    requires NodeOk(t) && Holds(buf, off, NodeBytes(t))
    ensures Holds(buf, off + Head(t), KidsThen(t.kids, Nops(t.tail) + Be(END_NODE)))
    ensures Size(t) == Head(t) + |KidsThen(t.kids, Nops(t.tail) + Be(END_NODE))|
  {
    hide Holds, Padded, ItemsThen, KidsThen, Nops, Be;
    var kids := KidsThen(t.kids, Nops(t.tail) + Be(END_NODE));
    HoldsBoth(buf, off, Be(BEGIN_NODE), Padded(t.name + [0]) + ItemsThen(t.items, kids));
    HoldsBoth(buf, off + 4, Padded(t.name + [0]), ItemsThen(t.items, kids));
    ItemsHeld(buf, off + 4 + |Padded(t.name + [0])|, t.items, kids);
  }

  lemma {:induction false} KidThere(buf: seq<byte>, kids: seq<Tree>, off: nat, rest: seq<byte>, i: nat)
    requires (forall k :: k in kids ==> NodeOk(k)) && Holds(buf, off, KidsThen(kids, rest)) && i < |kids|
    ensures Holds(buf, KidOffset(kids, off, i), NodeBytes(kids[i]))
    ensures Holds(buf, KidOffset(kids, off, i) + Size(kids[i]), KidsThen(kids[i + 1..], rest))
  {
    hide Holds, NodeBytes, Nops, Be;
    if i == 0 {
      HoldsBoth(buf, off, Nops(kids[0].gap), NodeBytes(kids[0]) + KidsThen(kids[1..], rest));
      HoldsBoth(buf, off + 4 * kids[0].gap, NodeBytes(kids[0]), KidsThen(kids[1..], rest));
    } else {
      KidThere(buf, kids, off, rest, i - 1);
      var at := KidOffset(kids, off, i - 1) + Size(kids[i - 1]);
      assert kids[i..][1..] == kids[i + 1..];
      HoldsBoth(buf, at, Nops(kids[i].gap), NodeBytes(kids[i]) + KidsThen(kids[i + 1..], rest));
      HoldsBoth(buf, at + 4 * kids[i].gap, NodeBytes(kids[i]), KidsThen(kids[i + 1..], rest));
    }
  }
}
