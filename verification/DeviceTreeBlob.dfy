/** Circle's search in the bytes of a device tree blob. */
module DeviceTreeBlob {
  import opened Common
  import opened DeviceTree


  lemma RootIs(t: Tree, off: nat)
    requires NodeOk(t)
    ensures Find(t, [], true) == Found([]) && OffsetOf(t, off, []) == off
  {
  }

  class DeviceTreeBlob {
    /** The blob; empty if there is none. */
    const ftd: seq<byte>

    constructor (buffer: seq<byte>)
      ensures ftd == buffer
    {
      ftd := buffer;
    }

    /** The blob has the structure block of `t`, after some FDT_NOPs, where its header says. */
    ghost predicate IsBlobOf(t: Tree)
      requires NodeOk(t)
    {
      40 <= |ftd| && Holds(ftd, WordAt(ftd, 8), Nops(t.gap) + NodeBytes(t))
    }

    method SkipNops(off: nat, ghost k: nat, ghost rest: seq<byte>, ghost token: nat) returns (r: nat)
      requires token < WORD && token != NOP && |rest| >= 4 && rest[..4] == Be(token)
      requires Holds(ftd, off, Nops(k) + rest)
      ensures r == off + 4 * k && r + 4 <= |ftd| && Holds(ftd, r, rest) && WordAt(ftd, r) == token
    {
      hide Holds, WordAt;
      r := off;
      ghost var n: nat := k;
      NopAhead(ftd, r, n, rest, token);
      while WordAt(ftd, r) == NOP
        invariant n <= k && r == off + 4 * (k - n) && Holds(ftd, r, Nops(n) + rest)
        invariant r + 4 <= |ftd| && WordAt(ftd, r) == if n > 0 then NOP else token
        decreases n
      {
        NopAhead(ftd, r, n, rest, token);
        r, n := r + 4, n - 1;
        NopAhead(ftd, r, n, rest, token);
      }
      assert Nops(0) + rest == rest;
    }

    /** The length of the zero-terminated string at `off`. */
    method StrLen(off: nat, ghost name: seq<byte>) returns (n: nat)
      requires 0 !in name && Holds(ftd, off, name + [0])
      ensures n == |name| && off + n <= |ftd| && ftd[off..off + n] == name
    {
      n := 0;
      assert forall i :: 0 <= i < |name| ==> name[i] in name;
      assert forall i :: 0 <= i <= |name| ==> ftd[off + i] == ftd[off..off + |name| + 1][i] == (name + [0])[i];
      while ftd[off + n] != 0
        invariant n <= |name|
        decreases |name| - n
      {
        n := n + 1;
      }
      assert ftd[off..off + n] == ftd[off..off + |name| + 1][..n];
    }

    /** Passes over properties and FDT_NOPs. */
    method SkipItems(off: nat, ghost items: seq<Item>, ghost k: nat, ghost rest: seq<byte>, ghost token: nat)
      returns (piece: nat)
      requires token < WORD && token != NOP && token != PROP && |rest| >= 4 && rest[..4] == Be(token)
      requires (forall i :: i in items ==> ItemOk(i)) && Holds(ftd, off, ItemsThen(items, Nops(k) + rest))
      ensures piece == off + ItemsSize(items) + 4 * k && piece + 4 <= |ftd|
      ensures Holds(ftd, piece, rest) && WordAt(ftd, piece) == token
    {
      hide Holds, WordAt, ItemBytes, ItemsThen, Nops, AlignUp;
      piece := off;
      ghost var left, m := items, k;
      NextItem(ftd, piece, left, m, rest, token);
      while WordAt(ftd, piece) == NOP || WordAt(ftd, piece) == PROP
        invariant forall i :: i in left ==> ItemOk(i)
        invariant piece + ItemsSize(left) + 4 * m == off + ItemsSize(items) + 4 * k
        invariant Holds(ftd, piece, ItemsThen(left, Nops(m) + rest))
        invariant NextToken(ftd, piece, left, m, token)
        decreases |left|, m
      {
        NextItem(ftd, piece, left, m, rest, token);
        var len := 4;
        if WordAt(ftd, piece) != NOP {
          len := 12 + AlignUp(WordAt(ftd, piece + 4));
        }
        piece := piece + len;
        if |left| > 0 {
          left := left[1..];
        } else {
          m := m - 1;
        }
        NextItem(ftd, piece, left, m, rest, token);
      }
      NoItems(rest);
    }

    /** Searches for a path in the node at `off`.  If nothing is found in it and `wantNext`, `next` is
        what follows the node. */
    method FindNodeInternal(path: seq<byte>, off: nat, wantNext: bool, ghost t: Tree, ghost gap: nat)
      returns (r: Option<nat>, next: Option<nat>)
      requires NodeOk(t) && Holds(ftd, off, Nops(gap) + NodeBytes(t))
      ensures Matches(t, path, off + 4 * gap, wantNext, r, next)
      decreases |path|, t
    {
      hide Holds, WordAt, NodeBytes, Nops, Be, FindKids, Size, Zeros, Padded, Clear, Compact;
      NodeStarts(t);
      var node := SkipNops(off, gap, NodeBytes(t), BEGIN_NODE);
      next := None;
      if |path| == 0 {
        return Some(node), None;
      }
      var component := Component(path);
      if |component| == 0 {
        return None, None;
      }
      NameHeld(ftd, t, node);
      var n := StrLen(node + 4, t.name);
      if ftd[node + 4..node + 4 + n] == component {
        if |component| < |path| {
          r, next := FindNodeInternal(path[|component| + 1..], node, false, t, 0) by { NoGap(ftd, t, node); }
          next := None;
        } else {
          r := Some(node);
        }
        return;
      }
      r, next := SearchKids(path, node, n, wantNext, t);
    }

    /** Searches the children of the node at `node`, whose name has `n` characters. */
    method SearchKids(path: seq<byte>, node: nat, n: nat, wantNext: bool, ghost t: Tree)
      returns (r: Option<nat>, next: Option<nat>)
      requires NodeOk(t) && Holds(ftd, node, NodeBytes(t)) && n == |t.name|
      requires |path| > 0 && |Component(path)| > 0 && t.name != Component(path)
      ensures Matches(t, path, node, wantNext, r, next)
      decreases |path|, t, 0
    {
      hide Holds, WordAt, NodeBytes, Nops, Be, Find;
      var piece: nat := node + 4 + AlignUp(n + 1);
      piece := PassItems(piece, node, t);
      r, next := None, None;
      ghost var k: nat := 0;
      ChildrenNext(t, path);
      while WordAt(ftd, piece) == BEGIN_NODE
        invariant k <= |t.kids| && AtKid(ftd, t, node, k, piece) && r == None
        invariant Find(t, path, true) == FindKids(t.kids[k..], k, path, true)
        decreases |t.kids| - k
      {
        KidHere(ftd, t, node, k, piece);
        r, next := FindNodeInternal(path, piece, true, t.kids[k], 0);
        KidResult(t, path, node, k, piece, r, next);
        if r != None {
          return r, None;
        }
        if next == None {
          return None, None;
        }
        KidPassed(ftd, t, node, k, piece);
        piece := next.value;
        k := k + 1;
      }
      next := SkipTail(piece, node, wantNext, t, k, path);
    }

    /** Passes over the items of a node, and over the FDT_NOPs behind them. */
    method PassItems(off: nat, node: nat, ghost t: Tree) returns (piece: nat)
      requires NodeOk(t) && Holds(ftd, node, NodeBytes(t)) && off == node + 4 + AlignUp(|t.name| + 1)
      ensures AtKid(ftd, t, node, 0, piece)
    {
      hide Holds, WordAt, NodeBytes, Nops, Be, ItemsThen, AlignUp;
      ItemsAhead(ftd, t, node);
      ghost var k := if |t.kids| == 0 then t.tail else 0;
      ghost var rest := if |t.kids| == 0 then Be(END_NODE) else KidsThen(t.kids, After(t));
      ghost var token := if |t.kids| == 0 then END_NODE else BEGIN_NODE;
      piece := SkipItems(off, t.items, k, rest, token);
      FirstKid(ftd, t, node, piece);
    }

    /** Behind the children: passes over FDT_NOPs and finds the end of the node. */
    method SkipTail(off: nat, node: nat, wantNext: bool, ghost t: Tree, ghost k: nat, ghost path: seq<byte>)
      returns (next: Option<nat>)
      requires NodeOk(t) && k <= |t.kids| && AtKid(ftd, t, node, k, off) && WordAt(ftd, off) != BEGIN_NODE
      requires Find(t, path, true) == FindKids(t.kids[k..], k, path, true)
      ensures Matches(t, path, node, wantNext, None, next)
    {
      hide Holds, WordAt, NodeBytes, Nops, Be, Find;
      TailAhead(ftd, t, node, k, off, path);
      ghost var n := if k < |t.kids| then t.kids[k].gap else TailLeft(t);
      ghost var rest :=
        if k < |t.kids| then NodeBytes(t.kids[k]) + KidsThen(t.kids[k + 1..], After(t)) else Be(END_NODE);
      ghost var token := if k < |t.kids| then BEGIN_NODE else END_NODE;
      var piece := SkipNops(off, n, rest, token);
      next := if WordAt(ftd, piece) == END_NODE && wantNext then Some(piece + 4) else None;
    }

    /** Searches for a path from the root, or from a node that was found before. */
    method FindNode(path: seq<byte>, parent: Option<nat>, ghost t: Tree) returns (r: Option<nat>)
      requires NodeOk(t) &&
        (if parent == None then ftd != [] ==> IsBlobOf(t) else Holds(ftd, parent.value, NodeBytes(t)))
      ensures ftd == [] || (parent == None && (|path| == 0 || path[0] != SLASH)) ==> r == None
      ensures ftd != [] && (parent == None ==> |path| > 0 && path[0] == SLASH) ==>
        var o := Find(t, if parent == None then path[1..] else path, true);
        var off := if parent == None then WordAt(ftd, 8) + 4 * t.gap else parent.value;
        && (r != None <==> o.Found?)
        && (o.Found? ==> Inside(t, o.pos) && r == Some(OffsetOf(t, off, o.pos)))
        && (o.Found? ==> NodeOk(Sub(t, o.pos)) && Holds(ftd, r.value, NodeBytes(Sub(t, o.pos))))
      ensures ftd != [] && parent == None && path == [SLASH] ==> r == Some(WordAt(ftd, 8) + 4 * t.gap)
      ensures ftd != [] && parent != None && path == [] ==> r == parent
    {
      hide Holds, NodeBytes, Nops, Find, WordAt, OffsetOf;
      if |ftd| == 0 {
        return None;
      }
      var rest, node := path, 0;
      ghost var gap := 0;
      if parent == None {
        node := WordAt(ftd, 8);
        gap := t.gap;
        if |path| == 0 || path[0] != SLASH {
          return None;
        }
        rest := path[1..];
        assert |path| == 1 ==> rest == [];
        HoldsBoth(ftd, node, Nops(gap), NodeBytes(t));
        NopsSize(gap);
      } else {
        node := parent.value;
        NoGap(ftd, t, node);
      }
      var next;
      r, next := FindNodeInternal(rest, node, false, t, gap);
      RootIs(t, node + 4 * gap);
      if Find(t, rest, true).Found? {
        NodeThere(ftd, t, node + 4 * gap, Find(t, rest, true).pos);
      }
    }

    /** Compares the zero-terminated string at `off` with a name. */
    method NameIs(off: nat, name: seq<byte>, ghost there: seq<byte>) returns (same: bool)
      requires 0 !in there && Holds(ftd, off, there + [0])
      ensures same <==> name == there
    {
      var n := StrLen(off, there);
      same := ftd[off..off + n] == name;
    }

    /** The offset of the first property of the node with the given name. */
    method FindProperty(node: nat, name: seq<byte>, ghost t: Tree, ghost names: map<nat, seq<byte>>)
      returns (r: Option<nat>)
      requires NodeOk(t) && Holds(ftd, node, NodeBytes(t)) && 16 <= |ftd|
      requires forall o :: o in names ==> 0 !in names[o] && Holds(ftd, WordAt(ftd, 12) + o, names[o] + [0])
      requires forall i :: i in t.items && i.Prop? ==> i.nameoff in names
      ensures var i := FirstProp(t.items, names, name);
        && (r != None <==> i < |t.items|)
        && (i < |t.items| ==>
             && t.items[i] in t.items && r.value == node + 4 + AlignUp(|t.name| + 1) + ItemsSize(t.items[..i])
             && Holds(ftd, r.value, ItemBytes(t.items[i])))
    {
      hide Holds, WordAt, NodeBytes, ItemBytes, AlignUp, ItemsThen, Nops, Be;
      NameHeld(ftd, t, node);
      var n := StrLen(node + 4, t.name);
      var start := node + 4 + AlignUp(n + 1);
      ItemsAhead(ftd, t, node);
      ghost var k := if |t.kids| == 0 then t.tail else 0;
      ghost var rest := if |t.kids| == 0 then Be(END_NODE) else KidsThen(t.kids, After(t));
      ghost var token := if |t.kids| == 0 then END_NODE else BEGIN_NODE;
      r := SearchItems(start, name, t.items, names, k, rest, token);
      PropOffsetIs(t.items, names, name, start);
      ghost var i := FirstProp(t.items, names, name);
      if i < |t.items| {
        ItemThere(ftd, start, t.items, i, Nops(k) + rest);
      }
    }

    /** Walks over properties and FDT_NOPs until a property has the given name. */
    method SearchItems(off: nat, name: seq<byte>, ghost items: seq<Item>, ghost names: map<nat, seq<byte>>,
                       ghost k: nat, ghost rest: seq<byte>, ghost token: nat) returns (r: Option<nat>)
      requires token < WORD && token != NOP && token != PROP && |rest| >= 4 && rest[..4] == Be(token) && 16 <= |ftd|
      requires (forall i :: i in items ==> ItemOk(i)) && Holds(ftd, off, ItemsThen(items, Nops(k) + rest))
      requires forall o :: o in names ==> 0 !in names[o] && Holds(ftd, WordAt(ftd, 12) + o, names[o] + [0])
      requires forall i :: i in items && i.Prop? ==> i.nameoff in names
      ensures r == PropOffset(items, names, name, off)
    {
      hide Holds, WordAt, ItemBytes, ItemsThen, Nops, AlignUp, Be;
      var piece: nat := off;
      ghost var left, m := items, k;
      NextItem(ftd, piece, left, m, rest, token);
      while WordAt(ftd, piece) == PROP || WordAt(ftd, piece) == NOP
        invariant forall i :: i in left ==> ItemOk(i) && (i.Prop? ==> i.nameoff in names)
        invariant Holds(ftd, piece, ItemsThen(left, Nops(m) + rest)) && NextToken(ftd, piece, left, m, token)
        invariant PropOffset(items, names, name, off) == PropOffset(left, names, name, piece)
        decreases |left|, m
      {
        NextItem(ftd, piece, left, m, rest, token);
        var len := 4;
        if WordAt(ftd, piece) != NOP {
          NameOffset(ftd, piece, left, m, rest);
          assert left[0] in left;
          var same := NameIs(WordAt(ftd, 12) + WordAt(ftd, piece + 8), name, names[left[0].nameoff]);
          if same {
            return Some(piece);
          }
          len := 12 + AlignUp(WordAt(ftd, piece + 4));
        }
        piece := piece + len;
        if |left| > 0 {
          left := left[1..];
        } else {
          m := m - 1;
        }
        NextItem(ftd, piece, left, m, rest, token);
      }
      r := None;
    }

    /** The word with number `n` of a property, or 0 if it is too short.  Offsets wrap at 32 bits: far
        beyond the property its words come again, and once the word in front of it. */
    method GetPropertyValueWord(prop: nat, n: nat, ghost nameoff: nat, ghost data: seq<byte>) returns (w: nat)
      requires nameoff < WORD && |data| < WORD && Holds(ftd, prop, ItemBytes(Prop(nameoff, data)))
      requires |ftd| <= WORD && n < WORD
      ensures var end := WordEnd(n);
        w == if end > |data| then 0 else if end == 0 then nameoff else WordAt(data, end - 4)
    {
      hide Holds, WordAt, ItemBytes, Padded;
      PropHeld(ftd, prop, nameoff, data);
      if !WordAllowed(WordAt(ftd, prop + 4), n) {
        return 0;
      }
      WordOffset(prop, n, |data|, |ftd|);
      w := WordAt(ftd, (prop + 12 + 4 * n) % WORD);
      if WordEnd(n) > 0 { WordInside(ftd, prop + 12, data, WordEnd(n) - 4); }
    }
  }

  /** The end of a word in a property, counted in 32 bits. */
  function WordEnd(n: nat): (end: nat)
    ensures end % 4 == 0 && end < WORD
  {
    (4 * n + 4) % WORD
  }

  /** Where a word is that the comparison allows. */
  lemma WordOffset(prop: nat, n: nat, len: nat, size: nat)
    requires prop + 12 + len <= size <= WORD && n < WORD && WordEnd(n) <= len
    ensures var end := WordEnd(n);
      (prop + 12 + 4 * n) % WORD == (if end == 0 then prop + 8 else prop + 12 + (end - 4)) && (end > 0 ==> end >= 4)
  {
    var k, end := (4 * n + 4) / WORD, (4 * n + 4) % WORD;
    assert 4 * n + 4 == WORD * k + end;
    assert prop + 12 + 4 * n == WORD * k + (prop + 8 + end);
  }

  lemma WordInside(buf: seq<byte>, off: nat, data: seq<byte>, k: nat)
    requires Holds(buf, off, data) && k + 4 <= |data|
    ensures off + k + 4 <= |buf| && WordAt(buf, off + k) == WordAt(data, k)
  {
    var s := buf[off..off + |data|];
    assert s[k] == buf[off + k] && s[k + 1] == buf[off + k + 1] && s[k + 2] == buf[off + k + 2];
    assert s[k + 3] == buf[off + k + 3];
  }

  lemma NopsSize(k: nat)
    ensures |Nops(k)| == 4 * k
  {
  }

  lemma PropHeld(buf: seq<byte>, off: nat, nameoff: nat, data: seq<byte>)
    requires nameoff < WORD && |data| < WORD && Holds(buf, off, ItemBytes(Prop(nameoff, data)))
    ensures off + 12 + |data| <= |buf| && WordAt(buf, off) == PROP
    ensures WordAt(buf, off + 4) == |data| && WordAt(buf, off + 8) == nameoff
    ensures Holds(buf, off + 12, data)
  {
    hide Holds, WordAt, Be, Zeros, AlignUp;
    HoldsBoth(buf, off, Be(PROP) + Be(|data|) + Be(nameoff), Padded(data));
    HoldsBoth(buf, off, Be(PROP) + Be(|data|), Be(nameoff));
    HoldsBoth(buf, off, Be(PROP), Be(|data|));
    WordFirst(buf, off, Be(PROP), PROP);
    WordFirst(buf, off + 4, Be(|data|), |data|);
    WordFirst(buf, off + 8, Be(nameoff), nameoff);
    HoldsBoth(buf, off + 12, data, Zeros(AlignUp(|data|) - |data|));
    HeldInside(buf, off + 12, data);
  }

  lemma HeldInside(buf: seq<byte>, off: nat, s: seq<byte>)
    requires Holds(buf, off, s)
    ensures off + |s| <= |buf|
  {
  }

  lemma NameOffset(buf: seq<byte>, off: nat, items: seq<Item>, k: nat, rest: seq<byte>)
    requires (forall i :: i in items ==> ItemOk(i)) && |items| > 0 && items[0].Prop?
    requires Holds(buf, off, ItemsThen(items, Nops(k) + rest))
    ensures off + 12 <= |buf| && WordAt(buf, off + 8) == items[0].nameoff
  {
    hide Holds, WordAt, ItemBytes;
    HoldsBoth(buf, off, ItemBytes(items[0]), ItemsThen(items[1..], Nops(k) + rest));
    PropHeld(buf, off, items[0].nameoff, items[0].data);
  }

  /** The first property with the given name; names stand in the strings block. */
  ghost function FirstProp(items: seq<Item>, names: map<nat, seq<byte>>, name: seq<byte>): (i: nat)
    ensures i <= |items|
    ensures i < |items| ==> items[i].Prop? && items[i].nameoff in names && names[items[i].nameoff] == name
    ensures forall j :: 0 <= j < i && items[j].Prop? && items[j].nameoff in names ==> names[items[j].nameoff] != name
  {
    if |items| == 0 then 0
    else if items[0].Prop? && items[0].nameoff in names && names[items[0].nameoff] == name then 0
    else 1 + FirstProp(items[1..], names, name)
  }

  /** Where the first property with the given name starts. */
  ghost function PropOffset(items: seq<Item>, names: map<nat, seq<byte>>, name: seq<byte>, off: nat): Option<nat>
    requires forall i :: i in items ==> ItemOk(i)
    decreases items
  {
    if |items| == 0 then None
    else if items[0].Prop? && items[0].nameoff in names && names[items[0].nameoff] == name then Some(off)
    else PropOffset(items[1..], names, name, off + |ItemBytes(items[0])|)
  }

  lemma {:induction false} PropOffsetIs(items: seq<Item>, names: map<nat, seq<byte>>, name: seq<byte>, off: nat)
    requires forall i :: i in items ==> ItemOk(i)
    ensures var i := FirstProp(items, names, name);
      PropOffset(items, names, name, off) == if i < |items| then Some(off + ItemsSize(items[..i])) else None
    decreases items
  {
    hide ItemBytes;
    if |items| > 0 && !(items[0].Prop? && items[0].nameoff in names && names[items[0].nameoff] == name) {
      PropOffsetIs(items[1..], names, name, off + |ItemBytes(items[0])|);
      var i := FirstProp(items, names, name);
      assert items[..i][1..] == items[1..][..i - 1];
    }
  }

  lemma ItemThere(buf: seq<byte>, off: nat, items: seq<Item>, i: nat, rest: seq<byte>)
    requires (forall x :: x in items ==> ItemOk(x)) && i < |items| && Holds(buf, off, ItemsThen(items, rest))
    ensures items[i] in items && Holds(buf, off + ItemsSize(items[..i]), ItemBytes(items[i]))
    decreases i
  {
    hide Holds, ItemBytes;
    HoldsBoth(buf, off, ItemBytes(items[0]), ItemsThen(items[1..], rest));
    if i > 0 {
      ItemThere(buf, off + |ItemBytes(items[0])|, items[1..], i - 1, rest);
      assert items[..i][1..] == items[1..][..i - 1];
    }
  }

  /** The word `n` of a property with `len` bytes is read if a 32-bit comparison allows it. */
  predicate WordAllowed(len: nat, n: nat) {
    len >= (n + 1) * 4 % WORD
  }

  /** The comparison is right unless the offset overflows and the property is long enough for what
      is left of it. */
  lemma WordAllowedRight(len: nat, n: nat)
    requires len < WORD && n < WORD
    ensures (WordAllowed(len, n) <==> 4 * n + 4 <= len) <==> (4 * n + 4 < WORD || len < (4 * n + 4) % WORD)
  {
  }

  /** The result of a search in the tree `t` whose bytes start at `off`. */
  ghost predicate Matches(t: Tree, path: seq<byte>, off: nat, wantNext: bool, r: Option<nat>, next: Option<nat>)
    requires NodeOk(t)
  {
    match Find(t, path, true)
    case Found(pos) => Inside(t, pos) && r == Some(OffsetOf(t, off, pos)) && next == None
    case Skip => r == None && next == if wantNext then Some(off + Size(t)) else None
    case Stop => r == None && next == None
  }

  /** What follows the children of a node. */
  function After(t: Tree): seq<byte> {
    Nops(t.tail) + Be(END_NODE)
  }

  /** FDT_NOPs behind the children; without children they have been passed over with the items. */
  function TailLeft(t: Tree): nat {
    if |t.kids| == 0 then 0 else t.tail
  }

  /** The search has come to the k-th child of the node at `node`, or behind the last one. */
  ghost predicate AtKid(buf: seq<byte>, t: Tree, node: nat, k: nat, piece: nat)
    requires NodeOk(t) && k <= |t.kids|
  {
    && piece + 4 <= |buf|
    && if k < |t.kids| then
         && Holds(buf, piece, KidsThen(t.kids[k..], After(t)))
         && piece + 4 * t.kids[k].gap == KidOffset(t.kids, node + Head(t), k)
         && WordAt(buf, piece) == (if t.kids[k].gap > 0 then NOP else BEGIN_NODE)
         && piece + |KidsThen(t.kids[k..], After(t))| == node + Size(t)
       else
         && Holds(buf, piece, Nops(TailLeft(t)) + Be(END_NODE))
         && WordAt(buf, piece) == (if TailLeft(t) > 0 then NOP else END_NODE)
         && piece + 4 * TailLeft(t) + 4 == node + Size(t)
  }

  lemma ChildrenNext(t: Tree, path: seq<byte>)
    requires |path| > 0 && |Component(path)| > 0 && t.name != Component(path)
    ensures Find(t, path, true) == FindKids(t.kids[0..], 0, path, true)
  {
    assert t.kids[0..] == t.kids;
  }

  lemma NodeStarts(t: Tree)
    requires NodeOk(t)
    ensures |NodeBytes(t)| >= 4 && NodeBytes(t)[..4] == Be(BEGIN_NODE)
  {
  }

  lemma NoGap(buf: seq<byte>, t: Tree, node: nat)
    requires NodeOk(t) && Holds(buf, node, NodeBytes(t))
    ensures Holds(buf, node, Nops(0) + NodeBytes(t))
  {
    assert Nops(0) + NodeBytes(t) == NodeBytes(t);
  }

  lemma NameHeld(buf: seq<byte>, t: Tree, node: nat)
    requires NodeOk(t) && Holds(buf, node, NodeBytes(t))
    ensures Holds(buf, node + 4, t.name + [0])
    ensures Holds(buf, node + 4 + AlignUp(|t.name| + 1), ItemsThen(t.items, KidsThen(t.kids, After(t))))
  {
    hide Holds, Be, AlignUp, ItemsThen, KidsThen;
    var kids := KidsThen(t.kids, After(t));
    HoldsBoth(buf, node, Be(BEGIN_NODE), Padded(t.name + [0]) + ItemsThen(t.items, kids));
    HoldsBoth(buf, node + 4, Padded(t.name + [0]), ItemsThen(t.items, kids));
    HoldsBoth(buf, node + 4, t.name + [0], Zeros(AlignUp(|t.name + [0]|) - |t.name + [0]|));
  }

  lemma KidsStart(t: Tree, k: nat)
    requires NodeOk(t) && k < |t.kids| && t.kids[k].gap == 0
    ensures var s := KidsThen(t.kids[k..], After(t)); |s| >= 4 && s[..4] == Be(BEGIN_NODE)
  {
    NodeStarts(t.kids[k]);
    assert Nops(0) + (NodeBytes(t.kids[k]) + KidsThen(t.kids[k..][1..], After(t)))
      == NodeBytes(t.kids[k]) + KidsThen(t.kids[k..][1..], After(t));
  }

  lemma ItemsAhead(buf: seq<byte>, t: Tree, node: nat)
    requires NodeOk(t) && Holds(buf, node, NodeBytes(t))
    ensures var rest := if |t.kids| == 0 then Be(END_NODE) else KidsThen(t.kids, After(t));
      && |rest| >= 4 && rest[..4] == Be(if |t.kids| == 0 then END_NODE else BEGIN_NODE)
      && Holds(buf, node + 4 + AlignUp(|t.name| + 1),
               ItemsThen(t.items, Nops(if |t.kids| == 0 then t.tail else 0) + rest))
  {
    hide Holds, Be, AlignUp, ItemsThen, NodeBytes;
    NameHeld(buf, t, node);
    if |t.kids| > 0 {
      assert t.kids[0..] == t.kids;
      KidsStart(t, 0);
      assert Nops(0) + KidsThen(t.kids, After(t)) == KidsThen(t.kids, After(t));
    }
  }

  lemma FirstKid(buf: seq<byte>, t: Tree, node: nat, piece: nat)
    requires NodeOk(t) && Holds(buf, node, NodeBytes(t)) && piece + 4 <= |buf|
    requires piece == node + Head(t) + 4 * if |t.kids| == 0 then t.tail else 0
    requires Holds(buf, piece, if |t.kids| == 0 then Be(END_NODE) else KidsThen(t.kids, After(t)))
    requires WordAt(buf, piece) == if |t.kids| == 0 then END_NODE else BEGIN_NODE
    ensures AtKid(buf, t, node, 0, piece)
  {
    hide Holds, WordAt, NodeBytes;
    KidsHeld(buf, t, node);
    assert t.kids[0..] == t.kids;
    assert Nops(0) + Be(END_NODE) == Be(END_NODE);
  }

  lemma KidHere(buf: seq<byte>, t: Tree, node: nat, k: nat, piece: nat)
    requires NodeOk(t) && k <= |t.kids| && AtKid(buf, t, node, k, piece) && WordAt(buf, piece) == BEGIN_NODE
    ensures k < |t.kids| && t.kids[k].gap == 0 && t.kids[k] in t.kids && piece == KidOffset(t.kids, node + Head(t), k)
    ensures Holds(buf, piece, Nops(0) + NodeBytes(t.kids[k]))
  {
    hide Holds, WordAt, NodeBytes, Head;
    var rest := KidsThen(t.kids[k..][1..], After(t));
    assert Nops(0) + (NodeBytes(t.kids[k]) + rest) == (Nops(0) + NodeBytes(t.kids[k])) + rest;
    HoldsBoth(buf, piece, Nops(0) + NodeBytes(t.kids[k]), rest);
  }

  lemma KidResult(t: Tree, path: seq<byte>, node: nat, k: nat, piece: nat, r: Option<nat>, next: Option<nat>)
    requires NodeOk(t) && k < |t.kids| && t.kids[k].gap == 0 && piece == KidOffset(t.kids, node + Head(t), k)
    requires Find(t, path, true) == FindKids(t.kids[k..], k, path, true)
    requires Matches(t.kids[k], path, piece, true, r, next)
    ensures r != None || next == None ==>
      Matches(t, path, node, true, r, None) && Matches(t, path, node, false, r, None)
    ensures r == None && next != None ==>
      next == Some(piece + Size(t.kids[k])) && Find(t, path, true) == FindKids(t.kids[k + 1..], k + 1, path, true)
  {
    hide Head, Size;
    assert t.kids[k..][1..] == t.kids[k + 1..];
    match Find(t.kids[k], path, true)
    case Found(pos) => assert ([k] + pos)[1..] == pos;
    case Skip =>
    case Stop =>
  }

  lemma KidPassed(buf: seq<byte>, t: Tree, node: nat, k: nat, piece: nat)
    requires NodeOk(t) && k < |t.kids| && t.kids[k].gap == 0 && AtKid(buf, t, node, k, piece)
    ensures AtKid(buf, t, node, k + 1, piece + Size(t.kids[k]))
  {
    hide Holds, WordAt, NodeBytes, Head, Be;
    var kid, rest := t.kids[k], KidsThen(t.kids[k..][1..], After(t));
    assert t.kids[k..][1..] == t.kids[k + 1..];
    assert Nops(0) + (NodeBytes(kid) + rest) == NodeBytes(kid) + rest;
    HoldsBoth(buf, piece, NodeBytes(kid), rest);
    var at := piece + Size(kid);
    if k + 1 < |t.kids| {
      KidAhead(buf, t, k + 1, at);
    } else {
      NopAhead(buf, at, t.tail, Be(END_NODE), END_NODE);
    }
  }

  lemma KidAhead(buf: seq<byte>, t: Tree, k: nat, at: nat)
    requires NodeOk(t) && k < |t.kids| && Holds(buf, at, KidsThen(t.kids[k..], After(t)))
    ensures at + 4 <= |buf| && WordAt(buf, at) == if t.kids[k].gap > 0 then NOP else BEGIN_NODE
  {
    hide Holds, WordAt, NodeBytes, Be, After, Nops;
    var kid := t.kids[k];
    var more := NodeBytes(kid) + KidsThen(t.kids[k..][1..], After(t));
    NodeStarts(kid);
    assert more[..4] == NodeBytes(kid)[..4];
    NopAhead(buf, at, kid.gap, more, BEGIN_NODE);
  }

  lemma TailAhead(buf: seq<byte>, t: Tree, node: nat, k: nat, piece: nat, path: seq<byte>)
    requires NodeOk(t) && k <= |t.kids| && AtKid(buf, t, node, k, piece) && WordAt(buf, piece) != BEGIN_NODE
    ensures FindKids(t.kids[k..], k, path, true) == if k < |t.kids| then Stop else Skip
    ensures k < |t.kids| ==> NodeOk(t.kids[k]) && t.kids[k].gap > 0
    ensures k < |t.kids| ==>
      var rest := NodeBytes(t.kids[k]) + KidsThen(t.kids[k + 1..], After(t));
      |rest| >= 4 && rest[..4] == Be(BEGIN_NODE) && Holds(buf, piece, Nops(t.kids[k].gap) + rest)
  {
    hide Holds, WordAt, NodeBytes, Head;
    if k < |t.kids| {
      assert t.kids[k] in t.kids && t.kids[k..][1..] == t.kids[k + 1..];
      NodeStarts(t.kids[k]);
    }
  }

  lemma NoItems(rest: seq<byte>)
    ensures ItemsThen([], Nops(0) + rest) == rest
  {
  }

  lemma WordFirst(buf: seq<byte>, off: nat, s: seq<byte>, token: nat)
    requires token < WORD && |s| >= 4 && s[..4] == Be(token) && Holds(buf, off, s)
    ensures off + 4 <= |buf| && WordAt(buf, off) == token
  {
    assert s == Be(token) + s[4..];
    HoldsBoth(buf, off, Be(token), s[4..]);
    WordHeld(buf, off, token);
  }

  lemma NopAhead(buf: seq<byte>, off: nat, n: nat, rest: seq<byte>, token: nat)
    requires token < WORD && |rest| >= 4 && rest[..4] == Be(token)
    requires Holds(buf, off, Nops(n) + rest)
    ensures off + 4 <= |buf| && WordAt(buf, off) == if n > 0 then NOP else token
    ensures n > 0 ==> Holds(buf, off + 4, Nops(n - 1) + rest)
  {
    if n > 0 {
      assert Nops(n) + rest == Be(NOP) + (Nops(n - 1) + rest);
      HoldsBoth(buf, off, Be(NOP), Nops(n - 1) + rest);
      WordHeld(buf, off, NOP);
    } else {
      assert Nops(n) + rest == rest;
      WordFirst(buf, off, rest, token);
    }
  }

  /** What the token in front of items, FDT_NOPs and something else tells. */
  ghost predicate NextToken(buf: seq<byte>, off: nat, items: seq<Item>, k: nat, token: nat) {
    && off + 4 <= |buf|
    && if |items| > 0 then
         match items[0]
         case Nop => WordAt(buf, off) == NOP
         case Prop(_, data) => WordAt(buf, off) == PROP && off + 8 <= |buf| && WordAt(buf, off + 4) == |data|
       else WordAt(buf, off) == if k > 0 then NOP else token
  }

  lemma ItemHeld(buf: seq<byte>, off: nat, i: Item)
    requires ItemOk(i) && Holds(buf, off, ItemBytes(i))
    ensures |ItemBytes(i)| == match i case Nop => 4 case Prop(_, data) => 12 + AlignUp(|data|)
    ensures off + 4 <= |buf| && WordAt(buf, off) == if i.Nop? then NOP else PROP
    ensures i.Prop? ==> off + 8 <= |buf| && WordAt(buf, off + 4) == |i.data|
  {
    hide Holds, WordAt;
    match i
    case Nop => WordFirst(buf, off, Be(NOP), NOP);
    case Prop(nameoff, data) => PropHeld(buf, off, nameoff, data);
  }

  lemma NextItem(buf: seq<byte>, off: nat, items: seq<Item>, k: nat, rest: seq<byte>, token: nat)
    requires token < WORD && |rest| >= 4 && rest[..4] == Be(token)
    requires (forall i :: i in items ==> ItemOk(i)) && Holds(buf, off, ItemsThen(items, Nops(k) + rest))
    ensures NextToken(buf, off, items, k, token)
    ensures |items| > 0 ==> Holds(buf, off + |ItemBytes(items[0])|, ItemsThen(items[1..], Nops(k) + rest))
    ensures |items| > 0 ==>
      |ItemBytes(items[0])| == match items[0] case Nop => 4 case Prop(_, data) => 12 + AlignUp(|data|)
    ensures |items| == 0 && k > 0 ==> Holds(buf, off + 4, ItemsThen([], Nops(k - 1) + rest))
  {
    hide Holds, WordAt, ItemBytes, Nops, Be;
    if |items| > 0 {
      HoldsBoth(buf, off, ItemBytes(items[0]), ItemsThen(items[1..], Nops(k) + rest));
      ItemHeld(buf, off, items[0]);
    } else {
      NopAhead(buf, off, k, rest, token);
    }
  }
}
