/** Replacing a range of text in a CodeMirror document, line by line. */
module LineEdit {
  import opened Common
  import opened StyledText
  import opened ChunkShape
  import opened ChunkChain
  import opened ChunkTree

  // ---------------------------------------------------------------- what a document shows

  ghost predicate Known(rows: seq<Row>, ln: map<Id, Line>) {
    forall i :: 0 <= i < |rows| ==> rows[i].line in ln
  }

  /** The lines of a document as they are shown. */
  ghost function View(rows: seq<Row>, ln: map<Id, Line>): (v: seq<seq<Glyph>>)
    requires Known(rows, ln)
    ensures |v| == |rows| && forall i :: 0 <= i < |rows| ==> v[i] == Glyphs(ln[rows[i].line].styles)
  {
    seq(|rows|, i requires 0 <= i < |rows| => Glyphs(ln[rows[i].line].styles))
  }

  /** The style fragments of each line make up its text. */
  ghost predicate WellStyled(ln: map<Id, Line>) {
    forall l :: l in ln ==> Letters(Glyphs(ln[l].styles)) == ln[l].text
  }

  ghost predicate Sound(doc: Document, h: bool)
    reads doc
  {
    doc.Valid(h) && doc.FreshLines() && WellStyled(doc.ln)
  }

  lemma AllKnown(st: State)
    requires InvBut({}, st)
    ensures st.root in st.info && Known(st.info[st.root].rows, st.ln) && NoLineTwice(st.info[st.root].rows)
  {
    assert Linked(st, st.root) && Ok(st, st.root);
    forall i | 0 <= i < |st.info[st.root].rows| ensures st.info[st.root].rows[i].line in st.ln {
      RowHeight(st, st.root, i);
    }
  }

  ghost function Shown(doc: Document, h: bool): seq<seq<Glyph>>
    requires doc.Valid(h)
    reads doc
  {
    AllKnown(doc.St(h));
    View(doc.Rows(h), doc.ln)
  }

  datatype Pos = Pos(line: nat, ch: nat)

  predicate Within(view: seq<seq<Glyph>>, from: Pos, to: Pos) {
    && from.line <= to.line < |view| && from.ch <= |view[from.line]| && to.ch <= |view[to.line]|
    && (from.line == to.line ==> from.ch <= to.ch)
  }

  /** The place where a position is looked up: a line past the end wraps round. */
  function Found(view: seq<seq<Glyph>>, p: Pos): Pos
    requires |view| > 0
  {
    Pos(Wrapped(p.line, |view|), p.ch)
  }

  /** A range of the document; if it ends past the last line, the lookup wraps round to its first line. */
  predicate Reaches(view: seq<seq<Glyph>>, from: Pos, to: Pos) {
    && |view| > 0 && Within(view, from, Found(view, to))
    && (to.line < |view| || Found(view, to).line == from.line)
  }

  function Painted(texts: seq<string>): (r: seq<seq<Glyph>>)
    ensures |r| == |texts| && forall i :: 0 <= i < |texts| ==> r[i] == Paint(texts[i], Plain)
  {
    seq(|texts|, i requires 0 <= i < |texts| => Paint(texts[i], Plain))
  }

  /** `texts` between the start and the end of a line, unstyled. */
  function Between(before: seq<Glyph>, texts: seq<string>, after: seq<Glyph>): seq<seq<Glyph>>
    requires |texts| > 0
  {
    var n := |texts| - 1;
    if n == 0 then [before + Paint(texts[0], Plain) + after]
    else [before + Paint(texts[0], Plain)] + Painted(texts[1..n]) + [Paint(texts[n], Plain) + after]
  }

  /** The document with the text from `from` to `to` replaced by the lines `texts`. */
  function Woven(view: seq<seq<Glyph>>, from: Pos, to: Pos, texts: seq<string>): seq<seq<Glyph>>
    requires Within(view, from, to) && |texts| > 0
  {
    view[..from.line] + Between(view[from.line][..from.ch], texts, view[to.line][to.ch..]) + view[to.line + 1..]
  }

  // ---------------------------------------------------------------- the text as one string

  const NEWLINE := Glyph('\n', Plain)

  /** All lines with newlines between them. */
  function Join(lines: seq<seq<Glyph>>): seq<Glyph> {
    if |lines| == 0 then []
    else if |lines| == 1 then lines[0]
    else lines[0] + [NEWLINE] + Join(lines[1..])
  }

  /** Lines, each followed by a newline. */
  function Terminated(lines: seq<seq<Glyph>>): seq<Glyph> {
    if |lines| == 0 then [] else lines[0] + [NEWLINE] + Terminated(lines[1..])
  }

  lemma {:induction false} JoinAppend(a: seq<seq<Glyph>>, b: seq<seq<Glyph>>)
    requires |b| > 0
    ensures Join(a + b) == Terminated(a) + Join(b)
  {
    if |a| == 0 {
      assert a + b == b;
    } else {
      assert (a + b)[1..] == a[1..] + b;
      JoinAppend(a[1..], b);
    }
  }

  /** How many characters, newlines included, come before a position. */
  function Offset(view: seq<seq<Glyph>>, p: Pos): nat
    requires p.line < |view|
  {
    |Terminated(view[..p.line])| + p.ch
  }

  function Rest(lines: seq<seq<Glyph>>): seq<Glyph> {
    if |lines| == 0 then [] else [NEWLINE] + Join(lines)
  }

  lemma JoinAround(a: seq<seq<Glyph>>, line: seq<Glyph>, b: seq<seq<Glyph>>)
    ensures Join(a + [line] + b) == Terminated(a) + line + Rest(b)
  {
    assert a + [line] + b == a + ([line] + b);
    JoinAppend(a, [line] + b);
    if |b| > 0 { assert ([line] + b)[1..] == b; } else { assert [line] + b == [line]; }
  }

  lemma JoinEnds(first: seq<Glyph>, mid: seq<seq<Glyph>>, last: seq<Glyph>)
    ensures Join([first] + mid + [last]) == first + ([NEWLINE] + Terminated(mid)) + last
  {
    assert ([first] + mid)[1..] == mid;
    assert [first] + mid + [last] + [] == [first] + mid + [last];
    JoinAround([first] + mid, last, []);
  }

  lemma JoinBetween(before: seq<Glyph>, texts: seq<string>, after: seq<Glyph>)
    requires |texts| > 0
    ensures |Between(before, texts, after)| == |texts|
    ensures Join(Between(before, texts, after)) == before + Join(Painted(texts)) + after
  {
    var n := |texts| - 1;
    if n > 0 {
      var mid, last := Painted(texts[1..n]), Paint(texts[n], Plain);
      var first := Paint(texts[0], Plain);
      assert Painted(texts) == [first] + mid + [last];
      hide Join, Painted, Paint;
      JoinEnds(first, mid, last);
      JoinEnds(before + first, mid, last + after);
    } else {
      assert Painted(texts) == [Paint(texts[0], Plain)];
    }
  }

  /** An edit replaces just the characters between its two positions by the new lines, joined by
      newlines; characters outside the range keep their style. */
  lemma WovenText(view: seq<seq<Glyph>>, from: Pos, to: Pos, texts: seq<string>)
    requires Within(view, from, to) && |texts| > 0
    ensures Offset(view, from) <= |Join(view)| && Offset(view, to) <= |Join(view)|
    ensures Join(Woven(view, from, to, texts))
      == Join(view)[..Offset(view, from)] + Join(Painted(texts)) + Join(view)[Offset(view, to)..]
  {
    hide Between, Join, Terminated, Rest;
    var l, r := view[from.line], view[to.line];
    var a, b := view[..from.line], view[to.line + 1..];
    SplitAround(view, from);
    SplitAround(view, to);
    var mid := Between(l[..from.ch], texts, r[to.ch..]);
    JoinBetween(l[..from.ch], texts, r[to.ch..]);
    JoinMiddle(a, mid, b);
    assert Join(view)[..Offset(view, from)] == Terminated(a) + l[..from.ch];
    assert Join(view)[Offset(view, to)..] == r[to.ch..] + Rest(b);
    calc {
      Terminated(a) + (l[..from.ch] + Join(Painted(texts)) + r[to.ch..]) + Rest(b);
      (Terminated(a) + l[..from.ch]) + Join(Painted(texts)) + (r[to.ch..] + Rest(b));
    }
  }

  lemma SplitAround(view: seq<seq<Glyph>>, p: Pos)
    requires p.line < |view| && p.ch <= |view[p.line]|
    ensures Offset(view, p) <= |Join(view)|
    ensures Join(view)[..Offset(view, p)] == Terminated(view[..p.line]) + view[p.line][..p.ch]
    ensures Join(view)[Offset(view, p)..] == view[p.line][p.ch..] + Rest(view[p.line + 1..])
  {
    hide Join, Terminated, Rest;
    JoinAround(view[..p.line], view[p.line], view[p.line + 1..]);
    assert view == view[..p.line] + [view[p.line]] + view[p.line + 1..];
  }

  lemma JoinMiddle(a: seq<seq<Glyph>>, mid: seq<seq<Glyph>>, b: seq<seq<Glyph>>)
    requires |mid| > 0
    ensures Join(a + mid + b) == Terminated(a) + Join(mid) + Rest(b)
  {
    RestNone();
    hide Join, Terminated, Rest;
    var n := |mid| - 1;
    var front, last := mid[..n], mid[n];
    assert mid == front + [last] + [];
    JoinAround(front, last, []);
    assert Join(mid) == Terminated(front) + last;
    assert a + mid + b == (a + front) + [last] + b;
    JoinAround(a + front, last, b);
    TerminatedConcat(a, front);
    Associate(Terminated(a), Terminated(front), last, Rest(b));
  }

  lemma Associate(a: seq<Glyph>, b: seq<Glyph>, c: seq<Glyph>, d: seq<Glyph>)
    ensures a + b + c + d == a + (b + c) + d
  {
  }

  lemma RestNone()
    ensures Rest([]) == []
  {
  }

  lemma {:induction false} TerminatedConcat(a: seq<seq<Glyph>>, b: seq<seq<Glyph>>)
    ensures Terminated(a + b) == Terminated(a) + Terminated(b)
  {
    if |a| == 0 {
      assert a + b == b;
    } else {
      assert (a + b)[1..] == a[1..] + b;
      TerminatedConcat(a[1..], b);
    }
  }

  // ---------------------------------------------------------------- single lines

  lemma ViewNew(rows: seq<Row>, ln: map<Id, Line>, l: Id, x: Line)
    requires Known(rows, ln) && l !in ln
    ensures Known(rows, ln[l := x]) && View(rows, ln[l := x]) == View(rows, ln)
  {
    hide Glyphs;
  }

  /** `ln'` is `ln` with line `l` showing `gs`. */
  ghost predicate Redrawn(ln: map<Id, Line>, ln': map<Id, Line>, l: Id, gs: seq<Glyph>) {
    && l in ln && l in ln' && ln' == ln[l := ln'[l]]
    && ln'[l].height == ln[l].height && ln'[l].parent == ln[l].parent
    && Glyphs(ln'[l].styles) == gs && ln'[l].text == Letters(gs)
  }

  lemma LettersConcat(a: seq<Glyph>, b: seq<Glyph>)
    ensures Letters(a + b) == Letters(a) + Letters(b)
  {
  }

  lemma LettersPaint(text: string, style: Style)
    ensures Letters(Paint(text, style)) == text
  {
  }

  /** Replaces a piece of a line; the end of the line if `to_` is absent. */
  method Replace(doc: Document, l: Id, from: nat, to_: Option<nat>, text: string, ghost h: bool)
    requires Sound(doc, h) && l in doc.ln
    requires from <= (if to_.Some? then to_.value else |doc.ln[l].text|) <= |doc.ln[l].text|
    modifies doc`ln
    ensures Sound(doc, h) && doc.Rows(h) == old(doc.Rows(h))
    ensures var gs := Glyphs(old(doc.ln)[l].styles);
      var to := if to_.Some? then to_.value else |gs|;
      from <= to <= |gs| && Redrawn(old(doc.ln), doc.ln, l, gs[..from] + Paint(text, Plain) + gs[to..])
  {
    hide Glyphs, InvBut, BoundedBut;
    var line := doc.ln[l];
    var to := if to_.Some? then to_.value else |line.text|;
    ghost var gs := Glyphs(line.styles);
    var st := CopyStyles(0, from, line.styles, []);
    NoGlyphs();
    if |text| > 0 {
      GlyphsSnoc(st, Fragment(text, Plain));
      st := st + [Fragment(text, Plain)];
    }
    ghost var head := gs[..from] + Paint(text, Plain);
    assert Glyphs(st) == head;
    st := CopyStyles(to, |line.text|, line.styles, st);
    ReplacedText(gs, from, to, text);
    doc.SetText(l, line.text[..from] + text + line.text[to..], st, h);
  }

  lemma NoGlyphs()
    ensures Glyphs([]) == []
  {
  }

  lemma ReplacedText(gs: seq<Glyph>, from: nat, to: nat, text: string)
    requires from <= to <= |gs|
    ensures Letters(gs[..from] + Paint(text, Plain) + gs[to..]) == Letters(gs)[..from] + text + Letters(gs)[to..]
    ensures gs[to..|gs|] == gs[to..] && gs[0..from] == gs[..from]
  {
    LettersConcat(gs[..from] + Paint(text, Plain), gs[to..]);
    LettersConcat(gs[..from], Paint(text, Plain));
    LettersPaint(text, Plain);
  }

  /** A new line with the end of line `l` behind `textBefore`; `l` itself is left alone. */
  method Split(doc: Document, l: Id, pos: nat, textBefore: string, ghost h: bool) returns (taken: Id)
    requires Sound(doc, h) && l in doc.ln && pos <= |doc.ln[l].text|
    modifies doc`ln, doc`nextLine
    ensures Sound(doc, h) && doc.Rows(h) == old(doc.Rows(h))
    ensures NewLoose(old(doc.ln), doc.ln, taken) && taken == old(doc.nextLine)
    ensures var gs := Glyphs(old(doc.ln)[l].styles);
      pos <= |gs| && Glyphs(doc.ln[taken].styles) == Paint(textBefore, Plain) + gs[pos..]
  {
    hide Glyphs, InvBut, BoundedBut;
    var line := doc.ln[l];
    ghost var gs := Glyphs(line.styles);
    NoGlyphs();
    GlyphsSnoc([], Fragment(textBefore, Plain));
    assert [] + [Fragment(textBefore, Plain)] == [Fragment(textBefore, Plain)];
    var st := CopyStyles(pos, |line.text|, line.styles, [Fragment(textBefore, Plain)]);
    SplitText(gs, pos, textBefore);
    taken := doc.NewLine(textBefore + line.text[pos..], st, h);
  }

  lemma SplitText(gs: seq<Glyph>, pos: nat, text: string)
    requires pos <= |gs|
    ensures Letters(Paint(text, Plain) + gs[pos..]) == text + Letters(gs)[pos..]
    ensures gs[pos..|gs|] == gs[pos..] && [] + Paint(text, Plain) == Paint(text, Plain)
  {
  }

  /** The line `l` has been made and belongs to no leaf. */
  ghost predicate NewLoose(ln: map<Id, Line>, ln': map<Id, Line>, l: Id) {
    l !in ln && l in ln' && ln' == ln[l := ln'[l]] && ln'[l].parent == Null && ln'[l].height == 1
  }

  /** Appends the text of line `other` to line `l`. */
  method Append(doc: Document, l: Id, other: Id, ghost h: bool)
    requires Sound(doc, h) && l in doc.ln && other in doc.ln
    modifies doc`ln
    ensures Sound(doc, h) && doc.Rows(h) == old(doc.Rows(h))
    ensures Redrawn(old(doc.ln), doc.ln, l, Glyphs(old(doc.ln)[l].styles) + Glyphs(old(doc.ln)[other].styles))
  {
    hide Glyphs, InvBut, BoundedBut;
    var more := doc.ln[other];
    ghost var a, b := Glyphs(doc.ln[l].styles), Glyphs(more.styles);
    LettersConcat(a, b);
    if |more.text| == 0 {
      assert a + b == a;
      return;
    }
    var st := CopyStyles(0, |more.text|, more.styles, doc.ln[l].styles);
    assert b[0..|b|] == b;
    doc.SetText(l, doc.ln[l].text + more.text, st, h);
  }

  // ---------------------------------------------------------------- many lines

  ghost predicate Extends(ln: map<Id, Line>, ln': map<Id, Line>) {
    forall l :: l in ln ==> l in ln' && ln'[l] == ln[l]
  }

  lemma ViewExtends(rows: seq<Row>, ln: map<Id, Line>, ln': map<Id, Line>)
    requires Known(rows, ln) && Extends(ln, ln')
    ensures Known(rows, ln') && View(rows, ln') == View(rows, ln)
  {
    hide Glyphs;
  }

  lemma ViewRemoved(rows: seq<Row>, ln: map<Id, Line>, at: nat, n: nat)
    requires Known(rows, ln) && at + n <= |rows|
    ensures |View(rows, ln)| == |rows| && Known(Removed(rows, at, n), ln)
    ensures View(Removed(rows, at, n), ln) == Removed(View(rows, ln), at, n)
  {
  }

  lemma ViewSame(rows: seq<Row>, ln: map<Id, Line>, ln': map<Id, Line>)
    requires Known(rows, ln) && SameText(ln, ln')
    ensures Known(rows, ln') && View(rows, ln') == View(rows, ln)
    ensures WellStyled(ln) ==> WellStyled(ln')
  {
    hide Glyphs;
    forall l | l in ln ensures ln'[l].styles == ln[l].styles && ln'[l].text == ln[l].text { }
  }

  /** The rows `more` are new lines that show `view`. */
  ghost predicate Fresh(ln: map<Id, Line>, more: seq<Row>, view: seq<seq<Glyph>>) {
    Loose(more, ln) && NoLineTwice(more) && Known(more, ln) && View(more, ln) == view
  }

  method NewLines(doc: Document, texts: seq<string>, ghost h: bool) returns (ls: seq<Id>, ghost more: seq<Row>)
    requires Sound(doc, h)
    modifies doc`ln, doc`nextLine
    ensures Sound(doc, h) && doc.Rows(h) == old(doc.Rows(h)) && Extends(old(doc.ln), doc.ln)
    ensures ls == LinesOf(more) && Fresh(doc.ln, more, Painted(texts))
    ensures forall l :: l in ls ==> l >= old(doc.nextLine)
  {
    hide Glyphs, InvBut, BoundedBut;
    ls, more := [], [];
    for i := 0 to |texts|
      invariant Sound(doc, h) && doc.Rows(h) == old(doc.Rows(h)) && Extends(old(doc.ln), doc.ln)
      invariant ls == LinesOf(more) && Fresh(doc.ln, more, Painted(texts[..i]))
      invariant doc.nextLine >= old(doc.nextLine) && forall l :: l in ls ==> l >= old(doc.nextLine)
    {
      ghost var ln := doc.ln;
      OneFragment(texts[i]);
      var l := doc.NewLine(texts[i], [Fragment(texts[i], Plain)], h);
      OneMore(ln, doc.ln, more, Painted(texts[..i]), l);
      assert Painted(texts[..i + 1]) == Painted(texts[..i]) + [Paint(texts[i], Plain)];
      ls, more := ls + [l], more + [Row(l, 1)];
    }
    assert texts[..|texts|] == texts;
  }

  lemma OneFragment(text: string)
    ensures Glyphs([Fragment(text, Plain)]) == Paint(text, Plain) && Letters(Paint(text, Plain)) == text
  {
    NoGlyphs();
    assert [Fragment(text, Plain)][1..] == [];
  }

  lemma OneMore(ln: map<Id, Line>, ln': map<Id, Line>, more: seq<Row>, view: seq<seq<Glyph>>, l: Id)
    requires Fresh(ln, more, view) && NewLoose(ln, ln', l)
    ensures Fresh(ln', more + [Row(l, 1)], view + [Glyphs(ln'[l].styles)])
    ensures LinesOf(more + [Row(l, 1)]) == LinesOf(more) + [l]
    ensures Extends(ln, ln')
  {
    hide Glyphs;
  }

  lemma NoneTwice(st: State, at: nat, more: seq<Row>)
    requires InvBut({}, st) && st.root in st.info && at <= |st.info[st.root].rows|
    requires Loose(more, st.ln) && NoLineTwice(more)
    ensures NoLineTwice(Inserted(st.info[st.root].rows, at, more))
  {
    hide Home, InvBut;
    var rows := st.info[st.root].rows;
    AllKnown(st);
    forall i, j | 0 <= i < |rows| && 0 <= j < |more| ensures rows[i].line != more[j].line {
      FindHome(st, st.root, rows[i].line);
    }
    var all := Inserted(rows, at, more);
    assert forall i :: 0 <= i < |all| ==>
      all[i] == if i < at then rows[i] else if i < at + |more| then more[i - at] else rows[i - |more|];
  }

  method InsertLines(doc: Document, at: nat, ls: seq<Id>, ghost more: seq<Row>, ghost view: seq<seq<Glyph>>,
    ghost h: bool)
    requires Sound(doc, h) && at <= |doc.Rows(h)| && ls == LinesOf(more) && Fresh(doc.ln, more, view)
    modifies doc`ch, doc`nextChunk, doc`ln, doc`info
    ensures Sound(doc, h)
    ensures Shown(doc, h) == Inserted(old(Shown(doc, h)), at, view)
  {
    hide Glyphs, InvBut, BoundedBut, SameText;
    ghost var rows, ln := doc.Rows(h), doc.ln;
    AllKnown(doc.St(h));
    NoneTwice(doc.St(h), at, more);
    doc.Insert(at, ls, more, h);
    SameKeys(ln, doc.ln);
    ViewSame(rows, ln, doc.ln);
    ViewSame(more, ln, doc.ln);
    AllKnown(doc.St(h));
    assert View(Inserted(rows, at, more), doc.ln) == Inserted(View(rows, doc.ln), at, View(more, doc.ln));
  }

  lemma SameKeys(ln: map<Id, Line>, ln': map<Id, Line>)
    requires SameText(ln, ln')
    ensures ln'.Keys == ln.Keys
  {
  }

  method DropLines(doc: Document, at: nat, n: nat, ghost h: bool)
    requires Sound(doc, h) && at + n <= |doc.Rows(h)|
    modifies doc`ch, doc`nextChunk, doc`ln, doc`info
    ensures Sound(doc, h) && Shown(doc, h) == Removed(old(Shown(doc, h)), at, n)
    ensures SameText(old(doc.ln), doc.ln) && StayLoose(old(doc.ln), doc.ln)
  {
    hide Glyphs, InvBut, BoundedBut, SameText, View, Known, WellStyled;
    ghost var rows, ln := doc.Rows(h), doc.ln;
    AllKnown(doc.St(h));
    doc.Remove(at, n, h);
    SameKeys(ln, doc.ln);
    ViewSame(rows, ln, doc.ln);
    AllKnown(doc.St(h));
    ViewRemoved(rows, doc.ln, at, n);
  }

  // ---------------------------------------------------------------- edits

  lemma ViewRedrawn(rows: seq<Row>, ln: map<Id, Line>, ln': map<Id, Line>, i: nat, gs: seq<Glyph>)
    requires Known(rows, ln) && NoLineTwice(rows) && i < |rows| && Redrawn(ln, ln', rows[i].line, gs)
    ensures Known(rows, ln') && View(rows, ln') == View(rows, ln)[i := gs]
  {
    hide Glyphs;
  }

  /** The document line with number `n`. */
  method GetLine(doc: Document, n: nat, ghost h: bool) returns (l: Id)
    requires Sound(doc, h) && |doc.Rows(h)| > 0
    ensures var n' := Wrapped(n, |doc.Rows(h)|);
      l == doc.Rows(h)[n'].line && l in doc.ln && |doc.ln[l].text| == |Shown(doc, h)[n']|
  {
    hide Glyphs, InvBut, BoundedBut;
    AllKnown(doc.St(h));
    l := doc.GetLineAt(n, h);
  }

  method ReplaceIn(doc: Document, n: nat, l: Id, from: nat, to_: Option<nat>, text: string, ghost h: bool)
    requires Sound(doc, h) && n < |doc.Rows(h)| && l == doc.Rows(h)[n].line
    requires from <= (if to_.Some? then to_.value else |Shown(doc, h)[n]|) <= |Shown(doc, h)[n]|
    modifies doc`ln
    ensures Sound(doc, h) && doc.Rows(h) == old(doc.Rows(h))
    ensures var gs := old(Shown(doc, h))[n];
      var to := if to_.Some? then to_.value else |gs|;
      && Redrawn(old(doc.ln), doc.ln, l, gs[..from] + Paint(text, Plain) + gs[to..])
      && Shown(doc, h) == old(Shown(doc, h))[n := gs[..from] + Paint(text, Plain) + gs[to..]]
  {
    hide Glyphs, InvBut, BoundedBut;
    AllKnown(doc.St(h));
    ghost var ln, gs := doc.ln, Shown(doc, h)[n];
    Replace(doc, l, from, to_, text, h);
    ghost var to := if to_.Some? then to_.value else |gs|;
    ViewRedrawn(doc.Rows(h), ln, doc.ln, n, gs[..from] + Paint(text, Plain) + gs[to..]);
  }

  /** Replaces the text from `from` to `to` by the lines `newText`. */
  method UpdateLinesNoUndo(doc: Document, from: Pos, to: Pos, newText: seq<string>, ghost h: bool)
    requires Sound(doc, h) && Reaches(Shown(doc, h), from, to) && |newText| > 0
    modifies doc`ch, doc`nextChunk, doc`ln, doc`nextLine, doc`info
    ensures Sound(doc, h)
    ensures Shown(doc, h) == Woven(old(Shown(doc, h)), from, Found(old(Shown(doc, h)), to), newText)
  {
    hide Glyphs, InvBut, BoundedBut, Woven, Wrapped;
    AllKnown(doc.St(h));
    var nlines := to.line - from.line;
    var firstLine := GetLine(doc, from.line, h);
    var lastLine := GetLine(doc, to.line, h);
    if firstLine == lastLine {
      assert from.line == Found(Shown(doc, h), to).line;
      if |newText| == 1 {
        ReplaceIn(doc, from.line, firstLine, from.ch, Some(to.ch), newText[0], h);
        WovenInLine(old(Shown(doc, h)), from, Pos(from.line, to.ch), newText);
      } else {
        SplitLine(doc, from, Pos(from.line, to.ch), newText, firstLine, h);
      }
    } else if |newText| == 1 {
      JoinLines(doc, from, to, newText, firstLine, lastLine, h);
    } else {
      ReplaceLines(doc, from, to, newText, firstLine, lastLine, h);
    }
  }

  lemma WovenInLine(view: seq<seq<Glyph>>, from: Pos, to: Pos, texts: seq<string>)
    requires Within(view, from, to) && |texts| == 1 && from.line == to.line
    ensures var gs := view[from.line];
      Woven(view, from, to, texts) == view[from.line := gs[..from.ch] + Paint(texts[0], Plain) + gs[to.ch..]]
  {
  }

  /** Several lines replace a part of a single line. */
  method SplitLine(doc: Document, from: Pos, to: Pos, newText: seq<string>, firstLine: Id, ghost h: bool)
    requires Sound(doc, h) && Within(Shown(doc, h), from, to) && |newText| > 1 && from.line == to.line
    requires from.line < |doc.Rows(h)| && firstLine == doc.Rows(h)[from.line].line
    modifies doc`ch, doc`nextChunk, doc`ln, doc`nextLine, doc`info
    ensures Sound(doc, h) && Shown(doc, h) == Woven(old(Shown(doc, h)), from, to, newText)
  {
    hide Glyphs, InvBut, BoundedBut, Woven, Loose;
    AllKnown(doc.St(h));
    ghost var ln, rows, view := doc.ln, doc.Rows(h), Shown(doc, h);
    var e := |newText| - 1;
    var lastLine := Split(doc, firstLine, to.ch, newText[e], h);
    ghost var end := Paint(newText[e], Plain) + view[to.line][to.ch..];
    ViewNew(rows, ln, lastLine, doc.ln[lastLine]);
    ghost var ln1 := doc.ln;
    ReplaceIn(doc, from.line, firstLine, from.ch, None, newText[0], h);
    ghost var ln2 := doc.ln;
    var added, more := NewLines(doc, newText[1..e], h);
    ViewExtends(rows, ln2, doc.ln);
    StillWaiting(ln1, ln2, doc.ln, lastLine, firstLine, end);
    LastToo(doc.ln, more, Painted(newText[1..e]), lastLine, end);
    InsertLines(doc, from.line + 1, added + [lastLine], more + [Row(lastLine, 1)], Painted(newText[1..e]) + [end], h);
    WovenSplit(view, from, to, newText);
  }

  ghost predicate Waiting(ln: map<Id, Line>, l: Id, gs: seq<Glyph>) {
    l in ln && ln[l].parent == Null && ln[l].height == 1 && Glyphs(ln[l].styles) == gs
  }

  lemma StillWaiting(ln1: map<Id, Line>, ln2: map<Id, Line>, ln3: map<Id, Line>, l: Id, other: Id, gs: seq<Glyph>)
    requires Waiting(ln1, l, gs) && l != other && other in ln1 && other in ln2 && ln2 == ln1[other := ln2[other]]
    requires Extends(ln2, ln3)
    ensures Waiting(ln3, l, gs)
  {
  }

  lemma LastToo(ln: map<Id, Line>, more: seq<Row>, view: seq<seq<Glyph>>, l: Id, gs: seq<Glyph>)
    requires Fresh(ln, more, view) && Waiting(ln, l, gs) && l !in LinesOf(more)
    ensures Fresh(ln, more + [Row(l, 1)], view + [gs])
    ensures LinesOf(more + [Row(l, 1)]) == LinesOf(more) + [l]
  {
    hide Glyphs;
    forall i | 0 <= i < |more| ensures more[i].line != l { assert LinesOf(more)[i] == more[i].line; }
  }

  lemma WovenSplit(view: seq<seq<Glyph>>, from: Pos, to: Pos, texts: seq<string>)
    requires Within(view, from, to) && |texts| > 1 && from.line == to.line
    ensures var gs, e := view[from.line], |texts| - 1;
      Woven(view, from, to, texts) == Inserted(view[from.line := gs[..from.ch] + Paint(texts[0], Plain) + gs[|gs|..]],
        from.line + 1, Painted(texts[1..e]) + [Paint(texts[e], Plain) + gs[to.ch..]])
  {
    var gs := view[from.line];
    assert gs[..from.ch] + Paint(texts[0], Plain) + gs[|gs|..] == gs[..from.ch] + Paint(texts[0], Plain);
  }

  /** A single text replaces the end of a line, the lines after it and the start of another line. */
  method JoinLines(doc: Document, from: Pos, to: Pos, newText: seq<string>, firstLine: Id, lastLine: Id, ghost h: bool)
    requires Sound(doc, h) && Within(Shown(doc, h), from, to) && |newText| == 1 && from.line < to.line < |doc.Rows(h)|
    requires firstLine == doc.Rows(h)[from.line].line && lastLine == doc.Rows(h)[to.line].line
    modifies doc`ch, doc`nextChunk, doc`ln, doc`info
    ensures Sound(doc, h) && Shown(doc, h) == Woven(old(Shown(doc, h)), from, to, newText)
  {
    hide Glyphs, InvBut, BoundedBut, Woven, Redrawn;
    AllKnown(doc.St(h));
    ghost var rows, view := doc.Rows(h), Shown(doc, h);
    ReplaceIn(doc, from.line, firstLine, from.ch, None, newText[0], h);
    ReplaceIn(doc, to.line, lastLine, 0, Some(to.ch), "", h);
    AllKnown(doc.St(h));
    ghost var ln, mid := doc.ln, Shown(doc, h);
    Append(doc, firstLine, lastLine, h);
    ViewRedrawn(rows, ln, doc.ln, from.line, mid[from.line] + mid[to.line]);
    DropLines(doc, from.line + 1, to.line - from.line, h);
    WovenJoin(view, from, to, newText);
  }

  lemma WovenJoin(view: seq<seq<Glyph>>, from: Pos, to: Pos, texts: seq<string>)
    requires Within(view, from, to) && |texts| == 1 && from.line < to.line
    ensures var l, r := view[from.line], view[to.line];
      var l', r' := l[..from.ch] + Paint(texts[0], Plain) + l[|l|..], r[..0] + Paint("", Plain) + r[to.ch..];
      Woven(view, from, to, texts)
        == Removed(view[from.line := l'][to.line := r'][from.line := l' + r'], from.line + 1, to.line - from.line)
  {
    var l, r := view[from.line], view[to.line];
    var l', r' := l[..from.ch] + Paint(texts[0], Plain) + l[|l|..], r[..0] + Paint("", Plain) + r[to.ch..];
    assert l' == l[..from.ch] + Paint(texts[0], Plain) && r' == r[to.ch..];
  }

  /** Several lines replace the end of a line, the lines after it and the start of another line. */
  method ReplaceLines(doc: Document, from: Pos, to: Pos, newText: seq<string>, firstLine: Id, lastLine: Id,
    ghost h: bool)
    requires Sound(doc, h) && Within(Shown(doc, h), from, to) && |newText| > 1 && from.line < to.line < |doc.Rows(h)|
    requires firstLine == doc.Rows(h)[from.line].line && lastLine == doc.Rows(h)[to.line].line
    modifies doc`ch, doc`nextChunk, doc`ln, doc`nextLine, doc`info
    ensures Sound(doc, h) && Shown(doc, h) == Woven(old(Shown(doc, h)), from, to, newText)
  {
    hide Glyphs, InvBut, BoundedBut, Woven, Redrawn, Fresh, SameText, StayLoose, Paint, Painted, Removed, Inserted;
    AllKnown(doc.St(h));
    ghost var rows, view := doc.Rows(h), Shown(doc, h);
    var nlines, e := to.line - from.line, |newText| - 1;
    ReplaceIn(doc, from.line, firstLine, from.ch, None, newText[0], h);
    ReplaceIn(doc, to.line, lastLine, 0, Some(to.ch), newText[e], h);
    FillGap(doc, from.line + 1, nlines - 1, newText[1..e], h);
    WovenReplace(view, from, to, newText);
  }

  /** New lines with the given texts take the place of `n` lines. */
  method FillGap(doc: Document, at: nat, n: nat, texts: seq<string>, ghost h: bool)
    requires Sound(doc, h) && at + n <= |doc.Rows(h)|
    modifies doc`ch, doc`nextChunk, doc`ln, doc`nextLine, doc`info
    ensures Sound(doc, h) && Shown(doc, h) == Inserted(Removed(old(Shown(doc, h)), at, n), at, Painted(texts))
  {
    hide Glyphs, InvBut, BoundedBut, Fresh, SameText, StayLoose;
    AllKnown(doc.St(h));
    ghost var ln := doc.ln;
    var added, more := NewLines(doc, texts, h);
    ViewExtends(doc.Rows(h), ln, doc.ln);
    if n > 0 {
      ghost var ln1 := doc.ln;
      DropLines(doc, at, n, h);
      StillFresh(ln1, doc.ln, more, Painted(texts));
    }
    InsertLines(doc, at, added, more, Painted(texts), h);
  }

  lemma StillFresh(ln: map<Id, Line>, ln': map<Id, Line>, more: seq<Row>, view: seq<seq<Glyph>>)
    requires Fresh(ln, more, view) && SameText(ln, ln') && StayLoose(ln, ln')
    ensures Fresh(ln', more, view)
  {
    hide Glyphs;
    ViewSame(more, ln, ln');
    forall i | 0 <= i < |more| ensures ln'[more[i].line].parent == Null { assert more[i].line in ln; }
  }

  lemma WovenReplace(view: seq<seq<Glyph>>, from: Pos, to: Pos, texts: seq<string>)
    requires Within(view, from, to) && |texts| > 1 && from.line < to.line
    ensures var l, r, e := view[from.line], view[to.line], |texts| - 1;
      var l', r' := l[..from.ch] + Paint(texts[0], Plain) + l[|l|..], r[..0] + Paint(texts[e], Plain) + r[to.ch..];
      Woven(view, from, to, texts)
        == Inserted(Removed(view[from.line := l'][to.line := r'], from.line + 1, to.line - from.line - 1),
             from.line + 1, Painted(texts[1..e]))
  {
    var l, r, e := view[from.line], view[to.line], |texts| - 1;
    assert l[..from.ch] + Paint(texts[0], Plain) + l[|l|..] == l[..from.ch] + Paint(texts[0], Plain);
    assert r[..0] + Paint(texts[e], Plain) + r[to.ch..] == Paint(texts[e], Plain) + r[to.ch..];
  }
}
