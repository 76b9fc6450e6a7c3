/** A CodeMirror editor: a document with its undo history. */
module Editor {
  import opened Common
  import opened StyledText
  import opened ChunkShape
  import opened ChunkTree
  import opened LineEdit
  import H = History

  /** The lines without their styles. */
  ghost function Texts(view: seq<seq<Glyph>>): (t: seq<string>)
    ensures |t| == |view| && forall i :: 0 <= i < |view| ==> t[i] == Letters(view[i])
  {
    seq(|view|, i requires 0 <= i < |view| => Letters(view[i]))
  }

  /** The lines that take the place of the lines from `from` to `to`. */
  ghost function NewLinesFor(view: seq<seq<Glyph>>, from: Pos, to: Pos, texts: seq<string>): seq<string>
    requires Within(view, from, to) && |texts| > 0
  {
    Texts(Between(view[from.line][..from.ch], texts, view[to.line][to.ch..]))
  }

  lemma WovenTexts(view: seq<seq<Glyph>>, from: Pos, to: Pos, texts: seq<string>)
    requires Within(view, from, to) && |texts| > 0
    ensures Texts(Woven(view, from, to, texts))
      == H.Edited(Texts(view), from.line, to.line + 1 - from.line, NewLinesFor(view, from, to, texts))
    ensures |NewLinesFor(view, from, to, texts)| == |texts|
  {
    JoinBetween(view[from.line][..from.ch], texts, view[to.line][to.ch..]);
    hide Between, Letters;
  }

  /** Whole lines are replaced by just the new lines. */
  lemma WholeLines(view: seq<seq<Glyph>>, from: Pos, to: Pos, texts: seq<string>)
    requires Within(view, from, to) && |texts| > 0 && from.ch == 0 && to.ch == |view[to.line]|
    ensures NewLinesFor(view, from, to, texts) == texts
  {
    hide Letters, Paint;
    var n := |texts| - 1;
    forall i | 0 <= i < |texts| ensures Letters(Paint(texts[i], Plain)) == texts[i] {
      LettersPaint(texts[i], Plain);
    }
    assert [] + Paint(texts[0], Plain) + [] == Paint(texts[0], Plain) == [] + Paint(texts[0], Plain);
    assert Paint(texts[n], Plain) + [] == Paint(texts[n], Plain);
  }

  /** An edit of the editor as a step of its history. */
  ghost function EditOf(view: seq<seq<Glyph>>, from: Pos, to: Pos, newText: seq<string>, late: bool): H.Step
    requires Within(view, from, to) && |newText| > 0
  {
    H.Edit(from.line, to.line + 1 - from.line, NewLinesFor(view, from, to, newText), late)
  }

  lemma EditStep(view: seq<seq<Glyph>>, done: seq<H.Change>, undone: seq<H.Change>,
                 from: Pos, to: Pos, newText: seq<string>, late: bool, depth: nat)
    requires Within(view, from, to) && |newText| > 0
    ensures var s, e := H.Session(Texts(view), done, undone), EditOf(view, from, to, newText, late);
      && H.CanStep(s, e)
      && H.Next(s, e, depth) == H.Session(Texts(Woven(view, from, to, newText)),
        H.Newest(H.Recorded(done, late, from.line, |newText|, Texts(view)[from.line..to.line + 1]), depth), [])
  {
    hide Woven, Letters, NewLinesFor, H.Recorded;
    WovenTexts(view, from, to, newText);
  }

  lemma RevertText(view: seq<seq<Glyph>>, c: H.Change)
    requires H.Keeps(c, Texts(view))
    ensures var last := c.start + c.added - 1;
      var to := Pos(last, |view[Wrapped(last, |view|)]|);
      && Reaches(view, Pos(c.start, 0), to)
      && Texts(Woven(view, Pos(c.start, 0), Found(view, to), H.Strings(c.was))) == H.Undone(c, Texts(view))
  {
    hide Woven, Letters, NewLinesFor, H.Undone, Wrapped;
    var was, last := H.Strings(c.was), Wrapped(c.start + c.added - 1, |view|);
    var to := Pos(last, |view[last]|);
    WovenTexts(view, Pos(c.start, 0), to, was);
    WholeLines(view, Pos(c.start, 0), to, was);
    if H.Fits(c, Texts(view)) { H.UndoneFits(c, Texts(view)); } else { H.UndoneWraps(c, Texts(view)); }
  }

  lemma LinesInRange(rows: seq<Row>, ln: map<Id, Line>, lo: nat, hi: nat)
    requires Known(rows, ln) && WellStyled(ln) && lo <= hi <= |rows|
    ensures var ls := LinesOf(rows[lo..hi]);
      && (forall l :: l in ls ==> l in ln)
      && forall i :: 0 <= i < |ls| ==> ls[i] in ln && Texts(View(rows, ln))[lo..hi][i] == ln[ls[i]].text
  {
    hide Glyphs, Letters;
    var ls := LinesOf(rows[lo..hi]);
    assert forall i :: 0 <= i < |ls| ==> ls[i] == rows[lo + i].line;
  }

  lemma EditNumbers(view: seq<seq<Glyph>>, from: Pos, to: Pos, newText: seq<string>, late: bool)
    requires Within(view, from, to) && |newText| > 0
    ensures var e := EditOf(view, from, to, newText, late);
      e.Edit? && e.start == from.line && e.removed == to.line + 1 - from.line && |e.news| == |newText| && e.late == late
    ensures Within(view, from, to) && from.line <= to.line
  {
    WovenTexts(view, from, to, newText);
  }

  class Editor {
    const doc: Document
    const history: H.History
    const undoDepth: nat

    constructor (undoDepth: nat)
      ensures Sound(doc, true) && Session(true) == H.Session([""], [], []) && this.undoDepth == undoDepth
      ensures fresh(doc) && fresh(history)
    {
      doc := new Document();
      history := new H.History();
      this.undoDepth := undoDepth;
      new;
      assert Glyphs([Fragment("", Plain)]) == [];
      assert Shown(doc, true) == [[]];
      assert Texts([[]]) == [""];
    }

    ghost function Session(h: bool): H.Session
      requires doc.Valid(h)
      reads this, doc, history
    {
      H.Session(Texts(Shown(doc, h)), history.done, history.undone)
    }

    /** The texts of the lines from `lo` up to `hi`, as far as they are there. */
    method TextsBetween(lo: nat, hi: nat, ghost h: bool) returns (texts: seq<string>)
      requires Sound(doc, h) && lo <= hi && lo <= |doc.Rows(h)|
      ensures texts == Texts(Shown(doc, h))[lo..Min(hi, |doc.Rows(h)|)]
    {
      hide Glyphs, InvBut, BoundedBut, Letters;
      AllKnown(doc.St(h));
      RootLinks(doc.St(h));
      var never := (l: Id) => false;
      var ls, stopped := doc.IterN(doc.root, lo, hi - lo, never, h);
      ghost var last := Min(hi, |doc.Rows(h)|);
      VisitAll(LinesOf(doc.Rows(h)[lo..last]), never);
      LinesInRange(doc.Rows(h), doc.ln, lo, last);
      texts := CollectTexts(ls);
    }

    method CollectTexts(ls: seq<Id>) returns (texts: seq<string>)
      requires forall l :: l in ls ==> l in doc.ln
      ensures |texts| == |ls| && forall i :: 0 <= i < |ls| ==> texts[i] == doc.ln[ls[i]].text
    {
      texts := [];
      for i := 0 to |ls|
        invariant |texts| == i && forall j :: 0 <= j < i ==> texts[j] == doc.ln[ls[j]].text
      {
        texts := texts + [doc.ln[ls[i]].text];
      }
    }

    /** Replaces the text from `from` to `to` by the lines `newText` and records the change. */
    method UpdateLines(from: Pos, to: Pos, newText: seq<string>, now: int, ghost h: bool)
      requires Sound(doc, h) && Within(Shown(doc, h), from, to) && |newText| > 0
      modifies doc`ch, doc`nextChunk, doc`ln, doc`nextLine, doc`info, history
      ensures Sound(doc, h) && Shown(doc, h) == Woven(old(Shown(doc, h)), from, to, newText) && history.time == now
      ensures var e := EditOf(old(Shown(doc, h)), from, to, newText, now - old(history.time) > 400);
        H.CanStep(old(Session(h)), e) && Session(h) == H.Next(old(Session(h)), e, undoDepth)
    {
      hide Glyphs, InvBut, BoundedBut, Woven, Letters, H.Recorded, H.Next, EditOf;
      ghost var view := Shown(doc, h);
      EditStep(view, history.done, history.undone, from, to, newText, now - history.time > 400, undoDepth);
      var was := TextsBetween(from.line, to.line + 1, h);
      history.AddChange(from.line, |newText|, was, now);
      Shift();
      assert Shown(doc, h) == view;
      UpdateLinesNoUndo(doc, from, to, newText, h);
    }

    /** Forgets the oldest changes. */
    method Shift()
      modifies history`done
      ensures history.done == H.Newest(old(history.done), undoDepth)
    {
      while |history.done| > undoDepth
        invariant H.Newest(history.done, undoDepth) == H.Newest(old(history.done), undoDepth)
      {
        history.done := history.done[1..];
      }
    }

    /** Takes the newest change from one stack, applies it, and puts its inverse on the other. */
    method UnredoHelper(undoing: bool, ghost h: bool)
      requires Sound(doc, h) && H.CanStep(Session(h), if undoing then H.Undo else H.Redo)
      modifies doc`ch, doc`nextChunk, doc`ln, doc`nextLine, doc`info, history
      ensures Sound(doc, h) && history.time == old(history.time)
      ensures Session(h) == H.Next(old(Session(h)), if undoing then H.Undo else H.Redo, undoDepth)
    {
      hide Glyphs, InvBut, BoundedBut, Woven, Letters, H.Undone, H.Inverse, Wrapped;
      if |if undoing then history.done else history.undone| == 0 {
        return;
      }
      ghost var view := Shown(doc, h);
      var change := Exchange(undoing, h);
      RevertText(view, change);
      var end := change.start + change.added;
      AllKnown(doc.St(h));
      var last := GetLine(doc, end - 1, h);
      var to := Pos(end - 1, |doc.ln[last].text|);
      UpdateLinesNoUndo(doc, Pos(change.start, 0), to, H.Strings(change.was), h);
    }

    method Exchange(undoing: bool, ghost h: bool) returns (change: H.Change)
      requires Sound(doc, h) && |if undoing then history.done else history.undone| > 0
      requires H.CanStep(Session(h), if undoing then H.Undo else H.Redo)
      modifies history
      ensures history.time == old(history.time)
      ensures var s := old(Session(h));
        var stack := if undoing then s.done else s.undone;
        && change == stack[|stack| - 1] && H.Keeps(change, s.text)
        && (undoing ==>
          history.done == s.done[..|stack| - 1] && history.undone == s.undone + [H.Inverse(change, s.text)])
        && (!undoing ==>
          history.undone == s.undone[..|stack| - 1] && history.done == s.done + [H.Inverse(change, s.text)])
    {
      hide Glyphs, InvBut, BoundedBut, Letters;
      AllKnown(doc.St(h));
      var from := if undoing then history.done else history.undone;
      change, from := from[|from| - 1], from[..|from| - 1];
      var replaced := TextsBetween(change.start, change.start + change.added, h);
      var inverse := H.Change(change.start, |change.was|, H.Defined(replaced));
      if undoing {
        history.done, history.undone := from, history.undone + [inverse];
      } else {
        history.undone, history.done := from, history.done + [inverse];
      }
    }

    /** After any fair run of edits, undos and redos the newest change can be undone. */
    method Undo(ghost t: H.Timeline, ghost h: bool)
      requires Sound(doc, h) && H.Follow(Session(h), t)
      modifies doc`ch, doc`nextChunk, doc`ln, doc`nextLine, doc`info, history
      ensures Sound(doc, h) && Texts(Shown(doc, h)) == if |t.past| > 0 then t.past[0] else t.now
      ensures H.Follow(Session(h), H.Onward(t, H.Undo, false, undoDepth))
    {
      H.StepFollows(Session(h), t, H.Undo, undoDepth);
      UnredoHelper(true, h);
    }

    /** Two quick edits and one undo. */
    method EditTwiceThenUndo(from1: Pos, to1: Pos, text1: seq<string>, from2: Pos, to2: Pos, text2: seq<string>,
                             now1: int, now2: int, ghost t: H.Timeline, ghost h: bool)
      requires Sound(doc, h) && H.Follow(Session(h), t) && undoDepth > 0
      requires Within(Shown(doc, h), from1, to1) && |text1| > 0 && now1 - history.time > 400 && now2 - now1 <= 400
      requires Within(Woven(Shown(doc, h), from1, to1, text1), from2, to2) && |text2| > 0
      requires H.Exact(H.Change(from1.line, |text1|, []), from2.line, |text2|, to2.line + 1 - from2.line)
        || from2.line + |text2| < from1.line || from1.line + 2 * |text1| < from2.line + to1.line + 1 - from1.line
      modifies doc`ch, doc`nextChunk, doc`ln, doc`nextLine, doc`info, history
      ensures Sound(doc, h)
      ensures Texts(Shown(doc, h)) ==
        if from1.line <= from2.line + |text2| && from2.line + to1.line + 1 - from1.line <= from1.line + 2 * |text1|
        then old(Texts(Shown(doc, h))) else Texts(Woven(old(Shown(doc, h)), from1, to1, text1))
    {
      hide Glyphs, InvBut, BoundedBut, Woven, Letters, NewLinesFor, H.Recorded, H.Next, H.CanStep, H.Follow,
        EditOf, Within, Texts;
      ghost var s, e1 := Session(h), EditOf(Shown(doc, h), from1, to1, text1, true);
      EditNumbers(Shown(doc, h), from1, to1, text1, true);
      UpdateLines(from1, to1, text1, now1, h);
      ghost var s1, e2 := Session(h), EditOf(Shown(doc, h), from2, to2, text2, false);
      EditNumbers(Shown(doc, h), from2, to2, text2, false);
      UpdateLines(from2, to2, text2, now2, h);
      H.QuickEdits(s, t, e1, e2, undoDepth);
      UnredoHelper(true, h);
    }

    method Redo(ghost t: H.Timeline, ghost h: bool)
      requires Sound(doc, h) && H.Follow(Session(h), t)
      modifies doc`ch, doc`nextChunk, doc`ln, doc`nextLine, doc`info, history
      ensures Sound(doc, h) && Texts(Shown(doc, h)) == if |t.future| > 0 then t.future[0] else t.now
      ensures H.Follow(Session(h), H.Onward(t, H.Redo, false, undoDepth))
    {
      H.StepFollows(Session(h), t, H.Redo, undoDepth);
      UnredoHelper(false, h);
    }
  }
}
