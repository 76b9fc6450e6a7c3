/** The undo history of a CodeMirror editor, for texts given as their lines. */
module History {
  import opened Common

  type Text = seq<string>

  /** A change that can be undone: `added` lines from `start` on are to become the lines `was`.
      An element of `was` that was never set is absent. */
  datatype Change = Change(start: nat, added: nat, was: seq<Option<string>>)

  function Defined(was: seq<string>): (r: seq<Option<string>>)
    ensures |r| == |was| && forall i :: 0 <= i < |was| ==> r[i] == Some(was[i])
  {
    seq(|was|, i requires 0 <= i < |was| => Some(was[i]))
  }

  /** Reading past either end of an array gives nothing. */
  function At(was: seq<string>, i: int): Option<string> {
    if 0 <= i < |was| then Some(was[i]) else None
  }

  function Slots(was: seq<string>, lo: int, hi: int): (r: seq<Option<string>>)
    ensures |r| == if lo < hi then hi - lo else 0
    ensures forall i :: 0 <= i < |r| ==> r[i] == At(was, lo + i)
  {
    if lo < hi then seq(hi - lo, i requires 0 <= i < hi - lo => At(was, lo + i)) else []
  }

  /** Whether a change is too far from the one before it to be merged with it. */
  predicate Apart(last: Change, start: nat, added: nat) {
    last.start > start + added || last.start + last.added < start - last.added + |last.was|
  }

  /** A change merged with one that follows it shortly. */
  function Merged(last: Change, start: nat, added: nat, was: seq<string>): Change {
    if start < last.start then
      var d := last.start - start;
      Change(start, Max(last.added + d, added), Slots(was, 0, d) + last.was + Slots(was, last.added + d, |was|))
    else
      var off := start - last.start;
      Change(last.start, Max(last.added, added + off), last.was + Slots(was, last.added - off, |was|))
  }

  function Recorded(done: seq<Change>, late: bool, start: nat, added: nat, was: seq<string>): seq<Change> {
    if late || |done| == 0 || Apart(done[|done| - 1], start, added) then
      done + [Change(start, added, Defined(was))]
    else
      done[..|done| - 1] + [Merged(done[|done| - 1], start, added, was)]
  }

  /** A merged change takes back all lines of both changes, and puts back, in this order, the lines that the new one
      found before those of the other, the lines of the other, and the lines that the new one found behind those;
      where there are none in between, they are absent. */
  lemma MergedMeans(last: Change, start: nat, added: nat, was: seq<string>, k: nat)
    ensures var m := Merged(last, start, added, was);
      var before, end := last.start - Min(last.start, start), last.start + last.added;
      && m.start == Min(last.start, start) && m.start + m.added == Max(end, start + added)
      && |m.was| == before + |last.was| + Max(0, start + |was| - end)
      && (k < before ==> m.was[k] == if k < |was| then Some(was[k]) else None)
      && (k < |last.was| ==> m.was[before + k] == last.was[k])
      && (k < |was| && start + k >= end ==> m.was[before + |last.was| + start + k - end] == Some(was[k]))
      && (end <= k < start && |was| > 0 ==> m.was[before + |last.was| + k - end] == None)
  {
  }

  class History {
    var time: int
    var done: seq<Change>
    var undone: seq<Change>

    constructor ()
      ensures time == 0 && done == [] && undone == []
    {
      time, done, undone := 0, [], [];
    }

    /** Records that the lines `was` from `start` on have become `added` lines. */
    method AddChange(start: nat, added: nat, was: seq<string>, now: int)
      modifies this
      ensures time == now && undone == []
      ensures done == Recorded(old(done), now - old(time) > 400, start, added, was)
      ensures var n := |old(done)|;
        |done| == if n > 0 && now - old(time) <= 400 && old(done)[n - 1].start <= start + added
            && start + |old(done)[n - 1].was| <= old(done)[n - 1].start + 2 * old(done)[n - 1].added
          then n else n + 1
      ensures |done| > |old(done)| ==> done == old(done) + [Change(start, added, Defined(was))]
    {
      undone := [];
      if now - time > 400 || |done| == 0
        || done[|done| - 1].start > start + added
        || done[|done| - 1].start + done[|done| - 1].added
          < start - done[|done| - 1].added + |done[|done| - 1].was|
      {
        done := done + [Change(start, added, Defined(was))];
      } else {
        var last := MergeInto(done[|done| - 1], start, added, was);
        done := done[..|done| - 1] + [last];
      }
      time := now;
    }
  }

  /** Merges a change with the one before it, as its fields are updated. */
  method MergeInto(c: Change, start: nat, added: nat, was: seq<string>) returns (last: Change)
    ensures last == Merged(c, start, added, was)
  {
    hide Slots;
    last := c;
    var oldoff, total := 0, added;
    if start < last.start {
      var more := Unshift(last.was, was, last.start - start);
      last := Change(start, last.added + (last.start - start), more);
    } else if last.start < start {
      oldoff := start - last.start;
      total := total + oldoff;
    }
    var more := PushFrom(last.was, was, last.added - oldoff);
    last := last.(was := more);
    if last.added < total {
      last := last.(added := total);
    }
  }

  lemma SlotsFirst(was: seq<string>, lo: int, hi: int)
    requires lo < hi
    ensures Slots(was, lo, hi) == [At(was, lo)] + Slots(was, lo + 1, hi)
  {
  }

  lemma SlotsLast(was: seq<string>, lo: int, hi: int)
    requires lo <= hi
    ensures Slots(was, lo, hi + 1) == Slots(was, lo, hi) + [At(was, hi)]
  {
  }

  method Unshift(to: seq<Option<string>>, was: seq<string>, d: nat) returns (r: seq<Option<string>>)
    ensures r == Slots(was, 0, d) + to
  {
    hide Slots, At;
    r := to;
    var i: int := d - 1;
    while i >= 0
      invariant -1 <= i < d && r == Slots(was, i + 1, d) + to
    {
      SlotsFirst(was, i, d);
      r := [At(was, i)] + r;
      i := i - 1;
    }
  }

  method PushFrom(to: seq<Option<string>>, was: seq<string>, from: int) returns (r: seq<Option<string>>)
    ensures r == to + Slots(was, from, |was|)
  {
    r := to;
    var i := from;
    while i < |was|
      invariant from <= i && (i <= |was| || i == from) && r == to + Slots(was, from, i)
    {
      SlotsLast(was, from, i);
      r := r + [At(was, i)];
      i := i + 1;
    }
  }

  // ---------------------------------------------------------------- texts

  /** `removed` lines from `start` on become the lines `news`. */
  function Edited(text: Text, start: nat, removed: nat, news: Text): Text
    requires start + removed <= |text|
  {
    text[..start] + news + text[start + removed..]
  }

  /** A change starts inside of `text`, and no line that it puts back is absent. */
  predicate Applies(c: Change, text: Text) {
    && c.start < |text| && c.added > 0 && |c.was| > 0
    && forall i :: 0 <= i < |c.was| ==> c.was[i].Some?
  }

  /** All lines that a change takes back are there. */
  predicate Fits(c: Change, text: Text) {
    Applies(c, text) && c.start + c.added <= |text|
  }

  lemma EditedLength(text: Text, start: nat, removed: nat, news: Text)
    requires start + removed <= |text|
    ensures |Edited(text, start, removed, news)| == |text| - removed + |news|
  {
  }

  function Strings(was: seq<Option<string>>): (r: Text)
    requires forall i :: 0 <= i < |was| ==> was[i].Some?
    ensures |r| == |was| && forall i :: 0 <= i < |was| ==> r[i] == was[i].value
  {
    seq(|was|, i requires 0 <= i < |was| => was[i].value)
  }

  function Reverted(c: Change, text: Text): Text
    requires Fits(c, text)
  {
    Edited(text, c.start, c.added, Strings(c.was))
  }

  /** The change that leads back from the reverted text; lines that are not there are not collected. */
  function Inverse(c: Change, text: Text): Change
    requires Applies(c, text)
  {
    Change(c.start, |c.was|, Defined(text[c.start..Min(c.start + c.added, |text|)]))
  }

  function From<T>(s: seq<T>, i: nat): seq<T> {
    if i < |s| then s[i..] else []
  }

  /** Undoing what undid a change restores the text. */
  lemma InverseReverts(c: Change, text: Text)
    requires Fits(c, text)
    ensures Fits(Inverse(c, text), Reverted(c, text))
    ensures Reverted(Inverse(c, text), Reverted(c, text)) == text
  {
    assert Strings(Defined(text[c.start..c.start + c.added])) == text[c.start..c.start + c.added];
  }

  /** A change recorded on its own leads back to the text before the edit. */
  lemma RecordReverts(text: Text, start: nat, removed: nat, news: Text)
    requires start + removed <= |text| && removed > 0 && |news| > 0
    ensures var c := Change(start, |news|, Defined(text[start..start + removed]));
      && Fits(c, Edited(text, start, removed, news))
      && Reverted(c, Edited(text, start, removed, news)) == text
  {
    assert Strings(Defined(text[start..start + removed])) == text[start..start + removed];
  }

  // ---------------------------------------------------------------- undo past the end of a text

  /** The lines of a document, and how many lines its root counts. */
  datatype Flat = Flat(lines: Text, size: int)

  function Removed(d: Flat, at: nat, n: nat): Flat
    requires at <= |d.lines|
  {
    Flat(d.lines[..at] + From(d.lines, at + n), d.size - n)
  }

  function Inserted(d: Flat, at: nat, news: Text): Flat
    requires at <= |d.lines|
  {
    Flat(d.lines[..at] + news + d.lines[at..], d.size + |news|)
  }

  function WithLine(d: Flat, i: nat, line: string): Flat
    requires i < |d.lines|
  {
    d.(lines := d.lines[i := line])
  }

  /** The document after the whole lines from `from` to `to` have become `news`. The lookup of line `to`
      wraps round past the end, but the removal of lines does not. */
  function Replaced(d: Flat, from: nat, to: nat, news: Text): Flat
    requires from < |d.lines| && from <= to && |news| > 0
  {
    var nlines, last, e := to - from, Wrapped(to, |d.lines|), |news| - 1;
    var d1 := WithLine(d, from, news[0]);
    if from == last then
      if e == 0 then d1 else Inserted(d1, from + 1, news[1..])
    else if e == 0 then
      Removed(WithLine(d1, last, ""), from + 1, nlines)
    else
      var d2 := WithLine(d1, last, news[e]);
      Inserted(if nlines > 1 then Removed(d2, from + 1, nlines - 1) else d2, from + 1, news[1..e])
  }

  /** What a reader of the document gets: no more lines than its root counts. */
  function Seen(d: Flat): Text {
    if d.size <= 0 then [] else d.lines[..Min(d.size, |d.lines|)]
  }

  /** The text after undoing a change, whether or not all lines that it takes back are there. */
  function Undone(c: Change, text: Text): Text
    requires Applies(c, text)
  {
    Seen(Replaced(Flat(text, |text|), c.start, c.start + c.added - 1, Strings(c.was)))
  }

  /** The last line that a change takes back is not there, and the lookup wraps round to its first line. */
  predicate Wraps(c: Change, text: Text) {
    Applies(c, text) && c.start + c.added > |text| && Wrapped(c.start + c.added - 1, |text|) == c.start
  }

  /** Undoing a change leaves a document whose root counts its lines right. */
  predicate Keeps(c: Change, text: Text) {
    Fits(c, text) || Wraps(c, text)
  }

  /** Inside of the text undoing takes back the lines of the change. */
  lemma UndoneFits(c: Change, text: Text)
    requires Fits(c, text)
    ensures Undone(c, text) == Reverted(c, text)
  {
    hide Replaced, Strings;
    ReplacedInside(text, c.start, c.start + c.added - 1, Strings(c.was));
    EditedLength(text, c.start, c.added, Strings(c.was));
    hide Edited;
  }

  lemma ReplacedInside(text: Text, from: nat, to: nat, news: Text)
    requires from <= to < |text| && |news| > 0
    ensures var d := Replaced(Flat(text, |text|), from, to, news);
      d.lines == Edited(text, from, to + 1 - from, news) && d.size == |text| - (to + 1 - from) + |news|
  {
    var d, e := Flat(text, |text|), |news| - 1;
    if from == to {
      if e > 0 { InsertedAfter(text, from, news); }
    } else if e == 0 {
      RemovedAfter(text, from, to, news);
    } else {
      ReplacedBoth(text, from, to, news);
      hide Removed, Inserted, WithLine, Edited;
    }
  }

  lemma InsertedAfter(text: Text, from: nat, news: Text)
    requires from < |text| && |news| > 1
    ensures Inserted(WithLine(Flat(text, |text|), from, news[0]), from + 1, news[1..])
      == Flat(Edited(text, from, 1, news), |text| - 1 + |news|)
  {
    assert [news[0]] + news[1..] == news;
    assert text[from := news[0]][..from + 1] == text[..from] + [news[0]];
    assert text[from := news[0]][from + 1..] == text[from + 1..];
    assert text[..from] + [news[0]] + news[1..] == text[..from] + ([news[0]] + news[1..]);
  }

  lemma RemovedAfter(text: Text, from: nat, to: nat, news: Text)
    requires from < to < |text| && |news| == 1
    ensures Removed(WithLine(WithLine(Flat(text, |text|), from, news[0]), to, ""), from + 1, to - from)
      == Flat(Edited(text, from, to + 1 - from, news), |text| - (to - from))
  {
    var lines := text[from := news[0]][to := ""];
    assert lines[..from + 1] == text[..from] + news;
    assert From(lines, to + 1) == text[to + 1..];
  }

  lemma ReplacedBoth(text: Text, from: nat, to: nat, news: Text)
    requires from < to < |text| && |news| > 1
    ensures var d2 := WithLine(WithLine(Flat(text, |text|), from, news[0]), to, news[|news| - 1]);
      Inserted(if to - from > 1 then Removed(d2, from + 1, to - from - 1) else d2, from + 1, news[1..|news| - 1])
        == Flat(Edited(text, from, to + 1 - from, news), |text| - (to + 1 - from) + |news|)
  {
    hide Edited;
    var e := |news| - 1;
    var lines := text[from := news[0]][to := news[e]];
    BothLines(text, from, to, news[0], news[e]);
    BothEnds(text, from, to, news, lines);
  }

  lemma BothLines(text: Text, from: nat, to: nat, first: string, last: string)
    requires from < to < |text|
    ensures var lines := text[from := first][to := last];
      && lines[..from + 1] == text[..from] + [first] && lines[to..] == [last] + text[to + 1..]
      && (to - from > 1 ==> (lines[..from + 1] + From(lines, to))[..from + 1] == lines[..from + 1])
      && (to - from > 1 ==> (lines[..from + 1] + From(lines, to))[from + 1..] == lines[to..])
  {
  }

  lemma BothEnds(text: Text, from: nat, to: nat, news: Text, lines: Text)
    requires from < to < |text| == |lines| && |news| > 1
    requires lines[..from + 1] == text[..from] + [news[0]] && lines[to..] == [news[|news| - 1]] + text[to + 1..]
    ensures lines[..from + 1] + news[1..|news| - 1] + lines[to..] == Edited(text, from, to + 1 - from, news)
  {
    var e := |news| - 1;
    assert news == [news[0]] + news[1..e] + [news[e]];
  }

  /** Undoing takes back just the first line of the change if the lookup of its last line wraps round to it. */
  lemma UndoneWraps(c: Change, text: Text)
    requires Wraps(c, text)
    ensures Undone(c, text) == Edited(text, c.start, 1, Strings(c.was))
  {
    var was := Strings(c.was);
    var d := Replaced(Flat(text, |text|), c.start, c.start + c.added - 1, was);
    assert d.lines == Edited(text, c.start, 1, was);
  }

  /** In all other cases the root counts the lines of the change as taken back, whether or not they were there. */
  lemma UndonePast(c: Change, text: Text)
    requires Applies(c, text) && !Wraps(c, text)
    ensures |Undone(c, text)| <= Max(0, |text| - c.added + |c.was|)
  {
  }

  // ---------------------------------------------------------------- merged changes

  /** Whether merging an edit with the change before it loses nothing: the edit leaves the number of
      lines alone, or it reaches at least to the end of the lines of that change, before and after. */
  predicate Exact(last: Change, start: nat, added: nat, removed: nat) {
    if start < last.start then
      removed >= last.start - start
      && (added == removed || (removed >= last.added + last.start - start && added >= last.added + last.start - start))
    else
      var off := start - last.start;
      off <= last.added
      && (added == removed || (off + removed >= last.added && off + added >= last.added))
  }

  /** An edit of `text` shortly after the change `c`, close enough to be merged with it. */
  predicate Follows(c: Change, text: Text, start: nat, removed: nat, news: Text) {
    && Fits(c, text) && start + removed <= |text| && removed > 0 && |news| > 0 && !Apart(c, start, |news|)
  }

  lemma MergedLength(c: Change, text: Text, start: nat, removed: nat, news: Text)
    requires Follows(c, text, start, removed, news)
    ensures var m, text' := Merged(c, start, |news|, text[start..start + removed]), Edited(text, start, removed, news);
      Fits(m, text') && Reverted(m, text') == Reverted(c, text) ==> Exact(c, start, |news|, removed)
  {
    var was := text[start..start + removed];
    var m, text' := Merged(c, start, |news|, was), Edited(text, start, removed, news);
    var d := c.start - start;
    if 0 < d && removed < d {
      assert m.was[removed] == Slots(was, 0, d)[removed] == At(was, removed);
      assert !Fits(m, text');
    } else if c.added < -d {
      assert m.was == c.was + Slots(was, c.added + d, |was|);
      assert m.was[|c.was|] == At(was, c.added + d);
      assert !Fits(m, text');
    } else if Fits(m, text') {
      assert |Reverted(m, text')| == |text'| - m.added + |m.was|;
      assert |Reverted(c, text)| == |text| - c.added + |c.was|;
    }
  }

  lemma SlotsInside(was: seq<string>, lo: int, hi: int)
    requires 0 <= lo && hi <= |was|
    ensures forall i :: 0 <= i < |Slots(was, lo, hi)| ==> Slots(was, lo, hi)[i].Some?
    ensures Strings(Slots(was, lo, hi)) == if lo < hi then was[lo..hi] else []
  {
  }

  lemma StringsConcat(a: seq<Option<string>>, b: seq<Option<string>>)
    requires forall i :: 0 <= i < |a| ==> a[i].Some?
    requires forall i :: 0 <= i < |b| ==> b[i].Some?
    ensures forall i :: 0 <= i < |a + b| ==> (a + b)[i].Some?
    ensures Strings(a + b) == Strings(a) + Strings(b)
  {
  }

  lemma MergedStrings(c: Change, start: nat, added: nat, was: seq<string>)
    requires start <= c.start && |was| >= c.start - start
    requires forall i :: 0 <= i < |c.was| ==> c.was[i].Some?
    ensures var m := Merged(c, start, added, was);
      && (forall i :: 0 <= i < |m.was| ==> m.was[i].Some?)
      && Strings(m.was) == was[..c.start - start] + Strings(c.was) + From(was, c.added + c.start - start)
  {
    hide Slots, Strings;
    var d, from := c.start - start, c.added + c.start - start;
    var head, tail := Slots(was, 0, d), Slots(was, from, |was|);
    assert Merged(c, start, added, was).was == head + c.was + tail by { assert d == 0 ==> head == []; }
    SlotsInside(was, 0, d);
    SlotsInside(was, from, |was|);
    hide Merged, From;
    StringsConcat(head, c.was);
    StringsConcat(head + c.was, tail);
    assert was[0..d] == was[..d];
  }

  lemma MergedBefore(c: Change, text: Text, start: nat, removed: nat, news: Text)
    requires Follows(c, text, start, removed, news) && Exact(c, start, |news|, removed) && start < c.start
    ensures var m, text' := Merged(c, start, |news|, text[start..start + removed]), Edited(text, start, removed, news);
      Fits(m, text') && Reverted(m, text') == Reverted(c, text)
  {
    hide Slots, Strings, From, Edited;
    var was := text[start..start + removed];
    var m, text' := Merged(c, start, |news|, was), Edited(text, start, removed, news);
    MergedStrings(c, start, |news|, was);
    EditedBefore(text, start, removed, news, c.start, start + m.added, c.start + c.added);
    Regained(m, text', c, text, was[..c.start - start], From(was, c.added + c.start - start));
  }

  /** A change leads back to the same text as another if it also puts back what lies between. */
  lemma Regained(m: Change, text': Text, c: Change, text: Text, head: Text, tail: Text)
    requires Fits(m, text') && Fits(c, text) && Strings(m.was) == head + Strings(c.was) + tail
    requires text'[..m.start] + head == text[..c.start]
    requires tail + text'[m.start + m.added..] == text[c.start + c.added..]
    ensures Reverted(m, text') == Reverted(c, text)
  {
    hide Strings;
    var a, b, w := text'[..m.start], text'[m.start + m.added..], Strings(c.was);
    assert a + (head + w + tail) + b == (a + head) + w + (tail + b);
  }

  /** Around an edit that starts before a stretch of text: what the edit has taken out before and behind it,
      and what has been left. */
  lemma EditedBefore(text: Text, start: nat, removed: nat, news: Text, from: nat, to': nat, to: nat)
    requires start <= from <= to <= |text| && from <= start + removed <= |text| &&
      to' == start + Max(to - start, |news|)
    requires |news| == removed || (to <= start + removed && to <= start + |news|)
    ensures var text', was := Edited(text, start, removed, news), text[start..start + removed];
      var rest := From(was, to - start);
      to' <= |text'| && text'[..start] + was[..from - start] == text[..from] && rest + text'[to'..] == text[to..]
  {
    var text', rest := Edited(text, start, removed, news), From(text[start..start + removed], to - start);
    assert text'[to'..] == text[to + |rest|..];
  }

  lemma MergedAfter(c: Change, text: Text, start: nat, removed: nat, news: Text)
    requires Follows(c, text, start, removed, news) && Exact(c, start, |news|, removed) && start >= c.start
    ensures var m, text' := Merged(c, start, |news|, text[start..start + removed]), Edited(text, start, removed, news);
      Fits(m, text') && Reverted(m, text') == Reverted(c, text)
  {
    hide Slots, Strings, Edited;
    var was := text[start..start + removed];
    var m, text' := Merged(c, start, |news|, was), Edited(text, start, removed, news);
    var from := c.added - (start - c.start);
    SlotsInside(was, from, |was|);
    StringsConcat(c.was, Slots(was, from, |was|));
    var rest := From(was, from);
    assert Strings(m.was) == [] + Strings(c.was) + rest;
    EditedAfter(text, start, removed, news, c.start, c.start + m.added, c.start + c.added);
    assert text'[..c.start] + [] == text[..c.start];
    Regained(m, text', c, text, [], rest);
  }

  /** Behind an edit that starts inside a stretch of text: what the edit has taken out of the rest, and what
      has been left. */
  lemma EditedAfter(text: Text, start: nat, removed: nat, news: Text, from: nat, to': nat, to: nat)
    requires from <= start <= to <= |text| && start + removed <= |text|
    requires to' == Max(to, start + |news|) && (|news| == removed || (to <= start + removed && to <= start + |news|))
    ensures var text', rest := Edited(text, start, removed, news), From(text[start..start + removed], to - start);
      to' <= |text'| && text'[..from] == text[..from] && rest + text'[to'..] == text[to..]
  {
    var text' := Edited(text, start, removed, news);
    var rest := From(text[start..start + removed], to - start);
    assert text'[to'..] == text[to + |rest|..];
  }

  lemma MergeRevertsInside(c: Change, text: Text, start: nat, removed: nat, news: Text)
    requires Follows(c, text, start, removed, news)
    ensures var m, text' := Merged(c, start, |news|, text[start..start + removed]), Edited(text, start, removed, news);
      Fits(m, text') && Reverted(m, text') == Reverted(c, text) <==> Exact(c, start, |news|, removed)
  {
    MergedLength(c, text, start, removed, news);
    if Exact(c, start, |news|, removed) {
      if start < c.start { MergedBefore(c, text, start, removed, news); }
      else { MergedAfter(c, text, start, removed, news); }
    }
  }

  /** Whether the edit leaves one line of the lines of the change before it, or the line before them, and the
      lookup of the last line of the merged change wraps round to it in a text of `n` lines. */
  predicate WrapsBack(last: Change, start: nat, added: nat, removed: nat, n: nat)
    requires n > 0
  {
    && added == 1 && start <= last.start && last.start + last.added <= start + removed
    && last.start + last.added > n && Wrapped(last.start + last.added - 1, n) == start
  }

  /** If the merged change reaches past the end of the text, then so did the change before it. */
  lemma MergedPast(c: Change, text: Text, start: nat, removed: nat, news: Text)
    requires Follows(c, text, start, removed, news)
    requires var m, text' := Merged(c, start, |news|, text[start..start + removed]), Edited(text, start, removed, news);
      Applies(m, text') && !Fits(m, text')
    ensures var m, text' := Merged(c, start, |news|, text[start..start + removed]), Edited(text, start, removed, news);
      && m.start == Min(start, c.start) && m.start + m.added == c.start + c.added && |news| < removed
      && |m.was| == c.start - m.start + |c.was| + Max(0, start + removed - c.start - c.added)
  {
    MergedLength(c, text, start, removed, news);
  }

  lemma PastWraps(c: Change, text: Text, start: nat, removed: nat, news: Text)
    requires Follows(c, text, start, removed, news)
    requires var m, text' := Merged(c, start, |news|, text[start..start + removed]), Edited(text, start, removed, news);
      Wraps(m, text') && WrapsBack(c, start, |news|, removed, |text'|)
    ensures var m, text' := Merged(c, start, |news|, text[start..start + removed]), Edited(text, start, removed, news);
      Undone(m, text') == Reverted(c, text)
  {
    hide Slots, Strings, Undone, Wrapped, Edited;
    var was := text[start..start + removed];
    var m, text' := Merged(c, start, |news|, was), Edited(text, start, removed, news);
    UndoneWraps(m, text');
    MergedStrings(c, start, |news|, was);
    assert m.start == start;
    assert From(was, c.added + c.start - start) == text[c.start + c.added..start + removed];
    assert was[..c.start - start] == text[start..c.start];
    EditedOver(text, start, removed, news, c.start, c.start + c.added, Strings(c.was));
  }

  /** Putting back what an edit has taken out, but for a stretch of text that becomes `w`. */
  lemma EditedOver(text: Text, start: nat, removed: nat, news: Text, from: nat, to: nat, w: Text)
    requires start <= from <= to <= start + removed <= |text| && |news| == 1
    ensures Edited(Edited(text, start, removed, news), start, 1, text[start..from] + w + text[to..start + removed])
      == Edited(text, from, to - from, w)
  {
    var text' := Edited(text, start, removed, news);
    assert text'[..start] == text[..start] && text'[start + 1..] == text[start + removed..];
    assert text[..start] + text[start..from] == text[..from];
    assert text[to..start + removed] + text[start + removed..] == text[to..];
  }

  /** Taking back lines that are not there makes a text too short, and taking back just one line gives the right
      length only if the edit has left one line and reached to the end of the change. */
  lemma PastLengths(n: nat, start: nat, removed: nat, added: nat, from: nat, taken: nat, back: nat)
    requires start + removed <= n && from + taken <= n && 0 < added < removed && from <= start + added
    requires taken > 0 && from + taken > n + added - removed
    ensures var more := from - Min(start, from) + back + Max(0, start + removed - from - taken);
      && n + added - removed - (from + taken - Min(start, from)) + more < n - taken + back
      && (n + added - removed - 1 + more == n - taken + back ==>
        added == 1 && start <= from && from + taken <= start + removed)
  {
  }

  lemma PastWrapped(c: Change, text: Text, start: nat, removed: nat, news: Text)
    requires Follows(c, text, start, removed, news)
    requires var m, text' := Merged(c, start, |news|, text[start..start + removed]), Edited(text, start, removed, news);
      Wraps(m, text')
    ensures var m, text' := Merged(c, start, |news|, text[start..start + removed]), Edited(text, start, removed, news);
      Undone(m, text') == Reverted(c, text) <==> WrapsBack(c, start, |news|, removed, |text'|)
  {
    hide Slots, Merged, Undone, Edited, Wrapped, Strings;
    var m, text' := Merged(c, start, |news|, text[start..start + removed]), Edited(text, start, removed, news);
    MergedPast(c, text, start, removed, news);
    EditedLength(text, start, removed, news);
    EditedLength(text, c.start, c.added, Strings(c.was));
    PastLengths(|text|, start, removed, |news|, c.start, c.added, |c.was|);
    UndoneWraps(m, text');
    EditedLength(text', m.start, 1, Strings(m.was));
    if WrapsBack(c, start, |news|, removed, |text'|) { PastWraps(c, text, start, removed, news); }
  }

  lemma PastShort(c: Change, text: Text, start: nat, removed: nat, news: Text)
    requires Follows(c, text, start, removed, news)
    requires var m, text' := Merged(c, start, |news|, text[start..start + removed]), Edited(text, start, removed, news);
      Applies(m, text') && !Fits(m, text') && !Wraps(m, text')
    ensures var m, text' := Merged(c, start, |news|, text[start..start + removed]), Edited(text, start, removed, news);
      |Undone(m, text')| < |Reverted(c, text)| && !WrapsBack(c, start, |news|, removed, |text'|)
  {
    hide Slots, Merged, Undone, Edited, Wrapped, Strings;
    MergedPast(c, text, start, removed, news);
    EditedLength(text, start, removed, news);
    EditedLength(text, c.start, c.added, Strings(c.was));
    PastLengths(|text|, start, removed, |news|, c.start, c.added, |c.was|);
    UndonePast(Merged(c, start, |news|, text[start..start + removed]), Edited(text, start, removed, news));
  }

  /** A merged change that reaches past the end of the text leads back just when it wraps round to its first line
      and nothing but that line was left. */
  lemma PastReverts(c: Change, text: Text, start: nat, removed: nat, news: Text)
    requires Follows(c, text, start, removed, news)
    requires var m, text' := Merged(c, start, |news|, text[start..start + removed]), Edited(text, start, removed, news);
      Applies(m, text') && !Fits(m, text')
    ensures var m, text' := Merged(c, start, |news|, text[start..start + removed]), Edited(text, start, removed, news);
      Undone(m, text') == Reverted(c, text) <==> WrapsBack(c, start, |news|, removed, |text'|)
  {
    hide Merged, Undone, Edited, Reverted, WrapsBack;
    if Wraps(Merged(c, start, |news|, text[start..start + removed]), Edited(text, start, removed, news)) {
      PastWrapped(c, text, start, removed, news);
    } else {
      PastShort(c, text, start, removed, news);
    }
  }

  /** A merged change leads back to the text before both edits just when the merge is exact, or the change
      reaches past the end of the text and wraps round to what is left. */
  lemma MergeReverts(c: Change, text: Text, start: nat, removed: nat, news: Text)
    requires Follows(c, text, start, removed, news)
    ensures var m, text' := Merged(c, start, |news|, text[start..start + removed]), Edited(text, start, removed, news);
      && (Fits(m, text') && Reverted(m, text') == Reverted(c, text) <==> Exact(c, start, |news|, removed))
      && (Applies(m, text') && Undone(m, text') == Reverted(c, text) <==>
        Exact(c, start, |news|, removed) || WrapsBack(c, start, |news|, removed, |text'|))
  {
    var m, text' := Merged(c, start, |news|, text[start..start + removed]), Edited(text, start, removed, news);
    MergeRevertsInside(c, text, start, removed, news);
    if Fits(m, text') { UndoneFits(m, text'); }
    else if Applies(m, text') { PastReverts(c, text, start, removed, news); }
  }

  /** Joining two of three new lines right after inserting them cannot be undone: the merged change
      takes back one line too many. */
  lemma MergeLosesLine()
    ensures var c, text := Change(0, 3, [Some("a")]), ["a", "b", "c", "z"];
      && Follows(c, text, 0, 2, ["ab"])
      && var m := Merged(c, 0, 1, text[0..2]);
      && Fits(m, Edited(text, 0, 2, ["ab"]))
      && Reverted(c, text) == ["a", "z"] && Reverted(m, Edited(text, 0, 2, ["ab"])) == ["a"]
  {
    var c, text := Change(0, 3, [Some("a")]), ["a", "b", "c", "z"];
    var m := Merged(c, 0, 1, text[0..2]);
    assert m == Change(0, 3, [Some("a")]);
    assert Edited(text, 0, 2, ["ab"]) == ["ab", "c", "z"];
  }

  /** Joining the two new lines of a text can be undone: the merged change takes back a line that is no longer
      there, but the lookup of that line wraps round to the joined line. */
  lemma MergeWraps()
    ensures var c, text := Change(0, 2, [Some("x"), Some("y")]), ["p", "q"];
      && Follows(c, text, 0, 2, ["pq"]) && !Exact(c, 0, 1, 2)
      && var m := Merged(c, 0, 1, text[0..2]);
      && m == c && !Fits(m, Edited(text, 0, 2, ["pq"]))
      && Applies(m, Edited(text, 0, 2, ["pq"])) && Undone(m, Edited(text, 0, 2, ["pq"])) == Reverted(c, text)
  {
    var c, text := Change(0, 2, [Some("x"), Some("y")]), ["p", "q"];
    var m := Merged(c, 0, 1, text[0..2]);
    assert m.was == c.was;
    assert Edited(text, 0, 2, ["pq"]) == ["pq"];
    MergeReverts(c, text, 0, 2, ["pq"]);
  }

  // ---------------------------------------------------------------- runs

  /** Undoing the changes on the stack one after the other leads to the given texts. */
  predicate Replays(text: Text, stack: seq<Change>, texts: seq<Text>)
    decreases |stack|
  {
    && |texts| == |stack|
    && (|stack| > 0 ==>
      var c := stack[|stack| - 1];
      Fits(c, text) && Reverted(c, text) == texts[0] && Replays(texts[0], stack[..|stack| - 1], texts[1..]))
  }

  /** An editor: its text and the changes that can be undone and redone. */
  datatype Session = Session(text: Text, done: seq<Change>, undone: seq<Change>)

  datatype Step =
    | Edit(start: nat, removed: nat, news: Text, late: bool)
    | Undo
    | Redo

  predicate CanStep(s: Session, e: Step) {
    match e
    case Edit(start, removed, news, _) => start + removed <= |s.text| && removed > 0 && |news| > 0
    case Undo => |s.done| > 0 ==> Keeps(s.done[|s.done| - 1], s.text)
    case Redo => |s.undone| > 0 ==> Keeps(s.undone[|s.undone| - 1], s.text)
  }

  function Newest<T>(s: seq<T>, depth: nat): (r: seq<T>)
    ensures |r| == if |s| > depth then depth else |s|
  {
    if |s| > depth then s[|s| - depth..] else s
  }

  function Next(s: Session, e: Step, depth: nat): Session
    requires CanStep(s, e)
  {
    match e
    case Edit(start, removed, news, late) =>
      Session(Edited(s.text, start, removed, news),
        Newest(Recorded(s.done, late, start, |news|, s.text[start..start + removed]), depth), [])
    case Undo =>
      if |s.done| == 0 then s
      else
        var c := s.done[|s.done| - 1];
        Session(Undone(c, s.text), s.done[..|s.done| - 1], s.undone + [Inverse(c, s.text)])
    case Redo =>
      if |s.undone| == 0 then s
      else
        var c := s.undone[|s.undone| - 1];
        Session(Undone(c, s.text), s.done + [Inverse(c, s.text)], s.undone[..|s.undone| - 1])
  }

  /** What the user expects: the texts before and after the present one, nearest first. */
  datatype Timeline = Timeline(past: seq<Text>, now: Text, future: seq<Text>)

  /** Whether an edit is merged with the change before it. */
  predicate Merges(s: Session, e: Step) {
    e.Edit? && !e.late && |s.done| > 0 && !Apart(s.done[|s.done| - 1], e.start, |e.news|)
  }

  function Nearest<T>(s: seq<T>, depth: nat): seq<T> {
    if |s| > depth then s[..depth] else s
  }

  /** An edit starts a new future; a merged one takes the place of the present. */
  function Onward(t: Timeline, e: Step, merges: bool, depth: nat): Timeline
    requires e.Edit? ==> e.start + e.removed <= |t.now|
  {
    match e
    case Edit(start, removed, news, _) =>
      Timeline(Nearest(if merges then t.past else [t.now] + t.past, depth), Edited(t.now, start, removed, news), [])
    case Undo =>
      if |t.past| == 0 then t else Timeline(t.past[1..], t.past[0], [t.now] + t.future)
    case Redo =>
      if |t.future| == 0 then t else Timeline([t.now] + t.past, t.future[0], t.future[1..])
  }

  ghost predicate Follow(s: Session, t: Timeline) {
    s.text == t.now && Replays(s.text, s.done, t.past) && Replays(s.text, s.undone, t.future)
  }

  /** Edits and undos that keep the stacks good: edits in range, and no inexact merge. */
  predicate Fair(s: Session, e: Step) {
    && (e.Edit? ==> CanStep(s, e))
    && (Merges(s, e) ==> Exact(s.done[|s.done| - 1], e.start, |e.news|, e.removed))
  }

  lemma ReplaysPush(text: Text, stack: seq<Change>, texts: seq<Text>, c: Change, text': Text)
    requires Replays(text, stack, texts) && Fits(c, text') && Reverted(c, text') == text
    ensures Replays(text', stack + [c], [text] + texts)
  {
    assert (stack + [c])[..|stack|] == stack && ([text] + texts)[1..] == texts;
  }

  /** Forgetting the oldest changes forgets the oldest texts. */
  lemma {:induction false} ReplaysNewest(text: Text, stack: seq<Change>, texts: seq<Text>, depth: nat)
    requires Replays(text, stack, texts)
    ensures Replays(text, Newest(stack, depth), Nearest(texts, depth))
    decreases |stack|
  {
    if |stack| > depth && depth > 0 {
      var n := |stack|;
      ReplaysNewest(texts[0], stack[..n - 1], texts[1..], depth - 1);
      assert Newest(stack[..n - 1], depth - 1) == stack[n - depth..][..depth - 1];
      assert Nearest(texts[1..], depth - 1) == texts[..depth][1..];
    }
  }

  lemma MergeFollows(s: Session, t: Timeline, e: Step, depth: nat)
    requires Follow(s, t) && e.Edit? && Fair(s, e) && Merges(s, e)
    ensures Follow(Next(s, e, depth), Onward(t, e, true, depth))
  {
    hide Merged, Exact, Fits, Reverted, Edited;
    var n, was := |s.done|, s.text[e.start..e.start + e.removed];
    var text' := Edited(s.text, e.start, e.removed, e.news);
    var m := Merged(s.done[n - 1], e.start, |e.news|, was);
    MergeReverts(s.done[n - 1], s.text, e.start, e.removed, e.news) by {
      FollowsLast(s, t, e);
    }
    ReplaysPush(t.past[0], s.done[..n - 1], t.past[1..], m, text');
    assert t.past == [t.past[0]] + t.past[1..];
    ReplaysNewest(text', s.done[..n - 1] + [m], t.past, depth);
  }

  lemma FollowsLast(s: Session, t: Timeline, e: Step)
    requires Follow(s, t) && e.Edit? && Fair(s, e) && Merges(s, e)
    ensures Follows(s.done[|s.done| - 1], s.text, e.start, e.removed, e.news)
  {
  }

  lemma PlainFollows(s: Session, t: Timeline, e: Step, depth: nat)
    requires Follow(s, t) && e.Edit? && Fair(s, e) && !Merges(s, e)
    ensures Follow(Next(s, e, depth), Onward(t, e, false, depth))
  {
    hide Fits, Reverted, Edited;
    var was := s.text[e.start..e.start + e.removed];
    var text' := Edited(s.text, e.start, e.removed, e.news);
    var c := Change(e.start, |e.news|, Defined(was));
    RecordReverts(s.text, e.start, e.removed, e.news);
    ReplaysPush(s.text, s.done, t.past, c, text');
    ReplaysNewest(text', s.done + [c], [t.now] + t.past, depth);
  }

  /** Every step, undo and redo included, can be taken, and does what the timeline says. */
  lemma StepFollows(s: Session, t: Timeline, e: Step, depth: nat)
    requires Follow(s, t) && Fair(s, e)
    ensures CanStep(s, e) && Follow(Next(s, e, depth), Onward(t, e, Merges(s, e), depth))
  {
    hide Undone, Wraps, Reverted, Inverse;
    match e
    case Edit(_, _, _, _) =>
      if Merges(s, e) { MergeFollows(s, t, e, depth); } else { PlainFollows(s, t, e, depth); }
    case Undo =>
      if |s.done| > 0 {
        var c := s.done[|s.done| - 1];
        UndoneFits(c, s.text);
        InverseReverts(c, s.text);
        ReplaysPush(s.text, s.undone, t.future, Inverse(c, s.text), Reverted(c, s.text));
      }
    case Redo =>
      if |s.undone| > 0 {
        var c := s.undone[|s.undone| - 1];
        UndoneFits(c, s.text);
        InverseReverts(c, s.text);
        ReplaysPush(s.text, s.done, t.past, Inverse(c, s.text), Reverted(c, s.text));
      }
  }

  ghost predicate FairRun(s: Session, es: seq<Step>, depth: nat)
    decreases |es|
  {
    |es| > 0 ==> Fair(s, es[0]) && CanStep(s, es[0]) && FairRun(Next(s, es[0], depth), es[1..], depth)
  }

  ghost function Run(s: Session, es: seq<Step>, depth: nat): Session
    requires FairRun(s, es, depth)
    decreases |es|
  {
    if |es| == 0 then s else Run(Next(s, es[0], depth), es[1..], depth)
  }

  /** What the user expects after a run. */
  ghost function Expected(s: Session, t: Timeline, es: seq<Step>, depth: nat): Timeline
    requires FairRun(s, es, depth) && Follow(s, t)
    decreases |es|
  {
    if |es| == 0 then t
    else
      StepFollows(s, t, es[0], depth);
      Expected(Next(s, es[0], depth), Onward(t, es[0], Merges(s, es[0]), depth), es[1..], depth)
  }

  /** Over every run of edits, undos and redos the editor follows the timeline. */
  lemma {:induction false} RunFollows(s: Session, t: Timeline, es: seq<Step>, depth: nat)
    requires FairRun(s, es, depth) && Follow(s, t)
    ensures Follow(Run(s, es, depth), Expected(s, t, es, depth))
    decreases |es|
  {
    if |es| > 0 {
      StepFollows(s, t, es[0], depth);
      RunFollows(Next(s, es[0], depth), Onward(t, es[0], Merges(s, es[0]), depth), es[1..], depth);
    }
  }

  function Repeat(e: Step, k: nat): (r: seq<Step>)
    ensures |r| == k && forall i :: 0 <= i < k ==> r[i] == e
  {
    seq(k, i requires 0 <= i < k => e)
  }

  /** The timeline some changes ago, and some changes later. */
  function Rewound(t: Timeline, k: nat): Timeline
    decreases k
  {
    if k == 0 then t else Rewound(Onward(t, Undo, false, 0), k - 1)
  }

  function Advanced(t: Timeline, k: nat): Timeline
    decreases k
  {
    if k == 0 then t else Advanced(Onward(t, Redo, false, 0), k - 1)
  }

  lemma {:induction false} RewoundNow(t: Timeline, k: nat)
    requires k <= |t.past|
    ensures Rewound(t, k).now == ([t.now] + t.past)[k] && |Rewound(t, k).future| == |t.future| + k
    decreases k
  {
    if k > 0 { RewoundNow(Onward(t, Undo, false, 0), k - 1); }
  }

  lemma {:induction false} AdvancedStep(t: Timeline, k: nat)
    ensures Advanced(t, k + 1) == Onward(Advanced(t, k), Redo, false, 0)
    decreases k
  {
    if k > 0 { AdvancedStep(Onward(t, Redo, false, 0), k - 1); }
  }

  lemma {:induction false} ThereAndBack(t: Timeline, k: nat)
    requires k <= |t.past|
    ensures Advanced(Rewound(t, k), k) == t
    decreases k
  {
    if k > 0 {
      var t1 := Onward(t, Undo, false, 0);
      ThereAndBack(t1, k - 1);
      AdvancedStep(Rewound(t, k), k - 1);
      assert [t1.now] + t1.past == t.past && ([t.now] + t.future)[1..] == t.future;
    }
  }

  lemma {:induction false} UndosRewind(s: Session, t: Timeline, k: nat, depth: nat)
    requires Follow(s, t)
    ensures FairRun(s, Repeat(Undo, k), depth) && Follow(Run(s, Repeat(Undo, k), depth), Rewound(t, k))
    decreases k
  {
    if k > 0 {
      StepFollows(s, t, Undo, depth);
      assert Repeat(Undo, k)[1..] == Repeat(Undo, k - 1);
      UndosRewind(Next(s, Undo, depth), Onward(t, Undo, false, 0), k - 1, depth);
    }
  }

  lemma {:induction false} RedosAdvance(s: Session, t: Timeline, k: nat, depth: nat)
    requires Follow(s, t)
    ensures FairRun(s, Repeat(Redo, k), depth) && Follow(Run(s, Repeat(Redo, k), depth), Advanced(t, k))
    decreases k
  {
    if k > 0 {
      StepFollows(s, t, Redo, depth);
      assert Repeat(Redo, k)[1..] == Repeat(Redo, k - 1);
      RedosAdvance(Next(s, Redo, depth), Onward(t, Redo, false, 0), k - 1, depth);
    }
  }

  /** As many undos as there are changes on the stack, or fewer, lead to the text of that many changes
      ago, and the same number of redos leads back. */
  lemma UndosThenRedos(s: Session, t: Timeline, k: nat, depth: nat)
    requires Follow(s, t) && k <= |s.done|
    ensures FairRun(s, Repeat(Undo, k), depth)
    ensures var s1 := Run(s, Repeat(Undo, k), depth);
      && s1.text == ([t.now] + t.past)[k]
      && FairRun(s1, Repeat(Redo, k), depth) && Run(s1, Repeat(Redo, k), depth).text == s.text
  {
    UndosRewind(s, t, k, depth);
    RewoundNow(t, k);
    RedosAdvance(Run(s, Repeat(Undo, k), depth), Rewound(t, k), k, depth);
    ThereAndBack(t, k);
  }

  /** Two edits, of which the second comes shortly after the first, and one undo: it leads to the text before both if
      the second edit touches the lines of the first or is not further below them than it made them more, and to the
      text between the two otherwise. */
  lemma QuickEdits(s: Session, t: Timeline, e1: Step, e2: Step, depth: nat)
    requires Follow(s, t) && e1.Edit? && e1.late && Fair(s, e1) && depth > 0
    requires e2.Edit? && !e2.late && CanStep(Next(s, e1, depth), e2)
    requires Exact(Change(e1.start, |e1.news|, []), e2.start, |e2.news|, e2.removed)
      || e2.start + |e2.news| < e1.start || e1.start + 2 * |e1.news| < e2.start + e1.removed
    ensures var s1 := Next(s, e1, depth);
      var s2 := Next(s1, e2, depth);
      && CanStep(s2, Undo) && Next(s2, Undo, depth).text ==
        if e1.start <= e2.start + |e2.news| && e2.start + e1.removed <= e1.start + 2 * |e1.news|
        then s.text else s1.text
  {
    LastIs(s, e1, depth);
    StepFollows(s, t, e1, depth);
    var s1, t1 := Next(s, e1, depth), Onward(t, e1, false, depth);
    var near := e1.start <= e2.start + |e2.news| && e2.start + e1.removed <= e1.start + 2 * |e1.news|;
    assert Merges(s1, e2) == near && Fair(s1, e2);
    hide Next, Onward, Follow, Fair, CanStep, Merges, FairRun, Run, Exact;
    StepFollows(s1, t1, e2, depth);
    var s2, t2 := Next(s1, e2, depth), Onward(t1, e2, near, depth);
    FairUndo(s2);
    StepFollows(s2, t2, Undo, depth);
    TwoThenBack(t, e1, e2, near, depth) by { CanEdit(s, e1); CanEdit(s1, e2); FollowNow(s, t); FollowNow(s1, t1); }
    FollowNow(s, t);
    FollowNow(s1, t1);
    FollowNow(Next(s2, Undo, depth), Onward(t2, Undo, false, depth));
  }

  lemma FairUndo(s: Session)
    ensures Fair(s, Undo) && !Merges(s, Undo)
  {
  }

  lemma CanEdit(s: Session, e: Step)
    requires CanStep(s, e) && e.Edit?
    ensures e.start + e.removed <= |s.text|
  {
  }

  lemma FollowNow(s: Session, t: Timeline)
    requires Follow(s, t)
    ensures s.text == t.now
  {
  }

  lemma TwoThenBack(t: Timeline, e1: Step, e2: Step, merges: bool, depth: nat)
    requires depth > 0 && e1.Edit? && e2.Edit? && e1.start + e1.removed <= |t.now|
    requires e2.start + e2.removed <= |Onward(t, e1, false, depth).now|
    ensures var t1 := Onward(t, e1, false, depth);
      Onward(Onward(t1, e2, merges, depth), Undo, false, depth).now == if merges then t.now else t1.now
  {
    hide Edited;
  }

  lemma LastIs(s: Session, e: Step, depth: nat)
    requires CanStep(s, e) && e.Edit? && e.late && depth > 0
    ensures var done := Next(s, e, depth).done;
      && |done| > 0 && done[|done| - 1] == Change(e.start, |e.news|, Defined(s.text[e.start..e.start + e.removed]))
  {
  }
}
