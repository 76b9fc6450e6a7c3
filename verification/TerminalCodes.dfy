/** The control codes and escape sequences of the screen: what whole sequences of bytes do, in rows and columns of
    characters counted from 1, and in pixels. */
module TerminalCodes {
  import opened Common
  import opened Terminal

  const BS: byte := 8
  const TAB: byte := 9
  const LF: byte := 10
  const CR: byte := 13
  const ESC: byte := 27
  const BRACKET: byte := 91

  // ---------------------------------------------------------------- where the cursor goes

  /** One row up, unless the cursor is in the first row of the scroll region. */
  lemma UpReaches(g: Geo, t: Term)
    requires TermOk(g, t)
    ensures var t' := CursorUp(g, t);
      && TermOk(g, t')
      && if RowOf(g, t) > FirstRow(g, t) then RowOf(g, t') == RowOf(g, t) - 1 && t' == t.(y := t'.y) else t' == t
  {
    UpOk(g, t);
    AtFirst(g, t);
    RowsAfterFirst(g, t);
    UsedHeightFits(g);
    hide UsedHeight;
    if t.y > t.scrollStart {
      CellDown(t.y, g.charH);
      CellBelow(t.y, g.charH);
    }
  }

  lemma RowsAfterFirst(g: Geo, t: Term)
    requires TermOk(g, t)
    ensures FirstRow(g, t) <= RowOf(g, t) <= LastRow(g, t) && ColumnOf(g, t) >= 1
  {
    NextRow(t.y, t.scrollEnd, g.charH);
    DivMono(t.scrollStart, t.y, g.charH);
  }

  lemma DivMono(a: nat, b: nat, m: nat)
    requires m > 0 && a <= b
    ensures a / m <= b / m
  {
    DivBounds(a, m);
    DivBounds(b, m);
    if b / m < a / m { ScaleLess(m, b / m, a / m); }
  }

  lemma CellBelow(a: nat, m: nat)
    requires m > 0 && Cell(a, m) && a >= m
    ensures CellNumber(a - m, m) == CellNumber(a, m) - 1
  {
    DivBounds(a, m);
    var q := a / m;
    if q == 0 { TimesMono(m, q, 0); }
    assert m * (q - 1) == m * q - m;
    DivIs(a - m, m, q - 1, 0);
  }

  /** One row down, or the scroll region up if the cursor is in its last row. */
  lemma DownReaches(g: Geo, t: Term)
    requires TermOk(g, t)
    ensures var t' := CursorDown(g, t);
      && TermOk(g, t')
      && if RowOf(g, t) < LastRow(g, t) then RowOf(g, t') == RowOf(g, t) + 1 && t' == t.(y := t'.y)
         else RowOf(g, t) == LastRow(g, t) && t' == Scroll(g, t)
  {
    DownOk(g, t);
    NextRow(t.y, t.scrollEnd, g.charH);
    UsedHeightFits(g);
    hide UsedHeight, MovedUp, Cell;
  }

  /** One column right, or to a new line behind the last column. */
  lemma RightReaches(g: Geo, t: Term)
    requires TermOk(g, t)
    ensures var t', next := CursorRight(g, t), ColumnOf(g, t) + 1;
      && TermOk(g, t')
      && if Begins(next, g.charW) < g.width then ColumnOf(g, t') == next && t' == t.(x := t'.x) else t' == NewLine(g, t)
  {
    RightOk(g, t);
    NewLineOk(g, t, t.x + g.charW);
    CellAbove(t.x, g.charW);
    hide UsedHeight, Cell, NewLine, CellNumber, Begins;
  }

  lemma CellAbove(a: nat, m: nat)
    requires m > 0 && Cell(a, m)
    ensures CellNumber(a + m, m) == CellNumber(a, m) + 1 && Begins(CellNumber(a, m) + 1, m) == a + m
    ensures Begins(CellNumber(a, m), m) == a
  {
    DivBounds(a, m);
    var q := a / m;
    assert m * (q + 1) == m * q + m == (q + 1) * m && m * q == q * m;
    DivIs(a + m, m, q + 1, 0);
  }

  /** One column left, or to the last column of the row above from the first one, unless the cursor is in the first
      row of the scroll region. */
  lemma LeftReaches(g: Geo, t: Term)
    requires TermOk(g, t)
    ensures var t' := CursorLeft(g, t);
      && TermOk(g, t')
      && if ColumnOf(g, t) > 1 then ColumnOf(g, t') == ColumnOf(g, t) - 1 && t' == t.(x := t'.x)
         else if RowOf(g, t) > FirstRow(g, t) then
           && RowOf(g, t') == RowOf(g, t) - 1 && Begins(ColumnOf(g, t') + 1, g.charW) == g.width
           && t' == t.(x := t'.x, y := t'.y)
         else t' == t
  {
    LeftOk(g, t);
    AtFirst(g, t);
    RowsAfterFirst(g, t);
    UsedHeightFits(g);
    hide UsedHeight, Begins, CellNumber;
    if t.x > 0 {
      CellDown(t.x, g.charW);
      CellBelow(t.x, g.charW);
    } else if t.y > t.scrollStart {
      WidthCell(g, t);
      CellDown(t.y, g.charH);
      CellBelow(t.y, g.charH);
      CellDown(g.width, g.charW);
      CellAbove(g.width - g.charW, g.charW);
    }
  }

  // ---------------------------------------------------------------- what is painted

  /** After scrolling each row of the scroll region shows the row below it, and the last one is empty. */
  lemma ScrolledPixel(g: Geo, t: Term, x: nat, y: nat)
    requires TermOk(g, t) && x < g.width && y < g.height
    ensures var t' := Scroll(g, t);
      && t' == t.(pic := t'.pic)
      && PixelAt(g, t', x, y) ==
        if t.scrollStart <= y && y + g.charH < t.scrollEnd then PixelAt(g, t, x, y + g.charH)
        else if t.scrollStart <= y < t.scrollEnd then t.bg
        else PixelAt(g, t, x, y)
  {
    ScrollFits(g, t);
    InScreen(g, t);
    RegionCells(g, t);
    RowBounds(g.pitch, x, y, g.height);
    if y + g.charH < t.scrollEnd { RowBounds(g.pitch, x, y + g.charH, g.height); }
    MovedAt(g, t.pic, t.scrollStart, t.scrollEnd, g.charH, t.bg, x, y);
    hide TermOk, MovedUp, UsedHeight, CanScroll;
  }

  lemma MovedAt(g: Geo, pic: seq<Color>, start: nat, end: nat, n: nat, bg: Color, x: nat, y: nat)
    requires start + n <= end && end * g.pitch <= |pic| && x < g.pitch && g.pitch * y + x < |pic|
    ensures start <= y && y + n < end ==> g.pitch * (y + n) + x < |pic|
    ensures MovedUp(g, pic, start, end, n, bg)[g.pitch * y + x] ==
      if start <= y && y + n < end then pic[g.pitch * (y + n) + x] else if start <= y < end then bg
      else pic[g.pitch * y + x]
  {
    var i, p := g.pitch * y + x, g.pitch;
    RowBounds(p, x, y, start);
    RowBounds(p, x, y, end);
    RowBounds(p, x, y, end - n);
    RowBounds(p, x, y + n, end);
    Distributes(p, y, n);
    var moved := MovedUp(g, pic, start, end, n, bg);
    assert moved[i] == if start * p <= i < (end - n) * p then pic[i + n * p]
      else if (end - n) * p <= i < end * p then bg else pic[i];
    hide MovedUp;
  }

  lemma Distributes(p: nat, a: nat, b: nat)
    ensures p * (a + b) == p * a + b * p
  {
  }

  /** Which row a pixel is in, by its index. */
  lemma RowBounds(p: nat, x: nat, y: nat, row: nat)
    requires x < p
    ensures p * y + x < row * p <==> y < row
    ensures p * y + x < p * row <==> y < row
  {
    assert row * p == p * row;
    ScaleLess(p, y, row);
    if row <= y { TimesMono(p, row, y); }
  }

  /** Clearing the line leaves all pixels but those from the cursor to the end of its row. */
  lemma LineClearedPixel(g: Geo, t: Term, x: nat, y: nat)
    requires TermOk(g, t) && x < g.width && y < g.height
    ensures var t' := ClearLineEnd(g, t);
      && t' == t.(pic := t'.pic)
      && PixelAt(g, t', x, y) == if t.x <= x && t.y <= y < t.y + g.charH then t.bg else PixelAt(g, t, x, y)
  {
    InScreen(g, t);
    PixelPainted(g, t, t.x, t.y, g.width - t.x, g.charH, Solid(t.bg), x, y);
    hide Painted, PixelAt;
  }

  /** Clearing the display leaves just the rows above the cursor, and what is left of it in its row. */
  lemma DisplayClearedPixel(g: Geo, t: Term, x: nat, y: nat)
    requires TermOk(g, t) && x < g.width && y < g.height
    ensures var t' := ClearDisplayEnd(g, t);
      && t' == t.(pic := t'.pic)
      && PixelAt(g, t', x, y) ==
        if y >= t.y + g.charH || (y >= t.y && x >= t.x) then t.bg else PixelAt(g, t, x, y)
  {
    InScreen(g, t);
    LineClearedPixel(g, t, x, y);
    RowBounds(g.pitch, x, y, g.height);
    ClearedAt(g, ClearLineEnd(g, t).pic, t.y + g.charH, t.bg, x, y);
    hide TermOk, ClearLineEnd, Cleared, GeoFits;
  }

  lemma ClearedAt(g: Geo, pic: seq<Color>, row: nat, bg: Color, x: nat, y: nat)
    requires x < g.pitch && g.pitch * y + x < |pic|
    ensures Cleared(pic, row * g.pitch, bg)[g.pitch * y + x] == if y >= row then bg else pic[g.pitch * y + x]
  {
    RowBounds(g.pitch, x, y, row);
  }

  /** Erasing characters leaves all pixels but those of so many cells from the cursor on, at most to the end of the
      row. */
  lemma CharsErasedPixel(g: Geo, t: Term, n: nat, x: nat, y: nat)
    requires TermOk(g, t) && x < g.width && y < g.height
    ensures var t' := EraseChars(g, t, n);
      && t' == t.(pic := t'.pic)
      && PixelAt(g, t', x, y) ==
        if t.x <= x < t.x + n * g.charW && t.y <= y < t.y + g.charH then t.bg else PixelAt(g, t, x, y)
  {
    EraseOk(g, t, n);
    ProductNat(n, g.charW);
    var w: nat := n * g.charW;
    var end := if t.x + w > g.width then g.width else t.x + w;
    EraseIs(g, t, n, end);
    ErasedPixel(g, t, w, x, y);
    hide TermOk, Erased, PixelAt, EraseChars;
  }

  lemma ProductNat(a: nat, b: nat)
    ensures a * b >= 0
  {
  }

  lemma ErasedPixel(g: Geo, t: Term, w: nat, x: nat, y: nat)
    requires TermOk(g, t) && x < g.width && y < g.height
    ensures var end := if t.x + w > g.width then g.width else t.x + w;
      PixelAt(g, Erased(g, t, if t.x < end then end - t.x else 0), x, y)
        == if t.x <= x < t.x + w && t.y <= y < t.y + g.charH then t.bg else PixelAt(g, t, x, y)
  {
    InScreen(g, t);
    var end := if t.x + w > g.width then g.width else t.x + w;
    PixelPainted(g, t, t.x, t.y, if t.x < end then end - t.x else 0, g.charH, Solid(t.bg), x, y);
    hide TermOk, Painted, PixelAt;
  }

  /** Showing the cursor paints the lower part of its cell, from the underline on, in the current color. */
  lemma CursorShown(g: Geo, s: Screen, x: nat, y: nat)
    requires GeoFits(g) && |s.t.pic| == g.pitch * g.height && !s.shown && x < g.width && y < g.height
    ensures var s' := InvertCursor(g, s);
      && s'.shown == s.t.on && s'.t == s.t.(pic := s'.t.pic)
      && PixelAt(g, s'.t, x, y) ==
        if s.t.on && s.t.x <= x < s.t.x + g.charW && s.t.y + g.underline <= y < s.t.y + g.charH then s.t.color
        else PixelAt(g, s.t, x, y)
  {
    PixelPainted(g, s.t, s.t.x, s.t.y + g.underline, g.charW, g.charH - g.underline, Solid(s.t.color), x, y);
    hide Painted, Covered, PixelAt;
  }

  /** After start-up the screen is black all over, the cursor stands in the first cell, all rows scroll, and text is
      written in bright white. */
  lemma StartupMeans(g: Geo, pic: seq<Color>, x: nat, y: nat)
    requires GeoFits(g) && |pic| == g.pitch * g.height && x < g.width && y < g.height
    ensures var t := Startup(g, pic);
      && t.parser == Begin && t.on && !t.reverse && !t.insert && t.color == 15 && t.bg == 0
      && RowOf(g, t) == 1 && ColumnOf(g, t) == 1 && FirstRow(g, t) == 1 && LastRow(g, t) == g.height / g.charH
      && PixelAt(g, t, x, y) == 0
  {
    var t := Term(Begin, 0, 0, 0, UsedHeight(g), 0, 0, true, NORMAL, BLACK, false, false, pic);
    StartupPixel(g, t, x, y);
    DivMod(g.charH, 0, 0);
    DivMod(g.charW, 0, 0);
    DivMod(g.charH, g.height / g.charH, 0);
    hide PixelAt, Painted, Cleared;
  }

  lemma StartupPixel(g: Geo, t: Term, x: nat, y: nat)
    requires GeoFits(g) && |t.pic| == g.pitch * g.height && x < g.width && y < g.height && t.x == 0 && t.y == 0
    ensures PixelAt(g, ClearDisplayEnd(g, t), x, y) == t.bg
  {
    PixelPainted(g, t, 0, 0, g.width, g.charH, Solid(t.bg), x, y);
    ClearedAt(g, ClearLineEnd(g, t).pic, g.charH, t.bg, x, y);
    hide Painted, Cleared;
  }

  // ---------------------------------------------------------------- sequences without numbers

  lemma OneByte(g: Geo, t: Term, c: byte)
    requires GeoFits(g)
    ensures Steps(g, t, [c]) == Step(g, t, c)
  {
    hide Step;
    assert [c][1..] == [];
    assert Steps(g, Step(g, t, c), []) == Step(g, t, c);
  }

  /** The start of an escape sequence. */
  lemma Opened(g: Geo, t: Term, rest: seq<byte>)
    requires GeoFits(g) && t.parser == Begin
    ensures Steps(g, t, [ESC, BRACKET] + rest) == Steps(g, t.(parser := Bracket), rest)
  {
    StepsTwo(g, t, ESC, BRACKET, rest);
  }

  /** The terminal with another state of its parser. */
  function Parsing(t: Term, p: Parser, p1: nat, p2: nat): Term {
    t.(parser := p, p1 := p1, p2 := p2)
  }

  /** Cursor and picture have nothing to do with the parser. */
  lemma ScrollUnseen(g: Geo, t: Term, p: Parser, p1: nat, p2: nat)
    ensures Scroll(g, Parsing(t, p, p1, p2)) == Parsing(Scroll(g, t), p, p1, p2)
  {
    hide MovedUp;
  }

  lemma DownUnseen(g: Geo, t: Term, p: Parser, p1: nat, p2: nat)
    ensures CursorDown(g, Parsing(t, p, p1, p2)) == Parsing(CursorDown(g, t), p, p1, p2)
  {
    ScrollUnseen(g, t, p, p1, p2);
    hide Scroll;
  }

  lemma RightUnseen(g: Geo, t: Term, p: Parser, p1: nat, p2: nat)
    ensures CursorRight(g, Parsing(t, p, p1, p2)) == Parsing(CursorRight(g, t), p, p1, p2)
  {
    DownUnseen(g, t.(x := 0), p, p1, p2);
    hide CursorDown;
    var x := U32(t.x + g.charW);
    assert NewLine(g, Parsing(t, p, p1, p2).(x := x)) == CursorDown(g, Parsing(t.(x := 0), p, p1, p2));
  }

  lemma PictureUnseen(g: Geo, t: Term, p: Parser, p1: nat, p2: nat, n: nat)
    requires g.pitch > 0
    ensures ClearLineEnd(g, Parsing(t, p, p1, p2)) == Parsing(ClearLineEnd(g, t), p, p1, p2)
    ensures ClearDisplayEnd(g, Parsing(t, p, p1, p2)) == Parsing(ClearDisplayEnd(g, t), p, p1, p2)
    ensures EraseChars(g, Parsing(t, p, p1, p2), n) == Parsing(EraseChars(g, t, n), p, p1, p2)
  {
    hide Painted, Cleared;
  }

  /** After the first two bytes of an escape sequence the parser waits for its last byte. */
  lemma AfterBracket(g: Geo, t: Term, c: byte)
    requires GeoFits(g) && t.parser == Begin
    ensures Steps(g, t, [ESC, BRACKET, c]) == FromBracket(g, Parsing(t, Bracket, t.p1, t.p2), c)
  {
    hide FromBracket;
    Opened(g, t, [c]);
    assert [ESC, BRACKET] + [c] == [ESC, BRACKET, c];
    var t1 := Parsing(t, Bracket, t.p1, t.p2);
    OneByte(g, t1, c);
    hide Steps;
    assert t1 == t.(parser := Bracket);
  }

  /** What the last byte of an escape sequence without a number does. */
  lemma FinalUp(g: Geo, t: Term)
    requires GeoFits(g) && t.parser == Begin
    ensures Steps(g, t, [ESC, BRACKET, 'A' as int]) == CursorUp(g, t)
  {
    AfterBracket(g, t, 'A' as int);
    hide Steps;
  }

  lemma FinalDown(g: Geo, t: Term)
    requires GeoFits(g) && t.parser == Begin
    ensures Steps(g, t, [ESC, BRACKET, 'B' as int]) == CursorDown(g, t)
  {
    AfterBracket(g, t, 'B' as int);
    DownUnseen(g, t, Bracket, t.p1, t.p2);
    ParserKept(g, t);
    hide Steps, CursorDown;
  }

  lemma FinalRight(g: Geo, t: Term)
    requires GeoFits(g) && t.parser == Begin
    ensures Steps(g, t, [ESC, BRACKET, 'C' as int]) == CursorRight(g, t)
  {
    AfterBracket(g, t, 'C' as int);
    RightUnseen(g, t, Bracket, t.p1, t.p2);
    ParserKept(g, t);
    hide Steps, CursorRight;
  }

  lemma FinalLeft(g: Geo, t: Term)
    requires GeoFits(g) && t.parser == Begin
    ensures Steps(g, t, [ESC, BRACKET, 'D' as int]) == CursorLeft(g, t)
  {
    AfterBracket(g, t, 'D' as int);
    hide Steps;
  }

  lemma FinalHome(g: Geo, t: Term)
    requires GeoFits(g) && t.parser == Begin
    ensures Steps(g, t, [ESC, BRACKET, 'H' as int]) == CursorHome(t)
  {
    AfterBracket(g, t, 'H' as int);
    hide Steps;
  }

  lemma FinalClears(g: Geo, t: Term)
    requires GeoFits(g) && t.parser == Begin
    ensures Steps(g, t, [ESC, BRACKET, 'J' as int]) == ClearDisplayEnd(g, t)
    ensures Steps(g, t, [ESC, BRACKET, 'K' as int]) == ClearLineEnd(g, t)
  {
    AfterBracket(g, t, 'J' as int);
    AfterBracket(g, t, 'K' as int);
    PictureUnseen(g, t, Bracket, t.p1, t.p2, 0);
    ParserKept(g, t);
    hide Steps, ClearDisplayEnd, ClearLineEnd;
  }

  lemma ParserKept(g: Geo, t: Term)
    requires g.pitch > 0
    ensures CursorDown(g, t) == Parsing(CursorDown(g, t), t.parser, t.p1, t.p2)
    ensures CursorRight(g, t) == Parsing(CursorRight(g, t), t.parser, t.p1, t.p2)
    ensures ClearLineEnd(g, t) == Parsing(ClearLineEnd(g, t), t.parser, t.p1, t.p2)
    ensures ClearDisplayEnd(g, t) == Parsing(ClearDisplayEnd(g, t), t.parser, t.p1, t.p2)
  {
    hide MovedUp, Painted, Cleared;
  }

  /** ESC [ A: one row up in the scroll region. */
  lemma EscapeUp(g: Geo, t: Term)
    requires TermOk(g, t) && t.parser == Begin
    ensures var t' := Steps(g, t, [ESC, BRACKET, 'A' as int]);
      && TermOk(g, t')
      && if RowOf(g, t) > FirstRow(g, t) then RowOf(g, t') == RowOf(g, t) - 1 && t' == t.(y := t'.y) else t' == t
  {
    FinalUp(g, t);
    UpReaches(g, t);
    hide TermOk, UsedHeight, CursorUp, Steps;
  }

  /** ESC [ B: one row down in the scroll region, which scrolls up at its end. */
  lemma EscapeDown(g: Geo, t: Term, x: nat, y: nat)
    requires TermOk(g, t) && t.parser == Begin && x < g.width && y < g.height
    ensures var t' := Steps(g, t, [ESC, BRACKET, 'B' as int]);
      && TermOk(g, t')
      && if RowOf(g, t) < LastRow(g, t) then RowOf(g, t') == RowOf(g, t) + 1 && t' == t.(y := t'.y)
         else t' == t.(pic := t'.pic) && ShowsScrolled(g, t, t', x, y)
  {
    FinalDown(g, t);
    DownReaches(g, t);
    ScrolledPixel(g, t, x, y);
    hide TermOk, UsedHeight, Scroll, CursorDown, PixelAt, Steps;
  }

  /** A pixel after the scroll region has moved up by a row. */
  predicate ShowsScrolled(g: Geo, t: Term, t': Term, x: nat, y: nat) {
    PixelAt(g, t', x, y) ==
      if t.scrollStart <= y && y + g.charH < t.scrollEnd then PixelAt(g, t, x, y + g.charH)
      else if t.scrollStart <= y < t.scrollEnd then t.bg
      else PixelAt(g, t, x, y)
  }

  /** Going to the next line: to the first column of the row below, or of the last row of the scroll region, which
      scrolls up. */
  predicate InNextLine(g: Geo, t: Term, t': Term, x: nat, y: nat)
    requires g.charW > 0 && g.charH > 0
  {
    && ColumnOf(g, t') == 1
    && if RowOf(g, t) < LastRow(g, t) then RowOf(g, t') == RowOf(g, t) + 1 && t' == t.(x := 0, y := t'.y)
       else t' == t.(x := 0, pic := t'.pic) && ShowsScrolled(g, t, t', x, y)
  }

  lemma NextLineShown(g: Geo, t: Term, x: nat, y: nat)
    requires TermOk(g, t) && x < g.width && y < g.height
    ensures TermOk(g, NewLine(g, t)) && InNextLine(g, t, NewLine(g, t), x, y)
  {
    NewLineReaches(g, t);
    HomeOk(g, t);
    ScrolledPixel(g, t.(x := 0), x, y);
    PixelAnyColumn(g, t, 0, x, y);
    if y + g.charH < g.height { PixelAnyColumn(g, t, 0, x, y + g.charH); }
    InScreen(g, t);
    RegionCells(g, t);
    hide TermOk, UsedHeight, Scroll, NewLine, PixelAt;
  }

  /** ESC [ C: one column right, or to the next line behind the last column. */
  lemma EscapeRight(g: Geo, t: Term, x: nat, y: nat)
    requires TermOk(g, t) && t.parser == Begin && x < g.width && y < g.height
    ensures var t' := Steps(g, t, [ESC, BRACKET, 'C' as int]);
      && TermOk(g, t')
      && if Begins(ColumnOf(g, t) + 1, g.charW) < g.width
         then ColumnOf(g, t') == ColumnOf(g, t) + 1 && t' == t.(x := t'.x)
         else InNextLine(g, t, t', x, y)
  {
    FinalRight(g, t);
    RightReaches(g, t);
    NextLineShown(g, t, x, y);
    hide TermOk, UsedHeight, NewLine, CursorRight, Steps, InNextLine;
  }

  /** ESC [ D: one column left, or to the end of the row above. */
  lemma EscapeLeft(g: Geo, t: Term)
    requires TermOk(g, t) && t.parser == Begin
    ensures var t' := Steps(g, t, [ESC, BRACKET, 'D' as int]);
      TermOk(g, t') && InCellBefore(g, t, t')
  {
    FinalLeft(g, t);
    LeftReaches(g, t);
    hide TermOk, UsedHeight, CursorLeft, Steps, Begins;
  }

  /** Going one cell back: to the column on the left, from the first one to the last column of the row above, and
      nowhere from the first cell of the scroll region. */
  predicate InCellBefore(g: Geo, t: Term, t': Term)
    requires g.charW > 0 && g.charH > 0
  {
    if ColumnOf(g, t) > 1 then ColumnOf(g, t') == ColumnOf(g, t) - 1 && t' == t.(x := t'.x)
    else if RowOf(g, t) > FirstRow(g, t) then
      && RowOf(g, t') == RowOf(g, t) - 1 && Begins(ColumnOf(g, t') + 1, g.charW) == g.width
      && t' == t.(x := t'.x, y := t'.y)
    else t' == t
  }

  /** ESC [ H: to the first column of the first row of the scroll region. */
  lemma EscapeHome(g: Geo, t: Term)
    requires TermOk(g, t) && t.parser == Begin
    ensures var t' := Steps(g, t, [ESC, BRACKET, 'H' as int]);
      && TermOk(g, t') && t' == t.(x := t'.x, y := t'.y)
      && RowOf(g, t') == FirstRow(g, t) && ColumnOf(g, t') == 1
  {
    FinalHome(g, t);
    HomeIsFirst(g, t);
    hide TermOk, UsedHeight, Steps;
  }

  /** ESC [ J and ESC [ K: everything from the cursor on becomes background, to the end of the screen or to the end
      of the row, and nothing else changes. */
  lemma EscapeClears(g: Geo, t: Term, x: nat, y: nat)
    requires TermOk(g, t) && t.parser == Begin && x < g.width && y < g.height
    ensures var t' := Steps(g, t, [ESC, BRACKET, 'J' as int]);
      && t' == t.(pic := t'.pic)
      && PixelAt(g, t', x, y) == if y >= t.y + g.charH || (y >= t.y && x >= t.x) then t.bg else PixelAt(g, t, x, y)
    ensures var t' := Steps(g, t, [ESC, BRACKET, 'K' as int]);
      && t' == t.(pic := t'.pic)
      && PixelAt(g, t', x, y) == if t.x <= x && t.y <= y < t.y + g.charH then t.bg else PixelAt(g, t, x, y)
  {
    GeoIn(g, t);
    FinalClears(g, t);
    DisplayClearedPixel(g, t, x, y);
    LineClearedPixel(g, t, x, y);
    hide TermOk, UsedHeight, Steps, ClearLineEnd, ClearDisplayEnd, PixelAt;
  }

  /** Any other last byte does nothing: what follows is text again. */
  lemma EscapeUnknown(g: Geo, t: Term, c: byte)
    requires GeoFits(g) && t.parser == Begin && !Digit(c)
    requires (c as char) !in "?ABCDHJK"
    ensures Steps(g, t, [ESC, BRACKET, c]) == t
  {
    AfterBracket(g, t, c);
    hide Steps, CursorUp, CursorDown, CursorRight, CursorLeft, ClearDisplayEnd, ClearLineEnd;
  }

  // ---------------------------------------------------------------- sequences with numbers

  /** What a numeral stands for. */
  function ValueOf(ds: seq<byte>): nat
    requires forall i :: 0 <= i < |ds| ==> Digit(ds[i])
  {
    if |ds| == 0 then 0
    else
      var d: int := ds[|ds| - 1];
      assert Digit(d);
      10 * ValueOf(ds[..|ds| - 1]) + (d - 48)
  }

  /** A numeral up to a limit. */
  predicate Numeral(ds: seq<byte>, limit: nat) {
    |ds| > 0 && (forall i :: 0 <= i < |ds| ==> Digit(ds[i])) && ValueOf(ds) <= limit
  }

  lemma OneMore(g: Geo, t: Term, cs: seq<byte>, c: byte)
    requires GeoFits(g)
    ensures Steps(g, t, cs + [c]) == Step(g, Steps(g, t, cs), c)
  {
    hide Step, Steps;
    StepsConcat(g, t, cs, [c]);
    OneByte(g, Steps(g, t, cs), c);
  }

  /** A numeral of one digit, or one that is a digit longer than another. */
  lemma LastDigit(ds: seq<byte>, limit: nat)
    requires Numeral(ds, limit)
    ensures var front, d := ds[..|ds| - 1], ds[|ds| - 1];
      && Digit(d) && ds == front + [d]
      && if |ds| == 1 then ds == [d] && ValueOf(ds) == d - 48
         else Numeral(front, limit) && ValueOf(ds) == MoreDigits(ValueOf(front), d)
  {
    var front := ds[..|ds| - 1];
    assert |ds| == 1 ==> front == [];
  }

  /** One digit of the first number, of the second one, and of the one behind a question mark. */
  lemma FirstDigit(g: Geo, t: Term, d: byte)
    requires GeoFits(g) && Digit(d)
    ensures t.parser == Bracket ==> Step(g, t, d) == t.(parser := Number1, p1 := d - 48)
    ensures t.parser == Number1 ==>
      Step(g, t, d) == t.(parser := if t.p1 * 10 + (d - 48) > 199 then Begin else Number1, p1 := t.p1 * 10 + (d - 48))
  {
    hide CursorUp, CursorDown, CursorRight, CursorLeft, ClearDisplayEnd, ClearLineEnd, EraseChars, FromBegin,
      FromNumber2, FromNumber3;
  }

  lemma SecondDigit(g: Geo, t: Term, d: byte)
    requires GeoFits(g) && Digit(d)
    ensures t.parser == Semicolon ==> Step(g, t, d) == t.(parser := Number2, p2 := d - 48)
    ensures t.parser == Number2 ==>
      Step(g, t, d) == t.(parser := if t.p2 * 10 + (d - 48) > 199 then Begin else Number2, p2 := t.p2 * 10 + (d - 48))
  {
    hide CursorMove, SetScrollRegion, FromBegin, FromBracket, FromNumber1, FromNumber3;
  }

  lemma ModeDigit(g: Geo, t: Term, d: byte)
    requires GeoFits(g) && Digit(d)
    ensures t.parser == QuestionMark ==> Step(g, t, d) == t.(parser := Number3, p1 := d - 48)
    ensures t.parser == Number3 ==>
      Step(g, t, d) == t.(parser := if t.p1 * 10 + (d - 48) > 99 then Begin else Number3, p1 := t.p1 * 10 + (d - 48))
  {
    hide FromBegin, FromBracket, FromNumber1, FromNumber2;
  }

  /** Reading the first number of a sequence. */
  lemma {:induction false} FirstNumber(g: Geo, t: Term, ds: seq<byte>)
    requires GeoFits(g) && t.parser == Bracket && Numeral(ds, 199)
    ensures Steps(g, t, ds) == t.(parser := Number1, p1 := ValueOf(ds))
    decreases |ds|
  {
    hide Steps, Step, ValueOf;
    LastDigit(ds, 199);
    var front, d := ds[..|ds| - 1], ds[|ds| - 1];
    if |ds| == 1 {
      OneByte(g, t, d);
      FirstDigit(g, t, d);
    } else {
      FirstNumber(g, t, front);
      OneMore(g, t, front, d);
      FirstDigit(g, Steps(g, t, front), d);
    }
  }

  /** Reading the second one. */
  lemma {:induction false} SecondNumber(g: Geo, t: Term, ds: seq<byte>)
    requires GeoFits(g) && t.parser == Semicolon && Numeral(ds, 199)
    ensures Steps(g, t, ds) == t.(parser := Number2, p2 := ValueOf(ds))
    decreases |ds|
  {
    hide Steps, Step, ValueOf;
    LastDigit(ds, 199);
    var front, d := ds[..|ds| - 1], ds[|ds| - 1];
    if |ds| == 1 {
      OneByte(g, t, d);
      SecondDigit(g, t, d);
    } else {
      SecondNumber(g, t, front);
      OneMore(g, t, front, d);
      SecondDigit(g, Steps(g, t, front), d);
    }
  }

  /** Reading the one behind a question mark. */
  lemma {:induction false} ModeNumber(g: Geo, t: Term, ds: seq<byte>)
    requires GeoFits(g) && t.parser == QuestionMark && Numeral(ds, 99)
    ensures Steps(g, t, ds) == t.(parser := Number3, p1 := ValueOf(ds))
    decreases |ds|
  {
    hide Steps, Step, ValueOf;
    LastDigit(ds, 99);
    var front, d := ds[..|ds| - 1], ds[|ds| - 1];
    if |ds| == 1 {
      OneByte(g, t, d);
      ModeDigit(g, t, d);
    } else {
      ModeNumber(g, t, front);
      OneMore(g, t, front, d);
      ModeDigit(g, Steps(g, t, front), d);
    }
  }

  /** ESC [ and a number. */
  function WithNumber(ds: seq<byte>): seq<byte> {
    [ESC, BRACKET] + ds
  }

  lemma NumberRead(g: Geo, t: Term, ds: seq<byte>)
    requires GeoFits(g) && t.parser == Begin && Numeral(ds, 199)
    ensures Steps(g, t, WithNumber(ds)) == Parsing(t, Number1, ValueOf(ds), t.p2)
  {
    hide Steps, Numeral, ValueOf;
    Opened(g, t, ds);
    FirstNumber(g, t.(parser := Bracket), ds);
    assert Numeral(ds, 199);
  }

  /** A number above 199 ends the sequence with the digit that makes it so large; what follows is text again. */
  lemma TooLarge(g: Geo, t: Term, ds: seq<byte>, d: byte)
    requires GeoFits(g) && t.parser == Begin && Numeral(ds, 199) && Digit(d) && 10 * ValueOf(ds) + (d - 48) > 199
    ensures Steps(g, t, WithNumber(ds) + [d]) == t.(p1 := 10 * ValueOf(ds) + (d - 48))
  {
    NumberRead(g, t, ds);
    OneMore(g, t, WithNumber(ds), d);
    FirstDigit(g, Parsing(t, Number1, ValueOf(ds), t.p2), d);
    hide Steps, Step, ValueOf, WithNumber;
  }

  /** ESC [ n X: so many cells from the cursor on become background, at most to the end of the row. */
  lemma EscapeErase(g: Geo, t: Term, ds: seq<byte>, x: nat, y: nat)
    requires TermOk(g, t) && t.parser == Begin && Numeral(ds, 199) && x < g.width && y < g.height
    ensures var n, t' := ValueOf(ds), Steps(g, t, WithNumber(ds) + ['X' as int]);
      && t' == t.(pic := t'.pic, p1 := n)
      && PixelAt(g, t', x, y) ==
        if t.x <= x < t.x + n * g.charW && t.y <= y < t.y + g.charH then t.bg else PixelAt(g, t, x, y)
  {
    GeoIn(g, t);
    var n := ValueOf(ds);
    NumberRead(g, t, ds);
    var t1 := Parsing(t, Number1, n, t.p2);
    OneMore(g, t, WithNumber(ds), 'X' as int);
    PictureUnseen(g, t, Number1, n, t.p2, n);
    CharsErasedPixel(g, t, n, x, y);
    hide Steps, ValueOf, WithNumber, EraseChars, TermOk, FromBegin, FromBracket, FromNumber2, FromNumber3;
    assert Step(g, t1, 'X' as int) == Done(EraseChars(g, t1, n));
  }

  /** ESC [ n m: the colors of the mode. */
  lemma EscapeStandout(g: Geo, t: Term, ds: seq<byte>)
    requires GeoFits(g) && t.parser == Begin && Numeral(ds, 199)
    ensures Steps(g, t, WithNumber(ds) + ['m' as int]) == SetStandoutMode(t, ValueOf(ds)).(p1 := ValueOf(ds))
  {
    var n := ValueOf(ds);
    NumberRead(g, t, ds);
    OneMore(g, t, WithNumber(ds), 'm' as int);
    StandoutUnseen(t, n, Number1, n, t.p2);
    hide Steps, ValueOf, WithNumber, FromBegin, FromBracket, FromNumber2, FromNumber3, EraseChars, SetStandoutMode;
  }

  lemma StandoutUnseen(t: Term, mode: nat, p: Parser, p1: nat, p2: nat)
    ensures SetStandoutMode(Parsing(t, p, p1, p2), mode) == Parsing(SetStandoutMode(t, mode), p, p1, p2)
    ensures SetStandoutMode(t, mode) == Parsing(SetStandoutMode(t, mode), t.parser, t.p1, t.p2)
  {
    StandoutColors(t, mode);
    StandoutColors(Parsing(t, p, p1, p2), mode);
    var t1, t2 := SetStandoutMode(t, mode), SetStandoutMode(Parsing(t, p, p1, p2), mode);
    assert t1.color == t2.color && t1.bg == t2.bg && t1.reverse == t2.reverse;
    hide SetStandoutMode;
  }

  /** ESC [ 4 h and ESC [ 4 l: insert mode on and off; any other number does nothing. */
  lemma EscapeInsert(g: Geo, t: Term, ds: seq<byte>, begin: bool)
    requires GeoFits(g) && t.parser == Begin && Numeral(ds, 199)
    ensures Steps(g, t, WithNumber(ds) + [if begin then 'h' as int else 'l' as int])
      == t.(p1 := ValueOf(ds), insert := if ValueOf(ds) == 4 then begin else t.insert)
  {
    var c: byte := if begin then 'h' as int else 'l' as int;
    NumberRead(g, t, ds);
    OneMore(g, t, WithNumber(ds), c);
    hide Steps, ValueOf, WithNumber, FromBegin, FromBracket, FromNumber2, FromNumber3, EraseChars, SetStandoutMode;
  }

  /** Any other byte behind a number does nothing but end the sequence. */
  lemma NumberUnknown(g: Geo, t: Term, ds: seq<byte>, c: byte)
    requires GeoFits(g) && t.parser == Begin && Numeral(ds, 199) && !Digit(c) && (c as char) !in ";Xhlm"
    ensures Steps(g, t, WithNumber(ds) + [c]) == t.(p1 := ValueOf(ds))
  {
    NumberRead(g, t, ds);
    OneMore(g, t, WithNumber(ds), c);
    hide Steps, ValueOf, WithNumber, FromBegin, FromBracket, FromNumber2, FromNumber3, EraseChars, SetStandoutMode;
  }

  /** ESC [ and two numbers. */
  function WithNumbers(ds: seq<byte>, es: seq<byte>): seq<byte> {
    WithNumber(ds) + [';' as int] + es
  }

  lemma NumbersRead(g: Geo, t: Term, ds: seq<byte>, es: seq<byte>)
    requires GeoFits(g) && t.parser == Begin && Numeral(ds, 199) && Numeral(es, 199)
    ensures Steps(g, t, WithNumbers(ds, es)) == Parsing(t, Number2, ValueOf(ds), ValueOf(es))
  {
    NumberRead(g, t, ds);
    var cs := WithNumber(ds) + [';' as int];
    OneMore(g, t, WithNumber(ds), ';' as int);
    hide Steps, ValueOf, WithNumber, FromBegin, FromBracket, FromNumber2, FromNumber3, EraseChars, SetStandoutMode;
    assert Steps(g, t, cs) == Parsing(t, Semicolon, ValueOf(ds), t.p2);
    StepsConcat(g, t, cs, es);
    SecondNumber(g, Steps(g, t, cs), es);
  }

  /** ESC [ row ; column H: to this row and column, if they are on the screen and in the scroll region. */
  lemma EscapeMove(g: Geo, t: Term, ds: seq<byte>, es: seq<byte>)
    requires TermOk(g, t) && t.parser == Begin && Numeral(ds, 199) && Numeral(es, 199)
    ensures var row, column, t' := ValueOf(ds), ValueOf(es), Steps(g, t, WithNumbers(ds, es) + ['H' as int]);
      && t' == t.(x := t'.x, y := t'.y, p1 := row, p2 := column)
      && if 1 <= column && Begins(column, g.charW) < g.width && FirstRow(g, t) <= row <= LastRow(g, t)
         then RowOf(g, t') == row && ColumnOf(g, t') == column
         else t'.x == t.x && t'.y == t.y
  {
    GeoIn(g, t);
    var row, column := ValueOf(ds), ValueOf(es);
    NumbersRead(g, t, ds, es);
    OneMore(g, t, WithNumbers(ds, es), 'H' as int);
    MoveReaches(g, t, row, column);
    var t1 := Parsing(t, Number2, row, column);
    MoveUnseen(g, t, row, column, Number2);
    hide Steps, ValueOf, WithNumbers, FromBegin, FromBracket, FromNumber1, FromNumber3, CursorMove, TermOk, Begins,
      CellNumber, LastRow;
    assert Step(g, t1, 'H' as int) == Done(CursorMove(g, t1, row, column));
  }

  lemma MoveUnseen(g: Geo, t: Term, row: nat, column: nat, p: Parser)
    ensures CursorMove(g, Parsing(t, p, row, column), row, column)
      == Parsing(CursorMove(g, t, row, column), p, row, column)
  {
    hide U32;
  }

  /** ESC [ start ; end r: these rows become the scroll region, if they are rows of the screen in order, and the cursor
      goes to the first cell of the region in any case. */
  lemma EscapeRegion(g: Geo, t: Term, ds: seq<byte>, es: seq<byte>)
    requires TermOk(g, t) && t.parser == Begin && Numeral(ds, 199) && Numeral(es, 199)
    ensures var start, end, t' := ValueOf(ds), ValueOf(es), Steps(g, t, WithNumbers(ds, es) + ['r' as int]);
      && t' == t.(x := 0, y := t'.scrollStart, scrollStart := t'.scrollStart, scrollEnd := t'.scrollEnd,
                  p1 := start, p2 := end)
      && if 1 <= start <= end <= g.height / g.charH
         then FirstRow(g, t') == start && LastRow(g, t') == end
         else t'.scrollStart == t.scrollStart && t'.scrollEnd == t.scrollEnd
  {
    GeoIn(g, t);
    var start, end := ValueOf(ds), ValueOf(es);
    NumbersRead(g, t, ds, es);
    OneMore(g, t, WithNumbers(ds, es), 'r' as int);
    RegionReaches(g, t, start, end);
    var t1 := Parsing(t, Number2, start, end);
    RegionUnseen(g, t, start, end, Number2);
    hide Steps, ValueOf, WithNumbers, FromBegin, FromBracket, FromNumber1, FromNumber3, SetScrollRegion, TermOk,
      CursorMove, CellNumber, LastRow;
    assert Step(g, t1, 'r' as int) == Done(SetScrollRegion(g, t1, start, end));
  }

  lemma RegionUnseen(g: Geo, t: Term, start: nat, end: nat, p: Parser)
    requires g.charH > 0
    ensures SetScrollRegion(g, Parsing(t, p, start, end), start, end)
      == Parsing(SetScrollRegion(g, t, start, end), p, start, end)
  {
    hide U32, UsedHeight;
  }

  /** Two numbers with any other byte behind them do nothing. */
  lemma NumbersUnknown(g: Geo, t: Term, ds: seq<byte>, es: seq<byte>, c: byte)
    requires GeoFits(g) && t.parser == Begin && Numeral(ds, 199) && Numeral(es, 199)
    requires !Digit(c) && (c as char) !in "Hr"
    ensures Steps(g, t, WithNumbers(ds, es) + [c]) == t.(p1 := ValueOf(ds), p2 := ValueOf(es))
  {
    NumbersRead(g, t, ds, es);
    OneMore(g, t, WithNumbers(ds, es), c);
    hide Steps, ValueOf, WithNumbers, FromBegin, FromBracket, FromNumber1, FromNumber3, CursorMove, SetScrollRegion;
  }

  /** ESC [ ? and a number. */
  function WithMode(ds: seq<byte>): seq<byte> {
    [ESC, BRACKET, '?' as int] + ds
  }

  lemma ModeRead(g: Geo, t: Term, ds: seq<byte>)
    requires GeoFits(g) && t.parser == Begin && Numeral(ds, 99)
    ensures Steps(g, t, WithMode(ds)) == Parsing(t, Number3, ValueOf(ds), t.p2)
  {
    AfterBracket(g, t, '?' as int);
    StepsConcat(g, t, [ESC, BRACKET, '?' as int], ds);
    hide Steps, ValueOf, CursorUp, CursorDown, CursorRight, CursorLeft, CursorHome, ClearDisplayEnd, ClearLineEnd;
    ModeNumber(g, Parsing(t, QuestionMark, t.p1, t.p2), ds);
  }

  /** ESC [ ? 25 h and ESC [ ? 25 l: the cursor on and off; any other number does nothing. */
  lemma EscapeCursor(g: Geo, t: Term, ds: seq<byte>, visible: bool)
    requires GeoFits(g) && t.parser == Begin && Numeral(ds, 99)
    ensures Steps(g, t, WithMode(ds) + [if visible then 'h' as int else 'l' as int])
      == t.(p1 := ValueOf(ds), on := if ValueOf(ds) == 25 then visible else t.on)
  {
    var c: byte := if visible then 'h' as int else 'l' as int;
    ModeRead(g, t, ds);
    OneMore(g, t, WithMode(ds), c);
    hide Steps, ValueOf, WithMode, FromBegin, FromBracket, FromNumber1, FromNumber2;
  }

  /** A number above 99 or any other byte behind the number does nothing but end the sequence. */
  lemma ModeUnknown(g: Geo, t: Term, ds: seq<byte>, c: byte)
    requires GeoFits(g) && t.parser == Begin
    requires Numeral(ds, 99) && (if Digit(c) then 10 * ValueOf(ds) + (c - 48) > 99 else (c as char) !in "hl")
    ensures Steps(g, t, WithMode(ds) + [c])
      == t.(p1 := if Digit(c) then 10 * ValueOf(ds) + (c - 48) else ValueOf(ds))
  {
    ModeRead(g, t, ds);
    OneMore(g, t, WithMode(ds), c);
    hide Steps, ValueOf, WithMode, FromBegin, FromBracket, FromNumber1, FromNumber2;
  }

  /** So does a question mark without a number. */
  lemma NoMode(g: Geo, t: Term, c: byte)
    requires GeoFits(g) && t.parser == Begin && !Digit(c)
    ensures Steps(g, t, [ESC, BRACKET, '?' as int] + [c]) == t
  {
    AfterBracket(g, t, '?' as int);
    OneMore(g, t, [ESC, BRACKET, '?' as int], c);
    hide Steps, FromBegin, FromNumber1, FromNumber2, CursorUp, CursorDown, CursorRight, CursorLeft, CursorHome,
      ClearDisplayEnd, ClearLineEnd;
  }

  /** A second number that is missing ends the sequence, too, and so does one above 199. */
  lemma NoSecondNumber(g: Geo, t: Term, ds: seq<byte>, c: byte)
    requires GeoFits(g) && t.parser == Begin && Numeral(ds, 199) && !Digit(c)
    ensures Steps(g, t, WithNumbers(ds, []) + [c]) == t.(p1 := ValueOf(ds))
  {
    NumberRead(g, t, ds);
    var cs := WithNumber(ds) + [';' as int];
    assert WithNumbers(ds, []) == cs;
    OneMore(g, t, WithNumber(ds), ';' as int);
    OneMore(g, t, cs, c);
    hide Steps, ValueOf, WithNumber, FromBegin, FromBracket, FromNumber2, FromNumber3, EraseChars, SetStandoutMode;
  }

  lemma SecondTooLarge(g: Geo, t: Term, ds: seq<byte>, es: seq<byte>, d: byte)
    requires GeoFits(g) && t.parser == Begin && Numeral(ds, 199) && Numeral(es, 199)
    requires Digit(d) && 10 * ValueOf(es) + (d - 48) > 199
    ensures Steps(g, t, WithNumbers(ds, es) + [d]) == t.(p1 := ValueOf(ds), p2 := 10 * ValueOf(es) + (d - 48))
  {
    NumbersRead(g, t, ds, es);
    OneMore(g, t, WithNumbers(ds, es), d);
    SecondDigit(g, Parsing(t, Number2, ValueOf(ds), ValueOf(es)), d);
    hide Steps, Step, ValueOf, WithNumbers;
  }

  /** Escape and any other byte than a bracket do nothing. */
  lemma EscapeAlone(g: Geo, t: Term, c: byte)
    requires GeoFits(g) && t.parser == Begin && c != BRACKET
    ensures Steps(g, t, [ESC, c]) == t
  {
    StepsTwo(g, t, ESC, c, []);
    assert [ESC, c] + [] == [ESC, c];
    hide CursorLeft, Tabulator, NewLine, DisplayChar, FromBracket, FromNumber1, FromNumber2, FromNumber3;
  }

  // ---------------------------------------------------------------- single control codes

  /** Backspace goes one cell back. */
  lemma BackspaceReaches(g: Geo, t: Term)
    requires TermOk(g, t) && t.parser == Begin
    ensures var t' := Steps(g, t, [BS]); TermOk(g, t') && InCellBefore(g, t, t')
  {
    OneByte(g, t, BS);
    LeftReaches(g, t);
    hide Steps, TermOk, CursorLeft, Tabulator, NewLine, DisplayChar, FromBracket, FromNumber1, FromNumber2, FromNumber3,
      Begins;
  }

  /** A tabulator goes to the next column behind a multiple of 8, or to the next line if there is none. */
  lemma TabGoes(g: Geo, t: Term, x: nat, y: nat)
    requires TermOk(g, t) && t.parser == Begin && x < g.width && y < g.height
    ensures var next, t' := (ColumnOf(g, t) - 1) / 8 * 8 + 9, Steps(g, t, [TAB]);
      && TermOk(g, t')
      && if Begins(next, g.charW) < g.width then ColumnOf(g, t') == next && t' == t.(x := t'.x)
         else InNextLine(g, t, t', x, y)
  {
    OneByte(g, t, TAB);
    TabReaches(g, t);
    NextLineShown(g, t, x, y);
    hide Steps, TermOk, CursorLeft, Tabulator, NewLine, DisplayChar, FromBracket, FromNumber1, FromNumber2, FromNumber3,
      InNextLine, ColumnOf;
  }

  /** A line feed goes to the first column of the next line. */
  lemma LineFeedGoes(g: Geo, t: Term, x: nat, y: nat)
    requires TermOk(g, t) && t.parser == Begin && x < g.width && y < g.height
    ensures var t' := Steps(g, t, [LF]); TermOk(g, t') && InNextLine(g, t, t', x, y)
  {
    OneByte(g, t, LF);
    NextLineShown(g, t, x, y);
    hide Steps, TermOk, CursorLeft, Tabulator, NewLine, DisplayChar, FromBracket, FromNumber1, FromNumber2, FromNumber3,
      InNextLine;
  }

  /** A carriage return goes to the first column. */
  lemma ReturnGoes(g: Geo, t: Term)
    requires TermOk(g, t) && t.parser == Begin
    ensures var t' := Steps(g, t, [CR]);
      TermOk(g, t') && t' == t.(x := t'.x) && ColumnOf(g, t') == 1
  {
    OneByte(g, t, CR);
    HomeOk(g, t);
    AtFirst(g, t.(x := 0));
    hide Steps, TermOk, CursorLeft, Tabulator, NewLine, DisplayChar, FromBracket, FromNumber1, FromNumber2, FromNumber3,
      ColumnOf;
  }

  /** No other control code does anything. */
  lemma OtherCode(g: Geo, t: Term, c: byte)
    requires GeoFits(g) && t.parser == Begin && c < 32 && c !in [BS, TAB, LF, CR, ESC]
    ensures Steps(g, t, [c]) == t
  {
    OneByte(g, t, c);
    hide Steps, CursorLeft, Tabulator, NewLine, FromBracket, FromNumber1, FromNumber2, FromNumber3, CursorRight;
  }
}
