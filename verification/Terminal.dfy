/** Circle's screen as a terminal: what each byte does to cursor, modes and picture. */
module Terminal {
  import opened Common

  /** A color, as its place in the palette of 16. */
  type Color = nat

  const BLACK := 0
  const NORMAL := 15
  const HIGH := 9
  const HALF := 4

  /** The size of the screen and of a character, all in pixels; `pitch` pixels make a row in memory.
      The cursor covers a character from row `underline` on. */
  datatype Geo = Geo(width: nat, height: nat, pitch: nat, charW: nat, charH: nat, underline: nat,
                     glyph: (byte, nat, nat) -> bool)

  const LIMIT := 0x8000_0000

  /** There is room for a character, and nothing is too large for 32 bits. */
  predicate GeoFits(g: Geo) {
    && 0 < g.charW && 0 < g.charH && g.underline <= g.charH && g.charW <= g.width <= g.pitch && g.charH <= g.height
    && g.width + 256 * g.charW < LIMIT && g.height + 256 * g.charH < LIMIT
  }

  function UsedHeight(g: Geo): nat
    requires g.charH > 0
  {
    g.height / g.charH * g.charH
  }

  /** The cursor stays on the screen: the width holds whole characters, or there is a single row of them. */
  predicate GeoOk(g: Geo) {
    GeoFits(g) && (g.width % g.charW == 0 || UsedHeight(g) < 2 * g.charH)
  }

  /** Unsigned 32-bit arithmetic. */
  function U32(n: int): (r: nat)
    ensures r < WORD && (0 <= n < WORD ==> r == n)
    ensures -WORD <= n < 0 ==> r == n + WORD
  {
    n % WORD
  }

  datatype Parser = Begin | Escape | Bracket | Number1 | QuestionMark | Semicolon | Number2 | Number3

  /** The terminal with its picture, the cursor left out. */
  datatype Term = Term(parser: Parser, p1: nat, p2: nat, scrollStart: nat, scrollEnd: nat, x: nat, y: nat,
                       on: bool, color: Color, bg: Color, reverse: bool, insert: bool, pic: seq<Color>)

  // ---------------------------------------------------------------- pictures

  /** The picture with a rectangle painted; what lies outside the screen is left alone. */
  function Painted(g: Geo, pic: seq<Color>, x0: nat, y0: nat, w: nat, h: nat, ink: (nat, nat) -> Color): (r: seq<Color>)
    requires g.pitch > 0
    ensures |r| == |pic|
  {
    seq(|pic|, i requires 0 <= i < |pic| =>
      var x, y := Column(i, g.pitch), Row(i, g.pitch);
      if x0 <= x < x0 + w && y0 <= y < y0 + h && x < g.width && y < g.height then ink(x - x0, y - y0) else pic[i])
  }

  /** Every pixel in the same color. */
  function Solid(c: Color): (nat, nat) -> Color {
    (dx, dy) => c
  }

  /** The pixels of a character. */
  function Inked(g: Geo, c: byte, ink: Color, paper: Color): (nat, nat) -> Color {
    (dx, dy) => if g.glyph(c, dx, dy) then ink else paper
  }

  /** All pixels from index `from` on in one color. */
  function Cleared(pic: seq<Color>, from: nat, bg: Color): (r: seq<Color>)
    ensures |r| == |pic|
  {
    seq(|pic|, i requires 0 <= i < |pic| => if i >= from then bg else pic[i])
  }

  /** Rows from `start` up to `end` moved up by `n` rows, and the last ones in one color. */
  function MovedUp(g: Geo, pic: seq<Color>, start: nat, end: nat, n: nat, bg: Color): (r: seq<Color>)
    requires start + n <= end && end * g.pitch <= |pic|
    ensures |r| == |pic|
  {
    Distribute(end, n, start, g.pitch);
    seq(|pic|, i requires 0 <= i < |pic| =>
      if start * g.pitch <= i < (end - n) * g.pitch then pic[i + n * g.pitch]
      else if (end - n) * g.pitch <= i < end * g.pitch then bg
      else pic[i])
  }

  lemma Distribute(end: nat, n: nat, start: nat, pitch: nat)
    requires start + n <= end
    ensures (end - n) * pitch == end * pitch - n * pitch && start * pitch <= (end - n) * pitch
    ensures (start + n) * pitch == start * pitch + n * pitch
  {
  }

  // ---------------------------------------------------------------- cursor and picture

  function Erased(g: Geo, t: Term, w: nat): Term
    requires g.pitch > 0
  {
    t.(pic := Painted(g, t.pic, t.x, t.y, w, g.charH, Solid(t.bg)))
  }

  function ClearLineEnd(g: Geo, t: Term): Term
    requires g.pitch > 0
  {
    Erased(g, t, if t.x < g.width then g.width - t.x else 0)
  }

  function ClearDisplayEnd(g: Geo, t: Term): Term
    requires g.pitch > 0
  {
    var t1 := ClearLineEnd(g, t);
    t1.(pic := Cleared(t1.pic, (t.y + g.charH) * g.pitch, t.bg))
  }

  function EraseChars(g: Geo, t: Term, n: nat): Term
    requires g.pitch > 0
  {
    var end := if t.x + n * g.charW > g.width then g.width else t.x + n * g.charW;
    Erased(g, t, if t.x < end then end - t.x else 0)
  }

  predicate CanScroll(g: Geo, t: Term) {
    t.scrollStart + g.charH <= t.scrollEnd && t.scrollEnd * g.pitch <= |t.pic|
  }

  function Scroll(g: Geo, t: Term): Term {
    if CanScroll(g, t) then t.(pic := MovedUp(g, t.pic, t.scrollStart, t.scrollEnd, g.charH, t.bg)) else t
  }

  function CursorDown(g: Geo, t: Term): Term {
    var y := U32(t.y + g.charH);
    if y >= t.scrollEnd then Scroll(g, t).(y := U32(y - g.charH)) else t.(y := y)
  }

  function NewLine(g: Geo, t: Term): Term {
    CursorDown(g, t.(x := 0))
  }

  function CursorRight(g: Geo, t: Term): Term {
    var x := U32(t.x + g.charW);
    if x >= g.width then NewLine(g, t.(x := x)) else t.(x := x)
  }

  function CursorLeft(g: Geo, t: Term): Term {
    if t.x > 0 then t.(x := U32(t.x - g.charW))
    else if t.y > t.scrollStart then t.(x := U32(g.width - g.charW), y := U32(t.y - g.charH))
    else t
  }

  function CursorUp(g: Geo, t: Term): Term {
    if t.y > t.scrollStart then t.(y := U32(t.y - g.charH)) else t
  }

  function CursorHome(t: Term): Term {
    t.(x := 0, y := t.scrollStart)
  }

  function CursorMove(g: Geo, t: Term, row: nat, column: nat): Term {
    var x, y := U32((column - 1) * g.charW), U32((row - 1) * g.charH);
    if x < g.width && t.scrollStart <= y < t.scrollEnd then t.(x := x, y := y) else t
  }

  function SetScrollRegion(g: Geo, t: Term, startRow: nat, endRow: nat): Term
    requires g.charH > 0
  {
    var start, end := U32((startRow - 1) * g.charH), U32(endRow * g.charH);
    CursorHome(if start < UsedHeight(g) && 0 < end <= UsedHeight(g) && start < end
      then t.(scrollStart := start, scrollEnd := end) else t)
  }

  /** The next multiple of 8 characters. */
  function NextStop(x: nat, w: nat): nat
    requires w > 0
  {
    (x + w * 8) / (w * 8) * (w * 8)
  }

  function Tabulator(g: Geo, t: Term): Term
    requires g.charW > 0
  {
    var x := NextStop(t.x, g.charW);
    if x >= g.width then NewLine(g, t.(x := x)) else t.(x := x)
  }

  function Ink(t: Term): Color {
    if t.reverse then t.bg else t.color
  }

  function Paper(t: Term): Color {
    if t.reverse then t.color else t.bg
  }

  function DisplayChar(g: Geo, t: Term, c: byte): Term
    requires g.pitch > 0
  {
    if c < 32 then t
    else
      CursorRight(g, t.(pic := Painted(g, t.pic, t.x, t.y, g.charW, g.charH, Inked(g, c, Ink(t), Paper(t)))))
  }

  function SetStandoutMode(t: Term, mode: nat): Term {
    if mode == 0 || mode == 27 then t.(reverse := false, color := NORMAL)
    else if mode == 1 then t.(color := HIGH)
    else if mode == 2 then t.(color := HALF)
    else if mode == 7 then t.(reverse := true)
    else if 30 <= mode <= 37 then t.(color := mode - 30)
    else if 40 <= mode <= 47 then t.(bg := mode - 40)
    else if 90 <= mode <= 97 then t.(color := mode - 90 + 8)
    else if 100 <= mode <= 107 then t.(bg := mode - 100 + 8)
    else t
  }

  // ---------------------------------------------------------------- parsing

  predicate Digit(c: byte) {
    48 <= c <= 57
  }

  function Done(t: Term): Term {
    t.(parser := Begin)
  }

  /** One more digit of a parameter, up to a limit. */
  function MoreDigits(n: nat, c: byte): nat
    requires Digit(c)
  {
    n * 10 + (c - 48)
  }

  function FromBegin(g: Geo, t: Term, c: byte): Term
    requires GeoFits(g)
  {
    if c == 8 then CursorLeft(g, t)
    else if c == 9 then Tabulator(g, t)
    else if c == 10 then NewLine(g, t)
    else if c == 13 then t.(x := 0)
    else if c == 27 then t.(parser := Escape)
    else DisplayChar(g, t, c)
  }

  function FromBracket(g: Geo, t: Term, c: byte): Term
    requires GeoFits(g)
  {
    if c == '?' as int then t.(parser := QuestionMark)
    else if c == 'A' as int then Done(CursorUp(g, t))
    else if c == 'B' as int then Done(CursorDown(g, t))
    else if c == 'C' as int then Done(CursorRight(g, t))
    else if c == 'D' as int then Done(CursorLeft(g, t))
    else if c == 'H' as int then Done(CursorHome(t))
    else if c == 'J' as int then Done(ClearDisplayEnd(g, t))
    else if c == 'K' as int then Done(ClearLineEnd(g, t))
    else if Digit(c) then t.(p1 := c - 48, parser := Number1)
    else Done(t)
  }

  function FromNumber1(g: Geo, t: Term, c: byte): Term
    requires GeoFits(g)
  {
    if c == ';' as int then t.(parser := Semicolon)
    else if c == 'X' as int then Done(EraseChars(g, t, t.p1))
    else if c == 'h' as int || c == 'l' as int then
      Done(if t.p1 == 4 then t.(insert := c == 'h' as int) else t)
    else if c == 'm' as int then Done(SetStandoutMode(t, t.p1))
    else if Digit(c) then
      var n := MoreDigits(t.p1, c);
      t.(p1 := n, parser := if n > 199 then Begin else Number1)
    else Done(t)
  }

  function FromNumber2(g: Geo, t: Term, c: byte): Term
    requires GeoFits(g)
  {
    if c == 'H' as int then Done(CursorMove(g, t, t.p1, t.p2))
    else if c == 'r' as int then Done(SetScrollRegion(g, t, t.p1, t.p2))
    else if Digit(c) then
      var n := MoreDigits(t.p2, c);
      t.(p2 := n, parser := if n > 199 then Begin else Number2)
    else Done(t)
  }

  function FromNumber3(t: Term, c: byte): Term {
    if c == 'h' as int || c == 'l' as int then
      Done(if t.p1 == 25 then t.(on := c == 'h' as int) else t)
    else if Digit(c) then
      var n := MoreDigits(t.p1, c);
      t.(p1 := n, parser := if n > 99 then Begin else Number3)
    else Done(t)
  }

  /** What one byte does. */
  function Step(g: Geo, t: Term, c: byte): Term
    requires GeoFits(g)
  {
    match t.parser
    case Begin => FromBegin(g, t, c)
    case Escape => t.(parser := if c == '[' as int then Bracket else Begin)
    case Bracket => FromBracket(g, t, c)
    case Number1 => FromNumber1(g, t, c)
    case Semicolon => if Digit(c) then t.(p2 := c - 48, parser := Number2) else Done(t)
    case QuestionMark => if Digit(c) then t.(p1 := c - 48, parser := Number3) else Done(t)
    case Number2 => FromNumber2(g, t, c)
    case Number3 => FromNumber3(t, c)
  }

  function Steps(g: Geo, t: Term, cs: seq<byte>): Term
    requires GeoFits(g)
    decreases |cs|
  {
    if |cs| == 0 then t else Steps(g, Step(g, t, cs[0]), cs[1..])
  }

  // ---------------------------------------------------------------- invariant

  predicate Cell(n: nat, size: nat)
    requires size > 0
  {
    n % size == 0
  }

  /** The cursor stands on a character cell of the screen inside the scroll region. */
  predicate TermOk(g: Geo, t: Term) {
    && GeoOk(g) && |t.pic| == g.pitch * g.height && t.p1 <= 2000 && t.p2 <= 2000
    && Cell(t.x, g.charW) && t.x < g.width && Cell(t.y, g.charH)
    && Cell(t.scrollStart, g.charH) && Cell(t.scrollEnd, g.charH)
    && t.scrollStart <= t.y < t.scrollEnd <= UsedHeight(g)
    && (t.parser == Number1 ==> t.p1 <= 199) && (t.parser == Number2 ==> t.p1 <= 199 && t.p2 <= 199)
    && (t.parser == Number3 ==> t.p1 <= 99) && (t.parser == Semicolon ==> t.p1 <= 199)
  }

  lemma CellUp(a: nat, m: nat)
    requires m > 0 && Cell(a, m)
    ensures Cell(a + m, m)
  {
    DivMod(m, a / m + 1, 0);
    assert a + m == (a / m + 1) * m;
  }

  lemma CellDown(a: nat, m: nat)
    requires m > 0 && Cell(a, m) && a > 0
    ensures m <= a && Cell(a - m, m)
  {
    var k := a / m;
    assert a == k * m;
    assert k == 0 ==> a == 0;
    DivMod(m, k - 1, 0);
    assert a - m == (k - 1) * m;
  }

  lemma CellsApart(a: nat, b: nat, m: nat)
    requires m > 0 && Cell(a, m) && Cell(b, m) && a < b
    ensures a + m <= b
  {
    var i, j := a / m, b / m;
    assert a == i * m && b == j * m;
    assert i >= j ==> i * m >= j * m;
    assert (i + 1) * m <= j * m;
  }

  /** Where a pixel is in memory determines its row and column. */
  lemma DivMod(m: nat, q: nat, r: nat)
    requires r < m
    ensures (m * q + r) / m == q && (m * q + r) % m == r && (q * m + r) / m == q && (q * m + r) % m == r
  {
    var n := m * q + r;
    var k := n / m;
    assert n == k * m + n % m;
    assert k < q ==> (k + 1) * m <= q * m;
    assert k > q ==> (q + 1) * m <= k * m;
  }

  lemma CellTimes(k: nat, m: nat)
    requires m > 0
    ensures Cell(k * m, m)
  {
    DivMod(m, k, 0);
  }

  /** A height in whole character rows. */
  lemma UsedHeightFits(g: Geo)
    requires GeoFits(g)
    ensures Cell(UsedHeight(g), g.charH) && g.charH <= UsedHeight(g) <= g.height
    ensures UsedHeight(g) * g.pitch <= g.height * g.pitch == g.pitch * g.height
  {
    var k := g.height / g.charH;
    CellTimes(k, g.charH);
    assert k >= 1;
    assert k * g.charH >= g.charH;
    TimesMono(g.pitch, UsedHeight(g), g.height);
  }

  lemma ScrollFits(g: Geo, t: Term)
    requires TermOk(g, t)
    ensures CanScroll(g, t)
  {
    UsedHeightFits(g);
    hide UsedHeight, Cell;
    CellsApart(t.scrollStart, t.scrollEnd, g.charH);
    TimesMono(g.pitch, t.scrollEnd, UsedHeight(g));
  }

  lemma DownOk(g: Geo, t: Term)
    requires TermOk(g, t)
    ensures TermOk(g, CursorDown(g, t)) && CursorDown(g, t).parser == t.parser && CursorDown(g, t).x == t.x
  {
    UsedHeightFits(g);
    ScrollFits(g, t);
    hide UsedHeight, Cell, MovedUp;
    CellUp(t.y, g.charH);
    if t.y + g.charH < t.scrollEnd { CellsApart(t.y + g.charH, t.scrollEnd, g.charH); }
  }

  lemma NewLineOk(g: Geo, t: Term, x: nat)
    requires TermOk(g, t)
    ensures TermOk(g, NewLine(g, t.(x := x))) && NewLine(g, t.(x := x)) == NewLine(g, t)
  {
    CellTimes(0, g.charW);
    DownOk(g, t.(x := 0));
  }

  lemma RightOk(g: Geo, t: Term)
    requires TermOk(g, t)
    ensures TermOk(g, CursorRight(g, t))
  {
    CellUp(t.x, g.charW);
    NewLineOk(g, t, t.x + g.charW);
  }

  /** Only where there is a row above, the cursor can go left into it. */
  lemma WidthCell(g: Geo, t: Term)
    requires TermOk(g, t) && t.y > t.scrollStart
    ensures Cell(g.width, g.charW) && t.y >= t.scrollStart + g.charH
  {
    UsedHeightFits(g);
    CellsApart(t.scrollStart, t.y, g.charH);
    CellsApart(t.y, t.scrollEnd, g.charH);
  }

  lemma LeftOk(g: Geo, t: Term)
    requires TermOk(g, t)
    ensures TermOk(g, CursorLeft(g, t))
  {
    UsedHeightFits(g);
    hide UsedHeight, Cell;
    if t.x > 0 {
      CellDown(t.x, g.charW);
    } else if t.y > t.scrollStart {
      WidthCell(g, t);
      CellDown(g.width, g.charW);
      CellDown(t.y, g.charH);
    }
  }

  lemma UpOk(g: Geo, t: Term)
    requires TermOk(g, t)
    ensures TermOk(g, CursorUp(g, t))
  {
    UsedHeightFits(g);
    hide UsedHeight, Cell;
    if t.y > t.scrollStart {
      CellDown(t.y, g.charH);
      CellsApart(t.scrollStart, t.y, g.charH);
    }
  }

  lemma TabOk(g: Geo, t: Term)
    requires TermOk(g, t)
    ensures TermOk(g, Tabulator(g, t))
  {
    TabStop(t.x, g.charW);
    hide Cell, UsedHeight, NewLine, NextStop;
    NewLineOk(g, t, NextStop(t.x, g.charW));
  }

  /** The next tabulator stop lies behind the next multiple of 8 cells. */
  lemma TabStop(x: nat, w: nat)
    requires w > 0 && Cell(x, w)
    ensures var stop := NextStop(x, w);
      Cell(stop, w) && stop / w == x / w / 8 * 8 + 8
  {
    DivBounds(x, w);
    DivBounds(x / w, 8);
    var q, r := x / w / 8, x / w % 8;
    assert x + w * 8 == (w * 8) * (q + 1) + w * r;
    TimesMono(w, r, 7);
    DivIs(x + w * 8, w * 8, q + 1, w * r);
    assert (q + 1) * (w * 8) == w * (q * 8 + 8) == (q * 8 + 8) * w;
    CellTimes(q * 8 + 8, w);
    DivMod(w, q * 8 + 8, 0);
  }

  /** A row or column number as an offset; number 0 wraps to an offset beyond every screen. */
  lemma OffsetFits(n: nat, size: nat, limit: nat)
    requires 0 < size && n <= 199 && limit + 256 * size < LIMIT
    ensures n > 0 ==> U32((n - 1) * size) == (n - 1) * size && Cell(U32((n - 1) * size), size)
    ensures n == 0 ==> U32((n - 1) * size) > limit
    ensures U32(n * size) == n * size && Cell(U32(n * size), size)
  {
    hide Cell;
    TimesMono(size, n, 199);
    TimesMono(size, 0, n);
    CellTimes(n, size);
    if n > 0 {
      TimesMono(size, n - 1, n);
      TimesMono(size, 0, n - 1);
      CellTimes(n - 1, size);
    }
  }

  lemma MoveOk(g: Geo, t: Term, row: nat, column: nat)
    requires TermOk(g, t) && row <= 199 && column <= 199
    ensures TermOk(g, CursorMove(g, t, row, column))
  {
    UsedHeightFits(g);
    OffsetFits(column, g.charW, g.width);
    OffsetFits(row, g.charH, g.height);
  }

  lemma RegionOk(g: Geo, t: Term, start: nat, end: nat)
    requires TermOk(g, t) && start <= 199 && end <= 199
    ensures TermOk(g, SetScrollRegion(g, t, start, end))
  {
    UsedHeightFits(g);
    OffsetFits(start, g.charH, g.height);
    OffsetFits(end, g.charH, g.height);
    CellTimes(0, g.charW);
  }

  lemma HomeOk(g: Geo, t: Term)
    requires TermOk(g, t)
    ensures TermOk(g, CursorHome(t)) && TermOk(g, t.(x := 0))
  {
    CellTimes(0, g.charW);
  }

  lemma BeginOk(g: Geo, t: Term, c: byte)
    requires TermOk(g, t) && t.parser == Begin
    ensures TermOk(g, FromBegin(g, t, c))
  {
    hide Painted, CursorRight, CursorLeft, Tabulator, NewLine;
    LeftOk(g, t);
    TabOk(g, t);
    NewLineOk(g, t, t.x);
    HomeOk(g, t);
    if c >= 32 {
      RightOk(g, t.(pic := Painted(g, t.pic, t.x, t.y, g.charW, g.charH, Inked(g, c, Ink(t), Paper(t)))));
    }
  }

  lemma DoneOk(g: Geo, t: Term)
    requires TermOk(g, t)
    ensures TermOk(g, Done(t))
  {
  }

  lemma ClearOk(g: Geo, t: Term, w: nat, from: nat)
    requires TermOk(g, t)
    ensures TermOk(g, Erased(g, t, w)) && TermOk(g, t.(pic := Cleared(t.pic, from, t.bg)))
  {
    hide Painted, Cleared;
  }

  lemma ClearDisplayOk(g: Geo, t: Term)
    requires TermOk(g, t)
    ensures TermOk(g, ClearLineEnd(g, t)) && TermOk(g, ClearDisplayEnd(g, t))
  {
    hide TermOk, Erased, Cleared;
    GeoIn(g, t);
    ClearOk(g, t, if t.x < g.width then g.width - t.x else 0, 0);
    ClearOk(g, ClearLineEnd(g, t), 0, (t.y + g.charH) * g.pitch);
    ErasedSame(g, t, if t.x < g.width then g.width - t.x else 0);
  }

  lemma ErasedSame(g: Geo, t: Term, w: nat)
    requires g.pitch > 0
    ensures Erased(g, t, w).bg == t.bg
  {
  }

  lemma DigitOk(g: Geo, t: Term, c: byte)
    requires TermOk(g, t) && Digit(c)
    ensures TermOk(g, t.(p1 := c - 48, parser := Number1))
  {
  }

  lemma AskOk(g: Geo, t: Term)
    requires TermOk(g, t)
    ensures TermOk(g, t.(parser := QuestionMark))
  {
  }

  lemma BracketOk(g: Geo, t: Term, c: byte)
    requires TermOk(g, t) && t.parser == Bracket
    ensures TermOk(g, FromBracket(g, t, c))
  {
    hide TermOk, CursorRight, CursorLeft, CursorDown, CursorUp, CursorHome, ClearDisplayEnd, ClearLineEnd, Done;
    GeoIn(g, t);
    LeftOk(g, t);
    UpOk(g, t);
    DownOk(g, t);
    RightOk(g, t);
    HomeOk(g, t);
    ClearDisplayOk(g, t);
    AskOk(g, t);
    if Digit(c) { DigitOk(g, t, c); }
    DoneOk(g, t);
    DoneOk(g, CursorLeft(g, t));
    DoneOk(g, CursorUp(g, t));
    DoneOk(g, CursorDown(g, t));
    DoneOk(g, CursorRight(g, t));
    DoneOk(g, CursorHome(t));
    DoneOk(g, ClearDisplayEnd(g, t));
    DoneOk(g, ClearLineEnd(g, t));
  }

  lemma StandoutOk(g: Geo, t: Term, mode: nat)
    requires TermOk(g, t)
    ensures TermOk(g, Done(SetStandoutMode(t, mode)))
  {
    hide TermOk;
    StandoutColors(t, mode);
    var t' := SetStandoutMode(t, mode);
    RecolorOk(g, t, t'.color, t'.bg, t'.reverse);
  }

  /** A graphics mode only changes colors. */
  lemma StandoutColors(t: Term, mode: nat)
    ensures var t' := SetStandoutMode(t, mode);
      t' == t.(color := t'.color, bg := t'.bg, reverse := t'.reverse)
  {
  }

  lemma RecolorOk(g: Geo, t: Term, color: Color, bg: Color, reverse: bool)
    requires TermOk(g, t)
    ensures TermOk(g, Done(t.(color := color, bg := bg, reverse := reverse)))
  {
    hide UsedHeight, Cell;
  }

  lemma Number1Ok(g: Geo, t: Term, c: byte)
    requires TermOk(g, t) && t.parser == Number1
    ensures TermOk(g, FromNumber1(g, t, c))
  {
    hide Painted, UsedHeight, Cell, EraseChars, SetStandoutMode;
    StandoutOk(g, t, t.p1);
    EraseOk(g, t, t.p1);
  }

  lemma EraseOk(g: Geo, t: Term, n: nat)
    requires TermOk(g, t)
    ensures TermOk(g, EraseChars(g, t, n)) && EraseChars(g, t, n) == t.(pic := EraseChars(g, t, n).pic)
  {
    hide Painted, UsedHeight, Cell, EraseChars;
    var end := if t.x + n * g.charW > g.width then g.width else t.x + n * g.charW;
    ClearOk(g, t, if t.x < end then end - t.x else 0, 0);
    EraseIs(g, t, n, end);
  }

  lemma EraseIs(g: Geo, t: Term, n: nat, end: nat)
    requires g.pitch > 0 && end == if t.x + n * g.charW > g.width then g.width else t.x + n * g.charW
    ensures EraseChars(g, t, n) == Erased(g, t, if t.x < end then end - t.x else 0)
  {
  }

  lemma Number2Ok(g: Geo, t: Term, c: byte)
    requires TermOk(g, t) && t.parser == Number2
    ensures TermOk(g, FromNumber2(g, t, c))
  {
    hide CursorMove, SetScrollRegion;
    MoveOk(g, t, t.p1, t.p2);
    RegionOk(g, t, t.p1, t.p2);
  }

  /** Whatever bytes arrive, the cursor stays on a cell of the screen inside the scroll region. */
  lemma StepOk(g: Geo, t: Term, c: byte)
    requires TermOk(g, t)
    ensures TermOk(g, Step(g, t, c))
  {
    hide FromBegin, FromBracket, FromNumber1, FromNumber2;
    match t.parser
    case Begin => BeginOk(g, t, c);
    case Bracket => BracketOk(g, t, c);
    case Number1 => Number1Ok(g, t, c);
    case Number2 => Number2Ok(g, t, c);
    case _ =>
  }

  lemma {:induction false} StepsOk(g: Geo, t: Term, cs: seq<byte>)
    requires TermOk(g, t)
    ensures TermOk(g, Steps(g, t, cs))
    decreases |cs|
  {
    hide TermOk, Step;
    if |cs| > 0 {
      GeoIn(g, t);
      StepOk(g, t, cs[0]);
      StepsOk(g, Step(g, t, cs[0]), cs[1..]);
    }
  }

  lemma GeoIn(g: Geo, t: Term)
    requires TermOk(g, t)
    ensures GeoOk(g)
  {
  }

  lemma {:induction false} StepsConcat(g: Geo, t: Term, a: seq<byte>, b: seq<byte>)
    requires GeoFits(g)
    ensures Steps(g, t, a + b) == Steps(g, Steps(g, t, a), b)
    decreases |a|
  {
    hide Step;
    if |a| == 0 {
      assert a + b == b;
    } else {
      assert (a + b)[1..] == a[1..] + b;
      StepsConcat(g, Step(g, t, a[0]), a[1..], b);
    }
  }

  // ---------------------------------------------------------------- what cursor moves mean

  /** The number of the cell at an offset: rows and columns count from 1, as in escape sequences. */
  function CellNumber(a: nat, size: nat): nat
    requires size > 0
  {
    a / size + 1
  }

  function RowOf(g: Geo, t: Term): nat
    requires g.charH > 0
  {
    CellNumber(t.y, g.charH)
  }

  function ColumnOf(g: Geo, t: Term): nat
    requires g.charW > 0
  {
    CellNumber(t.x, g.charW)
  }

  function FirstRow(g: Geo, t: Term): nat
    requires g.charH > 0
  {
    CellNumber(t.scrollStart, g.charH)
  }

  function LastRow(g: Geo, t: Term): nat
    requires g.charH > 0
  {
    t.scrollEnd / g.charH
  }

  /** Going right takes back going left, unless there is nowhere to go. */
  lemma LeftIsBack(g: Geo, t: Term)
    requires TermOk(g, t)
    ensures TermOk(g, CursorLeft(g, t))
    ensures ColumnOf(g, t) == 1 && RowOf(g, t) == FirstRow(g, t) <==> CursorLeft(g, t) == t
    ensures CursorLeft(g, t) != t ==> CursorRight(g, CursorLeft(g, t)) == t
  {
    UsedHeightFits(g);
    LeftOk(g, t);
    hide UsedHeight;
    AtFirst(g, t);
    if t.x > 0 {
      CellDown(t.x, g.charW);
    } else if t.y > t.scrollStart {
      WidthCell(g, t);
    }
  }

  /** Being in the first row and the first column, in pixels. */
  lemma AtFirst(g: Geo, t: Term)
    requires TermOk(g, t)
    ensures ColumnOf(g, t) == 1 <==> t.x == 0
    ensures RowOf(g, t) == FirstRow(g, t) <==> t.y == t.scrollStart
  {
    hide UsedHeight;
    DivBounds(t.x, g.charW);
    DivBounds(t.y, g.charH);
    DivBounds(t.scrollStart, g.charH);
  }

  /** Going down takes back going up, unless the cursor is in the first row of the scroll region. */
  lemma UpIsBack(g: Geo, t: Term)
    requires TermOk(g, t)
    ensures TermOk(g, CursorUp(g, t))
    ensures RowOf(g, t) == FirstRow(g, t) <==> CursorUp(g, t) == t
    ensures CursorUp(g, t) != t ==> CursorDown(g, CursorUp(g, t)) == t
  {
    UsedHeightFits(g);
    UpOk(g, t);
    hide UsedHeight;
    AtFirst(g, t);
    if t.y > t.scrollStart {
      CellDown(t.y, g.charH);
      CellsApart(t.scrollStart, t.y, g.charH);
    }
  }

  /** A cell counted from 1, in pixels. */
  lemma CellAt(a: nat, n: nat, m: nat)
    requires m > 0 && n > 0
    ensures a == (n - 1) * m <==> Cell(a, m) && a / m + 1 == n
  {
    DivMod(m, n - 1, 0);
    DivBounds(a, m);
    assert m * (a / m) == (a / m) * m;
  }

  /** A new line starts in the first column, one row further down, or in the last row of the scroll region, which
      has then been scrolled. */
  lemma NewLineReaches(g: Geo, t: Term)
    requires TermOk(g, t)
    ensures var t' := NewLine(g, t);
      && TermOk(g, t') && ColumnOf(g, t') == 1
      && if RowOf(g, t) < LastRow(g, t)
         then RowOf(g, t') == RowOf(g, t) + 1 && t' == t.(x := 0, y := t'.y)
         else RowOf(g, t') == RowOf(g, t) == LastRow(g, t) && t' == Scroll(g, t.(x := 0))
  {
    NewLineOk(g, t, 0);
    NewLinePixels(g, t);
    NextRow(t.y, t.scrollEnd, g.charH);
    hide UsedHeight, Cell, TermOk, NewLine, Scroll;
    DivMod(g.charW, 0, 0);
  }

  lemma NewLinePixels(g: Geo, t: Term)
    requires TermOk(g, t)
    ensures NewLine(g, t) ==
      if t.y + g.charH < t.scrollEnd then t.(x := 0, y := t.y + g.charH) else Scroll(g, t.(x := 0))
    ensures Scroll(g, t.(x := 0)).x == 0 && Scroll(g, t.(x := 0)).y == t.y
  {
    UsedHeightFits(g);
    hide UsedHeight, Cell, MovedUp;
  }

  lemma NextRow(y: nat, end: nat, m: nat)
    requires m > 0 && Cell(y, m) && Cell(end, m) && y < end
    ensures (y + m) / m == y / m + 1 && (y + m < end <==> y / m + 1 < end / m) && y / m + 1 <= end / m
  {
    DivBounds(y, m);
    DivBounds(end, m);
    var i, j := y / m, end / m;
    assert m * (i + 1) == m * i + m;
    DivIs(y + m, m, i + 1, 0);
    ScaleLess(m, i, j);
    ScaleLess(m, i + 1, j);
    if j <= i { TimesMono(m, j, i); }
    if j <= i + 1 { TimesMono(m, j, i + 1); }
  }

  /** A tabulator leads to the next column behind a multiple of 8, or to a new line if there is none. */
  lemma TabReaches(g: Geo, t: Term)
    requires TermOk(g, t)
    ensures var next, t' := (ColumnOf(g, t) - 1) / 8 * 8 + 9, Tabulator(g, t);
      && TermOk(g, t')
      && if (next - 1) * g.charW < g.width then ColumnOf(g, t') == next && t' == t.(x := t'.x) else t' == NewLine(g, t)
  {
    TabOk(g, t);
    TabStop(t.x, g.charW);
    var stop := NextStop(t.x, g.charW);
    hide NextStop;
    DivBounds(stop, g.charW);
    assert stop / g.charW * g.charW == g.charW * (stop / g.charW);
    NewLineOk(g, t, stop);
    hide Cell, UsedHeight, NewLine, TermOk;
  }

  /** Where row or column `n` begins. */
  function Begins(n: nat, size: nat): int {
    (n - 1) * size
  }

  /** The cursor moves to a row and a column if and only if they are on the screen and in the scroll
      region; otherwise it stays. */
  lemma MoveReaches(g: Geo, t: Term, row: nat, column: nat)
    requires TermOk(g, t) && row <= 199 && column <= 199
    ensures var t' := CursorMove(g, t, row, column);
      && TermOk(g, t') && t' == t.(x := t'.x, y := t'.y)
      && if 1 <= column && Begins(column, g.charW) < g.width && FirstRow(g, t) <= row <= LastRow(g, t)
         then RowOf(g, t') == row && ColumnOf(g, t') == column
         else t' == t
  {
    hide TermOk, Cell, CursorMove, UsedHeight, GeoFits, Begins, RowOf, ColumnOf, FirstRow, LastRow;
    MoveOk(g, t, row, column);
    MovePixels(g, t, row, column);
    RegionCells(g, t);
    CellOf(column, g.charW);
    MovedCell(g, t, row, column);
  }

  lemma MovedCell(g: Geo, t: Term, row: nat, column: nat)
    requires TermOk(g, t)
    ensures t.scrollStart <= Begins(row, g.charH) < t.scrollEnd <==> FirstRow(g, t) <= row <= LastRow(g, t)
    ensures Begins(column, g.charW) >= 0 && Begins(row, g.charH) >= 0 ==>
      var t' := t.(x := Begins(column, g.charW), y := Begins(row, g.charH));
      RowOf(g, t') == row && ColumnOf(g, t') == column
  {
    RegionCells(g, t);
    hide TermOk, Cell, UsedHeight, GeoFits, Begins, CellNumber;
    CellOf(column, g.charW);
    CellOf(row, g.charH);
    if row > 0 { RowsBetween(t.scrollStart, t.scrollEnd, row, g.charH); }
  }

  lemma CellOf(n: nat, m: nat)
    requires m > 0
    ensures if n > 0 then Begins(n, m) >= 0 && CellNumber(Begins(n, m), m) == n else Begins(n, m) < 0
  {
    if n > 0 {
      TimesMono(m, 0, n - 1);
      CellAt((n - 1) * m, n, m);
    }
  }

  /** The move in pixels, without wrapping round. */
  lemma MovePixels(g: Geo, t: Term, row: nat, column: nat)
    requires TermOk(g, t) && row <= 199 && column <= 199
    ensures var x, y := Begins(column, g.charW), Begins(row, g.charH);
      CursorMove(g, t, row, column)
        == if 0 <= x < g.width && t.scrollStart <= y < t.scrollEnd then t.(x := x, y := y) else t
  {
    UsedHeightFits(g);
    OffsetFits(column, g.charW, g.width);
    OffsetFits(row, g.charH, g.height);
    hide Cell, UsedHeight, U32;
  }

  lemma RegionCells(g: Geo, t: Term)
    requires TermOk(g, t)
    ensures g.charW > 0 && g.charH > 0
    ensures Cell(t.scrollStart, g.charH) && Cell(t.scrollEnd, g.charH) && t.scrollEnd <= g.height
  {
    UsedHeightFits(g);
  }

  lemma RowsBetween(start: nat, end: nat, row: nat, m: nat)
    requires m > 0 && row > 0 && Cell(start, m) && Cell(end, m)
    ensures start <= Begins(row, m) < end <==> CellNumber(start, m) <= row <= end / m
  {
    DivBounds(start, m);
    DivBounds(end, m);
    var i, j := start / m, end / m;
    ScaleLess(m, row - 1, i);
    ScaleLess(m, row - 1, j);
    if i <= row - 1 { TimesMono(m, i, row - 1); }
    if j <= row - 1 { TimesMono(m, j, row - 1); }
    assert m * (row - 1) == (row - 1) * m;
  }

  /** Home is the first cell of the scroll region. */
  lemma HomeIsFirst(g: Geo, t: Term)
    requires TermOk(g, t)
    ensures TermOk(g, CursorHome(t)) && RowOf(g, CursorHome(t)) == FirstRow(g, t) && ColumnOf(g, CursorHome(t)) == 1
    ensures FirstRow(g, t) <= 199 ==> CursorHome(t) == CursorMove(g, t, FirstRow(g, t), 1)
  {
    HomeOk(g, t);
    var row := FirstRow(g, t);
    DivMod(g.charW, 0, 0);
    CellAt(t.scrollStart, row, g.charH);
    if row <= 199 {
      UsedHeightFits(g);
      OffsetFits(1, g.charW, g.width);
      OffsetFits(row, g.charH, g.height);
    }
  }

  /** The scroll region becomes the given rows if and only if they are rows of the screen in order, and
      the cursor goes to its first cell in any case. */
  lemma RegionReaches(g: Geo, t: Term, start: nat, end: nat)
    requires TermOk(g, t) && start <= 199 && end <= 199
    ensures var t' := SetScrollRegion(g, t, start, end);
      && TermOk(g, t') && t' == CursorHome(t.(scrollStart := t'.scrollStart, scrollEnd := t'.scrollEnd))
      && if 1 <= start <= end <= g.height / g.charH
         then FirstRow(g, t') == start && LastRow(g, t') == end
         else t'.scrollStart == t.scrollStart && t'.scrollEnd == t.scrollEnd
  {
    RegionOk(g, t, start, end);
    OffsetFits(start, g.charH, g.height);
    OffsetFits(end, g.charH, g.height);
    UsedHeightFits(g);
    hide TermOk, UsedHeight;
    if start > 0 { RegionFits(g, start, end); }
  }

  lemma RegionFits(g: Geo, start: nat, end: nat)
    requires g.charH > 0 && start > 0
    ensures (start - 1) * g.charH < UsedHeight(g) && 0 < end * g.charH <= UsedHeight(g) &&
      (start - 1) * g.charH < end * g.charH
      <==> start <= end <= g.height / g.charH
    ensures (start - 1) * g.charH / g.charH + 1 == start && end * g.charH / g.charH == end
  {
    var m, rows := g.charH, g.height / g.charH;
    DivMod(m, end, 0);
    CellAt((start - 1) * m, start, m);
    ScaleLess(m, rows, end);
    ScaleLess(m, start - 1, end);
    if end <= rows { TimesMono(m, end, rows); }
    if end <= start - 1 { TimesMono(m, end, start - 1); }
    assert m * rows == rows * m && m * end == end * m && m * (start - 1) == (start - 1) * m;
  }

  /** Graphics modes only change colors.  Every color of the palette can be chosen for ink and paper on its
      own, mode 0 gives the normal ink back, and mode 7 swaps ink and paper until then. */
  lemma StandoutMeans(t: Term, mode: nat, c: Color)
    requires c < 16
    ensures var t' := SetStandoutMode(t, mode); t' == t.(color := t'.color, bg := t'.bg, reverse := t'.reverse)
    ensures SetStandoutMode(t, if c < 8 then 30 + c else 82 + c) == t.(color := c)
    ensures SetStandoutMode(t, if c < 8 then 40 + c else 92 + c) == t.(bg := c)
    ensures SetStandoutMode(SetStandoutMode(t, mode), 0)
      == t.(color := NORMAL, reverse := false, bg := SetStandoutMode(t, mode).bg)
    ensures !t.reverse ==> Ink(SetStandoutMode(t, 7)) == Paper(t) && Paper(SetStandoutMode(t, 7)) == Ink(t)
    ensures SetStandoutMode(t, 1) == t.(color := HIGH) && SetStandoutMode(t, 2) == t.(color := HALF)
    ensures SetStandoutMode(t, 27) == SetStandoutMode(t, 0) && SetStandoutMode(t, 7) == t.(reverse := true)
    ensures (mode in [0, 1, 2, 7, 27] || 30 <= mode <= 37 || 40 <= mode <= 47 || 90 <= mode <= 97 || 100 <= mode <= 107)
      || SetStandoutMode(t, mode) == t
  {
    StandoutColors(t, mode);
  }

  // ---------------------------------------------------------------- which widths are safe

  /** The terminal after start-up. */
  function Startup(g: Geo, pic: seq<Color>): Term
    requires GeoFits(g)
  {
    ClearDisplayEnd(g, Term(Begin, 0, 0, 0, UsedHeight(g), 0, 0, true, NORMAL, BLACK, false, false, pic))
  }

  lemma StartupOk(g: Geo, pic: seq<Color>)
    requires GeoOk(g) && |pic| == g.pitch * g.height
    ensures TermOk(g, Startup(g, pic))
  {
    UsedHeightFits(g);
    CellTimes(0, g.charW);
    CellTimes(0, g.charH);
    ClearDisplayOk(g, Term(Begin, 0, 0, 0, UsedHeight(g), 0, 0, true, NORMAL, BLACK, false, false, pic));
  }

  function Backspaces(k: nat): (cs: seq<byte>)
    ensures |cs| == k && forall i :: 0 <= i < k ==> cs[i] == 8
  {
    seq(k, i => 8)
  }

  lemma BackspaceStep(g: Geo, t: Term)
    requires GeoFits(g) && t.parser == Begin && 0 < t.x < g.width
    ensures Step(g, t, 8) == t.(x := U32(t.x - g.charW))
    ensures t.x < g.charW ==> Step(g, t, 8).x >= g.width
    ensures t.x >= g.charW ==> Step(g, t, 8).x == t.x - g.charW
  {
  }

  lemma StepsBack(k: int, m: nat)
    ensures (k - 1) * m == k * m - m && (k + 1) * m == k * m + m
  {
  }

  /** Going left from inside a cell ends beyond the screen. */
  lemma {:induction false} LeftLeaves(g: Geo, t: Term, k: nat)
    requires GeoFits(g) && t.parser == Begin && k * g.charW < t.x < (k + 1) * g.charW && t.x < g.width
    ensures Steps(g, t, Backspaces(k + 1)).x >= g.width
    decreases k
  {
    hide Step;
    BackspaceStep(g, t);
    assert Backspaces(k + 1)[1..] == Backspaces(k);
    if k > 0 {
      StepsBack(k, g.charW);
      LeftLeaves(g, Step(g, t, 8), k - 1);
    }
  }

  lemma BreakThenBack(g: Geo, t: Term)
    requires GeoFits(g) && t.parser == Begin
    requires t.x == 0 && t.scrollStart <= t.y && t.y + g.charH < t.scrollEnd <= g.height
    ensures var t2 := Step(g, Step(g, t, 10), 8);
      t2.x == g.width - g.charW && t2.parser == Begin
  {
  }

  lemma {:induction false} StepsTwo(g: Geo, t: Term, c: byte, d: byte, cs: seq<byte>)
    requires GeoFits(g)
    ensures Steps(g, t, [c, d] + cs) == Steps(g, Step(g, Step(g, t, c), d), cs)
  {
    hide Step;
    assert ([c, d] + cs)[1..] == [d] + cs && ([d] + cs)[1..] == cs;
  }

  /** If the width holds no whole number of characters, a line break and backspaces lead the cursor
      out of the screen. */
  lemma OddWidthLeaves(g: Geo, t: Term)
    requires GeoFits(g) && g.width % g.charW != 0
    requires t.parser == Begin && t.x == 0 && t.scrollStart <= t.y && t.y + g.charH < t.scrollEnd <= g.height
    ensures Steps(g, t, [10, 8] + Backspaces(g.width / g.charW)).x >= g.width
  {
    hide Step, Steps;
    BreakThenBack(g, t);
    var q, r := g.width / g.charW, g.width % g.charW;
    assert g.width == q * g.charW + r;
    assert q >= 1 && (q - 1) * g.charW == q * g.charW - g.charW;
    LeftLeaves(g, Step(g, Step(g, t, 10), 8), q - 1);
    StepsTwo(g, t, 10, 8, Backspaces(q));
  }

  /** The cursor column stays on the screen, whatever bytes arrive, just when the width holds whole
      characters or there is no room for a second row. */
  lemma CursorStaysIff(g: Geo, pic: seq<Color>)
    requires GeoFits(g) && |pic| == g.pitch * g.height
    ensures (forall cs :: Steps(g, Startup(g, pic), cs).x < g.width)
      <==> g.width % g.charW == 0 || UsedHeight(g) < 2 * g.charH
  {
    var t := Startup(g, pic);
    if g.width % g.charW == 0 || UsedHeight(g) < 2 * g.charH {
      StartupOk(g, pic);
      forall cs ensures Steps(g, t, cs).x < g.width { StepsOk(g, t, cs); }
    } else {
      UsedHeightFits(g);
      OddWidthLeaves(g, t);
      var cs := [10, 8] + Backspaces(g.width / g.charW);
      assert !(Steps(g, t, cs).x < g.width);
    }
  }

  // ---------------------------------------------------------------- the cursor in the picture

  /** A terminal whose picture shows the cursor or not, and the pixels that the cursor covers. */
  datatype Screen = Screen(t: Term, shown: bool, saved: seq<Color>)

  function PixelAt(g: Geo, t: Term, x: nat, y: nat): Color {
    if x < g.width && y < g.height && g.pitch * y + x < |t.pic| then t.pic[g.pitch * y + x] else t.bg
  }

  function CursorSize(g: Geo): nat
    requires GeoFits(g)
  {
    g.charW * (g.charH - g.underline)
  }

  /** The pixels under the cursor, row by row. */
  function Covered(g: Geo, t: Term): (s: seq<Color>)
    requires GeoFits(g)
    ensures |s| == CursorSize(g)
  {
    seq(CursorSize(g), k requires 0 <= k < CursorSize(g) =>
      PixelAt(g, t, t.x + Column(k, g.charW), t.y + g.underline + Row(k, g.charW)))
  }

  /** Column and row of the k-th pixel where rows have `m` pixels. */
  function Column(k: nat, m: nat): (x: nat)
    requires m > 0
    ensures x < m
  {
    k % m
  }

  function Row(k: nat, m: nat): nat
    requires m > 0
  {
    k / m
  }

  lemma RowColumn(m: nat, y: nat, x: nat)
    requires x < m
    ensures Row(m * y + x, m) == y && Column(m * y + x, m) == x
  {
    DivMod(m, y, x);
  }

  lemma PixelIndex(i: nat, m: nat)
    requires m > 0
    ensures i == m * Row(i, m) + Column(i, m)
  {
  }

  function CursorRect(g: Geo, t: Term, ink: (nat, nat) -> Color): Term
    requires GeoFits(g)
  {
    t.(pic := Painted(g, t.pic, t.x, t.y + g.underline, g.charW, g.charH - g.underline, ink))
  }

  /** Color number `k` of those saved; any if there are not so many. */
  function Nth(s: seq<Color>, k: nat): Color {
    if k < |s| then s[k] else 0
  }

  function From(g: Geo, saved: seq<Color>): (nat, nat) -> Color {
    (dx, dy) => Nth(saved, g.charW * dy + dx)
  }

  function InvertCursor(g: Geo, s: Screen): Screen
    requires GeoFits(g)
  {
    if !s.t.on then s
    else if !s.shown then Screen(CursorRect(g, s.t, Solid(s.t.color)), true, Covered(g, s.t))
    else Screen(CursorRect(g, s.t, From(g, s.saved)), false, s.saved)
  }

  /** A call to write takes the cursor away, processes the bytes, and shows the cursor again. */
  function Write(g: Geo, s: Screen, cs: seq<byte>): Screen
    requires GeoFits(g)
  {
    var hidden := InvertCursor(g, s);
    InvertCursor(g, hidden.(t := Steps(g, hidden.t, cs)))
  }

  lemma CoveredAt(g: Geo, t: Term, dx: nat, dy: nat)
    requires GeoFits(g) && dx < g.charW && dy < g.charH - g.underline
    ensures Nth(Covered(g, t), g.charW * dy + dx) == PixelAt(g, t, t.x + dx, t.y + g.underline + dy)
  {
    var k := g.charW * dy + dx;
    CursorIndex(g, dx, dy);
    RowColumn(g.charW, dy, dx);
    hide CursorSize, Row, Column;
    assert Covered(g, t)[k] == PixelAt(g, t, t.x + Column(k, g.charW), t.y + g.underline + Row(k, g.charW));
  }

  lemma CursorIndex(g: Geo, dx: nat, dy: nat)
    requires GeoFits(g) && dx < g.charW && dy < g.charH - g.underline
    ensures g.charW * dy + dx < CursorSize(g)
  {
    TimesMono(g.charW, dy + 1, g.charH - g.underline);
    assert g.charW * dy + g.charW == (dy + 1) * g.charW;
  }

  lemma PaintedAt(g: Geo, pic: seq<Color>, x0: nat, y0: nat, w: nat, h: nat, ink: (nat, nat) -> Color, x: nat, y: nat)
    requires x < g.pitch && g.pitch * y + x < |pic|
    ensures Painted(g, pic, x0, y0, w, h, ink)[g.pitch * y + x]
      == if x0 <= x < x0 + w && y0 <= y < y0 + h && x < g.width && y < g.height then ink(x - x0, y - y0)
         else pic[g.pitch * y + x]
  {
    RowColumn(g.pitch, y, x);
    hide Row, Column;
  }

  lemma ShowThenHideAt(g: Geo, s: Screen, x: nat, y: nat)
    requires GeoFits(g) && s.t.on && !s.shown && x < g.pitch && g.pitch * y + x < |s.t.pic|
    ensures |InvertCursor(g, InvertCursor(g, s)).t.pic| == |s.t.pic|
    ensures InvertCursor(g, InvertCursor(g, s)).t.pic[g.pitch * y + x] == s.t.pic[g.pitch * y + x]
  {
    hide Painted, Covered;
    var t, s1 := s.t, InvertCursor(g, s);
    PaintedAt(g, t.pic, t.x, t.y + g.underline, g.charW, g.charH - g.underline, Solid(t.color), x, y);
    PaintedAt(g, s1.t.pic, t.x, t.y + g.underline, g.charW, g.charH - g.underline, From(g, s1.saved), x, y);
    if t.x <= x < t.x + g.charW && t.y + g.underline <= y < t.y + g.charH {
      CoveredAt(g, t, x - t.x, y - (t.y + g.underline));
    }
  }

  /** Showing the cursor and taking it away leaves the picture as it was. */
  lemma ShowThenHide(g: Geo, s: Screen)
    requires GeoFits(g) && s.t.on && !s.shown
    ensures InvertCursor(g, InvertCursor(g, s)).t == s.t && !InvertCursor(g, InvertCursor(g, s)).shown
  {
    hide Covered, Painted, Row, Column;
    var s2 := InvertCursor(g, InvertCursor(g, s));
    forall i | 0 <= i < |s.t.pic| ensures s2.t.pic[i] == s.t.pic[i] {
      PixelIndex(i, g.pitch);
      ShowThenHideAt(g, s, Column(i, g.pitch), Row(i, g.pitch));
    }
  }

  /** Between two calls the cursor is in the picture just when it is switched on. */
  predicate ScreenOk(g: Geo, s: Screen) {
    GeoFits(g) && s.shown == s.t.on && TermOk(g, InvertCursor(g, s).t)
  }

  /** Without its cursor the screen shows what the terminal shows. */
  lemma WriteRefines(g: Geo, s: Screen, cs: seq<byte>)
    requires GeoOk(g) && ScreenOk(g, s)
    ensures ScreenOk(g, Write(g, s, cs))
    ensures InvertCursor(g, Write(g, s, cs)).t == Steps(g, InvertCursor(g, s).t, cs)
  {
    hide Steps, CursorRect, Covered, TermOk;
    var t := InvertCursor(g, s).t;
    StepsOk(g, t, cs);
    var s1 := Screen(Steps(g, t, cs), false, s.saved);
    if s1.t.on { ShowThenHide(g, s1); }
    RectKeeps(g, s1.t);
  }

  lemma RectKeeps(g: Geo, t: Term)
    requires GeoFits(g)
    ensures forall ink :: CursorRect(g, t, ink).on == t.on
  {
  }

  /** How the bytes are divided between calls makes no difference to the terminal and its picture. */
  lemma SplitWrite(g: Geo, s: Screen, a: seq<byte>, b: seq<byte>)
    requires GeoOk(g) && ScreenOk(g, s)
    ensures var s1, s2 := Write(g, Write(g, s, a), b), Write(g, s, a + b);
      s1.t == s2.t && s1.shown == s2.shown && (s1.shown ==> s1.saved == s2.saved)
  {
    hide Steps, CursorRect, Covered, TermOk;
    WriteRefines(g, s, a);
    StepsConcat(g, InvertCursor(g, s).t, a, b);
    var s1 := Write(g, s, a);
    HiddenNow(g, s1);
    HiddenNow(g, s);
  }

  lemma HiddenNow(g: Geo, s: Screen)
    requires GeoFits(g) && s.shown == s.t.on
    ensures !InvertCursor(g, s).shown
  {
  }

  // ---------------------------------------------------------------- plain text

  /** Printable characters that fit into the rest of the line. */
  predicate Prints(g: Geo, t: Term, text: seq<byte>) {
    && t.parser == Begin && (forall i :: 0 <= i < |text| ==> text[i] >= 32)
    && t.x + |text| * g.charW < g.width
  }

  lemma PrintOne(g: Geo, t: Term, c: byte)
    requires TermOk(g, t) && t.parser == Begin && c >= 32 && t.x + g.charW < g.width
    ensures var t' := Step(g, t, c);
      t' == t.(x := t.x + g.charW, pic := Painted(g, t.pic, t.x, t.y, g.charW, g.charH, Inked(g, c, Ink(t), Paper(t))))
  {
    hide Painted, UsedHeight, Cell;
  }

  /** Painting a rectangle changes just the pixels in it. */
  lemma PixelPainted(g: Geo, t: Term, x0: nat, y0: nat, w: nat, h: nat, ink: (nat, nat) -> Color, x: nat, y: nat)
    requires GeoFits(g) && |t.pic| == g.pitch * g.height && x < g.width && y < g.height
    ensures g.pitch * y + x < |t.pic|
    ensures PixelAt(g, t.(pic := Painted(g, t.pic, x0, y0, w, h, ink)), x, y)
      == if x0 <= x < x0 + w && y0 <= y < y0 + h then ink(x - x0, y - y0) else PixelAt(g, t, x, y)
  {
    TimesMono(g.pitch, y + 1, g.height);
    assert (y + 1) * g.pitch == g.pitch * y + g.pitch && g.height * g.pitch == g.pitch * g.height;
    PaintedAt(g, t.pic, x0, y0, w, h, ink, x, y);
    hide Painted;
  }

  lemma PrintFirst(g: Geo, t: Term, text: seq<byte>, x: nat, y: nat)
    requires TermOk(g, t) && Prints(g, t, text) && |text| > 0 && x < g.width && y < g.height
    ensures var t1 := Step(g, t, text[0]);
      && TermOk(g, t1) && Prints(g, t1, text[1..]) && t1.x == t.x + g.charW && t1.y == t.y
      && Ink(t1) == Ink(t) && Paper(t1) == Paper(t)
      && PixelAt(g, t1, x, y) == if t.x <= x < t.x + g.charW && t.y <= y < t.y + g.charH
           then Inked(g, text[0], Ink(t), Paper(t))(x - t.x, y - t.y) else PixelAt(g, t, x, y)
  {
    hide Painted, TermOk, Step, Inked, PixelAt;
    InScreen(g, t);
    var n := |text| - 1;
    assert |text| * g.charW == n * g.charW + g.charW;
    TimesMono(g.charW, 0, n);
    StepOk(g, t, text[0]);
    PrintOne(g, t, text[0]);
    PixelPainted(g, t, t.x, t.y, g.charW, g.charH, Inked(g, text[0], Ink(t), Paper(t)), x, y);
    PixelAnyColumn(g, t.(pic := Painted(g, t.pic, t.x, t.y, g.charW, g.charH, Inked(g, text[0], Ink(t), Paper(t)))),
      t.x + g.charW, x, y);
  }

  /** Where the cursor is does not matter for the picture. */
  lemma PixelAnyColumn(g: Geo, t: Term, cursor: nat, x: nat, y: nat)
    ensures PixelAt(g, t.(x := cursor), x, y) == PixelAt(g, t, x, y)
  {
  }

  /** Printing leaves everything left of the cursor alone. */
  lemma {:induction false} PrintKeeps(g: Geo, t: Term, text: seq<byte>, x: nat, y: nat)
    requires TermOk(g, t) && Prints(g, t, text) && x < t.x && y < g.height
    ensures PixelAt(g, Steps(g, t, text), x, y) == PixelAt(g, t, x, y)
    decreases |text|
  {
    hide Step, PixelAt, TermOk, Prints;
    GeoIn(g, t);
    if |text| > 0 {
      InScreen(g, t);
      PrintFirst(g, t, text, x, y);
      PrintKeeps(g, Step(g, t, text[0]), text[1..], x, y);
    }
  }

  lemma InScreen(g: Geo, t: Term)
    requires TermOk(g, t)
    ensures t.x < g.width && t.y + g.charH <= g.height && GeoFits(g) && |t.pic| == g.pitch * g.height
  {
    UsedHeightFits(g);
    hide UsedHeight;
    CellsApart(t.y, t.scrollEnd, g.charH);
  }

  lemma FirstFits(g: Geo, t: Term, text: seq<byte>)
    requires Prints(g, t, text) && |text| > 0
    ensures t.x + g.charW < g.width
  {
    var n: nat := |text| - 1;
    assert |text| * g.charW == n * g.charW + g.charW;
  }

  /** The column where the k-th character printed from the cursor on starts. */
  function CellX(g: Geo, t: Term, k: nat): nat {
    t.x + k * g.charW
  }

  lemma CellXZero(g: Geo, t: Term)
    ensures CellX(g, t, 0) == t.x
  {
  }

  lemma CellXNext(g: Geo, t: Term, t1: Term, k: nat)
    requires k > 0 && t1.x == t.x + g.charW
    ensures CellX(g, t1, k - 1) == CellX(g, t, k)
  {
    assert k * g.charW == (k - 1) * g.charW + g.charW;
  }

  lemma {:induction false} PrintedInk(g: Geo, t: Term, text: seq<byte>, k: nat, dx: nat, dy: nat)
    requires TermOk(g, t) && Prints(g, t, text) && k < |text| && dx < g.charW && dy < g.charH
    ensures PixelAt(g, Steps(g, t, text), CellX(g, t, k) + dx, t.y + dy)
      == Inked(g, text[k], Ink(t), Paper(t))(dx, dy)
    decreases |text|
  {
    hide Step, PixelAt, TermOk, Prints, Inked, Ink, Paper, CellX;
    InScreen(g, t);
    FirstFits(g, t, text);
    var t1 := Step(g, t, text[0]);
    PrintFirst(g, t, text, t.x + dx, t.y + dy);
    if k == 0 {
      PrintKeeps(g, t1, text[1..], t.x + dx, t.y + dy);
      CellXZero(g, t);
    } else {
      PrintedInk(g, t1, text[1..], k - 1, dx, dy);
      CellXNext(g, t, t1, k);
    }
  }

  /** A printed text can be read off the picture: each character stands in its own cell, in its color on the
      background, or the other way round in reverse mode. */
  lemma PrintedText(g: Geo, t: Term, text: seq<byte>, k: nat, dx: nat, dy: nat)
    requires TermOk(g, t) && Prints(g, t, text) && k < |text| && dx < g.charW && dy < g.charH
    ensures PixelAt(g, Steps(g, t, text), CellX(g, t, k) + dx, t.y + dy)
      == if g.glyph(text[k], dx, dy) == t.reverse then t.bg else t.color
  {
    PrintedInk(g, t, text, k, dx, dy);
    InkMeans(g, t, text[k], dx, dy);
    hide PixelAt, TermOk, Steps, Inked, CellX;
  }

  lemma InkMeans(g: Geo, t: Term, c: byte, dx: nat, dy: nat)
    ensures Inked(g, c, Ink(t), Paper(t))(dx, dy) == if g.glyph(c, dx, dy) == t.reverse then t.bg else t.color
  {
  }

  /** Printing moves the cursor by the characters printed and leaves its row and the colors alone. */
  lemma {:induction false} PrintMoves(g: Geo, t: Term, text: seq<byte>)
    requires TermOk(g, t) && Prints(g, t, text)
    ensures var t' := Steps(g, t, text);
      && TermOk(g, t') && t'.parser == Begin && t'.x == CellX(g, t, |text|) && t'.y == t.y
      && Ink(t') == Ink(t) && Paper(t') == Paper(t)
    decreases |text|
  {
    hide Step, TermOk, Ink, Paper, CellX, Inked;
    GeoIn(g, t);
    if |text| == 0 {
      CellXZero(g, t);
    } else {
      InScreen(g, t);
      FirstFits(g, t, text);
      PrintFirst(g, t, text, t.x, t.y);
      PrintMoves(g, Step(g, t, text[0]), text[1..]);
      CellXNext(g, t, Step(g, t, text[0]), |text|);
    }
  }

  /** The cell under the cursor with a character in it. */
  function Typed(g: Geo, t: Term, c: byte): Term
    requires g.pitch > 0
  {
    t.(pic := Painted(g, t.pic, t.x, t.y, g.charW, g.charH, Inked(g, c, Ink(t), Paper(t))))
  }

  lemma TypeLast(g: Geo, t: Term, c: byte)
    requires TermOk(g, t) && t.parser == Begin && c >= 32 && t.x + g.charW >= g.width
    ensures Steps(g, t, [c]) == NewLine(g, Typed(g, t, c))
  {
    hide Painted, UsedHeight, Cell, CursorDown;
    assert [c][1..] == [];
    assert Steps(g, t, [c]) == Steps(g, Step(g, t, c), []) == Step(g, t, c);
  }

  lemma LineInk(g: Geo, t: Term, text: seq<byte>, c: byte, k: nat, dx: nat, dy: nat)
    requires TermOk(g, t) && Prints(g, t, text) && c >= 32 && CellX(g, t, |text|) + g.charW >= g.width
    requires k <= |text| && dx < g.charW && dy < g.charH && CellX(g, t, k) + dx < g.width
    ensures var full := Typed(g, Steps(g, t, text), c);
      && Steps(g, t, text + [c]) == NewLine(g, full)
      && PixelAt(g, full, CellX(g, t, k) + dx, t.y + dy)
        == Inked(g, (text + [c])[k], Ink(t), Paper(t))(dx, dy)
  {
    hide TermOk, Prints, Steps, PixelAt, Ink, Paper, Inked, NewLine;
    GeoIn(g, t);
    var t1 := Steps(g, t, text);
    PrintMoves(g, t, text);
    StepsConcat(g, t, text, [c]);
    TypeLast(g, t1, c);
    InScreen(g, t1);
    PixelPainted(g, t1, t1.x, t1.y, g.charW, g.charH, Inked(g, c, Ink(t1), Paper(t1)), CellX(g, t, k) + dx, t.y + dy);
    if k < |text| {
      PrintedInk(g, t, text, k, dx, dy);
      TimesMono(g.charW, k + 1, |text|);
      assert (k + 1) * g.charW == k * g.charW + g.charW;
    }
  }

  /** The text that fills a line stands in its cells up to the last one when the new line begins. */
  lemma PrintedLine(g: Geo, t: Term, text: seq<byte>, c: byte, k: nat, dx: nat, dy: nat)
    requires TermOk(g, t) && Prints(g, t, text) && c >= 32 && CellX(g, t, |text|) + g.charW >= g.width
    requires k <= |text| && dx < g.charW && dy < g.charH && CellX(g, t, k) + dx < g.width
    ensures var full := Typed(g, Steps(g, t, text), c);
      && Steps(g, t, text + [c]) == NewLine(g, full)
      && PixelAt(g, full, CellX(g, t, k) + dx, t.y + dy)
        == if g.glyph((text + [c])[k], dx, dy) == t.reverse then t.bg else t.color
  {
    LineInk(g, t, text, c, k, dx, dy);
    InkMeans(g, t, (text + [c])[k], dx, dy);
    hide TermOk, Prints, Steps, PixelAt, Inked, NewLine, Typed, CellX;
  }
}
