/** Circle's screen device: the terminal of module Terminal on a frame buffer in memory. */
module ScreenDevice {
  import opened Common
  import opened Terminal

  // ---------------------------------------------------------------- painting pixel by pixel

  function InRect(x: nat, y: nat, x0: nat, y0: nat, w: nat, h: nat): bool {
    x0 <= x < x0 + w && y0 <= y < y0 + h
  }

  /** A rectangle is painted up to row `rows`, and in this row up to column `columns`. */
  ghost predicate PaintedTo(g: Geo, was: seq<Color>, pic: seq<Color>, x0: nat, y0: nat, w: nat, h: nat,
                            ink: (nat, nat) -> Color, rows: nat, columns: nat)
    requires g.pitch > 0
  {
    && |pic| == |was|
    && forall x: nat, y: nat {:trigger Index(g, x, y)} :: x < g.pitch && Index(g, x, y) < |was| ==>
      pic[Index(g, x, y)] ==
        if InRect(x, y, x0, y0, w, h) && x < g.width && y < g.height &&
          (y - y0 < rows || (y - y0 == rows && x - x0 < columns))
        then ink(x - x0, y - y0) else was[Index(g, x, y)]
  }

  function Index(g: Geo, x: nat, y: nat): nat {
    g.pitch * y + x
  }

  lemma IndexUnique(g: Geo, x: nat, y: nat, x': nat, y': nat)
    requires x < g.pitch && x' < g.pitch && Index(g, x, y) == Index(g, x', y')
    ensures x == x' && y == y'
  {
    RowColumn(g.pitch, y, x);
    RowColumn(g.pitch, y', x');
  }

  lemma IndexFits(g: Geo, x: nat, y: nat)
    requires x < g.pitch && y < g.height
    ensures Index(g, x, y) < g.pitch * g.height
  {
    TimesMono(g.pitch, y + 1, g.height);
    assert (y + 1) * g.pitch == g.pitch * y + g.pitch && g.height * g.pitch == g.pitch * g.height;
  }

  lemma PaintStart(g: Geo, was: seq<Color>, x0: nat, y0: nat, w: nat, h: nat, ink: (nat, nat) -> Color)
    requires g.pitch > 0
    ensures PaintedTo(g, was, was, x0, y0, w, h, ink, 0, 0)
  {
  }

  function PixelSet(g: Geo, pic: seq<Color>, x: nat, y: nat, c: Color): (r: seq<Color>)
    ensures |r| == |pic|
  {
    if x < g.width && y < g.height && Index(g, x, y) < |pic| then pic[Index(g, x, y) := c] else pic
  }

  lemma PaintPixel(g: Geo, was: seq<Color>, pic: seq<Color>, x0: nat, y0: nat, w: nat, h: nat,
                   ink: (nat, nat) -> Color, rows: nat, columns: nat)
    requires g.width <= g.pitch && g.pitch > 0 && rows < h && columns < w
    requires PaintedTo(g, was, pic, x0, y0, w, h, ink, rows, columns)
    ensures PaintedTo(g, was, PixelSet(g, pic, x0 + columns, y0 + rows, ink(columns, rows)), x0, y0, w, h, ink, rows,
      columns + 1)
  {
    hide Index;
    var pic' := PixelSet(g, pic, x0 + columns, y0 + rows, ink(columns, rows));
    forall x: nat, y: nat | x < g.pitch && Index(g, x, y) < |was|
      ensures pic'[Index(g, x, y)] ==
        if InRect(x, y, x0, y0, w, h) && x < g.width && y < g.height &&
          (y - y0 < rows || (y - y0 == rows && x - x0 < columns + 1))
        then ink(x - x0, y - y0) else was[Index(g, x, y)]
    {
      if x0 + columns < g.width && Index(g, x, y) == Index(g, x0 + columns, y0 + rows) {
        IndexUnique(g, x, y, x0 + columns, y0 + rows);
      }
    }
  }

  lemma PaintRow(g: Geo, was: seq<Color>, pic: seq<Color>, x0: nat, y0: nat, w: nat, h: nat,
                 ink: (nat, nat) -> Color, rows: nat)
    requires g.pitch > 0 && PaintedTo(g, was, pic, x0, y0, w, h, ink, rows, w)
    ensures PaintedTo(g, was, pic, x0, y0, w, h, ink, rows + 1, 0)
  {
    hide Index;
  }

  lemma PaintEnd(g: Geo, was: seq<Color>, pic: seq<Color>, x0: nat, y0: nat, w: nat, h: nat, ink: (nat, nat) -> Color)
    requires g.pitch > 0 && PaintedTo(g, was, pic, x0, y0, w, h, ink, h, 0)
    ensures pic == Painted(g, was, x0, y0, w, h, ink)
  {
    forall i | 0 <= i < |was| ensures pic[i] == Painted(g, was, x0, y0, w, h, ink)[i] {
      var x, y := Column(i, g.pitch), Row(i, g.pitch);
      PixelIndex(i, g.pitch);
      assert i == Index(g, x, y);
      PaintedAt(g, was, x0, y0, w, h, ink, x, y);
    }
  }

  /** Two rectangles of one color side by side. */
  lemma PaintWider(g: Geo, pic: seq<Color>, x0: nat, y0: nat, w1: nat, w2: nat, h: nat, c: Color)
    requires g.pitch > 0
    ensures Painted(g, Painted(g, pic, x0, y0, w1, h, Solid(c)), x0 + w1, y0, w2, h, Solid(c))
      == Painted(g, pic, x0, y0, w1 + w2, h, Solid(c))
  {
    hide Row, Column;
  }

  class ScreenDevice {
    const g: Geo
    const buffer: array<Color>
    const cursorPixels: array<Color>
    var parser: Parser
    var p1: nat
    var p2: nat
    var scrollStart: nat
    var scrollEnd: nat
    var x: nat
    var y: nat
    var on: bool
    var visible: bool
    var color: Color
    var bg: Color
    var reverse: bool
    var insertOn: bool

    ghost function T(): Term
      reads this, buffer
    {
      Term(parser, p1, p2, scrollStart, scrollEnd, x, y, on, color, bg, reverse, insertOn, buffer[..])
    }

    ghost function S(): Screen
      reads this, buffer, cursorPixels
    {
      Screen(T(), visible, cursorPixels[..])
    }

    ghost predicate Valid()
      reads this, buffer, cursorPixels
    {
      && GeoFits(g) && buffer != cursorPixels && buffer.Length == g.pitch * g.height
      && cursorPixels.Length == CursorSize(g)
    }

    method SetPixel(px: nat, py: nat, c: Color)
      requires Valid()
      modifies buffer
      ensures buffer[..] == PixelSet(g, old(buffer[..]), px, py, c)
    {
      if px < g.width && py < g.height {
        IndexFits(g, px, py);
        buffer[g.pitch * py + px] := c;
      }
    }

    method GetPixel(px: nat, py: nat) returns (c: Color)
      requires Valid()
      ensures c == PixelAt(g, T(), px, py)
    {
      if px < g.width && py < g.height {
        IndexFits(g, px, py);
        return buffer[g.pitch * py + px];
      }
      c := bg;
    }

    method DisplayCharAt(c: byte, px: nat, py: nat, ink: Color, paper: Color)
      requires Valid()
      modifies buffer
      ensures buffer[..] == Painted(g, old(buffer[..]), px, py, g.charW, g.charH, Inked(g, c, ink, paper))
    {
      hide PaintedTo, Painted, PixelSet, Inked;
      ghost var was, pixels := buffer[..], Inked(g, c, ink, paper);
      PaintStart(g, was, px, py, g.charW, g.charH, pixels);
      for dy := 0 to g.charH
        invariant PaintedTo(g, was, buffer[..], px, py, g.charW, g.charH, pixels, dy, 0)
      {
        for dx := 0 to g.charW
          invariant PaintedTo(g, was, buffer[..], px, py, g.charW, g.charH, pixels, dy, dx)
        {
          PaintPixel(g, was, buffer[..], px, py, g.charW, g.charH, pixels, dy, dx);
          InkedAt(g, c, ink, paper, dx, dy);
          SetPixel(px + dx, py + dy, if g.glyph(c, dx, dy) then ink else paper);
        }
        PaintRow(g, was, buffer[..], px, py, g.charW, g.charH, pixels, dy);
      }
      PaintEnd(g, was, buffer[..], px, py, g.charW, g.charH, pixels);
    }

    method EraseChar(px: nat, py: nat)
      requires Valid()
      modifies buffer
      ensures buffer[..] == Painted(g, old(buffer[..]), px, py, g.charW, g.charH, Solid(bg))
    {
      hide PaintedTo, Painted, PixelSet;
      ghost var was := buffer[..];
      PaintStart(g, was, px, py, g.charW, g.charH, Solid(bg));
      for dy := 0 to g.charH
        invariant PaintedTo(g, was, buffer[..], px, py, g.charW, g.charH, Solid(bg), dy, 0)
      {
        for dx := 0 to g.charW
          invariant PaintedTo(g, was, buffer[..], px, py, g.charW, g.charH, Solid(bg), dy, dx)
        {
          PaintPixel(g, was, buffer[..], px, py, g.charW, g.charH, Solid(bg), dy, dx);
          SetPixel(px + dx, py + dy, bg);
        }
        PaintRow(g, was, buffer[..], px, py, g.charW, g.charH, Solid(bg), dy);
      }
      PaintEnd(g, was, buffer[..], px, py, g.charW, g.charH, Solid(bg));
    }

    /** Shows the cursor, saving the pixels it covers, or takes it away again. */
    method InvertCursor()
      requires Valid()
      modifies this`visible, buffer, cursorPixels
      ensures S() == Terminal.InvertCursor(g, old(S()))
    {
      if !on {
        return;
      }
      if !visible {
        ShowCursor();
      } else {
        HideCursor();
      }
      visible := !visible;
    }

    method ShowCursor()
      requires Valid()
      modifies buffer, cursorPixels
      ensures T() == CursorRect(g, old(T()), Solid(color)) && cursorPixels[..] == Covered(g, old(T()))
    {
      hide PaintedTo, Painted, PixelSet, Covered, CursorSize, Kept, PixelAt;
      ghost var was, t, h := buffer[..], T(), g.charH - g.underline;
      var k := 0;
      NoneKept(g, t, cursorPixels[..]);
      PaintStart(g, was, x, y + g.underline, g.charW, h, Solid(color));
      for dy := 0 to g.charH - g.underline
        invariant PaintedTo(g, was, buffer[..], x, y + g.underline, g.charW, h, Solid(color), dy, 0)
        invariant k == g.charW * dy && Kept(g, t, cursorPixels[..], k)
      {
        for dx := 0 to g.charW
          invariant PaintedTo(g, was, buffer[..], x, y + g.underline, g.charW, h, Solid(color), dy, dx)
          invariant k == g.charW * dy + dx && Kept(g, t, cursorPixels[..], k)
        {
          CursorIndex(g, dx, dy);
          var pixel := GetPixel(x + dx, y + g.underline + dy);
          NotYetPainted(g, t, buffer[..], color, dy, dx);
          KeepPixel(g, t, cursorPixels[..], dx, dy, pixel);
          cursorPixels[k] := pixel;
          k := k + 1;
          PaintPixel(g, was, buffer[..], x, y + g.underline, g.charW, h, Solid(color), dy, dx);
          SetPixel(x + dx, y + g.underline + dy, color);
        }
        assert g.charW * dy + g.charW == g.charW * (dy + 1);
        PaintRow(g, was, buffer[..], x, y + g.underline, g.charW, h, Solid(color), dy);
      }
      PaintEnd(g, was, buffer[..], x, y + g.underline, g.charW, h, Solid(color));
      AllKept(g, t, cursorPixels[..], k);
    }

    method HideCursor()
      requires Valid()
      modifies buffer
      ensures T() == CursorRect(g, old(T()), From(g, cursorPixels[..]))
    {
      hide PaintedTo, Painted, PixelSet, CursorSize, From;
      ghost var was, h, ink := buffer[..], g.charH - g.underline, From(g, cursorPixels[..]);
      var k := 0;
      PaintStart(g, was, x, y + g.underline, g.charW, h, ink);
      for dy := 0 to g.charH - g.underline
        invariant PaintedTo(g, was, buffer[..], x, y + g.underline, g.charW, h, ink, dy, 0) && k == g.charW * dy
      {
        for dx := 0 to g.charW
          invariant PaintedTo(g, was, buffer[..], x, y + g.underline, g.charW, h, ink, dy, dx) && k == g.charW * dy + dx
        {
          CursorIndex(g, dx, dy);
          SavedAt(g, cursorPixels[..], dx, dy);
          PaintPixel(g, was, buffer[..], x, y + g.underline, g.charW, h, ink, dy, dx);
          SetPixel(x + dx, y + g.underline + dy, cursorPixels[k]);
          k := k + 1;
        }
        assert g.charW * dy + g.charW == g.charW * (dy + 1);
        PaintRow(g, was, buffer[..], x, y + g.underline, g.charW, h, ink, dy);
      }
      PaintEnd(g, was, buffer[..], x, y + g.underline, g.charW, h, ink);
    }

    /** Erases characters from the cursor up to column `end`; the last one is cut off at the end of the line. */
    method EraseUpTo(end: nat)
      requires Valid() && (x < end ==> end == g.width || Terminal.Cell(end - x, g.charW))
      modifies buffer
      ensures T() == Erased(g, old(T()), if x < end then end - x else 0)
    {
      hide Painted, Terminal.Cell;
      ghost var was := buffer[..];
      var posX := x;
      PaintNothing(g, was, x, y, g.charH, bg);
      while posX < end
        invariant x <= posX && (posX < end ==> end == g.width || Terminal.Cell(end - posX, g.charW))
        invariant x < end && posX > end ==> end == g.width
        invariant buffer[..] == Painted(g, was, x, y, posX - x, g.charH, Solid(bg))
        invariant end <= x ==> posX == x
      {
        if end != g.width { CellDown(end - posX, g.charW); }
        PaintWider(g, was, x, y, posX - x, g.charW, g.charH, bg);
        EraseChar(posX, y);
        posX := posX + g.charW;
      }
      if x < end && posX > end { PaintClipped(g, was, x, y, posX - x, end - x, g.charH, bg); }
    }

    method ClearLineEnd()
      requires Valid() && TermOk(g, T())
      modifies buffer
      ensures T() == Terminal.ClearLineEnd(g, old(T()))
    {
      EraseUpTo(g.width);
    }

    method EraseChars(n: nat)
      requires Valid() && TermOk(g, T())
      modifies buffer
      ensures T() == Terminal.EraseChars(g, old(T()), n)
    {
      hide Painted;
      ghost var end0 := if x + n * g.charW > g.width then g.width else x + n * g.charW;
      EraseIs(g, T(), n, end0);
      if n == 0 {
        EraseNothing(g, T());
        return;
      }
      var end := x + n * g.charW;
      if end > g.width {
        end := g.width;
      }
      CellTimes(n, g.charW);
      EraseUpTo(end);
    }

    method ClearDisplayEnd()
      requires Valid() && TermOk(g, T())
      modifies buffer
      ensures T() == Terminal.ClearDisplayEnd(g, old(T()))
    {
      hide Terminal.ClearLineEnd, TermOk, Cleared;
      ghost var t1 := Terminal.ClearLineEnd(g, T());
      ClearLineKeeps(g, T());
      RowsFit(g, T());
      ClearLineEnd();
      FillFrom((y + g.charH) * g.pitch);
      assert T() == t1.(pic := Cleared(t1.pic, (y + g.charH) * g.pitch, bg));
    }

    /** Everything from an offset on gets the background color. */
    method FillFrom(offset: nat)
      requires Valid() && offset <= buffer.Length
      modifies buffer
      ensures buffer[..] == Cleared(old(buffer[..]), offset, bg)
    {
      ghost var was := buffer[..];
      for i := offset to buffer.Length
        invariant forall j :: 0 <= j < buffer.Length ==> buffer[j] == if offset <= j < i then bg else was[j]
      {
        buffer[i] := bg;
      }
    }

    /** Copies `n` pixels to a lower address, from the front. */
    method MemCpy(to: nat, from: nat, n: nat)
      requires Valid() && to <= from && from + n <= buffer.Length
      modifies buffer
      ensures buffer[..] == Copied(old(buffer[..]), to, from, n)
    {
      ghost var was := buffer[..];
      for i := 0 to n
        invariant buffer[..] == Copied(was, to, from, i)
      {
        ghost var now := buffer[..];
        buffer[to + i] := buffer[from + i];
        CopyMore(was, to, from, i);
        assert buffer[..] == now[to + i := now[from + i]];
      }
    }

    /** Fills `n` pixels with the background color. */
    method Fill(to: nat, n: nat)
      requires Valid() && to + n <= buffer.Length
      modifies buffer
      ensures buffer[..] == Filled(old(buffer[..]), to, n, bg)
    {
      ghost var was := buffer[..];
      for i := 0 to n
        invariant buffer[..] == Filled(was, to, i, bg)
      {
        ghost var now := buffer[..];
        buffer[to + i] := bg;
        assert buffer[..] == now[to + i := bg];
      }
    }

    /** Moves the scroll region up by one character row. */
    method Scroll()
      requires Valid() && CanScroll(g, T())
      modifies buffer
      ensures T() == Terminal.Scroll(g, old(T()))
    {
      hide MovedUp, Copied, Filled;
      MovedIs(g, buffer[..], scrollStart, scrollEnd, bg);
      var to, from := scrollStart * g.pitch, (scrollStart + g.charH) * g.pitch;
      var size := g.pitch * (scrollEnd - scrollStart - g.charH);
      MemCpy(to, from, size);
      Fill(to + size, g.pitch * g.charH);
    }

    method CursorDown()
      requires Valid() && CanScroll(g, T())
      modifies this`y, buffer
      ensures T() == Terminal.CursorDown(g, old(T()))
    {
      hide MovedUp;
      y := U32(y + g.charH);
      if y >= scrollEnd {
        Scroll();
        y := U32(y - g.charH);
      }
    }

    method NewLine()
      requires Valid() && CanScroll(g, T())
      modifies this`x, this`y, buffer
      ensures T() == Terminal.NewLine(g, old(T()))
    {
      hide Terminal.CursorDown;
      x := 0;
      CursorDown();
    }

    method CursorRight()
      requires Valid() && CanScroll(g, T())
      modifies this`x, this`y, buffer
      ensures T() == Terminal.CursorRight(g, old(T()))
    {
      hide Terminal.NewLine;
      x := U32(x + g.charW);
      if x >= g.width {
        NewLine();
      }
    }

    method CursorLeft()
      requires Valid()
      modifies this`x, this`y
      ensures T() == Terminal.CursorLeft(g, old(T()))
    {
      if x > 0 {
        x := U32(x - g.charW);
      } else if y > scrollStart {
        x := U32(g.width - g.charW);
        y := U32(y - g.charH);
      }
    }

    method CursorUp()
      requires Valid()
      modifies this`y
      ensures T() == Terminal.CursorUp(g, old(T()))
    {
      if y > scrollStart {
        y := U32(y - g.charH);
      }
    }

    method CursorHome()
      modifies this`x, this`y
      ensures T() == Terminal.CursorHome(old(T()))
    {
      x := 0;
      y := scrollStart;
    }

    method CursorMove(row: nat, column: nat)
      requires Valid()
      modifies this`x, this`y
      ensures T() == Terminal.CursorMove(g, old(T()), row, column)
    {
      var posX, posY := U32((column - 1) * g.charW), U32((row - 1) * g.charH);
      if posX < g.width && posY >= scrollStart && posY < scrollEnd {
        x := posX;
        y := posY;
      }
    }

    method SetScrollRegion(startRow: nat, endRow: nat)
      requires Valid()
      modifies this`scrollStart, this`scrollEnd, this`x, this`y
      ensures T() == Terminal.SetScrollRegion(g, old(T()), startRow, endRow)
    {
      var start, end := U32((startRow - 1) * g.charH), U32(endRow * g.charH);
      var used := UsedHeight(g);
      if start < used && end > 0 && end <= used && start < end {
        scrollStart := start;
        scrollEnd := end;
      }
      CursorHome();
    }

    method SetStandoutMode(mode: nat)
      modifies this`color, this`bg, this`reverse
      ensures T() == Terminal.SetStandoutMode(old(T()), mode)
    {
      if mode == 0 || mode == 27 {
        reverse := false;
        color := NORMAL;
      } else if mode == 1 {
        color := HIGH;
      } else if mode == 2 {
        color := HALF;
      } else if mode == 7 {
        reverse := true;
      } else if 30 <= mode <= 37 {
        color := mode - 30;
      } else if 40 <= mode <= 47 {
        bg := mode - 40;
      } else if 90 <= mode <= 97 {
        color := mode - 90 + 8;
      } else if 100 <= mode <= 107 {
        bg := mode - 100 + 8;
      }
    }

    method Tabulator()
      requires Valid() && CanScroll(g, T())
      modifies this`x, this`y, buffer
      ensures T() == Terminal.Tabulator(g, old(T()))
    {
      hide Terminal.NewLine;
      var tab := g.charW * 8;
      x := (x + tab) / tab * tab;
      if x >= g.width {
        NewLine();
      }
    }

    method DisplayChar(c: byte)
      requires Valid() && CanScroll(g, T())
      modifies this`x, this`y, buffer
      ensures T() == Terminal.DisplayChar(g, old(T()), c)
    {
      hide Painted, Terminal.CursorRight;
      if 32 <= c {
        DisplayCharAt(c, x, y, if reverse then bg else color, if reverse then color else bg);
        CursorRight();
      }
    }

    /** A cleared screen with the cursor in the first cell; the frame buffer may hold anything before. */
    constructor (g: Geo, frame: array<Color>)
      requires GeoOk(g) && frame.Length == g.pitch * g.height
      modifies frame
      ensures Valid() && this.g == g && buffer == frame && fresh(cursorPixels)
      ensures S().t == Terminal.InvertCursor(g, Screen(Startup(g, old(frame[..])), false, [])).t
      ensures ScreenOk(g, S())
    {
      this.g, buffer := g, frame;
      cursorPixels := new Color[CursorSize(g)];
      parser, p1, p2, scrollStart, scrollEnd, x, y := Begin, 0, 0, 0, UsedHeight(g), 0, 0;
      on, visible, color, bg, reverse, insertOn := true, false, NORMAL, BLACK, false, false;
      new;
      ghost var t := T();
      FirstOk(g, t);
      CursorHome();
      assert T() == t;
      ClearDisplayEnd();
      StartupOk(g, t.pic);
      ghost var s0 := S();
      InvertCursor();
      ShowThenHide(g, s0);
    }

    method WriteBegin(c: byte)
      requires Valid() && TermOk(g, T())
      modifies this`x, this`y, this`parser, buffer
      ensures T() == FromBegin(g, old(T()), c)
    {
      hide TermOk, Terminal.CursorLeft, Terminal.Tabulator, Terminal.NewLine, Terminal.DisplayChar;
      ScrollFits(g, T());
      if c == 8 {
        CursorLeft();
      } else if c == 9 {
        Tabulator();
      } else if c == 10 {
        NewLine();
      } else if c == 13 {
        x := 0;
      } else if c == 27 {
        parser := Escape;
      } else {
        DisplayChar(c);
      }
    }

    method WriteBracket(c: byte)
      requires Valid() && TermOk(g, T())
      modifies this`x, this`y, this`parser, this`p1, buffer
      ensures T() == FromBracket(g, old(T()), c)
    {
      hide TermOk, Terminal.CursorLeft, Terminal.CursorUp, Terminal.CursorDown, Terminal.CursorRight;
      hide Terminal.ClearDisplayEnd, Terminal.ClearLineEnd;
      ScrollFits(g, T());
      if c == '?' as int {
        parser := QuestionMark;
        return;
      } else if c == 'A' as int {
        CursorUp();
      } else if c == 'B' as int {
        CursorDown();
      } else if c == 'C' as int {
        CursorRight();
      } else if c == 'D' as int {
        CursorLeft();
      } else if c == 'H' as int {
        CursorHome();
      } else if c == 'J' as int {
        ClearDisplayEnd();
      } else if c == 'K' as int {
        ClearLineEnd();
      } else if 48 <= c <= 57 {
        p1 := c - 48;
        parser := Number1;
        return;
      }
      parser := Begin;
    }

    method WriteNumber1(c: byte)
      requires Valid() && TermOk(g, T()) && parser == Number1
      modifies this`parser, this`p1, this`insertOn, this`color, this`bg, this`reverse, buffer
      ensures T() == FromNumber1(g, old(T()), c)
    {
      hide TermOk, Terminal.EraseChars, Terminal.SetStandoutMode;
      if c == ';' as int {
        parser := Semicolon;
        return;
      } else if c == 'X' as int {
        EraseChars(p1);
      } else if c == 'h' as int || c == 'l' as int {
        if p1 == 4 {
          insertOn := c == 'h' as int;
        }
      } else if c == 'm' as int {
        SetStandoutMode(p1);
      } else if 48 <= c <= 57 {
        p1 := p1 * 10;
        p1 := p1 + (c - 48);
        if p1 <= 199 {
          return;
        }
      }
      parser := Begin;
    }

    method WriteNumber2(c: byte)
      requires Valid() && TermOk(g, T()) && parser == Number2
      modifies this`parser, this`p2, this`x, this`y, this`scrollStart, this`scrollEnd
      ensures T() == FromNumber2(g, old(T()), c)
    {
      hide TermOk, Terminal.CursorMove, Terminal.SetScrollRegion;
      if c == 'H' as int {
        CursorMove(p1, p2);
      } else if c == 'r' as int {
        SetScrollRegion(p1, p2);
      } else if 48 <= c <= 57 {
        p2 := p2 * 10;
        p2 := p2 + (c - 48);
        if p2 <= 199 {
          return;
        }
      }
      parser := Begin;
    }

    method WriteNumber3(c: byte)
      requires parser == Number3
      modifies this`parser, this`p1, this`on
      ensures T() == FromNumber3(old(T()), c)
    {
      if c == 'h' as int || c == 'l' as int {
        if p1 == 25 {
          on := c == 'h' as int;
        }
      } else if 48 <= c <= 57 {
        p1 := p1 * 10;
        p1 := p1 + (c - 48);
        if p1 <= 99 {
          return;
        }
      }
      parser := Begin;
    }

    /** Processes one byte. */
    method WriteChar(c: byte)
      requires Valid() && TermOk(g, T())
      modifies this, buffer
      ensures T() == Step(g, old(T()), c) && visible == old(visible)
    {
      hide TermOk, FromBegin, FromBracket, FromNumber1, FromNumber2, FromNumber3;
      match parser
      case Begin => WriteBegin(c);
      case Escape => parser := if c == '[' as int then Bracket else Begin;
      case Bracket => WriteBracket(c);
      case Number1 => WriteNumber1(c);
      case Semicolon =>
        if 48 <= c <= 57 {
          p2 := c - 48;
          parser := Number2;
        } else {
          parser := Begin;
        }
      case QuestionMark =>
        if 48 <= c <= 57 {
          p1 := c - 48;
          parser := Number3;
        } else {
          parser := Begin;
        }
      case Number2 => WriteNumber2(c);
      case Number3 => WriteNumber3(c);
    }

    /** Takes the cursor away, processes the bytes, and shows the cursor again. */
    method Write(cs: seq<byte>)
      requires Valid() && GeoOk(g) && ScreenOk(g, S())
      modifies this, buffer, cursorPixels
      ensures Valid() && S() == Terminal.Write(g, old(S()), cs) && ScreenOk(g, S())
    {
      hide TermOk, Step, Terminal.InvertCursor;
      WriteRefines(g, S(), cs);
      InvertCursor();
      ghost var t, saved := T(), cursorPixels[..];
      var i := 0;
      assert cs[0..] == cs;
      while i < |cs|
        invariant i <= |cs| && Valid() && TermOk(g, T()) && Steps(g, T(), cs[i..]) == Steps(g, t, cs)
        invariant cursorPixels[..] == saved && visible == Terminal.InvertCursor(g, old(S())).shown
      {
        assert cs[i..][1..] == cs[i + 1..];
        StepOk(g, T(), cs[i]);
        WriteChar(cs[i]);
        i := i + 1;
      }
      InvertCursor();
    }
  }

  lemma FirstOk(g: Geo, t: Term)
    requires GeoOk(g) && t == Term(Begin, 0, 0, 0, UsedHeight(g), 0, 0, true, NORMAL, BLACK, false, false, t.pic)
    requires |t.pic| == g.pitch * g.height
    ensures TermOk(g, t)
  {
    UsedHeightFits(g);
    CellTimes(0, g.charW);
    CellTimes(0, g.charH);
  }

  lemma PaintNothing(g: Geo, pic: seq<Color>, x0: nat, y0: nat, h: nat, c: Color)
    requires g.pitch > 0
    ensures Painted(g, pic, x0, y0, 0, h, Solid(c)) == pic
  {
    hide Row, Column;
  }

  lemma EraseNothing(g: Geo, t: Term)
    requires g.pitch > 0
    ensures Erased(g, t, 0) == t
  {
    PaintNothing(g, t.pic, t.x, t.y, g.charH, t.bg);
  }

  /** What lies behind the end of the line is not painted. */
  lemma PaintClipped(g: Geo, pic: seq<Color>, x0: nat, y0: nat, w1: nat, w2: nat, h: nat, c: Color)
    requires g.pitch > 0 && x0 + w1 >= g.width && x0 + w2 >= g.width
    ensures Painted(g, pic, x0, y0, w1, h, Solid(c)) == Painted(g, pic, x0, y0, w2, h, Solid(c))
  {
    hide Row, Column;
  }

  lemma ClearLineKeeps(g: Geo, t: Term)
    requires g.pitch > 0
    ensures var t1 := Terminal.ClearLineEnd(g, t);
      t1.bg == t.bg && t1.y == t.y
  {
  }

  lemma RowsFit(g: Geo, t: Term)
    requires TermOk(g, t)
    ensures (t.y + g.charH) * g.pitch <= g.pitch * g.height
  {
    InScreen(g, t);
    TimesMono(g.pitch, t.y + g.charH, g.height);
    assert g.height * g.pitch == g.pitch * g.height;
  }

  lemma SizeIs(pitch: nat, start: nat, end: nat, n: nat)
    requires start + n <= end
    ensures pitch * (end - start - n) == end * pitch - start * pitch - n * pitch && pitch * n == n * pitch
    ensures (start + n) * pitch == start * pitch + n * pitch && (end - n) * pitch == end * pitch - n * pitch
    ensures start * pitch <= (end - n) * pitch
  {
  }

  function Copied(pic: seq<Color>, to: nat, from: nat, n: nat): (r: seq<Color>)
    requires to <= from && from + n <= |pic|
    ensures |r| == |pic|
    ensures forall i {:trigger r[i]} :: 0 <= i < |r| ==> r[i] == if to <= i < to + n then pic[i - to + from] else pic[i]
  {
    seq(|pic|, i requires 0 <= i < |pic| => if to <= i < to + n then pic[i - to + from] else pic[i])
  }

  lemma CopyMore(pic: seq<Color>, to: nat, from: nat, n: nat)
    requires to <= from && from + n < |pic|
    ensures var now := Copied(pic, to, from, n);
      Copied(pic, to, from, n + 1) == now[to + n := now[from + n]]
  {
  }

  function Filled(pic: seq<Color>, to: nat, n: nat, c: Color): (r: seq<Color>)
    requires to + n <= |pic|
    ensures |r| == |pic|
    ensures forall i :: 0 <= i < |r| ==> r[i] == if to <= i < to + n then c else pic[i]
  {
    seq(|pic|, i requires 0 <= i < |pic| => if to <= i < to + n then c else pic[i])
  }

  lemma MovedIs(g: Geo, pic: seq<Color>, start: nat, end: nat, bg: Color)
    requires start + g.charH <= end && end * g.pitch <= |pic|
    ensures var to, from, size := start * g.pitch, (start + g.charH) * g.pitch, g.pitch * (end - start - g.charH);
      && to <= from && from + size <= |pic| && to + size + g.pitch * g.charH <= |pic|
      && Filled(Copied(pic, to, from, size), to + size, g.pitch * g.charH, bg) ==
        MovedUp(g, pic, start, end, g.charH, bg)
  {
    hide Copied, Filled;
    SizeIs(g.pitch, start, end, g.charH);
    var goal := MovedUp(g, pic, start, end, g.charH, bg);
    var to, d, last, stop := start * g.pitch, g.charH * g.pitch, (end - g.charH) * g.pitch, end * g.pitch;
    MovedUpAt(g, pic, start, end, g.charH, bg, d, last);
    MovedParts(pic, goal, to, d, last, stop, bg);
  }

  lemma MovedUpAt(g: Geo, pic: seq<Color>, start: nat, end: nat, n: nat, bg: Color, d: nat, last: nat)
    requires start + n <= end && end * g.pitch <= |pic| && d == n * g.pitch && last == (end - n) * g.pitch
    ensures last + d == end * g.pitch && start * g.pitch <= last
    ensures var goal := MovedUp(g, pic, start, end, n, bg);
      forall i {:trigger goal[i]} :: 0 <= i < |pic| ==>
        goal[i] ==
          (if start * g.pitch <= i < last then pic[i + d] else if last <= i < end * g.pitch then bg else pic[i])
  {
    Distribute(end, n, start, g.pitch);
  }

  lemma MovedParts(pic: seq<Color>, goal: seq<Color>, to: nat, d: nat, last: nat, stop: nat, bg: Color)
    requires to <= last && last + d == stop <= |pic| && |goal| == |pic|
    requires forall i {:trigger goal[i]} :: 0 <= i < |pic| ==>
      goal[i] == (if to <= i < last then pic[i + d] else if last <= i < stop then bg else pic[i])
    ensures Filled(Copied(pic, to, to + d, last - to), last, d, bg) == goal
  {
    var r := Filled(Copied(pic, to, to + d, last - to), last, d, bg);
    forall i | 0 <= i < |pic| ensures r[i] == goal[i] {
      assert i - to + (to + d) == i + d;
    }
  }

  /** The first `k` pixels under the cursor have been saved. */
  ghost predicate Kept(g: Geo, t: Term, saved: seq<Color>, k: nat)
    requires GeoFits(g)
  {
    |saved| == CursorSize(g) && k <= CursorSize(g) && forall i :: 0 <= i < k ==> saved[i] == Covered(g, t)[i]
  }

  lemma KeepPixel(g: Geo, t: Term, saved: seq<Color>, dx: nat, dy: nat, c: Color)
    requires GeoFits(g) && dx < g.charW && dy < g.charH - g.underline && Kept(g, t, saved, g.charW * dy + dx)
    requires c == PixelAt(g, t, t.x + dx, t.y + g.underline + dy)
    ensures g.charW * dy + dx < |saved| && Kept(g, t, saved[g.charW * dy + dx := c], g.charW * dy + dx + 1)
  {
    CursorIndex(g, dx, dy);
    CoveredAt(g, t, dx, dy);
    hide CursorSize, Covered, PixelAt;
  }

  lemma NoneKept(g: Geo, t: Term, saved: seq<Color>)
    requires GeoFits(g) && |saved| == CursorSize(g)
    ensures Kept(g, t, saved, 0)
  {
  }

  lemma AllKept(g: Geo, t: Term, saved: seq<Color>, k: nat)
    requires GeoFits(g) && Kept(g, t, saved, k) && k == g.charW * (g.charH - g.underline)
    ensures saved == Covered(g, t)
  {
  }

  lemma SavedAt(g: Geo, saved: seq<Color>, dx: nat, dy: nat)
    requires g.charW * dy + dx < |saved|
    ensures From(g, saved)(dx, dy) == saved[g.charW * dy + dx]
  {
  }

  /** The next pixel under the cursor still has its old color. */
  lemma NotYetPainted(g: Geo, t: Term, pic: seq<Color>, c: Color, rows: nat, columns: nat)
    requires GeoFits(g) && rows < g.charH - g.underline && columns < g.charW && |t.pic| == g.pitch * g.height
    requires PaintedTo(g, t.pic, pic, t.x, t.y + g.underline, g.charW, g.charH - g.underline, Solid(c), rows, columns)
    ensures PixelAt(g, t.(pic := pic), t.x + columns, t.y + g.underline + rows)
      == PixelAt(g, t, t.x + columns, t.y + g.underline + rows)
  {
    var x, y := t.x + columns, t.y + g.underline + rows;
    if x < g.width && y < g.height {
      IndexFits(g, x, y);
      assert Index(g, x, y) < |t.pic|;
    }
  }

  lemma InkedAt(g: Geo, c: byte, ink: Color, paper: Color, dx: nat, dy: nat)
    ensures Inked(g, c, ink, paper)(dx, dy) == if g.glyph(c, dx, dy) then ink else paper
  {
  }
}
