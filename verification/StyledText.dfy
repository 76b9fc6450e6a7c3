/** The styled fragments of a line in CodeMirror.  The source keeps texts and styles alternating in
    one array; here they are pairs, and no style is `Plain`. */
module StyledText {
  import opened Common

  datatype Style = Plain | Class(name: string)
  datatype Fragment = Fragment(text: string, style: Style)

  /** A character as it is shown. */
  datatype Glyph = Glyph(c: char, style: Style)

  function Paint(text: string, style: Style): (gs: seq<Glyph>)
    ensures |gs| == |text|
  {
    seq(|text|, i requires 0 <= i < |text| => Glyph(text[i], style))
  }

  function Letters(gs: seq<Glyph>): (text: string)
    ensures |text| == |gs|
  {
    seq(|gs|, i requires 0 <= i < |gs| => gs[i].c)
  }

  function Glyphs(fs: seq<Fragment>): seq<Glyph> {
    if |fs| == 0 then [] else Paint(fs[0].text, fs[0].style) + Glyphs(fs[1..])
  }

  lemma {:induction false} GlyphsConcat(a: seq<Fragment>, b: seq<Fragment>)
    ensures Glyphs(a + b) == Glyphs(a) + Glyphs(b)
  {
    if |a| == 0 {
      assert a + b == b;
    } else {
      assert (a + b)[1..] == a[1..] + b;
      GlyphsConcat(a[1..], b);
    }
  }

  lemma GlyphsSnoc(a: seq<Fragment>, f: Fragment)
    ensures Glyphs(a + [f]) == Glyphs(a) + Paint(f.text, f.style)
  {
    GlyphsConcat(a, [f]);
    assert Glyphs([f]) == Paint(f.text, f.style);
  }

  lemma GlyphsPrefix(fs: seq<Fragment>, i: nat)
    requires i < |fs|
    ensures Glyphs(fs[..i + 1]) == Glyphs(fs[..i]) + Paint(fs[i].text, fs[i].style)
    ensures |Glyphs(fs[..i + 1])| <= |Glyphs(fs)|
    ensures forall k :: |Glyphs(fs[..i])| <= k < |Glyphs(fs[..i + 1])| ==>
      Glyphs(fs)[k] == Glyph(fs[i].text[k - |Glyphs(fs[..i])|], fs[i].style)
    ensures Glyphs(fs)[|Glyphs(fs[..i])|..|Glyphs(fs[..i + 1])|] == Paint(fs[i].text, fs[i].style)
  {
    assert fs[..i + 1] == fs[..i] + [fs[i]] && fs == fs[..i + 1] + fs[i + 1..];
    GlyphsSnoc(fs[..i], fs[i]);
    GlyphsConcat(fs[..i + 1], fs[i + 1..]);
  }

  lemma PaintSlice(text: string, style: Style, lo: nat, hi: nat)
    requires lo <= hi <= |text|
    ensures Paint(text[lo..hi], style) == Paint(text, style)[lo..hi]
  {
  }

  /** Appends the characters of `source` from `from` to `to`, with their styles, to `dest`. */
  method CopyStyles(from: nat, to: nat, source: seq<Fragment>, dest: seq<Fragment>) returns (result: seq<Fragment>)
    requires from <= to <= |Glyphs(source)|
    ensures Glyphs(result) == Glyphs(dest) + Glyphs(source)[from..to]
  {
    hide Glyphs, Paint, Slice;
    result := dest;
    var i, pos, inside := 0, 0, false;
    ghost var all, copied := Glyphs(source), [];
    CopyStart(source);
    SliceNone(all, from);
    while pos < to
      invariant i <= |source| && pos == |Glyphs(source[..i])|
      invariant inside ==> from <= pos
      invariant !inside ==> pos <= from && (i > 0 ==> pos < from)
      invariant Glyphs(result) == Glyphs(dest) + copied
      invariant Slice(all, from, if inside then Min(pos, to) else from, copied)
      decreases |source| - i
    {
      CopyMore(source, i);
      GlyphsPrefix(source, i);
      var part, end := source[i], pos + |source[i].text|;
      if !inside {
        if end > from {
          var hi := Min(|part.text|, to - pos);
          PaintedPart(all, part, pos, from - pos, hi);
          SliceOn(all, from, from, pos + hi, copied, Paint(part.text[from - pos..hi], part.style));
          result, copied := CopyPart(result, Fragment(part.text[from - pos..hi], part.style), Glyphs(dest), copied);
        }
        if end >= from {
          inside := true;
        }
      } else if end > to {
        PaintedPart(all, part, pos, 0, to - pos);
        SliceOn(all, from, pos, to, copied, Paint(part.text[..to - pos], part.style));
        result, copied := CopyPart(result, Fragment(part.text[..to - pos], part.style), Glyphs(dest), copied);
      } else {
        PaintedPart(all, part, pos, 0, |part.text|);
        SliceOn(all, from, pos, end, copied, Paint(part.text, part.style));
        result, copied := CopyPart(result, part, Glyphs(dest), copied);
      }
      pos, i := end, i + 1;
    }
    SliceIs(all, from, to, copied);
  }

  ghost predicate Slice(s: seq<Glyph>, a: nat, b: nat, piece: seq<Glyph>) {
    a <= b <= |s| && piece == s[a..b]
  }

  lemma SliceNone(s: seq<Glyph>, a: nat)
    requires a <= |s|
    ensures Slice(s, a, a, [])
  {
  }

  lemma SliceIs(s: seq<Glyph>, a: nat, b: nat, piece: seq<Glyph>)
    requires Slice(s, a, b, piece)
    ensures b <= |s| && piece == s[a..b]
  {
  }

  method CopyPart(to: seq<Fragment>, part: Fragment, ghost before: seq<Glyph>, ghost copied: seq<Glyph>)
    returns (result: seq<Fragment>, ghost copied': seq<Glyph>)
    requires Glyphs(to) == before + copied
    ensures copied' == copied + Paint(part.text, part.style) && Glyphs(result) == before + copied'
  {
    hide Glyphs;
    GlyphsSnoc(to, part);
    result, copied' := to + [part], copied + Paint(part.text, part.style);
  }

  lemma SliceOn(s: seq<Glyph>, a: nat, b: nat, c: nat, piece: seq<Glyph>, more: seq<Glyph>)
    requires Slice(s, a, b, piece) && Slice(s, b, c, more)
    ensures Slice(s, a, c, piece + more)
  {
  }

  /** A piece of a fragment is painted where it stands in the whole. */
  lemma PaintedPart(all: seq<Glyph>, part: Fragment, pos: nat, lo: nat, hi: nat)
    requires pos + |part.text| <= |all| && all[pos..pos + |part.text|] == Paint(part.text, part.style)
    requires lo <= hi <= |part.text|
    ensures Slice(all, pos + lo, pos + hi, Paint(part.text[lo..hi], part.style))
    ensures lo == 0 && hi == |part.text| ==> part.text[lo..hi] == part.text
  {
    PaintSlice(part.text, part.style, lo, hi);
    var whole, piece, there := all[pos..pos + |part.text|], Paint(part.text[lo..hi], part.style),
      all[pos + lo..pos + hi];
    forall k | 0 <= k < |piece| ensures piece[k] == there[k] {
      assert piece[k] == whole[lo + k] == all[pos + (lo + k)];
    }
  }

  lemma CopyStart(source: seq<Fragment>)
    ensures Glyphs(source[..0]) == []
  {
  }

  lemma CopyMore(source: seq<Fragment>, i: nat)
    requires i <= |source| && |Glyphs(source[..i])| < |Glyphs(source)|
    ensures i < |source|
  {
    assert source[..|source|] == source;
  }
}
