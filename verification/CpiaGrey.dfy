/** The grey palette of the CPiA frame decoder (video/cpia.c): grey is the luma of
    YUYV, for every picture that YUYV accepts. */
module CpiaGrey {
  import opened Basics
  import opened CpiaDecoder
  import opened CpiaPalettes

  /** b is every other byte of a, the luma. */
  ghost predicate LumaOf(a: seq<Byte>, b: seq<Byte>) {
    |a| == 2 * |b| && forall k: int {:trigger SameLuma(a, b, k)} :: SameLuma(a, b, k)
  }

  predicate SameLuma(a: seq<Byte>, b: seq<Byte>, k: int) { Peek(b, k) == Peek(a, 2 * k) }

  /** One luma byte and whatever chroma behind it. */
  lemma PokeLuma(a: seq<Byte>, b: seq<Byte>, p: int, y: Byte, u: Byte)
    requires LumaOf(a, b)
    ensures LumaOf(Poke(Poke(a, 2 * p, y), 2 * p + 1, u), Poke(b, p, y))
  {
    var a1, b1 := Poke(Poke(a, 2 * p, y), 2 * p + 1, u), Poke(b, p, y);
    forall k: int
      ensures SameLuma(a1, b1, k)
    {
      PeekPoke(a, 2 * p, y, 2 * k);
      PeekPoke(Poke(a, 2 * p, y), 2 * p + 1, u, 2 * k);
      PeekPoke(b, p, y, k);
      assert SameLuma(a, b, k);
    }
  }

  lemma StoreLuma(a: seq<Byte>, b: seq<Byte>, p: int, y: Byte, u: Byte, y1: Byte, v: Byte)
    requires LumaOf(a, b)
    ensures LumaOf(Store(a, 2 * p, [y, u, y1, v]), Store(b, p, [y, y1]))
  {
    StoreTwice(a, 2 * p, y, u, y1, v);
    StorePair(a, 2 * p, y, u);
    PokeLuma(a, b, p, y, u);
    var a1, b1 := Store(a, 2 * p, [y, u]), Poke(b, p, y);
    StorePair(a1, 2 * p + 2, y1, v);
    PokeLuma(a1, b1, p + 1, y1, v);
    StorePair(b, p, y, y1);
  }

  lemma PixelsLuma(raw: seq<Byte>, c: Coding, g: Coding, full: bool, a: seq<Byte>, b: seq<Byte>, p: int, i: int)
    requires c.fmt == Yuyv && g.fmt == Grey && LumaOf(a, b)
    ensures LumaOf(Written(raw, c, full, a, 2 * p, i), Written(raw, g, full, b, p, i))
  {
    if full {
      StoreLuma(a, b, p, Peek(raw, i), Peek(raw, i + 1), Peek(raw, i + 2), Peek(raw, i + 3));
    } else {
      StoreLuma(a, b, p, Peek(raw, i), Peek(a, 2 * p + 1 - c.ls), Peek(raw, i + 1), Peek(a, 2 * p + 3 - c.ls));
    }
  }

  lemma GreyLiteral(raw: seq<Byte>, g: Coding, full: bool, m: seq<Byte>, p: int, i: int, ll: int, r: LineEnd)
    requires ll > 1 && g.fmt == Grey && r == Pieces(raw, g, full, m, p, i, ll) && SendsLiteral(raw, g, i)
    ensures var n := if full then 4 else 2; r == Pieces(raw, g, full, Written(raw, g, full, m, p, i), p + 2, i + n, ll - n)
  {
  }

  lemma GreySkip(raw: seq<Byte>, g: Coding, full: bool, m: seq<Byte>, p: int, i: int, ll: int, r: LineEnd)
    requires ll > 1 && g.fmt == Grey && r == Pieces(raw, g, full, m, p, i, ll) && !SendsLiteral(raw, g, i)
    ensures var over := p + Peek(raw, i) / 2;
      r == if over > MAX_FRAME_SIZE then GaveUp(m) else Pieces(raw, g, full, m, over, i + 1, ll - 1)
  {
  }

  /** Where YUYV gets to the end of a line grey does, at half the position. */
  ghost predicate HalfEnd(e: LineEnd, f: LineEnd) {
    e.LineEnd? ==> f.LineEnd? && LumaOf(e.m, f.m) && e.o == 2 * f.o && e.i == f.i && e.ll == f.ll
  }

  lemma LiteralHalf(raw: seq<Byte>, c: Coding, g: Coding, full: bool, a: seq<Byte>, b: seq<Byte>, p: int, i: int, ll: int,
                    e: LineEnd, f: LineEnd)
    returns (a1: seq<Byte>, b1: seq<Byte>, p1: int, i1: int, ll1: int)
    requires c.fmt == Yuyv && g.fmt == Grey && g.compressed == c.compressed && LumaOf(a, b) && p >= 0 && ll > 1
    requires e == Pieces(raw, c, full, a, 2 * p, i, ll) && f == Pieces(raw, g, full, b, p, i, ll)
    requires SendsLiteral(raw, c, i)
    ensures LumaOf(a1, b1) && p1 >= 0 && ll1 < ll
    ensures e == Pieces(raw, c, full, a1, 2 * p1, i1, ll1) && f == Pieces(raw, g, full, b1, p1, i1, ll1)
  {
    LiteralStep(raw, c, full, a, 2 * p, i, ll, e);
    GreyLiteral(raw, g, full, b, p, i, ll, f);
    PixelsLuma(raw, c, g, full, a, b, p, i);
    var n := if full then 4 else 2;
    a1, b1 := Written(raw, c, full, a, 2 * p, i), Written(raw, g, full, b, p, i);
    p1, i1, ll1 := p + 2, i + n, ll - n;
  }

  lemma SkipHalf(raw: seq<Byte>, c: Coding, g: Coding, full: bool, a: seq<Byte>, b: seq<Byte>, p: int, i: int, ll: int,
                    e: LineEnd, f: LineEnd)
    returns (stop: bool, p1: int, i1: int, ll1: int)
    requires c.fmt == Yuyv && g.fmt == Grey && g.compressed == c.compressed && LumaOf(a, b) && p >= 0 && ll > 1
    requires e == Pieces(raw, c, full, a, 2 * p, i, ll) && f == Pieces(raw, g, full, b, p, i, ll)
    requires !SendsLiteral(raw, c, i)
    ensures stop ==> e.GaveUp?
    ensures !stop ==> p1 >= 0 && ll1 < ll
                      && e == Pieces(raw, c, full, a, 2 * p1, i1, ll1) && f == Pieces(raw, g, full, b, p1, i1, ll1)
  {
    SkipStep(raw, c, full, a, 2 * p, i, ll, e);
    GreySkip(raw, g, full, b, p, i, ll, f);
    var over := p + Peek(raw, i) / 2;
    stop, p1, i1, ll1 := 2 * over > MAX_FRAME_SIZE, over, i + 1, ll - 1;
  }

  /** One piece of a line in both. */
  lemma PieceHalf(raw: seq<Byte>, c: Coding, g: Coding, full: bool, a: seq<Byte>, b: seq<Byte>, p: int, i: int, ll: int,
                    e: LineEnd, f: LineEnd)
    returns (stop: bool, a1: seq<Byte>, b1: seq<Byte>, p1: int, i1: int, ll1: int)
    requires c.fmt == Yuyv && g.fmt == Grey && g.compressed == c.compressed && LumaOf(a, b) && p >= 0 && ll > 1
    requires e == Pieces(raw, c, full, a, 2 * p, i, ll) && f == Pieces(raw, g, full, b, p, i, ll)
    ensures stop ==> HalfEnd(e, f)
    ensures !stop ==> LumaOf(a1, b1) && p1 >= 0 && ll1 < ll
                      && e == Pieces(raw, c, full, a1, 2 * p1, i1, ll1) && f == Pieces(raw, g, full, b1, p1, i1, ll1)
  {
    if SendsLiteral(raw, c, i) {
      stop := false;
      a1, b1, p1, i1, ll1 := LiteralHalf(raw, c, g, full, a, b, p, i, ll, e, f);
    } else {
      a1, b1 := a, b;
      stop, p1, i1, ll1 := SkipHalf(raw, c, g, full, a, b, p, i, ll, e, f);
    }
  }

  lemma {:induction false} PiecesHalf(raw: seq<Byte>, c: Coding, g: Coding, full: bool, a: seq<Byte>, b: seq<Byte>,
                                      p: int, i: int, ll: int, e: LineEnd, f: LineEnd)
    requires c.fmt == Yuyv && g.fmt == Grey && g.compressed == c.compressed && LumaOf(a, b) && p >= 0
    requires e == Pieces(raw, c, full, a, 2 * p, i, ll) && f == Pieces(raw, g, full, b, p, i, ll)
    ensures HalfEnd(e, f) && (f.LineEnd? ==> f.o >= 0)
    decreases ll
  {
    if ll > 1 {
      var stop, a1, b1, p1, i1, ll1 := PieceHalf(raw, c, g, full, a, b, p, i, ll, e, f);
      GreyForward(raw, g, full, b, p, i, ll);
      if !stop {
        PiecesHalf(raw, c, g, full, a1, b1, p1, i1, ll1, e, f);
      }
    }
  }

  lemma {:induction false} GreyForward(raw: seq<Byte>, g: Coding, full: bool, m: seq<Byte>, p: int, i: int, ll: int)
    requires g.fmt == Grey && p >= 0
    ensures var f := Pieces(raw, g, full, m, p, i, ll); f.LineEnd? ==> f.o >= 0
    decreases ll
  {
    var f := Pieces(raw, g, full, m, p, i, ll);
    if ll > 1 {
      if SendsLiteral(raw, g, i) {
        GreyLiteral(raw, g, full, m, p, i, ll, f);
        GreyForward(raw, g, full, Written(raw, g, full, m, p, i), p + 2, i + (if full then 4 else 2),
                    ll - (if full then 4 else 2));
      } else {
        GreySkip(raw, g, full, m, p, i, ll, f);
        GreyForward(raw, g, full, m, p + Peek(raw, i) / 2, i + 1, ll - 1);
      }
    }
  }

  ghost predicate HalfPicture(d: Decoded, h: Decoded) {
    d.Decoded? ==> h.Decoded? && LumaOf(d.m, h.m) && d.o == 2 * h.o
  }

  /** One line in both. */
  lemma LineHalf(raw: seq<Byte>, c: Coding, g: Coding, a: seq<Byte>, b: seq<Byte>, p: int, i: int, size: int, ll: nat,
                 even: bool, d: Decoded, h: Decoded)
    returns (stop: bool, a1: seq<Byte>, b1: seq<Byte>, n: Start)
    requires c.fmt == Yuyv && g == c.(fmt := Grey, ls := g.ls) && c.ls == 2 * g.ls && g.ls >= 0 && LumaOf(a, b) && p >= 0
    requires size > 0 && size >= ll + 2
    requires d == Lines(raw, c, a, 2 * p, i, size, ll, even) && h == Lines(raw, g, b, p, i, size, ll, even)
    ensures stop ==> HalfPicture(d, h)
    ensures !stop ==> LumaOf(a1, b1) && n.o >= 0
                      && d == Lines(raw, c, a1, 2 * n.o, n.i, size - (ll + 2), n.ll, n.even)
                      && h == Lines(raw, g, b1, n.o, n.i, size - (ll + 2), n.ll, n.even)
  {
    var full, left := c.sub422 || even, size - (ll + 2);
    var x, y := Pieces(raw, c, full, a, 2 * p, i, ll), Pieces(raw, g, full, b, p, i, ll);
    PiecesHalf(raw, c, g, full, a, b, p, i, ll, x, y);
    LineStep(raw, c, a, 2 * p, i, size, ll, even, x, d);
    LineStep(raw, g, b, p, i, size, ll, even, y, h);
    stop := x.GaveUp? || x.ll != 1 || Peek(raw, x.i) != EOL || (left > 3 && EndOfImage(raw, x.i + 1));
    a1, b1, n := x.m, y.m, Start(p, i, ll, even);
    if !stop {
      n := Behind(raw, g, y, left, even);
      BehindHalf(raw, c, g, x, y, left, even);
    }
  }

  lemma BehindHalf(raw: seq<Byte>, c: Coding, g: Coding, x: LineEnd, y: LineEnd, left: int, even: bool)
    requires g == c.(fmt := Grey, ls := g.ls) && c.ls == 2 * g.ls && g.ls >= 0
    requires x.LineEnd? && y.LineEnd? && x.o == 2 * y.o && y.o >= 0 && x.i == y.i
    ensures var n := Behind(raw, g, y, left, even);
      n.o >= 0 && Behind(raw, c, x, left, even) == Start(2 * n.o, n.i, n.ll, n.even)
  {
  }

  lemma {:induction false} LinesHalf(raw: seq<Byte>, c: Coding, g: Coding, a: seq<Byte>, b: seq<Byte>, p: int, i: int,
                                     size: int, ll: nat, even: bool, d: Decoded, h: Decoded)
    requires c.fmt == Yuyv && g == c.(fmt := Grey, ls := g.ls) && c.ls == 2 * g.ls && g.ls >= 0 && LumaOf(a, b) && p >= 0
    requires d == Lines(raw, c, a, 2 * p, i, size, ll, even) && h == Lines(raw, g, b, p, i, size, ll, even)
    ensures HalfPicture(d, h)
    decreases size
  {
    if size > 0 && size >= ll + 2 {
      var stop, a1, b1, n := LineHalf(raw, c, g, a, b, p, i, size, ll, even, d, h);
      if !stop {
        LinesHalf(raw, c, g, a1, b1, n.o, n.i, size - (ll + 2), n.ll, n.even, d, h);
      }
    }
  }

  // ------------------------------------------------------------- interpolation

  lemma LumaAt(a: seq<Byte>, b: seq<Byte>, k: int)
    requires LumaOf(a, b)
    ensures Peek(b, k) == Peek(a, 2 * k)
  {
    assert SameLuma(a, b, k);
  }

  lemma MeanPair(a: seq<Byte>, p: int, o: int, n: int, j: int, ls: int, x: seq<Byte>) returns (a2: seq<Byte>, u: Byte)
    requires x == MeanRow(a, 2 * p, 2 * o, 2 * n, 2 * j, 2 * ls) && j < ls
    ensures a2 == Poke(Poke(a, 2 * (o + j), MeanAt(a, 2 * (p + j), 2 * (n + j))), 2 * (o + j) + 1, u)
    ensures x == MeanRow(a2, 2 * p, 2 * o, 2 * n, 2 * (j + 1), 2 * ls)
  {
    a2 := MeanTwo(a, 2 * p, 2 * o, 2 * n, 2 * j, 2 * ls);
    u := MeanAt(a, 2 * p + 2 * j + 1, 2 * n + 2 * j + 1);
  }

  lemma MeanOne(b: seq<Byte>, p: int, o: int, n: int, j: int, ls: int, y: seq<Byte>) returns (b2: seq<Byte>)
    requires y == MeanRow(b, p, o, n, j, ls) && j < ls
    ensures b2 == Poke(b, o + j, MeanAt(b, p + j, n + j)) && y == MeanRow(b2, p, o, n, j + 1, ls)
  {
    b2 := Poke(b, o + j, MeanAt(b, p + j, n + j));
  }

  lemma MeanLuma(a: seq<Byte>, b: seq<Byte>, p: int, o: int, n: int, u: Byte)
    requires LumaOf(a, b)
    ensures LumaOf(Poke(Poke(a, 2 * o, MeanAt(a, 2 * p, 2 * n)), 2 * o + 1, u), Poke(b, o, MeanAt(b, p, n)))
  {
    LumaAt(a, b, p);
    LumaAt(a, b, n);
    PokeLuma(a, b, o, MeanAt(b, p, n), u);
  }

  lemma {:induction false} MeanRowHalf(a: seq<Byte>, b: seq<Byte>, p: int, o: int, n: int, j: int, ls: int,
                                       x: seq<Byte>, y: seq<Byte>)
    requires LumaOf(a, b)
    requires x == MeanRow(a, 2 * p, 2 * o, 2 * n, 2 * j, 2 * ls) && y == MeanRow(b, p, o, n, j, ls)
    ensures LumaOf(x, y)
    decreases ls - j
  {
    if j < ls {
      var a2, u := MeanPair(a, p, o, n, j, ls, x);
      var b2 := MeanOne(b, p, o, n, j, ls, y);
      MeanLuma(a, b, p + j, o + j, n + j, u);
      MeanRowHalf(a2, b2, p, o, n, j + 1, ls, x, y);
    }
  }

  lemma CopyHalf(a: seq<Byte>, b: seq<Byte>, p: int, o: int, j: int, ls: int) returns (a2: seq<Byte>, b2: seq<Byte>)
    requires LumaOf(a, b) && j < ls
    ensures LumaOf(a2, b2)
    ensures CopyRow(a, 2 * p, 2 * o, 2 * j, 2 * ls) == CopyRow(a2, 2 * p, 2 * o, 2 * (j + 1), 2 * ls)
    ensures CopyRow(b, p, o, j, ls) == CopyRow(b2, p, o, j + 1, ls)
  {
    a2 := CopyTwo(a, 2 * p, 2 * o, 2 * j, 2 * ls);
    LumaAt(a, b, p + j);
    PokeLuma(a, b, o + j, Peek(b, p + j), Peek(a, 2 * p + 2 * j + 1));
    b2 := Poke(b, o + j, Peek(b, p + j));
  }

  lemma {:induction false} CopyRowHalf(a: seq<Byte>, b: seq<Byte>, p: int, o: int, j: int, ls: int, x: seq<Byte>, y: seq<Byte>)
    requires LumaOf(a, b) && x == CopyRow(a, 2 * p, 2 * o, 2 * j, 2 * ls) && y == CopyRow(b, p, o, j, ls)
    ensures LumaOf(x, y)
    decreases ls - j
  {
    if j < ls {
      var a2, b2 := CopyHalf(a, b, p, o, j, ls);
      CopyRowHalf(a2, b2, p, o, j + 1, ls, x, y);
    }
  }

  lemma RowsTurn(m: seq<Byte>, p: int, i: int, rows: int, ls: int, m1: seq<Byte>)
    requires i < rows - 1 && m1 == MeanRow(m, p, p + ls, p + 2 * ls, 0, ls)
    ensures Interpolate(m, p, i, rows, ls) == Interpolate(m1, p + 2 * ls, i + 2, rows, ls)
  {
  }

  lemma {:induction false} InterpolateHalf(a: seq<Byte>, b: seq<Byte>, p: int, i: int, rows: int, ls: int)
    requires LumaOf(a, b)
    ensures HalfPicture(Interpolate(a, 2 * p, i, rows, 2 * ls), Interpolate(b, p, i, rows, ls))
    decreases rows - i
  {
    if i < rows - 1 {
      var a1 := MeanRow(a, 2 * p, 2 * (p + ls), 2 * (p + 2 * ls), 0, 2 * ls);
      var b1 := MeanRow(b, p, p + ls, p + 2 * ls, 0, ls);
      MeanRowHalf(a, b, p, p + ls, p + 2 * ls, 0, ls, a1, b1);
      RowsTurn(a, 2 * p, i, rows, 2 * ls, a1);
      RowsTurn(b, p, i, rows, ls, b1);
      InterpolateHalf(a1, b1, p + 2 * ls, i + 2, rows, ls);
    } else {
      CopyRowHalf(a, b, p, p + ls, 0, ls, CopyRow(a, 2 * p, 2 * (p + ls), 0, 2 * ls), CopyRow(b, p, p + ls, 0, ls));
    }
  }

  /** Whatever YUYV accepts grey accepts, and over the luma of the previous frame it gives
      the luma of the new one, with half the count. */
  lemma GreyIsLuma(raw: seq<Byte>, size: int, a: seq<Byte>, b: seq<Byte>, roi: Roi)
    requires LumaOf(a, b) && roi.colStart <= roi.colEnd
    ensures HalfPicture(Picture(raw, size, a, Yuyv, roi), Picture(raw, size, b, Grey, roi))
  {
    if HeaderOk(raw, roi) {
      var c, g := CodingOf(raw, Yuyv), CodingOf(raw, Grey);
      var left, ll := size - FRAME_HEADER_SIZE, Length16(raw, FRAME_HEADER_SIZE);
      var d := Lines(raw, c, a, 0, FRAME_HEADER_SIZE + 2, left, ll, true);
      var h := Lines(raw, g, b, 0, FRAME_HEADER_SIZE + 2, left, ll, true);
      LinesHalf(raw, c, g, a, b, 0, FRAME_HEADER_SIZE + 2, left, ll, true, d, h);
      if d.Decoded? && c.decimation {
        InterpolateHalf(d.m, h.m, 0, 1, RowsOf(raw), g.ls);
      }
    }
  }
}
