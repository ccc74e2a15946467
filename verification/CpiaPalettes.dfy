/** The two packed colour palettes of the CPiA frame decoder (video/cpia.c): UYVY is
    YUYV with the bytes of each pair exchanged, for every picture, accepted or not. */
module CpiaPalettes {
  import opened Basics
  import opened CpiaDecoder

  function Mate(k: int): int { if k % 2 == 0 then k + 1 else k - 1 }

  /** The same memory with the bytes of each pair exchanged. */
  ghost predicate Swapped(a: seq<Byte>, b: seq<Byte>) {
    |a| == |b| && |a| % 2 == 0 && forall k: int {:trigger Crosswise(a, b, k)} :: Crosswise(a, b, k)
  }

  predicate Crosswise(a: seq<Byte>, b: seq<Byte>, k: int) { Peek(b, k) == Peek(a, Mate(k)) }

  lemma EvenPair(a: int, b: int)
    requires a % 2 == 0 && b % 2 == 0
    ensures (a + b) % 2 == 0 && a + 1 != b && (a < b ==> a + 2 <= b)
  {
  }

  lemma EvenOn(o: int, k: int)
    requires o % 2 == 0
    ensures (o + 2 * k) % 2 == 0
  {
  }

  lemma PeekPoke(s: seq<Byte>, k: int, v: Byte, j: int)
    ensures Peek(Poke(s, k, v), j) == if j == k && 0 <= k < |s| then v else Peek(s, j)
  {
  }

  lemma PokesSwapped(a: seq<Byte>, b: seq<Byte>, o: int, p: Byte, q: Byte)
    requires Swapped(a, b) && o % 2 == 0
    ensures Swapped(Poke(Poke(a, o, p), o + 1, q), Poke(Poke(b, o, q), o + 1, p))
  {
    var a1, b1 := Poke(Poke(a, o, p), o + 1, q), Poke(Poke(b, o, q), o + 1, p);
    forall k: int
      ensures Crosswise(a1, b1, k)
    {
      PeekPoke(a, o, p, Mate(k));
      PeekPoke(Poke(a, o, p), o + 1, q, Mate(k));
      PeekPoke(b, o, q, k);
      PeekPoke(Poke(b, o, q), o + 1, p, k);
      assert Crosswise(a, b, k);
    }
  }

  lemma StorePair(m: seq<Byte>, o: int, p: Byte, q: Byte)
    ensures Store(m, o, [p, q]) == Poke(Poke(m, o, p), o + 1, q)
  {
    assert [p, q][1..] == [q] && [q][1..] == [];
    assert Store(Poke(m, o, p), o + 1, [q]) == Poke(Poke(m, o, p), o + 1, q);
  }

  lemma StoreTwice(m: seq<Byte>, o: int, p: Byte, q: Byte, r: Byte, t: Byte)
    ensures Store(m, o, [p, q, r, t]) == Store(Store(m, o, [p, q]), o + 2, [r, t])
  {
    assert [p, q, r, t] == [p, q] + [r, t];
    StoreConcat(m, o, [p, q], [r, t]);
  }

  lemma PairSwapped(a: seq<Byte>, b: seq<Byte>, o: int, p: Byte, q: Byte)
    requires Swapped(a, b) && o % 2 == 0
    ensures Swapped(Store(a, o, [p, q]), Store(b, o, [q, p]))
  {
    StorePair(a, o, p, q);
    StorePair(b, o, q, p);
    PokesSwapped(a, b, o, p, q);
  }

  lemma StoreSwapped(a: seq<Byte>, b: seq<Byte>, o: int, p: Byte, q: Byte, r: Byte, t: Byte)
    requires Swapped(a, b) && o % 2 == 0
    ensures Swapped(Store(a, o, [p, q, r, t]), Store(b, o, [q, p, t, r]))
  {
    StoreTwice(a, o, p, q, r, t);
    StoreTwice(b, o, q, p, t, r);
    PairSwapped(a, b, o, p, q);
    PairSwapped(Store(a, o, [p, q]), Store(b, o, [q, p]), o + 2, r, t);
  }

  function Literal(raw: seq<Byte>, c: Coding, full: bool, m: seq<Byte>, o: int, i: int): seq<Byte> {
    if full then YuvConvert(raw, i, c.fmt) else Convert420(raw, i, m, o, c.fmt, c.ls)
  }

  function Written(raw: seq<Byte>, c: Coding, full: bool, m: seq<Byte>, o: int, i: int): seq<Byte> {
    Store(m, o, Literal(raw, c, full, m, o, i))
  }

  /** Two pixels, with their own chroma or that of the line above. */
  lemma PixelsSwapped(raw: seq<Byte>, c: Coding, u: Coding, full: bool, a: seq<Byte>, b: seq<Byte>, o: int, i: int)
    requires c.fmt == Yuyv && u == c.(fmt := Uyvy) && Swapped(a, b) && o % 2 == 0 && c.ls % 2 == 0
    ensures Swapped(Written(raw, c, full, a, o, i), Written(raw, u, full, b, o, i))
  {
    if full {
      StoreSwapped(a, b, o, Peek(raw, i), Peek(raw, i + 1), Peek(raw, i + 2), Peek(raw, i + 3));
    } else {
      MatesAt(a, b, o - c.ls);
      MatesAt(a, b, o + 2 - c.ls);
      StoreSwapped(a, b, o, Peek(raw, i), Peek(a, o + 1 - c.ls), Peek(raw, i + 1), Peek(a, o + 3 - c.ls));
    }
  }

  ghost predicate SameEnd(e: LineEnd, f: LineEnd) {
    Swapped(e.m, f.m) && e.GaveUp? == f.GaveUp?
    && (e.LineEnd? ==> e.o == f.o && e.o % 2 == 0 && e.i == f.i && e.ll == f.ll)
  }

  predicate SendsLiteral(raw: seq<Byte>, c: Coding, i: int) { !c.compressed || Peek(raw, i) % 2 == 0 }

  lemma LiteralStep(raw: seq<Byte>, c: Coding, full: bool, m: seq<Byte>, o: int, i: int, ll: int, r: LineEnd)
    requires ll > 1 && c.fmt != Grey && r == Pieces(raw, c, full, m, o, i, ll) && SendsLiteral(raw, c, i)
    ensures var n := if full then 4 else 2; r == Pieces(raw, c, full, Written(raw, c, full, m, o, i), o + 4, i + n, ll - n)
  {
  }

  lemma SkipStep(raw: seq<Byte>, c: Coding, full: bool, m: seq<Byte>, o: int, i: int, ll: int, r: LineEnd)
    requires ll > 1 && c.fmt != Grey && r == Pieces(raw, c, full, m, o, i, ll) && !SendsLiteral(raw, c, i)
    ensures var over := o + 2 * (Peek(raw, i) / 2);
      r == if over > MAX_FRAME_SIZE then GaveUp(m) else Pieces(raw, c, full, m, over, i + 1, ll - 1)
  {
  }

  lemma LiteralTurn(raw: seq<Byte>, c: Coding, u: Coding, full: bool, a: seq<Byte>, b: seq<Byte>, o: int, i: int, ll: int,
                    e: LineEnd, f: LineEnd)
    returns (a1: seq<Byte>, b1: seq<Byte>, o1: int, i1: int, ll1: int)
    requires c.fmt == Yuyv && u == c.(fmt := Uyvy) && c.ls % 2 == 0 && Swapped(a, b) && o % 2 == 0 && ll > 1
    requires e == Pieces(raw, c, full, a, o, i, ll) && f == Pieces(raw, u, full, b, o, i, ll) && SendsLiteral(raw, c, i)
    ensures Swapped(a1, b1) && o1 % 2 == 0 && ll1 < ll
    ensures e == Pieces(raw, c, full, a1, o1, i1, ll1) && f == Pieces(raw, u, full, b1, o1, i1, ll1)
  {
    LiteralStep(raw, c, full, a, o, i, ll, e);
    LiteralStep(raw, u, full, b, o, i, ll, f);
    PixelsSwapped(raw, c, u, full, a, b, o, i);
    EvenOn(o, 2);
    var n := if full then 4 else 2;
    a1, b1 := Written(raw, c, full, a, o, i), Written(raw, u, full, b, o, i);
    o1, i1, ll1 := o + 4, i + n, ll - n;
  }

  /** The two decoders on the same piece: both give up, or both go on alike. */
  lemma PieceTurn(raw: seq<Byte>, c: Coding, u: Coding, full: bool, a: seq<Byte>, b: seq<Byte>, o: int, i: int, ll: int,
                  e: LineEnd, f: LineEnd)
    returns (stop: bool, a1: seq<Byte>, b1: seq<Byte>, o1: int, i1: int, ll1: int)
    requires c.fmt == Yuyv && u == c.(fmt := Uyvy) && c.ls % 2 == 0 && Swapped(a, b) && o % 2 == 0 && ll > 1
    requires e == Pieces(raw, c, full, a, o, i, ll) && f == Pieces(raw, u, full, b, o, i, ll)
    ensures stop ==> SameEnd(e, f)
    ensures !stop ==> Swapped(a1, b1) && o1 % 2 == 0 && ll1 < ll
                      && e == Pieces(raw, c, full, a1, o1, i1, ll1) && f == Pieces(raw, u, full, b1, o1, i1, ll1)
  {
    if SendsLiteral(raw, c, i) {
      stop := false;
      a1, b1, o1, i1, ll1 := LiteralTurn(raw, c, u, full, a, b, o, i, ll, e, f);
    } else {
      SkipStep(raw, c, full, a, o, i, ll, e);
      SkipStep(raw, u, full, b, o, i, ll, f);
      EvenOn(o, Peek(raw, i) / 2);
      var over := o + 2 * (Peek(raw, i) / 2);
      stop, a1, b1, o1, i1, ll1 := over > MAX_FRAME_SIZE, a, b, over, i + 1, ll - 1;
    }
  }

  lemma {:induction false} PiecesSwapped(raw: seq<Byte>, c: Coding, u: Coding, full: bool, a: seq<Byte>, b: seq<Byte>,
                                         o: int, i: int, ll: int, e: LineEnd, f: LineEnd)
    requires c.fmt == Yuyv && u == c.(fmt := Uyvy) && c.ls % 2 == 0 && Swapped(a, b) && o % 2 == 0
    requires e == Pieces(raw, c, full, a, o, i, ll) && f == Pieces(raw, u, full, b, o, i, ll)
    ensures SameEnd(e, f)
    decreases ll
  {
    if ll > 1 {
      var stop, a1, b1, o1, i1, ll1 := PieceTurn(raw, c, u, full, a, b, o, i, ll, e, f);
      if !stop {
        PiecesSwapped(raw, c, u, full, a1, b1, o1, i1, ll1, e, f);
      }
    }
  }

  ghost predicate SamePicture(d: Decoded, e: Decoded) {
    Swapped(d.m, e.m) && d.Failed? == e.Failed? && (d.Decoded? ==> d.o == e.o)
  }

  /** The two decoders on the same line: both stop alike, or both go on alike. */
  lemma LineTurn(raw: seq<Byte>, c: Coding, u: Coding, a: seq<Byte>, b: seq<Byte>, o: int, i: int, size: int, ll: nat,
                 even: bool, d: Decoded, e: Decoded)
    returns (stop: bool, a1: seq<Byte>, b1: seq<Byte>, n: Start)
    requires c.fmt == Yuyv && u == c.(fmt := Uyvy) && c.ls % 2 == 0 && Swapped(a, b) && o % 2 == 0
    requires size > 0 && size >= ll + 2
    requires d == Lines(raw, c, a, o, i, size, ll, even) && e == Lines(raw, u, b, o, i, size, ll, even)
    ensures stop ==> SamePicture(d, e)
    ensures !stop ==> Swapped(a1, b1) && n.o % 2 == 0
                      && d == Lines(raw, c, a1, n.o, n.i, size - (ll + 2), n.ll, n.even)
                      && e == Lines(raw, u, b1, n.o, n.i, size - (ll + 2), n.ll, n.even)
  {
    var full, left := c.sub422 || even, size - (ll + 2);
    var x, y := Pieces(raw, c, full, a, o, i, ll), Pieces(raw, u, full, b, o, i, ll);
    PiecesSwapped(raw, c, u, full, a, b, o, i, ll, x, y);
    LineStep(raw, c, a, o, i, size, ll, even, x, d);
    LineStep(raw, u, b, o, i, size, ll, even, y, e);
    stop := x.GaveUp? || x.ll != 1 || Peek(raw, x.i) != EOL || (left > 3 && EndOfImage(raw, x.i + 1));
    a1, b1, n := x.m, y.m, Start(o, i, ll, even);
    if !stop {
      EvenPair(x.o, c.ls);
      n := Behind(raw, c, x, left, even);
      assert n == Behind(raw, u, y, left, even);
    }
  }

  lemma {:induction false} LinesSwapped(raw: seq<Byte>, c: Coding, u: Coding, a: seq<Byte>, b: seq<Byte>, o: int, i: int,
                                        size: int, ll: nat, even: bool, d: Decoded, e: Decoded)
    requires c.fmt == Yuyv && u == c.(fmt := Uyvy) && c.ls % 2 == 0 && Swapped(a, b) && o % 2 == 0
    requires d == Lines(raw, c, a, o, i, size, ll, even) && e == Lines(raw, u, b, o, i, size, ll, even)
    ensures SamePicture(d, e)
    decreases size
  {
    if size > 0 && size >= ll + 2 {
      var stop, a1, b1, n := LineTurn(raw, c, u, a, b, o, i, size, ll, even, d, e);
      if !stop {
        LinesSwapped(raw, c, u, a1, b1, n.o, n.i, size - (ll + 2), n.ll, n.even, d, e);
      }
    }
  }

  // ------------------------------------------------------------- interpolation

  function MeanAt(m: seq<Byte>, p: int, n: int): Byte { (Peek(m, p) + Peek(m, n)) / 2 }

  /** Two turns of the averaging loop, reading before writing. */
  lemma MeanTwo(m: seq<Byte>, p: int, o: int, n: int, j: int, ls: int) returns (m2: seq<Byte>)
    requires j + 1 < ls && p + 1 != o && n + 1 != o
    ensures m2 == Poke(Poke(m, o + j, MeanAt(m, p + j, n + j)), o + j + 1, MeanAt(m, p + j + 1, n + j + 1))
    ensures MeanRow(m, p, o, n, j, ls) == MeanRow(m2, p, o, n, j + 2, ls)
  {
    var m1 := Poke(m, o + j, MeanAt(m, p + j, n + j));
    PeekPoke(m, o + j, MeanAt(m, p + j, n + j), p + j + 1);
    PeekPoke(m, o + j, MeanAt(m, p + j, n + j), n + j + 1);
    m2 := Poke(m1, o + j + 1, MeanAt(m1, p + j + 1, n + j + 1));
    assert MeanRow(m, p, o, n, j, ls) == MeanRow(m1, p, o, n, j + 1, ls);
  }

  lemma {:induction false} MeanRowSwapped(a: seq<Byte>, b: seq<Byte>, p: int, o: int, n: int, j: int, ls: int,
                                          x: seq<Byte>, y: seq<Byte>)
    requires Swapped(a, b) && p % 2 == 0 && o % 2 == 0 && n % 2 == 0 && j % 2 == 0 && ls % 2 == 0
    requires x == MeanRow(a, p, o, n, j, ls) && y == MeanRow(b, p, o, n, j, ls)
    ensures Swapped(x, y)
    decreases ls - j
  {
    if j < ls {
      var a2, b2 := MeanTurn(a, b, p, o, n, j, ls);
      EvenOn(j, 1);
      MeanRowSwapped(a2, b2, p, o, n, j + 2, ls, x, y);
    }
  }

  lemma MeanTurn(a: seq<Byte>, b: seq<Byte>, p: int, o: int, n: int, j: int, ls: int)
    returns (a2: seq<Byte>, b2: seq<Byte>)
    requires Swapped(a, b) && p % 2 == 0 && o % 2 == 0 && n % 2 == 0 && j % 2 == 0 && ls % 2 == 0 && j < ls
    ensures Swapped(a2, b2)
    ensures MeanRow(a, p, o, n, j, ls) == MeanRow(a2, p, o, n, j + 2, ls)
    ensures MeanRow(b, p, o, n, j, ls) == MeanRow(b2, p, o, n, j + 2, ls)
  {
    EvenPair(j, ls);
    EvenPair(p, o);
    EvenPair(n, o);
    EvenPair(p, j);
    EvenPair(n, j);
    EvenPair(o, j);
    a2 := MeanTwo(a, p, o, n, j, ls);
    b2 := MeanTwo(b, p, o, n, j, ls);
    MatesAt(a, b, p + j);
    MatesAt(a, b, n + j);
    PokesSwapped(a, b, o + j, MeanAt(a, p + j, n + j), MeanAt(a, p + j + 1, n + j + 1));
  }

  lemma MatesAt(a: seq<Byte>, b: seq<Byte>, k: int)
    requires Swapped(a, b) && k % 2 == 0
    ensures Peek(b, k) == Peek(a, k + 1) && Peek(b, k + 1) == Peek(a, k)
  {
    assert Crosswise(a, b, k) && Crosswise(a, b, k + 1);
  }

  lemma CopyTwo(m: seq<Byte>, p: int, o: int, j: int, ls: int) returns (m2: seq<Byte>)
    requires j + 1 < ls && p + 1 != o
    ensures m2 == Poke(Poke(m, o + j, Peek(m, p + j)), o + j + 1, Peek(m, p + j + 1))
    ensures CopyRow(m, p, o, j, ls) == CopyRow(m2, p, o, j + 2, ls)
  {
    var m1 := Poke(m, o + j, Peek(m, p + j));
    PeekPoke(m, o + j, Peek(m, p + j), p + j + 1);
    m2 := Poke(m1, o + j + 1, Peek(m1, p + j + 1));
    assert CopyRow(m, p, o, j, ls) == CopyRow(m1, p, o, j + 1, ls);
  }

  lemma {:induction false} CopyRowSwapped(a: seq<Byte>, b: seq<Byte>, p: int, o: int, j: int, ls: int,
                                          x: seq<Byte>, y: seq<Byte>)
    requires Swapped(a, b) && p % 2 == 0 && o % 2 == 0 && j % 2 == 0 && ls % 2 == 0
    requires x == CopyRow(a, p, o, j, ls) && y == CopyRow(b, p, o, j, ls)
    ensures Swapped(x, y)
    decreases ls - j
  {
    if j < ls {
      EvenPair(j, ls);
      EvenPair(p, o);
      EvenPair(p, j);
      EvenPair(o, j);
      var a2 := CopyTwo(a, p, o, j, ls);
      var b2 := CopyTwo(b, p, o, j, ls);
      MatesAt(a, b, p + j);
      PokesSwapped(a, b, o + j, Peek(a, p + j), Peek(a, p + j + 1));
      CopyRowSwapped(a2, b2, p, o, j + 2, ls, x, y);
    }
  }

  lemma {:induction false} InterpolateSwapped(a: seq<Byte>, b: seq<Byte>, p: int, i: int, rows: int, ls: int)
    requires Swapped(a, b) && p % 2 == 0 && ls % 2 == 0
    ensures SamePicture(Interpolate(a, p, i, rows, ls), Interpolate(b, p, i, rows, ls))
    decreases rows - i
  {
    if i < rows - 1 {
      var a1, b1 := MeanRow(a, p, p + ls, p + 2 * ls, 0, ls), MeanRow(b, p, p + ls, p + 2 * ls, 0, ls);
      MeanRowSwapped(a, b, p, p + ls, p + 2 * ls, 0, ls, a1, b1);
      InterpolateSwapped(a1, b1, p + 2 * ls, i + 2, rows, ls);
    } else {
      CopyRowSwapped(a, b, p, p + ls, 0, ls, CopyRow(a, p, p + ls, 0, ls), CopyRow(b, p, p + ls, 0, ls));
    }
  }

  /** Decoding to UYVY over an exchanged frame gives the exchanged frame, the same
      count and the same verdict, for all input, subsamplings and decimation. */
  lemma PaletteOrder(raw: seq<Byte>, size: int, a: seq<Byte>, b: seq<Byte>, roi: Roi)
    requires Swapped(a, b)
    ensures SamePicture(Picture(raw, size, a, Yuyv, roi), Picture(raw, size, b, Uyvy, roi))
  {
    var c, u := CodingOf(raw, Yuyv), CodingOf(raw, Uyvy);
    var left, ll := size - FRAME_HEADER_SIZE, Length16(raw, FRAME_HEADER_SIZE);
    var d := Lines(raw, c, a, 0, FRAME_HEADER_SIZE + 2, left, ll, true);
    var e := Lines(raw, u, b, 0, FRAME_HEADER_SIZE + 2, left, ll, true);
    LinesSwapped(raw, c, u, a, b, 0, FRAME_HEADER_SIZE + 2, left, ll, true, d, e);
    InterpolateSwapped(d.m, e.m, 0, 1, RowsOf(raw), c.ls);
  }
}
