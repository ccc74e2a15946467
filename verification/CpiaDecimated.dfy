/** Decimated pictures of the CPiA camera (video/cpia.c): parse_picture decodes
    every other row and interpolates the rows between. */
module CpiaDecimated {
  import opened Basics
  import opened CpiaDecoder
  import opened CpiaStream
  import opened CpiaRoundTrip

  function Mean(a: Byte, b: Byte): Byte { (a + b) / 2 }

  /** The ls bytes of r at o are the means of those of m at p and n. */
  ghost predicate MeanOf(m: seq<Byte>, r: seq<Byte>, p: int, o: int, n: int, ls: int)
    requires |r| == |m| && 0 <= p && p + ls <= |m| && 0 <= o && o + ls <= |m| && 0 <= n && n + ls <= |m|
  {
    forall k :: o <= k < o + ls ==> r[k] == Mean(m[k - o + p], m[k - o + n])
  }

  /** The ls bytes of r at o are those of m at p. */
  ghost predicate CopyOf(m: seq<Byte>, r: seq<Byte>, p: int, o: int, ls: int)
    requires |r| == |m| && 0 <= p && p + ls <= |m| && 0 <= o && o + ls <= |m|
  {
    forall k :: o <= k < o + ls ==> r[k] == m[k - o + p]
  }

  /** From row p on, every second row of after is the mean of its neighbours
      before, the last one a copy of the row above it, and the others are as
      before. */
  ghost predicate Interpolated(before: seq<Byte>, after: seq<Byte>, p: int, i: int, rows: int, ls: nat)
    requires 0 <= p && |after| == |before|
    decreases rows - i
  {
    p + 2 * ls <= |before| && CopyOf(before, after, p, p, ls)
    && if i < rows - 1 then
         p + 3 * ls <= |before|
         && MeanOf(before, after, p, p + ls, p + 2 * ls, ls)
         && Interpolated(before, after, p + 2 * ls, i + 2, rows, ls)
       else CopyOf(before, after, p, p + ls, ls)
  }

  lemma {:induction false} MeanRowFacts(m: seq<Byte>, p: int, o: int, n: int, j: int, ls: int, r: seq<Byte>)
    requires 0 <= p && p + ls <= o && o + ls <= n && n + ls <= |m| && 0 <= j <= ls
    requires r == MeanRow(m, p, o, n, j, ls)
    ensures forall k :: o + j <= k < o + ls ==> r[k] == Mean(m[k - o + p], m[k - o + n])
    ensures forall k :: 0 <= k < |m| && !(o + j <= k < o + ls) ==> r[k] == m[k]
    decreases ls - j
  {
    if j < ls {
      var m1 := m[o + j := Mean(m[p + j], m[n + j])];
      MeanRowFacts(m1, p, o, n, j + 1, ls, r);
    }
  }

  lemma {:induction false} CopyRowFacts(m: seq<Byte>, p: int, o: int, j: int, ls: int, r: seq<Byte>)
    requires 0 <= p && p + ls <= o && o + ls <= |m| && 0 <= j <= ls
    requires r == CopyRow(m, p, o, j, ls)
    ensures forall k :: o + j <= k < o + ls ==> r[k] == m[k - o + p]
    ensures forall k :: 0 <= k < |m| && !(o + j <= k < o + ls) ==> r[k] == m[k]
    decreases ls - j
  {
    if j < ls {
      CopyRowFacts(m[o + j := m[p + j]], p, o, j + 1, ls, r);
    }
  }

  /** The bytes the rows from p on still need. */
  function Needed(i: int, rows: int, ls: nat): nat
    decreases rows - i
  {
    if i < rows - 1 then 2 * ls + Needed(i + 2, rows, ls) else 2 * ls
  }

  lemma {:induction false} InterpolateDone(m: seq<Byte>, p: int, i: int, rows: int, ls: nat, r: seq<Byte>)
    requires 0 <= p && p + Needed(i, rows, ls) <= |m|
    requires r == Interpolate(m, p, i, rows, ls).m
    ensures Interpolated(m, r, p, i, rows, ls)
    ensures forall k :: 0 <= k < p + ls ==> r[k] == m[k]
    ensures forall k :: p + Needed(i, rows, ls) <= k < |m| ==> r[k] == m[k]
    decreases rows - i
  {
    if i < rows - 1 {
      NeededAtLeast(i + 2, rows, ls);
      var m1 := MeanRow(m, p, p + ls, p + 2 * ls, 0, ls);
      InterpolateDone(m1, p + 2 * ls, i + 2, rows, ls, r);
      FirstRows(m, m1, r, p, ls);
      LaterRows(m, m1, r, p + 2 * ls, i + 2, rows, ls);
      RowsDone(m, r, p, i, rows, ls);
    } else {
      LastRows(m, r, p, i, rows, ls);
    }
  }

  lemma RowsDone(m: seq<Byte>, r: seq<Byte>, p: int, i: int, rows: int, ls: nat)
    requires 0 <= p && p + 3 * ls <= |m| == |r| && i < rows - 1
    requires CopyOf(m, r, p, p, ls) && MeanOf(m, r, p, p + ls, p + 2 * ls, ls)
    requires Interpolated(m, r, p + 2 * ls, i + 2, rows, ls)
    ensures Interpolated(m, r, p, i, rows, ls)
  {
  }

  /** The last two rows. */
  lemma LastRows(m: seq<Byte>, r: seq<Byte>, p: int, i: int, rows: int, ls: nat)
    requires 0 <= p && p + 2 * ls <= |m| && i >= rows - 1 && r == CopyRow(m, p, p + ls, 0, ls)
    ensures Interpolated(m, r, p, i, rows, ls)
    ensures forall k :: 0 <= k < |m| && !(p + ls <= k < p + 2 * ls) ==> r[k] == m[k]
  {
    CopyRowFacts(m, p, p + ls, 0, ls, r);
  }

  /** The two rows one turn of the loop settles. */
  lemma FirstRows(m: seq<Byte>, m1: seq<Byte>, r: seq<Byte>, p: int, ls: nat)
    requires 0 <= p && p + 3 * ls <= |m| == |r| && m1 == MeanRow(m, p, p + ls, p + 2 * ls, 0, ls)
    requires forall k :: 0 <= k < p + 3 * ls ==> r[k] == m1[k]
    ensures CopyOf(m, r, p, p, ls) && MeanOf(m, r, p, p + ls, p + 2 * ls, ls)
    ensures forall k :: 0 <= k < p + ls ==> r[k] == m[k]
    ensures forall k :: p + 2 * ls <= k < |m| ==> m1[k] == m[k]
  {
    MeanRowFacts(m, p, p + ls, p + 2 * ls, 0, ls, m1);
  }

  lemma NeededAtLeast(i: int, rows: int, ls: nat)
    ensures Needed(i, rows, ls) >= 2 * ls
  {
  }

  /** Only the rows from p on matter to what happens from p on. */
  lemma {:induction false} LaterRows(m: seq<Byte>, m1: seq<Byte>, r: seq<Byte>, p: int, i: int, rows: int, ls: nat)
    requires 0 <= p && |m| == |m1| == |r| && Interpolated(m1, r, p, i, rows, ls)
    requires forall k :: p <= k < |m| ==> m[k] == m1[k]
    ensures Interpolated(m, r, p, i, rows, ls)
    decreases rows - i
  {
    if i < rows - 1 {
      LaterRows(m, m1, r, p + 2 * ls, i + 2, rows, ls);
    }
  }

  lemma {:induction false} InterpolateCount(m: seq<Byte>, p: int, i: int, rows: int, ls: int)
    requires i <= rows - 1 && (rows - 1 - i) % 2 == 0
    ensures Interpolate(m, p, i, rows, ls).o == p + ls * (rows - i)
    decreases rows - i
  {
    if i < rows - 1 {
      InterpolateCount(MeanRow(m, p, p + ls, p + 2 * ls, 0, ls), p + 2 * ls, i + 2, rows, ls);
      assert ls * (rows - i) == ls * (rows - (i + 2)) + 2 * ls;
    } else {
      assert rows - i == 1;
    }
  }

  lemma {:induction false} NeededRows(i: int, rows: int, ls: nat)
    requires i <= rows - 1 && (rows - 1 - i) % 2 == 0
    ensures Needed(i, rows, ls) == ls * (rows - i + 1)
    decreases rows - i
  {
    if i < rows - 1 {
      NeededRows(i + 2, rows, ls);
      assert ls * (rows - i + 1) == ls * (rows - (i + 2) + 1) + 2 * ls;
    } else {
      assert rows - i + 1 == 2;
    }
  }

  /** The interpolation of a whole picture.  Every row is filled in, but the byte
      count returned leaves out the last one. */
  lemma DecimatedPicture(m: seq<Byte>, rows: int, ls: nat)
    requires rows > 0 && rows % 4 == 0 && ls * rows <= |m|
    ensures var d := Interpolate(m, 0, 1, rows, ls);
      && Interpolated(m, d.m, 0, 1, rows, ls) && d.o == ls * (rows - 1)
      && forall k :: ls * rows <= k < |m| ==> d.m[k] == m[k]
  {
    var q := rows / 4;
    assert rows - 1 - 1 == 2 * (2 * q - 1);
    NeededRows(1, rows, ls);
    InterpolateDone(m, 0, 1, rows, ls, Interpolate(m, 0, 1, rows, ls).m);
    InterpolateCount(m, 0, 1, rows, ls);
  }

  // ------------------------------------------------------- what a camera sends

  /** The lines encode the even rows of cur from o on, each with its chroma; between
      them cur is as before. */
  ghost predicate RowsFor(lines: seq<seq<Token>>, prev: seq<Byte>, cur: seq<Byte>, o: int, compressed: bool, ls: nat)
    requires |prev| == |cur| && 0 <= o
    decreases |lines|
  {
    if lines == [] then forall k :: o <= k < |cur| ==> cur[k] == prev[k]
    else
      && o + 2 * ls <= |cur| && LineFor(lines[0], prev, cur, o, o + ls, compressed, ls, true)
      && (forall k :: o + ls <= k < o + 2 * ls ==> cur[k] == prev[k])
      && RowsFor(lines[1..], prev, cur, o + 2 * ls, compressed, ls)
  }

  lemma {:induction false} RowsForOk(lines: seq<seq<Token>>, prev: seq<Byte>, cur: seq<Byte>, o: int, compressed: bool,
                                     ls: nat)
    requires |prev| == |cur| && 0 <= o && ls < 65534 && RowsFor(lines, prev, cur, o, compressed, ls)
    ensures Sendable(lines, compressed)
    decreases |lines|
  {
    if lines != [] {
      LineForOk(lines[0], prev, cur, o, o + ls, compressed, ls, true);
      RowsForOk(lines[1..], prev, cur, o + 2 * ls, compressed, ls);
      assert forall k :: 1 <= k < |lines| ==> lines[k] == lines[1..][k - 1];
    }
  }

  lemma RowSkipped(prev: seq<Byte>, cur: seq<Byte>, o: int, end: int)
    requires |prev| == |cur| && 0 <= o <= end <= |cur| && forall k :: o <= k < end ==> cur[k] == prev[k]
    ensures Mixed(prev, cur, o) == Mixed(prev, cur, end)
  {
  }

  /** The first row and those behind it. */
  lemma RowsParts(lines: seq<seq<Token>>, prev: seq<Byte>, cur: seq<Byte>, o: int, compressed: bool, ls: nat)
    requires |prev| == |cur| && 0 <= o && lines != [] && RowsFor(lines, prev, cur, o, compressed, ls)
    ensures o + 2 * ls <= |cur| && LineFor(lines[0], prev, cur, o, o + ls, compressed, ls, true)
    ensures forall k :: o + ls <= k < o + 2 * ls ==> cur[k] == prev[k]
    ensures RowsFor(lines[1..], prev, cur, o + 2 * ls, compressed, ls)
  {
  }

  /** The memory behind a line: its row is new and the one behind it passed over. */
  lemma RowDone(ts: seq<Token>, prev: seq<Byte>, cur: seq<Byte>, o: int, compressed: bool, ls: nat)
    requires |prev| == |cur| && 0 <= o && o + 2 * ls <= |cur| && LineFor(ts, prev, cur, o, o + ls, compressed, ls, true)
    requires forall k :: o + ls <= k < o + 2 * ls ==> cur[k] == prev[k]
    ensures TokensOk(ts, compressed) && Span(ts) == ls
    ensures LineOver(ts, Mixed(prev, cur, o), o, ls, true) == Mixed(prev, cur, o + 2 * ls)
  {
    LineForOk(ts, prev, cur, o, o + ls, compressed, ls, true);
    LineRoundTrip(ts, prev, cur, o, o + ls, compressed, ls, true);
    RowSkipped(prev, cur, o + ls, o + 2 * ls);
  }

  lemma SendableRest(lines: seq<seq<Token>>, compressed: bool)
    requires Sendable(lines, compressed) && lines != []
    ensures Sendable(lines[1..], compressed)
  {
  }

  /** One line of a decimated picture. */
  lemma RowTurn(raw: seq<Byte>, c: Coding, m: seq<Byte>, o: int, i: int, size: int, ll: nat, lines: seq<seq<Token>>,
                r: Decoded)
    returns (m1: seq<Byte>, end: int)
    requires r == Lines(raw, c, m, o, i, size, ll, true)
    requires c.fmt == Yuyv && c.decimation && lines != [] && Sendable(lines, c.compressed)
    requires Span(lines[0]) == c.ls && o + c.ls <= MAX_FRAME_SIZE
    requires At(raw, i - 2, Stream(lines, c.compressed, true, true))
    requires size == |Stream(lines, c.compressed, true, true)| && ll == Length16(raw, i - 2)
    ensures m1 == LineOver(lines[0], m, o, c.ls, true) && At(raw, end, Stream(lines[1..], c.compressed, true, true))
    ensures r == if lines[1..] == [] then Decoded(m1, o + c.ls)
                 else Lines(raw, c, m1, o + 2 * c.ls, end + 2, |Stream(lines[1..], c.compressed, true, true)|,
                            Length16(raw, end), true)
  {
    var ts, rest := lines[0], lines[1..];
    var tail := Stream(rest, c.compressed, true, true);
    SameStream(rest, c.compressed, false);
    LineBytesBound(ts, true, c.compressed);
    StreamEnds(rest, c.compressed, true, true);
    var o1;
    m1, o1, end := RecordDecodes(raw, c, m, o, i, size, ll, ts, tail, true, r);
    RowEnd(raw, c, end, rest);
  }

  lemma RowEnd(raw: seq<Byte>, c: Coding, end: int, rest: seq<seq<Token>>)
    requires Sendable(rest, c.compressed) && At(raw, end, Stream(rest, c.compressed, true, true))
    ensures EndOfImage(raw, end) <==> rest == []
  {
    if rest == [] {
      FourMarks(raw, end);
    } else {
      StreamStart(raw, end, rest, c.(sub422 := true), true);
    }
  }

  /** What the lines of a decimated picture do to the memory: each its own row. */
  function RowsOver(lines: seq<seq<Token>>, m: seq<Byte>, o: int, ls: int): (r: seq<Byte>)
    ensures |r| == |m|
    decreases |lines|
  {
    if lines == [] then m else RowsOver(lines[1..], LineOver(lines[0], m, o, ls, true), o + 2 * ls, ls)
  }

  /** Each line is one row, and they fit. */
  predicate RowsLong(lines: seq<seq<Token>>, o: int, ls: int)
    decreases |lines|
  {
    lines == [] || (Span(lines[0]) == ls && o + ls <= MAX_FRAME_SIZE && RowsLong(lines[1..], o + 2 * ls, ls))
  }

  /** The outer loop on a stream of a decimated picture. */
  lemma {:induction false} RowsDecode(raw: seq<Byte>, c: Coding, m: seq<Byte>, o: int, i: int, size: int, ll: nat,
                                      lines: seq<seq<Token>>, r: Decoded)
    requires r == Lines(raw, c, m, o, i, size, ll, true) && c.fmt == Yuyv && c.decimation
    requires lines != [] && Sendable(lines, c.compressed) && RowsLong(lines, o, c.ls)
    requires At(raw, i - 2, Stream(lines, c.compressed, true, true))
    requires size == |Stream(lines, c.compressed, true, true)| && ll == Length16(raw, i - 2)
    ensures r.Decoded? && r.m == RowsOver(lines, m, o, c.ls)
    decreases |lines|
  {
    var m1, end := RowTurn(raw, c, m, o, i, size, ll, lines, r);
    if lines[1..] != [] {
      var left := |Stream(lines[1..], c.compressed, true, true)|;
      RowsDecode(raw, c, m1, o + 2 * c.ls, end + 2, left, Length16(raw, end), lines[1..], r);
    }
  }

  /** They leave exactly the even rows. */
  lemma {:induction false} RowsTrip(lines: seq<seq<Token>>, prev: seq<Byte>, cur: seq<Byte>, o: int, compressed: bool,
                                    ls: nat)
    requires |prev| == |cur| <= MAX_FRAME_SIZE && 0 <= o && RowsFor(lines, prev, cur, o, compressed, ls)
    ensures RowsOver(lines, Mixed(prev, cur, o), o, ls) == cur && RowsLong(lines, o, ls)
    decreases |lines|
  {
    if lines == [] {
      AllNew(prev, cur, o);
    } else {
      RowsParts(lines, prev, cur, o, compressed, ls);
      RowDone(lines[0], prev, cur, o, compressed, ls);
      RowsTrip(lines[1..], prev, cur, o + 2 * ls, compressed, ls);
    }
  }

  lemma AllNew(prev: seq<Byte>, cur: seq<Byte>, o: int)
    requires |prev| == |cur| && 0 <= o && forall k :: o <= k < |cur| ==> cur[k] == prev[k]
    ensures Mixed(prev, cur, o) == cur
  {
  }

  /** With every line carrying chroma it does not matter which one is even. */
  lemma {:induction false} SameStream(lines: seq<seq<Token>>, compressed: bool, even: bool)
    requires Sendable(lines, compressed)
    ensures Stream(lines, compressed, true, even) == Stream(lines, compressed, true, true)
    decreases |lines|
  {
    if lines != [] {
      SameStream(lines[1..], compressed, !even);
      SameStream(lines[1..], compressed, false);
    }
  }

  /** A header that says decimated, for the rows of the region of interest. */
  function DecimatedHeader(roi: Roi, sub422: bool, compressed: bool): seq<Byte> {
    Header(roi, sub422, compressed)[29 := 1]
  }

  lemma DecimatedHeaderFacts(roi: Roi, sub422: bool, compressed: bool)
    ensures var h := DecimatedHeader(roi, sub422, compressed);
      && |h| == FRAME_HEADER_SIZE && HeaderOk(h, roi)
      && CodingOf(h, Yuyv) == Coding(Yuyv, compressed, sub422, true, LineSize(roi))
      && RowsOf(h) == 4 * (roi.rowEnd - roi.rowStart)
  {
    var h := Header(roi, sub422, compressed);
    assert forall k :: 0 <= k < |h| ==> h[k] == HeaderByte(k, roi, sub422, compressed);
  }

  /** The whole way of a decimated picture: sent one line for two rows, it comes out
      with every line in its even row, the mean of its neighbours in each row between,
      a copy in the last one, everything behind the picture as before, and a count of
      one row too few. */
  lemma DecimatedRoundTrip(lines: seq<seq<Token>>, prev: seq<Byte>, cur: seq<Byte>, roi: Roi, sub422: bool,
                           compressed: bool, rest: seq<Byte>)
    requires |prev| == |cur| <= MAX_FRAME_SIZE && LineSize(roi) >= 0 && lines != []
    requires RowsFor(lines, prev, cur, 0, compressed, LineSize(roi)) && 2 * |lines| == 4 * (roi.rowEnd - roi.rowStart)
    ensures Sendable(lines, compressed)
    ensures var ls, rows := LineSize(roi), 2 * |lines|;
      var raw := DecimatedHeader(roi, sub422, compressed) + Stream(lines, compressed, true, true);
      var d := Picture(raw + rest, |raw|, prev, Yuyv, roi);
      && d.Decoded? && d.o == ls * (rows - 1) && |d.m| == |cur| && Interpolated(cur, d.m, 0, 1, rows, ls)
      && forall k :: 0 <= ls * rows <= k < |cur| ==> d.m[k] == cur[k] == prev[k]
  {
    var ls, rows := LineSize(roi), 2 * |lines|;
    RowsForOk(lines, prev, cur, 0, compressed, ls);
    DecimatedHeaderFacts(roi, sub422, compressed);
    var header, stream := DecimatedHeader(roi, sub422, compressed), Stream(lines, compressed, true, true);
    Regroup(header, stream, rest);
    MixedNone(prev, cur);
    RowsTrip(lines, prev, cur, 0, compressed, ls);
    RowsArrive(header + stream + rest, header, CodingOf(header, Yuyv), rows, stream, lines, rest, prev, roi, cur);
    RowsBetween(lines, prev, cur, compressed, ls, rows, roi.rowEnd - roi.rowStart);
  }

  lemma RowsBetween(lines: seq<seq<Token>>, prev: seq<Byte>, cur: seq<Byte>, compressed: bool, ls: nat, rows: int,
                    fours: int)
    requires |prev| == |cur| && lines != [] && rows == 2 * |lines| == 4 * fours
    requires RowsFor(lines, prev, cur, 0, compressed, ls)
    ensures var d := Interpolate(cur, 0, 1, rows, ls);
      && Interpolated(cur, d.m, 0, 1, rows, ls) && d.o == ls * (rows - 1)
      && forall k :: 0 <= ls * rows <= k < |cur| ==> d.m[k] == cur[k] == prev[k]
  {
    RowsFit(lines, prev, cur, 0, compressed, ls);
    ModUnique(rows, 4, fours, 0);
    DecimatedPicture(cur, rows, ls);
  }

  /** The picture before interpolation. */
  lemma RowsArrive(raw: seq<Byte>, header: seq<Byte>, c: Coding, rows: int, stream: seq<Byte>, lines: seq<seq<Token>>,
                   rest: seq<Byte>, prev: seq<Byte>, roi: Roi, m: seq<Byte>)
    requires |header| == FRAME_HEADER_SIZE && HeaderOk(header, roi) && c == CodingOf(header, Yuyv) && rows == RowsOf(header)
    requires c.decimation && lines != [] && Sendable(lines, c.compressed) && RowsLong(lines, 0, c.ls)
    requires stream == Stream(lines, c.compressed, true, true) && raw == header + (stream + rest)
    requires m == RowsOver(lines, prev, 0, c.ls)
    ensures Picture(raw, |raw| - |rest|, prev, Yuyv, roi) == Interpolate(m, 0, 1, rows, c.ls)
  {
    DecimatedHeaderKept(raw, header, stream + rest, roi);
    StreamBehind(raw, stream, rest);
    RowsPicture(raw, c, rows, |stream|, lines, prev, roi, m);
  }

  lemma RowsPicture(raw: seq<Byte>, c: Coding, rows: int, size: int, lines: seq<seq<Token>>, prev: seq<Byte>, roi: Roi,
                    m: seq<Byte>)
    requires HeaderOk(raw, roi) && c == CodingOf(raw, Yuyv) && rows == RowsOf(raw)
    requires c.fmt == Yuyv && c.decimation && lines != [] && Sendable(lines, c.compressed) && RowsLong(lines, 0, c.ls)
    requires At(raw, FRAME_HEADER_SIZE, Stream(lines, c.compressed, true, true))
    requires size == |Stream(lines, c.compressed, true, true)| && m == RowsOver(lines, prev, 0, c.ls)
    ensures Picture(raw, FRAME_HEADER_SIZE + size, prev, Yuyv, roi) == Interpolate(m, 0, 1, rows, c.ls)
  {
    var d := RowsBehind(raw, c, lines, prev, size, m);
    PictureOfLines(raw, FRAME_HEADER_SIZE + size, prev, roi, d, c, rows, m);
  }

  lemma RowsBehind(raw: seq<Byte>, c: Coding, lines: seq<seq<Token>>, prev: seq<Byte>, size: int, m: seq<Byte>)
    returns (d: Decoded)
    requires c.fmt == Yuyv && c.decimation && lines != [] && Sendable(lines, c.compressed) && RowsLong(lines, 0, c.ls)
    requires At(raw, FRAME_HEADER_SIZE, Stream(lines, c.compressed, true, true))
    requires size == |Stream(lines, c.compressed, true, true)|
    ensures d == Lines(raw, c, prev, 0, FRAME_HEADER_SIZE + 2, size, Length16(raw, FRAME_HEADER_SIZE), true)
    requires m == RowsOver(lines, prev, 0, c.ls)
    ensures d.Decoded? && d.m == m
  {
    d := Lines(raw, c, prev, 0, FRAME_HEADER_SIZE + 2, size, Length16(raw, FRAME_HEADER_SIZE), true);
    RowsDecode(raw, c, prev, 0, FRAME_HEADER_SIZE + 2, size, Length16(raw, FRAME_HEADER_SIZE), lines, d);
  }

  lemma StreamBehind(raw: seq<Byte>, stream: seq<Byte>, rest: seq<Byte>)
    requires |raw| >= FRAME_HEADER_SIZE && raw[FRAME_HEADER_SIZE..] == stream + rest
    ensures At(raw, FRAME_HEADER_SIZE, stream)
  {
    AtSelf(raw, FRAME_HEADER_SIZE);
    AtParts(raw, FRAME_HEADER_SIZE, stream, rest);
  }

  lemma PictureOfLines(raw: seq<Byte>, size: int, prev: seq<Byte>, roi: Roi, d: Decoded, c: Coding, rows: int,
                       m: seq<Byte>)
    requires HeaderOk(raw, roi) && c == CodingOf(raw, Yuyv) && rows == RowsOf(raw) && c.decimation && d.Decoded? && d.m == m
    requires d == Lines(raw, c, prev, 0, FRAME_HEADER_SIZE + 2, size - FRAME_HEADER_SIZE,
                        Length16(raw, FRAME_HEADER_SIZE), true)
    ensures Picture(raw, size, prev, Yuyv, roi) == Interpolate(m, 0, 1, rows, c.ls)
  {
  }

  lemma MixedNone(prev: seq<Byte>, cur: seq<Byte>)
    requires |prev| == |cur|
    ensures Mixed(prev, cur, 0) == prev
  {
  }

  lemma DecimatedHeaderKept(raw: seq<Byte>, header: seq<Byte>, rest: seq<Byte>, roi: Roi)
    requires |header| == FRAME_HEADER_SIZE && raw == header + rest
    ensures CodingOf(raw, Yuyv) == CodingOf(header, Yuyv) && HeaderOk(raw, roi) == HeaderOk(header, roi)
    ensures RowsOf(raw) == RowsOf(header) && raw[FRAME_HEADER_SIZE..] == rest
  {
    HeaderKept(raw, header, rest, roi);
    assert Peek(raw, 26) == header[26] && Peek(raw, 27) == header[27];
  }

  lemma {:induction false} RowsFit(lines: seq<seq<Token>>, prev: seq<Byte>, cur: seq<Byte>, o: int, compressed: bool,
                                   ls: nat)
    requires |prev| == |cur| && 0 <= o <= |cur| && RowsFor(lines, prev, cur, o, compressed, ls)
    ensures o + ls * (2 * |lines|) <= |cur| && forall k :: 0 <= o + ls * (2 * |lines|) <= k < |cur| ==> cur[k] == prev[k]
    decreases |lines|
  {
    if lines != [] {
      RowsFit(lines[1..], prev, cur, o + 2 * ls, compressed, ls);
      MulSum(ls, 2 * |lines[1..]|, 2);
    }
  }
}
