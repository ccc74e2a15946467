/** The round trip of the CPiA picture format: whatever encoder skips only pixels
    that did not change and sends the others, the decoder of video/cpia.c, run
    over the previous frame, leaves the frame that was encoded.  prev and cur are
    the whole frame memory before and after. */
module CpiaRoundTrip {
  import opened Basics
  import opened CpiaDecoder
  import opened CpiaStream

  /** The memory when the bytes before o are new and the others still old. */
  function Mixed(prev: seq<Byte>, cur: seq<Byte>, o: int): (m: seq<Byte>)
    requires |prev| == |cur|
  {
    seq(|cur|, k requires 0 <= k < |cur| => if k < o then cur[k] else prev[k])
  }

  /** A token an encoder may send at o, on a line of ls bytes that ends at end: a
      skip over bytes that did not change, or the two pixels themselves, whose
      chroma on a line without its own must be that of the line above. */
  ghost predicate TokenFor(t: Token, prev: seq<Byte>, cur: seq<Byte>, o: int, end: int, compressed: bool, ls: int,
                           full: bool)
    requires |prev| == |cur| && 0 <= o && end <= |cur|
  {
    && TokenOk(t, compressed) && o + Width(t) <= end
    && match t
       case Skip(n) => forall k :: o <= k < o + 2 * n ==> cur[k] == prev[k]
       case Lit(y, u, y1, v) =>
         && y == cur[o] && y1 == cur[o + 2]
         && if full then u == cur[o + 1] && v == cur[o + 3]
            else 4 <= ls <= o && cur[o + 1] == cur[o + 1 - ls] && cur[o + 3] == cur[o + 3 - ls]
  }

  /** The tokens encode the line from o to end. */
  ghost predicate LineFor(ts: seq<Token>, prev: seq<Byte>, cur: seq<Byte>, o: int, end: int, compressed: bool, ls: int,
                          full: bool)
    requires |prev| == |cur| && 0 <= o && end <= |cur|
    decreases |ts|
  {
    if ts == [] then o == end
    else
      && TokenFor(ts[0], prev, cur, o, end, compressed, ls, full)
      && LineFor(ts[1..], prev, cur, o + Width(ts[0]), end, compressed, ls, full)
  }

  lemma {:induction false} LineForOk(ts: seq<Token>, prev: seq<Byte>, cur: seq<Byte>, o: int, end: int, compressed: bool,
                                     ls: int, full: bool)
    requires |prev| == |cur| && 0 <= o && end <= |cur|
    requires LineFor(ts, prev, cur, o, end, compressed, ls, full)
    ensures TokensOk(ts, compressed) && Span(ts) == end - o
    decreases |ts|
  {
    if ts != [] {
      LineForOk(ts[1..], prev, cur, o + Width(ts[0]), end, compressed, ls, full);
    }
  }

  lemma StoreFour(m: seq<Byte>, o: int, s: seq<Byte>)
    requires |s| == 4 && 0 <= o && o + 4 <= |m|
    ensures Store(m, o, s) == m[o := s[0]][o + 1 := s[1]][o + 2 := s[2]][o + 3 := s[3]]
  {
    var m1 := m[o := s[0]];
    var m2 := m1[o + 1 := s[1]];
    var m3 := m2[o + 2 := s[2]];
    assert Store(m3, o + 3, s[3..]) == Store(m3[o + 3 := s[3]], o + 4, []) by {
      assert s[3..][1..] == [];
    }
    assert Store(m2, o + 2, s[2..]) == Store(m3, o + 3, s[3..]) by {
      assert s[2..][1..] == s[3..];
    }
    assert Store(m1, o + 1, s[1..]) == Store(m2, o + 2, s[2..]) by {
      assert s[1..][1..] == s[2..];
    }
  }

  /** Four new bytes at o. */
  lemma FourNew(prev: seq<Byte>, cur: seq<Byte>, o: int, s: seq<Byte>)
    requires |prev| == |cur| && 0 <= o && o + 4 <= |cur|
    requires |s| == 4 && s[0] == cur[o] && s[1] == cur[o + 1] && s[2] == cur[o + 2] && s[3] == cur[o + 3]
    ensures Store(Mixed(prev, cur, o), o, s) == Mixed(prev, cur, o + 4)
  {
    StoreFour(Mixed(prev, cur, o), o, s);
  }

  /** One token takes the memory on to the next position. */
  lemma TokenRoundTrip(t: Token, prev: seq<Byte>, cur: seq<Byte>, o: int, end: int, compressed: bool, ls: int, full: bool)
    requires |prev| == |cur| && 0 <= o && end <= |cur|
    requires TokenFor(t, prev, cur, o, end, compressed, ls, full)
    ensures Effect(t, Mixed(prev, cur, o), o, ls, full) == Mixed(prev, cur, o + Width(t))
  {
    match t
    case Skip(n) =>
    case Lit(y, u, y1, v) =>
      var m := Mixed(prev, cur, o);
      if full {
        FourNew(prev, cur, o, [y, u, y1, v]);
      } else {
        assert Peek(m, o + 1 - ls) == cur[o + 1] && Peek(m, o + 3 - ls) == cur[o + 3];
        FourNew(prev, cur, o, [y, Peek(m, o + 1 - ls), y1, Peek(m, o + 3 - ls)]);
      }
  }

  /** Decoding an encoded line over the previous one gives the current one. */
  lemma {:induction false} LineRoundTrip(ts: seq<Token>, prev: seq<Byte>, cur: seq<Byte>, o: int, end: int,
                                         compressed: bool, ls: int, full: bool)
    requires |prev| == |cur| && 0 <= o && end <= |cur|
    requires LineFor(ts, prev, cur, o, end, compressed, ls, full)
    ensures LineOver(ts, Mixed(prev, cur, o), o, ls, full) == Mixed(prev, cur, end)
    decreases |ts|
  {
    if ts != [] {
      TokenRoundTrip(ts[0], prev, cur, o, end, compressed, ls, full);
      LineRoundTrip(ts[1..], prev, cur, o + Width(ts[0]), end, compressed, ls, full);
    }
  }

  // ------------------------------------------------------------------- frames

  /** The lines encode the frame from o to end. */
  ghost predicate FrameFor(lines: seq<seq<Token>>, prev: seq<Byte>, cur: seq<Byte>, o: int, end: int, compressed: bool,
                           ls: int, sub422: bool, even: bool)
    requires |prev| == |cur| && 0 <= o && end <= |cur| && ls >= 0
    decreases |lines|
  {
    if lines == [] then o == end
    else
      && o + ls <= end && LineFor(lines[0], prev, cur, o, o + ls, compressed, ls, sub422 || even)
      && FrameFor(lines[1..], prev, cur, o + ls, end, compressed, ls, sub422, !even)
  }

  lemma {:induction false} FrameForOk(lines: seq<seq<Token>>, prev: seq<Byte>, cur: seq<Byte>, o: int, end: int,
                                      compressed: bool, ls: int, sub422: bool, even: bool)
    requires |prev| == |cur| && 0 <= o && end <= |cur| && 0 <= ls < 65534
    requires FrameFor(lines, prev, cur, o, end, compressed, ls, sub422, even)
    ensures Sendable(lines, compressed) && Total(lines) == end - o
    decreases |lines|
  {
    if lines != [] {
      LineForOk(lines[0], prev, cur, o, o + ls, compressed, ls, sub422 || even);
      FrameForOk(lines[1..], prev, cur, o + ls, end, compressed, ls, sub422, !even);
    }
  }

  lemma {:induction false} FrameRoundTrip(lines: seq<seq<Token>>, prev: seq<Byte>, cur: seq<Byte>, o: int, end: int,
                                          compressed: bool, ls: int, sub422: bool, even: bool)
    requires |prev| == |cur| && 0 <= o && end <= |cur| && ls >= 0
    requires FrameFor(lines, prev, cur, o, end, compressed, ls, sub422, even)
    ensures PictureOver(lines, Mixed(prev, cur, o), o, ls, sub422, even) == Mixed(prev, cur, end)
    decreases |lines|
  {
    if lines != [] {
      LineForOk(lines[0], prev, cur, o, o + ls, compressed, ls, sub422 || even);
      LineRoundTrip(lines[0], prev, cur, o, o + ls, compressed, ls, sub422 || even);
      FrameRoundTrip(lines[1..], prev, cur, o + ls, end, compressed, ls, sub422, !even);
    }
  }

  function HeaderByte(k: int, roi: Roi, sub422: bool, compressed: bool): Byte {
    if k == 0 then MAGIC_0 else if k == 1 then MAGIC_1
    else if k == 17 then (if sub422 then 1 else 0)
    else if k == 24 then roi.colStart else if k == 25 then roi.colEnd
    else if k == 26 then roi.rowStart else if k == 27 then roi.rowEnd
    else if k == 28 then (if compressed then 1 else 0)
    else 0
  }

  /** The header of a picture without decimation. */
  function Header(roi: Roi, sub422: bool, compressed: bool): seq<Byte> {
    seq(FRAME_HEADER_SIZE, k => HeaderByte(k, roi, sub422, compressed))
  }

  /** The line size of a region of interest. */
  function LineSize(roi: Roi): int { 16 * (roi.colEnd - roi.colStart) }

  lemma HeaderFacts(roi: Roi, sub422: bool, compressed: bool)
    ensures var h := Header(roi, sub422, compressed);
      |h| == FRAME_HEADER_SIZE && HeaderOk(h, roi)
      && CodingOf(h, Yuyv) == Coding(Yuyv, compressed, sub422, false, LineSize(roi))
  {
  }

  /** The lines encode cur over prev; from size on there is nothing to encode. */
  ghost predicate Encodes(lines: seq<seq<Token>>, prev: seq<Byte>, cur: seq<Byte>, roi: Roi, sub422: bool,
                          compressed: bool, size: nat)
  {
    && |prev| == |cur| && LineSize(roi) >= 0 && lines != [] && size <= |cur| && size <= MAX_FRAME_SIZE
    && (forall k :: size <= k < |cur| ==> cur[k] == prev[k])
    && FrameFor(lines, prev, cur, 0, size, compressed, LineSize(roi), sub422, true)
  }

  lemma {:induction false} FrameSize(lines: seq<seq<Token>>, prev: seq<Byte>, cur: seq<Byte>, o: int, end: int,
                                     compressed: bool, ls: int, sub422: bool, even: bool)
    requires |prev| == |cur| && 0 <= o && end <= |cur| && ls >= 0
    requires FrameFor(lines, prev, cur, o, end, compressed, ls, sub422, even)
    ensures end - o == |lines| * ls
    decreases |lines|
  {
    if lines != [] {
      FrameSize(lines[1..], prev, cur, o + ls, end, compressed, ls, sub422, !even);
    }
  }

  /** The round trip, for both subsamplings, compressed or not: decoding a picture
      that encodes cur over prev leaves exactly cur where prev was and returns the
      number of lines times the line size, whatever the buffer holds behind the
      picture. */
  lemma RoundTrip(lines: seq<seq<Token>>, prev: seq<Byte>, cur: seq<Byte>, roi: Roi, sub422: bool, compressed: bool,
                  size: nat, rest: seq<Byte>)
    requires Encodes(lines, prev, cur, roi, sub422, compressed, size)
    ensures Sendable(lines, compressed) && size == |lines| * LineSize(roi)
    ensures var raw := Header(roi, sub422, compressed) + Stream(lines, compressed, sub422, true);
      Picture(raw + rest, |raw|, prev, Yuyv, roi) == Decoded(cur, size)
  {
    FrameForOk(lines, prev, cur, 0, size, compressed, LineSize(roi), sub422, true);
    FrameSize(lines, prev, cur, 0, size, compressed, LineSize(roi), sub422, true);
    HeaderFacts(roi, sub422, compressed);
    var header, stream := Header(roi, sub422, compressed), Stream(lines, compressed, sub422, true);
    Regroup(header, stream, rest);
    PictureDecodes(header + stream + rest, header, lines, rest, prev, roi);
    FrameRoundTrip(lines, prev, cur, 0, size, compressed, LineSize(roi), sub422, true);
    MixedEnds(prev, cur, size);
  }

  lemma MixedEnds(prev: seq<Byte>, cur: seq<Byte>, size: int)
    requires |prev| == |cur| && 0 <= size <= |cur|
    requires forall k :: size <= k < |cur| ==> cur[k] == prev[k]
    ensures Mixed(prev, cur, 0) == prev && Mixed(prev, cur, size) == cur
  {
  }

  // -------------------------------------------------------- what can be encoded

  predicate SamePair(prev: seq<Byte>, cur: seq<Byte>, k: int)
    requires |prev| == |cur| && 0 <= k && k + 4 <= |cur|
  {
    cur[k] == prev[k] && cur[k + 1] == prev[k + 1] && cur[k + 2] == prev[k + 2] && cur[k + 3] == prev[k + 3]
  }

  predicate SameAbove(cur: seq<Byte>, k: int, ls: int)
    requires 0 <= ls <= k < |cur|
  {
    cur[k] == cur[k - ls]
  }

  /** What a line can carry: without compression anything, with it a line in which
      each changed pixel pair starts with an even byte; a line without chroma of
      its own must repeat that of the line above. */
  ghost predicate LineCarried(prev: seq<Byte>, cur: seq<Byte>, o: int, end: int, compressed: bool, ls: int, full: bool)
    requires |prev| == |cur| && 0 <= o && end <= |cur|
  {
    && (compressed ==> forall k {:trigger SamePair(prev, cur, k)} ::
          o <= k && k + 4 <= end && k % 4 == 0 ==> SamePair(prev, cur, k) || cur[k] % 2 == 0)
    && (full || (4 <= ls <= o && forall k {:trigger SameAbove(cur, k, ls)} ::
          o <= k < end && k % 2 == 1 ==> SameAbove(cur, k, ls)))
  }

  ghost predicate FrameCarried(prev: seq<Byte>, cur: seq<Byte>, o: int, end: int, rows: nat, compressed: bool, ls: int,
                               sub422: bool, even: bool)
    requires |prev| == |cur| && 0 <= o && end <= |cur| && ls >= 0
    decreases rows
  {
    if rows == 0 then o == end
    else
      && o + ls <= end && LineCarried(prev, cur, o, o + ls, compressed, ls, sub422 || even)
      && FrameCarried(prev, cur, o + ls, end, rows - 1, compressed, ls, sub422, !even)
  }

  lemma {:induction false} EncodeLine(prev: seq<Byte>, cur: seq<Byte>, o: int, end: int, compressed: bool, ls: int,
                                      full: bool)
    returns (ts: seq<Token>)
    requires |prev| == |cur| && 0 <= o <= end <= |cur| && o % 4 == 0 && end % 4 == 0
    requires LineCarried(prev, cur, o, end, compressed, ls, full)
    ensures LineFor(ts, prev, cur, o, end, compressed, ls, full)
    decreases end - o
  {
    if o == end {
      ts := [];
    } else {
      var t := EncodePair(prev, cur, o, end, compressed, ls, full);
      var rest := EncodeLine(prev, cur, o + 4, end, compressed, ls, full);
      ts := [t] + rest;
      assert ts[1..] == rest;
    }
  }

  lemma OddInPair(o: int)
    requires o % 4 == 0
    ensures (o + 1) % 2 == 1 && (o + 3) % 2 == 1
  {
    OddOf(2 * (o / 4), o + 1);
    OddOf(2 * (o / 4) + 1, o + 3);
  }

  lemma OddOf(q: int, x: int)
    requires x == 2 * q + 1
    ensures x % 2 == 1
  {
  }

  lemma EncodePair(prev: seq<Byte>, cur: seq<Byte>, o: int, end: int, compressed: bool, ls: int, full: bool)
    returns (t: Token)
    requires |prev| == |cur| && 0 <= o && o + 4 <= end <= |cur| && o % 4 == 0
    requires LineCarried(prev, cur, o, end, compressed, ls, full)
    ensures Width(t) == 4 && TokenFor(t, prev, cur, o, end, compressed, ls, full)
    ensures LineCarried(prev, cur, o + 4, end, compressed, ls, full)
  {
    OddInPair(o);
    assert compressed ==> SamePair(prev, cur, o) || cur[o] % 2 == 0;
    assert full || (SameAbove(cur, o + 1, ls) && SameAbove(cur, o + 3, ls));
    t := if compressed && cur[o] % 2 != 0 then Skip(2) else Lit(cur[o], cur[o + 1], cur[o + 2], cur[o + 3]);
  }

  /** A frame whose pairs at multiples of four are unchanged or start even, and whose
      odd 4:2:0 lines repeat the chroma above, has an encoding.  Skips of an odd
      number of pixels, which no encoding made here contains, could carry more. */
  lemma {:induction false} EncodeFrame(prev: seq<Byte>, cur: seq<Byte>, o: int, end: int, rows: nat, compressed: bool,
                                       ls: int, sub422: bool, even: bool)
    returns (lines: seq<seq<Token>>)
    requires |prev| == |cur| && 0 <= o && end <= |cur| && ls >= 0 && o % 4 == 0 && ls % 4 == 0
    requires FrameCarried(prev, cur, o, end, rows, compressed, ls, sub422, even)
    ensures |lines| == rows && FrameFor(lines, prev, cur, o, end, compressed, ls, sub422, even)
    decreases rows
  {
    if rows == 0 {
      lines := [];
    } else {
      var line := EncodeLine(prev, cur, o, o + ls, compressed, ls, sub422 || even);
      var rest := EncodeFrame(prev, cur, o + ls, end, rows - 1, compressed, ls, sub422, !even);
      lines := [line] + rest;
      assert lines[1..] == rest;
    }
  }
}
