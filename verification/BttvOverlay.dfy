/** The bttv overlay path over the clip helpers: setup_window clips, sorts and
    aligns (video/bt8xx/bttv-driver.c), and bttv_risc_overlay turns the result
    into one RISC program for the whole window (video/bt8xx/bttv-risc.c). */
module BttvOverlay {
  import opened Basics
  import opened BtcxRisc

  // ----------------------------------------------------------- setup_window

  /** The alignment unit, as a number of bits, for an overlay pixel depth. */
  function AlignBits(depth: nat): nat {
    if depth == 8 || depth == 24 then 2 else if depth == 16 then 1 else 0
  }

  /** The clip list of a window, before sorting. */
  function ClipList(user: seq<Rect>, screen: bool, swidth: int, sheight: int, win: Rect): seq<Rect> {
    if screen then user + OffScreen(swidth, sheight, win) else user
  }

  /** Clips the window, sorts the clips and aligns both, in this order. */
  method SetupWindow(win: Window, clips: array<Rect>, n0: nat, screen: bool, swidth: int, sheight: int,
                     depth: nat)
    returns (n: nat, ghost sorted: seq<Rect>)
    requires clips.Length == n0 + 4
    requires depth in {8, 16, 24, 32}
    modifies win, clips
    ensures n <= clips.Length
    ensures StablePermutation(ClipList(old(clips[..n0]), screen, swidth, sheight, old(win.Get())), sorted)
    ensures SortedByLeft(sorted) && SortedByLeft(clips[..n])
    ensures win.Get() == AlignWindow(old(win.Get()), AlignBits(depth))
    ensures clips[..n] == AlignClips(sorted, win.left - old(win.left), AlignBits(depth))
  {
    n := CompleteClips(win, clips, n0, screen, swidth, sheight);
    SortClips(clips, n);
    sorted := clips[..n];
    AlignForDepth(win, clips, n, depth);
    AlignKeepsSorted(sorted, win.left - old(win.left), AlignBits(depth));
  }

  method CompleteClips(win: Window, clips: array<Rect>, n0: nat, screen: bool, swidth: int, sheight: int)
    returns (n: nat)
    requires clips.Length == n0 + 4
    modifies clips
    ensures n <= clips.Length && clips[..n] == ClipList(old(clips[..n0]), screen, swidth, sheight, win.Get())
  {
    n := n0;
    if screen {
      n := ScreenClips(swidth, sheight, win, clips, n);
    }
  }

  method AlignForDepth(win: Window, clips: array<Rect>, n: nat, depth: nat)
    requires n <= clips.Length && depth in {8, 16, 24, 32}
    modifies win, clips
    ensures win.Get() == AlignWindow(old(win.Get()), AlignBits(depth))
    ensures clips[..n] == AlignClips(old(clips[..n]), win.left - old(win.left), AlignBits(depth))
  {
    if depth == 8 || depth == 24 {
      Align(win, clips, n, 2);
    } else if depth == 16 {
      Align(win, clips, n, 1);
    } else {
      assert clips[..n] == AlignClips(clips[..n], 0, 0);
    }
  }

  /** The unit is the smallest that keeps to whole words of four bytes in memory. */
  lemma UnitIsWord(depth: nat, x: int)
    requires depth in {8, 16, 24, 32}
    ensures depth / 8 * x % 4 == 0 <==> x % Pow2(AlignBits(depth)) == 0
  {
    assert Pow2(1) == 2 * Pow2(0);
    assert Pow2(2) == 2 * Pow2(1);
    WholeWord(depth / 8, x, Pow2(AlignBits(depth)));
  }

  lemma WholeWord(b: int, x: int, m: int)
    requires (b == 1 && m == 4) || (b == 2 && m == 2) || (b == 3 && m == 4) || (b == 4 && m == 1)
    ensures b * x % 4 == 0 <==> x % m == 0
  {
    if b == 4 {
      ModUnique(b * x, 4, x, 0);
    } else if b == 3 {
      ThreeFourths(x);
    } else if b == 2 {
      TwoFourths(x);
    }
  }

  lemma ThreeFourths(x: int)
    ensures 3 * x % 4 == 0 <==> x % 4 == 0
  {
    var q, r := x / 4, x % 4;
    ModUnique(3 * x, 4, 3 * q + if r == 0 then 0 else r - 1, if r == 0 then 0 else 4 - r);
  }

  lemma TwoFourths(x: int)
    ensures 2 * x % 4 == 0 <==> x % 2 == 0
  {
    ModUnique(2 * x, 4, x / 2, 2 * (x % 2));
  }

  /** An aligned clip still covers the clip it came from. */
  predicate RoundsOutwards(c: Rect, dx: int, k: nat) {
    (c.left - dx) % Pow2(k) + c.width % Pow2(k) <= Pow2(k)
  }

  /** A pixel the set-up window leaves uncovered is visible: on the screen and
      under no user clip; provided every clip rounds outwards. */
  lemma SetupShowsOnlyVisible(user: seq<Rect>, screen: bool, swidth: int, sheight: int, win: Rect,
                              sorted: seq<Rect>, k: nat, x: int, y: int)
    requires StablePermutation(ClipList(user, screen, swidth, sheight, win), sorted)
    requires win.width >= 0
    requires var a := AlignWindow(win, k); 0 <= x < a.width && 0 <= y < a.height
    requires var dx := AlignWindow(win, k).left - win.left;
      && (forall i :: 0 <= i < |sorted| ==> RoundsOutwards(sorted[i], dx, k))
      && !Clipped(AlignClips(sorted, dx, k), x, y)
    ensures var dx := AlignWindow(win, k).left - win.left;
      && 0 <= x + dx < win.width && !Clipped(user, x + dx, y)
      && (screen ==> OnScreen(swidth, sheight, win, x + dx, y))
  {
    var dx := AlignWindow(win, k).left - win.left;
    var all := ClipList(user, screen, swidth, sheight, win);
    AlignWindowFacts(win, k);
    forall i | 0 <= i < |sorted|
      ensures Covers(sorted[i], x + dx, y) ==> Covers(AlignClips(sorted, dx, k)[i], x, y)
    {
      AlignClipCovers(sorted[i], dx, k);
    }
    StableKeepsClipped(all, sorted, x + dx, y);
    assert forall i :: 0 <= i < |user| ==> all[i] == user[i];
    if screen {
      OffScreenExact(swidth, sheight, win, x + dx, y);
      var off := OffScreen(swidth, sheight, win);
      assert forall i :: 0 <= i < |off| ==> all[|user| + i] == off[i];
    }
  }

  /** Where no alignment is needed the converse holds as well. */
  lemma SetupExactUnaligned(user: seq<Rect>, swidth: int, sheight: int, win: Rect,
                            sorted: seq<Rect>, x: int, y: int)
    requires StablePermutation(ClipList(user, true, swidth, sheight, win), sorted)
    requires 0 <= x < win.width && 0 <= y < win.height
    ensures AlignWindow(win, 0) == win && AlignClips(sorted, 0, 0) == sorted
    ensures Clipped(sorted, x, y) <==> Clipped(user, x, y) || !OnScreen(swidth, sheight, win, x, y)
  {
    var all, off := ClipList(user, true, swidth, sheight, win), OffScreen(swidth, sheight, win);
    StableKeepsClipped(all, sorted, x, y);
    OffScreenExact(swidth, sheight, win, x, y);
    assert forall i :: 0 <= i < |user| ==> all[i] == user[i];
    assert forall i :: 0 <= i < |off| ==> all[|user| + i] == off[i];
    if Clipped(all, x, y) {
      var i :| 0 <= i < |all| && Covers(all[i], x, y);
      assert if i < |user| then Covers(user[i], x, y) else Covers(off[i - |user|], x, y);
    }
  }

  /** With two-pixel alignment every clip rounds outwards. */
  lemma PairsRoundOutwards(c: Rect, dx: int)
    ensures RoundsOutwards(c, dx, 0) && RoundsOutwards(c, dx, 1)
  {
    assert Pow2(0) == 1;
    assert Pow2(1) == 2 * Pow2(0);
  }

  /** With four-pixel alignment a clip may not: the clip [3, 5) becomes [0, 4),
      and its right column shows. */
  lemma FoursMayShrink()
    ensures var c := Rect(3, 0, 2, 1);
      Covers(c, 4, 0) && !Covers(AlignClip(c, 0, 2), 4, 0) && !RoundsOutwards(c, 0, 2)
  {
    assert Pow2(1) == 2 * Pow2(0);
    assert Pow2(2) == 2 * Pow2(1);
  }

  // ------------------------------------------------------ bttv_risc_overlay

  /** A run of columns to write or to skip. */
  datatype Span = Span(write: bool, start: int, end: int)

  /** One instruction: its start- and end-of-line flags, byte count and, for a
      write, the target address. */
  datatype Instr =
    | Write(sol: bool, eol: bool, bytes: int, addr: int)
    | SkipOver(sol: bool, eol: bool, bytes: int)
  {
    /** Words in the program: a write carries its address unless that is 0. */
    function Words(): nat {
      if Write? && addr != 0 then 2 else 1
    }
  }

  /** The instruction for a span of a line of the given width at addr. */
  function Encode(s: Span, width: int, addr: int, bpp: int): Instr {
    var bytes := Scale(bpp, s.end - s.start);
    if s.write then Write(s.start == 0, s.end == width, bytes, addr + Scale(bpp, s.start))
    else SkipOver(s.start == 0, s.end == width, bytes)
  }

  /** Columns as bytes. */
  function Scale(bpp: int, columns: int): int { bpp * columns }

  function EncodeAll(spans: seq<Span>, width: int, addr: int, bpp: int): seq<Instr> {
    if spans == [] then []
    else EncodeAll(spans[..|spans| - 1], width, addr, bpp) + [Encode(spans[|spans| - 1], width, addr, bpp)]
  }

  lemma {:induction false} EncodeAllAt(spans: seq<Span>, width: int, addr: int, bpp: int)
    ensures var code := EncodeAll(spans, width, addr, bpp);
      |code| == |spans| && forall i :: 0 <= i < |spans| ==> code[i] == Encode(spans[i], width, addr, bpp)
  {
    if spans != [] {
      EncodeAllAt(spans[..|spans| - 1], width, addr, bpp);
    }
  }

  function Words(prog: seq<Instr>): (n: nat) {
    if prog == [] then 0 else Words(prog[..|prog| - 1]) + prog[|prog| - 1].Words()
  }

  function Bytes(prog: seq<Instr>): int {
    if prog == [] then 0 else prog[0].bytes + Bytes(prog[1..])
  }

  function Flatten(codes: seq<seq<Instr>>): seq<Instr> {
    if codes == [] then [] else Flatten(codes[..|codes| - 1]) + codes[|codes| - 1]
  }

  predicate PaintedBy(i: Instr, p: int) { i.Write? && i.addr != 0 && i.addr <= p < i.addr + i.bytes }

  /** The program writes the byte at address p. */
  predicate Paints(prog: seq<Instr>, p: int) {
    exists i :: 0 <= i < |prog| && PaintedBy(prog[i], p)
  }

  /** The spans of a line from column start on, with the skip sections from the
      k-th left: the gaps are written, the sections skipped. */
  function SpansFrom(skips: seq<Skip>, k: nat, start: int, width: int): seq<Span>
    requires Canonical(skips, width) && k <= |skips| && (k < |skips| ==> start <= skips[k].start)
    decreases |skips| - k, width - start
  {
    if start >= width then []
    else if k == |skips| then [Span(true, start, width)]
    else if start < skips[k].start then
      [Span(true, start, skips[k].start)] + SpansFrom(skips, k, skips[k].start, width)
    else
      [Span(false, start, skips[k].end)] + SpansFrom(skips, k + 1, skips[k].end, width)
  }

  const VCR_HACK_LINES: int := 4

  /** A set-up overlay: origin is the address of the window's first pixel. */
  datatype Overlay = Overlay(win: Rect, clips: seq<Rect>, depth: nat, origin: int, pitch: int,
                             vcr: bool, skipEven: bool, skipOdd: bool)
  {
    predicate Valid() {
      win.width > 0 && win.height >= 0 && depth in {8, 16, 24, 32}
      && forall i :: 0 <= i < |clips| ==> clips[i].width >= 0 && clips[i].height >= 0
    }

    function Bpp(): int { depth / 8 }

    /** The address of the first pixel of a line in the frame buffer. */
    function Row(y: nat): int {
      if y == 0 then origin else Row(y - 1) + pitch
    }

    function Address(x: int, y: nat): int {
      Row(y) + Bpp() * x
    }

    /** Lines for which no code is written. */
    predicate Omits(y: int) {
      (vcr && y >= win.height - VCR_HACK_LINES) || (y % 2 == 0 && skipEven) || (y % 2 == 1 && skipOdd)
    }

    /** One line's spans, from a skip list computed afresh. */
    function Spans(y: nat): seq<Span>
      requires Valid()
    {
      SkipListCanonical(clips, y, win.width);
      SpansFrom(SkipList(clips, y, win.width), 0, 0, win.width)
    }

    function Line(y: nat): seq<Instr>
      requires Valid()
    {
      EncodeAll(Spans(y), win.width, Row(y), Bpp())
    }

    function LineCode(y: nat): seq<Instr>
      requires Valid()
    {
      if Omits(y) then [] else Line(y)
    }

    /** The code of each of the first n lines. */
    function Codes(n: nat): seq<seq<Instr>>
      requires Valid()
    {
      if n == 0 then [] else Codes(n - 1) + [LineCode(n - 1)]
    }

    /** The program of the whole window. */
    function Program(): seq<Instr>
      requires Valid()
    {
      Flatten(Codes(win.height))
    }

    function LineCount(): int {
      if skipEven || skipOdd then (win.height + 1) / 2 else win.height
    }

    /** The words allocated: sync, jump and the worst case of every line. */
    function Dwords(): int {
      Estimate(3 * |clips| + 2, LineCount())
    }
  }

  function Estimate(perLine: int, lines: int): int { perLine * lines + 4 }

  lemma {:induction false} WordsConcat(a: seq<Instr>, b: seq<Instr>)
    ensures Words(a + b) == Words(a) + Words(b)
  {
    if b == [] {
      assert a + b == a;
    } else {
      assert (a + b)[..|a + b| - 1] == a + b[..|b| - 1];
      WordsConcat(a, b[..|b| - 1]);
    }
  }

  /** The overlay program and the words allocated for it, which it fits. */
  method RiscOverlay(win: Rect, clips: array<Rect>, nclips: nat, depth: nat, base: int, pitch: int,
                     vcr: bool, skipEven: bool, skipOdd: bool)
    returns (ghost o: Overlay, prog: seq<Instr>, dwords: int)
    requires nclips <= clips.Length
    requires Overlay(win, clips[..nclips], depth, 0, pitch, vcr, skipEven, skipOdd).Valid()
    ensures o == Overlay(win, clips[..nclips], depth, base + pitch * win.top + depth / 8 * win.left, pitch,
                         vcr, skipEven, skipOdd)
    ensures prog == o.Program()
    ensures dwords == o.Dwords() && 2 + Words(prog) + 2 <= dwords
  {
    dwords := (3 * nclips + 2) * (if skipEven || skipOdd then (win.height + 1) / 2 else win.height);
    dwords := dwords + 4;
    var addr := base;
    addr := addr + pitch * win.top;
    addr := addr + depth / 8 * win.left;
    o := Overlay(win, clips[..nclips], depth, addr, pitch, vcr, skipEven, skipOdd);
    prog := ScanLines(Overlay(win, clips[..nclips], depth, addr, pitch, vcr, skipEven, skipOdd), clips, nclips);
    ProgramFits(o);
  }

  /** The skip list at hand, if it serves the line, is that of the line it was
      computed for. */
  predicate Serves(o: Overlay, list: seq<Skip>, asked: int, line: int, maxy: int) {
    line <= maxy ==> asked <= line && maxy == MaxLine(o.clips, asked, o.win.width)
                     && list == SkipList(o.clips, asked, o.win.width)
  }

  /** One scan line of bttv_risc_overlay, with a new skip list if need be. */
  method ScanLine(o: Overlay, clips: array<Rect>, nclips: nat, skips: array<Skip>, nskips0: nat, maxy0: int,
                  line: nat, addr: int, ghost asked0: int)
    returns (code: seq<Instr>, nskips: nat, maxy: int, ghost asked: int)
    requires o.Valid() && nclips <= clips.Length && clips[..nclips] == o.clips && skips.Length == nclips
    requires nskips0 <= nclips && Serves(o, skips[..nskips0], asked0, line, maxy0) && addr == o.Row(line)
    modifies skips
    ensures code == o.Line(line)
    ensures nskips <= nclips && asked <= line && maxy == MaxLine(o.clips, asked, o.win.width)
    ensures skips[..nskips] == SkipList(o.clips, asked, o.win.width)
  {
    nskips, maxy, asked := nskips0, maxy0, asked0;
    if line > maxy {
      nskips, maxy := CalcSkips(line, o.win.width, skips, clips, nclips);
      asked := line;
    } else {
      MaxLineKept(o.clips, asked, line, o.win.width);
    }
    SkipListCanonical(o.clips, line, o.win.width);
    code := RiscLine(skips, nskips, o.win.width, addr, o.depth / 8);
  }

  /** The scan line loop of bttv_risc_overlay.  The skip list of a line serves
      until the line it is promised for; the result is nevertheless the one a
      fresh list for each line gives. */
  method ScanLines(o: Overlay, clips: array<Rect>, nclips: nat) returns (prog: seq<Instr>)
    requires o.Valid() && nclips <= clips.Length && clips[..nclips] == o.clips
    ensures prog == o.Program()
  {
    var skips := new Skip[nclips];
    var nskips := 0;
    prog := [];
    var addr := o.origin;
    var maxy, line := -1, 0;
    ghost var asked := 0;
    while line < o.win.height
      invariant 0 <= line <= o.win.height && 0 <= nskips <= nclips && clips[..nclips] == o.clips
      invariant addr == o.Row(line) && prog == Flatten(o.Codes(line))
      invariant Serves(o, skips[..nskips], asked, line, maxy)
    {
      ghost var code: seq<Instr> := [];
      if !o.Omits(line) {
        var rp;
        rp, nskips, maxy, asked := ScanLine(o, clips, nclips, skips, nskips, maxy, line, addr, asked);
        prog := prog + rp;
        code := rp;
      }
      FlattenNext(o.Codes(line), code);
      line := line + 1;
      addr := addr + o.pitch;
    }
  }

  lemma FlattenNext(codes: seq<seq<Instr>>, code: seq<Instr>)
    ensures Flatten(codes + [code]) == Flatten(codes) + code
  {
    assert (codes + [code])[..|codes|] == codes;
  }

  /** The span that comes next, and the clip behind it. */
  function NextSpan(skips: seq<Skip>, k: nat, start: int, width: int): (r: (Span, nat))
    requires k <= |skips|
    ensures r.1 <= |skips|
  {
    if k == |skips| then (Span(true, start, width), k)
    else if start < skips[k].start then (Span(true, start, skips[k].start), k)
    else (Span(false, start, skips[k].end), k + 1)
  }

  lemma SpanFirst(skips: seq<Skip>, k: nat, start: int, width: int)
    requires Canonical(skips, width) && k <= |skips| && (k < |skips| ==> start <= skips[k].start) && start < width
    ensures var (span, k1) := NextSpan(skips, k, start, width);
      && (k1 < |skips| ==> span.end <= skips[k1].start)
      && SpansFrom(skips, k, start, width) == [span] + SpansFrom(skips, k1, span.end, width)
  {
  }

  lemma SpanTaken(skips: seq<Skip>, k: nat, start: int, width: int, spans: seq<Span>, all: seq<Span>)
    requires Canonical(skips, width) && k <= |skips| && (k < |skips| ==> start <= skips[k].start) && start < width
    requires spans + SpansFrom(skips, k, start, width) == all
    ensures var (span, k1) := NextSpan(skips, k, start, width);
      && (k1 < |skips| ==> span.end <= skips[k1].start)
      && spans + [span] + SpansFrom(skips, k1, span.end, width) == all
  {
    var (span, k1) := NextSpan(skips, k, start, width);
    SpanFirst(skips, k, start, width);
    Regroup(spans, [span], SpansFrom(skips, k1, span.end, width));
  }

  lemma EncodeMore(spans: seq<Span>, span: Span, width: int, addr: int, bpp: int)
    ensures EncodeAll(spans + [span], width, addr, bpp)
         == EncodeAll(spans, width, addr, bpp) + [Encode(span, width, addr, bpp)]
  {
    assert (spans + [span])[..|spans|] == spans;
  }

  /** The inner loop of bttv_risc_overlay: one scan line. */
  method RiscLine(skips: array<Skip>, nskips: nat, width: int, addr: int, bpp: int) returns (code: seq<Instr>)
    requires nskips <= skips.Length && Canonical(skips[..nskips], width)
    ensures code == EncodeAll(SpansFrom(skips[..nskips], 0, 0, width), width, addr, bpp)
  {
    code := [];
    var start, skip := 0, 0;
    ghost var list := skips[..nskips];
    ghost var spans: seq<Span> := [];
    ghost var all := SpansFrom(list, 0, 0, width);
    while start < width
      invariant 0 <= skip <= nskips && (skip < nskips ==> start <= list[skip].start)
      invariant code == EncodeAll(spans, width, addr, bpp)
      invariant spans + SpansFrom(list, skip, start, width) == all
      decreases nskips - skip, width - start
    {
      SpanTaken(list, skip, start, width, spans, all);
      var span;
      if skip >= nskips {
        span := Span(true, start, width);
      } else if start < skips[skip].start {
        span := Span(true, start, skips[skip].start);
      } else {
        span := Span(false, start, skips[skip].end);
        skip := skip + 1;
      }
      EncodeMore(spans, span, width, addr, bpp);
      code := code + [Encode(span, width, addr, bpp)];
      spans := spans + [span];
      start := span.end;
    }
    assert spans == all;
  }

  // ------------------------------------------------------------ memory bound

  /** At most this many words for the spans of a line. */
  function SpanWords(spans: seq<Span>): nat {
    if spans == [] then 0 else (if spans[0].write then 2 else 1) + SpanWords(spans[1..])
  }

  lemma {:induction false} SpansWords(skips: seq<Skip>, k: nat, start: int, width: int)
    requires Canonical(skips, width) && k <= |skips| && (k < |skips| ==> start <= skips[k].start)
    ensures SpanWords(SpansFrom(skips, k, start, width)) <=
              3 * (|skips| - k) + (if k < |skips| && start == skips[k].start then 0 else 2)
    decreases |skips| - k, width - start
  {
    var spans := SpansFrom(skips, k, start, width);
    if start < width && k < |skips| {
      if start < skips[k].start {
        SpansWords(skips, k, skips[k].start, width);
        assert spans[1..] == SpansFrom(skips, k, skips[k].start, width);
      } else {
        SpansWords(skips, k + 1, skips[k].end, width);
        assert spans[1..] == SpansFrom(skips, k + 1, skips[k].end, width);
      }
    }
  }

  lemma {:induction false} EncodedWords(spans: seq<Span>, code: seq<Instr>)
    requires |code| == |spans| && forall i :: 0 <= i < |spans| ==> (code[i].Write? <==> spans[i].write)
    ensures Words(code) <= SpanWords(spans)
  {
    if spans != [] {
      EncodedWords(spans[1..], code[1..]);
      WordsConcat([code[0]], code[1..]);
      assert code == [code[0]] + code[1..];
      assert [code[0]][..0] == [];
    }
  }

  lemma LineWords(o: Overlay, y: nat)
    requires o.Valid()
    ensures Words(o.Line(y)) <= 3 * |o.clips| + 2
  {
    SkipListCanonical(o.clips, y, o.win.width);
    SpansWords(SkipList(o.clips, y, o.win.width), 0, 0, o.win.width);
    EncodeAllAt(o.Spans(y), o.win.width, o.Row(y), o.Bpp());
    EncodedWords(o.Spans(y), o.Line(y));
  }

  /** The lines for which there is code. */
  function Written(codes: seq<seq<Instr>>): nat {
    if codes == [] then 0
    else Written(codes[..|codes| - 1]) + (if codes[|codes| - 1] == [] then 0 else 1)
  }

  lemma {:induction false} WrittenBound(codes: seq<seq<Instr>>, even: bool, odd: bool)
    requires even ==> forall i :: 0 <= i < |codes| && i % 2 == 0 ==> codes[i] == []
    requires odd ==> forall i :: 0 <= i < |codes| && i % 2 == 1 ==> codes[i] == []
    ensures Written(codes) <= (if even || odd then (|codes| + 1) / 2 else |codes|)
    ensures even ==> Written(codes) <= |codes| / 2
  {
    if codes != [] {
      WrittenBound(codes[..|codes| - 1], even, odd);
    }
  }

  lemma {:induction false} FlattenWords(codes: seq<seq<Instr>>, k: nat)
    requires forall i :: 0 <= i < |codes| ==> Words(codes[i]) <= k
    ensures Words(Flatten(codes)) <= k * Written(codes)
  {
    if codes != [] {
      var n := |codes| - 1;
      FlattenWords(codes[..n], k);
      WordsConcat(Flatten(codes[..n]), codes[n]);
      assert k * (Written(codes[..n]) + 1) == k * Written(codes[..n]) + k;
    }
  }

  lemma {:induction false} CodesAt(o: Overlay, n: nat)
    requires o.Valid()
    ensures |o.Codes(n)| == n && forall y: nat :: y < n ==> o.Codes(n)[y] == o.LineCode(y)
  {
    if n > 0 {
      CodesAt(o, n - 1);
    }
  }

  lemma CodesBounded(o: Overlay)
    requires o.Valid()
    ensures var codes := o.Codes(o.win.height);
      && (forall y :: 0 <= y < |codes| ==> Words(codes[y]) <= 3 * |o.clips| + 2)
      && Written(codes) <= o.LineCount()
  {
    var codes := o.Codes(o.win.height);
    CodesAt(o, o.win.height);
    forall y | 0 <= y < |codes|
      ensures Words(codes[y]) <= 3 * |o.clips| + 2
    {
      LineWords(o, y);
    }
    WrittenBound(codes, o.skipEven, o.skipOdd);
  }

  /** The estimate covers sync, every line and the final jump. */
  lemma ProgramFits(o: Overlay)
    requires o.Valid()
    ensures 2 + Words(o.Program()) + 2 <= o.Dwords()
  {
    var codes, k := o.Codes(o.win.height), 3 * |o.clips| + 2;
    CodesBounded(o);
    FlattenWords(codes, k);
    EstimateCovers(k, Words(Flatten(codes)), Written(codes), o.LineCount());
  }

  lemma EstimateCovers(k: nat, words: int, written: int, lines: int)
    requires words <= k * written && written <= lines
    ensures 2 + words + 2 <= Estimate(k, lines)
  {
    MulMonotone(k, written, lines);
  }

  // ------------------------------------------------------------- what it does

  /** Pixel addresses in closed form, for an overlay at base. */
  lemma {:induction false} AddressAt(o: Overlay, base: int, x: int, y: nat)
    requires o.origin == base + o.pitch * o.win.top + o.Bpp() * o.win.left
    ensures o.Address(x, y) == base + o.pitch * (o.win.top + y) + o.Bpp() * (o.win.left + x)
  {
    if y > 0 {
      AddressAt(o, base, x, y - 1);
    }
  }

  /** Spans that cover the columns from start to width once, left to right. */
  predicate Covering(spans: seq<Span>, start: int, width: int) {
    spans != [] && spans[0].start == start
    && if |spans| == 1 then spans[0].end == width
       else start <= spans[0].end && 0 < spans[0].end < width && Covering(spans[1..], spans[0].end, width)
  }

  lemma {:induction false} SpansCover(skips: seq<Skip>, k: nat, start: int, width: int)
    requires Canonical(skips, width) && k <= |skips| && (k < |skips| ==> start <= skips[k].start)
    requires 0 <= start < width
    ensures Covering(SpansFrom(skips, k, start, width), start, width)
    decreases |skips| - k, width - start
  {
    if k < |skips| {
      var spans := SpansFrom(skips, k, start, width);
      var end := if start < skips[k].start then skips[k].start else skips[k].end;
      var k' := if start < skips[k].start then k else k + 1;
      assert spans[1..] == SpansFrom(skips, k', end, width);
      if end < width {
        SpansCover(skips, k', end, width);
      }
    }
  }

  /** None but the first span starts in column 0, none but the last ends the line. */
  lemma {:induction false} CoveringEnds(spans: seq<Span>, start: int, width: int)
    requires Covering(spans, start, width)
    ensures forall i :: 0 <= i < |spans| ==> (spans[i].start == 0 <==> i == 0 && start == 0)
    ensures forall i :: 0 <= i < |spans| ==> (spans[i].end == width <==> i == |spans| - 1)
  {
    if |spans| > 1 {
      CoveringEnds(spans[1..], spans[0].end, width);
      assert forall i :: 1 <= i < |spans| ==> spans[i] == spans[1..][i - 1];
    }
  }

  predicate SpanWrites(spans: seq<Span>, x: int) {
    exists i :: 0 <= i < |spans| && spans[i].write && spans[i].start <= x < spans[i].end
  }

  /** A skip section from the k-th on hides column x. */
  predicate SkippedFrom(skips: seq<Skip>, k: nat, x: int) {
    exists i :: k <= i < |skips| && skips[i].start <= x < skips[i].end
  }

  /** Among the columns not yet done, exactly those outside the skip sections
      are written. */
  lemma {:induction false} SpansExact(skips: seq<Skip>, k: nat, start: int, width: int, x: int)
    requires Canonical(skips, width) && k <= |skips| && (k < |skips| ==> start <= skips[k].start)
    requires x < width
    ensures SpanWrites(SpansFrom(skips, k, start, width), x) <==> start <= x && !SkippedFrom(skips, k, x)
    decreases |skips| - k, width - start
  {
    var spans := SpansFrom(skips, k, start, width);
    if start < width {
      var end := if k == |skips| then width
                 else if start < skips[k].start then skips[k].start else skips[k].end;
      var k' := if k == |skips| || start < skips[k].start then k else k + 1;
      assert spans[1..] == SpansFrom(skips, k', end, width);
      SpansExact(skips, k', end, width, x);
      SpanWritesFirst(spans, x);
    }
  }

  lemma SpanWritesFirst(spans: seq<Span>, x: int)
    requires spans != []
    ensures SpanWrites(spans, x) <==>
              (spans[0].write && spans[0].start <= x < spans[0].end) || SpanWrites(spans[1..], x)
  {
    assert forall i :: 1 <= i < |spans| ==> spans[i] == spans[1..][i - 1];
    if SpanWrites(spans[1..], x) {
      var i :| 0 <= i < |spans| - 1 && spans[1..][i].write && spans[1..][i].start <= x < spans[1..][i].end;
      assert spans[i + 1].write && spans[i + 1].start <= x < spans[i + 1].end;
    }
  }

  lemma ColumnRange(bpp: int, start: int, end: int, x: int)
    requires bpp > 0
    ensures bpp * start <= bpp * x < bpp * start + bpp * (end - start) <==> start <= x < end
  {
    MulOrder(bpp, start, x);
    MulOrder(bpp, end, x);
    assert bpp * start + bpp * (end - start) == bpp * end;
  }

  lemma MulOrder(b: int, u: int, v: int)
    requires b > 0
    ensures b * u <= b * v <==> u <= v
  {
    if u <= v {
      MulMonotone(b, u, v);
    } else {
      MulMonotone(b, v + 1, u);
      assert b * (v + 1) == b * v + b;
    }
  }

  /** One instruction writes the pixel of column x exactly when its span does. */
  lemma EncodeExact(s: Span, width: int, addr: int, bpp: int, x: int)
    requires bpp > 0 && (s.write ==> addr + bpp * s.start != 0)
    ensures var i := Encode(s, width, addr, bpp);
      i.Write? && i.addr != 0 && i.addr <= addr + bpp * x < i.addr + i.bytes
      <==> s.write && s.start <= x < s.end
  {
    ColumnRange(bpp, s.start, s.end, x);
  }

  lemma EncodeAllExact(spans: seq<Span>, width: int, addr: int, bpp: int, x: int)
    requires bpp > 0
    requires forall i :: 0 <= i < |spans| && spans[i].write ==> addr + bpp * spans[i].start != 0
    ensures Paints(EncodeAll(spans, width, addr, bpp), addr + bpp * x) <==> SpanWrites(spans, x)
  {
    var code := EncodeAll(spans, width, addr, bpp);
    EncodeAllAt(spans, width, addr, bpp);
    forall i | 0 <= i < |spans|
      ensures code[i].Write? && code[i].addr != 0
              && code[i].addr <= addr + bpp * x < code[i].addr + code[i].bytes
              <==> spans[i].write && spans[i].start <= x < spans[i].end
    {
      EncodeExact(spans[i], width, addr, bpp, x);
    }
  }

  /** A line's code covers the line once from left to right: its byte counts add
      up to the line, only the first instruction starts the line and only the
      last ends it. */
  ghost predicate Tiles(code: seq<Instr>, bytes: int) {
    && code != [] && Bytes(code) == bytes
    && (forall i :: 0 <= i < |code| ==> (code[i].sol <==> i == 0))
    && (forall i :: 0 <= i < |code| ==> (code[i].eol <==> i == |code| - 1))
  }

  lemma {:induction false} CoveringBytes(spans: seq<Span>, start: int, width: int, code: seq<Instr>, bpp: int)
    requires Covering(spans, start, width) && |code| == |spans|
    requires forall i :: 0 <= i < |spans| ==> code[i].bytes == Scale(bpp, spans[i].end - spans[i].start)
    ensures Bytes(code) == Scale(bpp, width - start)
  {
    if |spans| > 1 {
      CoveringBytes(spans[1..], spans[0].end, width, code[1..], bpp);
      MulSum(bpp, spans[0].end - start, width - spans[0].end);
    } else {
      assert code[1..] == [];
    }
  }

  /** No unclipped pixel of the line has address 0, which the program cannot
      express. */
  ghost predicate Addressed(o: Overlay, y: nat) {
    forall c :: 0 <= c < o.win.width && !Clipped(o.clips, c, y) ==> o.Address(c, y) != 0
  }

  /** The overlay program of a line paints exactly the pixels under no clip. */
  lemma OverlayExact(o: Overlay, x: int, y: nat)
    requires o.Valid() && SortedByLeft(o.clips) && 0 <= x < o.win.width && Addressed(o, y)
    ensures Paints(o.Line(y), o.Address(x, y)) <==> !Clipped(o.clips, x, y)
  {
    var skips, spans := SkipList(o.clips, y, o.win.width), o.Spans(y);
    SkipListCanonical(o.clips, y, o.win.width);
    SpansCover(skips, 0, 0, o.win.width);
    forall i | 0 <= i < |spans| && spans[i].write
      ensures o.Address(spans[i].start, y) != 0
    {
      SpansGap(skips, 0, 0, o.win.width, i);
      SpansExact(skips, 0, 0, o.win.width, spans[i].start);
      SkipListExact(o.clips, y, o.win.width, spans[i].start);
    }
    EncodeAllExact(spans, o.win.width, o.Row(y), o.Bpp(), x);
    SpansExact(skips, 0, 0, o.win.width, x);
    SkipListExact(o.clips, y, o.win.width, x);
  }

  /** A written span is not empty. */
  lemma {:induction false} SpansGap(skips: seq<Skip>, k: nat, start: int, width: int, i: nat)
    requires Canonical(skips, width) && k <= |skips| && (k < |skips| ==> start <= skips[k].start)
    requires 0 <= start && i < |SpansFrom(skips, k, start, width)| && SpansFrom(skips, k, start, width)[i].write
    ensures var s := SpansFrom(skips, k, start, width)[i]; 0 <= s.start < s.end <= width
    decreases |skips| - k, width - start
  {
    if i > 0 {
      if start < skips[k].start {
        SpansGap(skips, k, skips[k].start, width, i - 1);
      } else {
        SpansGap(skips, k + 1, skips[k].end, width, i - 1);
      }
    }
  }

  /** The code of a line covers it once. */
  lemma OverlayTiles(o: Overlay, y: nat)
    requires o.Valid()
    ensures Tiles(o.Line(y), o.Bpp() * o.win.width)
  {
    var spans, code := o.Spans(y), o.Line(y);
    SkipListCanonical(o.clips, y, o.win.width);
    SpansCover(SkipList(o.clips, y, o.win.width), 0, 0, o.win.width);
    EncodeAllAt(spans, o.win.width, o.Row(y), o.Bpp());
    CoveringEnds(spans, 0, o.win.width);
    CoveringBytes(spans, 0, o.win.width, code, o.Bpp());
  }

  // ---------------------------------------------------------- word alignment

  predicate InUnits(skips: seq<Skip>, m: int)
    requires m > 0
  {
    forall i :: 0 <= i < |skips| ==> Multiple(skips[i].start, m) && Multiple(skips[i].end, m)
  }

  predicate ClipsInUnits(clips: seq<Rect>, m: int)
    requires m > 0
  {
    forall i :: 0 <= i < |clips| ==> Multiple(clips[i].left, m) && Multiple(clips[i].left + clips[i].width, m)
  }

  lemma {:induction false} MergeInUnits(clips: seq<Rect>, line: int, width: int, m: int)
    requires m > 0 && Multiple(width, m) && ClipsInUnits(clips, m)
    ensures InUnits(MergeAll(clips, line, width), m)
  {
    if clips != [] {
      MergeInUnits(clips[..|clips| - 1], line, width, m);
      ModUnique(0, m, 0, 0);
    }
  }

  lemma {:induction false} SpansInUnits(skips: seq<Skip>, k: nat, start: int, width: int, m: int, i: nat)
    requires Canonical(skips, width) && k <= |skips| && (k < |skips| ==> start <= skips[k].start)
    requires m > 0 && Multiple(width, m) && Multiple(start, m) && InUnits(skips, m)
    requires i < |SpansFrom(skips, k, start, width)|
    ensures var s := SpansFrom(skips, k, start, width)[i]; Multiple(s.start, m) && Multiple(s.end, m)
    decreases |skips| - k, width - start
  {
    var (span, k1) := NextSpan(skips, k, start, width);
    SpanFirst(skips, k, start, width);
    if i > 0 {
      SpansInUnits(skips, k1, span.end, width, m, i - 1);
    }
  }

  lemma SetUpInUnits(user: seq<Rect>, swidth: int, sheight: int, win: Rect, sorted: seq<Rect>, o: Overlay)
    requires IsSetUp(o, user, swidth, sheight, win, sorted)
    ensures var m: int := Pow2(AlignBits(o.depth));
      Multiple(o.win.left, m) && Multiple(o.win.width, m) && ClipsInUnits(o.clips, m)
  {
    var k := AlignBits(o.depth);
    AlignWindowFacts(win, k);
    forall i | 0 <= i < |o.clips|
      ensures Multiple(o.clips[i].left, Pow2(k)) && Multiple(o.clips[i].left + o.clips[i].width, Pow2(k))
    {
      AlignClipCovers(sorted[i], o.win.left - win.left, k);
      MultipleSum(o.clips[i].left, o.clips[i].width, Pow2(k));
    }
  }

  /** What alignment is for: in the code of a set-up overlay every stretch is whole
      words of four bytes, and is written at whole words from the start of its line,
      which is itself whole words from the start of a line of the screen. */
  lemma WholeWords(user: seq<Rect>, swidth: int, sheight: int, win: Rect, sorted: seq<Rect>, o: Overlay, y: nat, i: nat)
    requires IsSetUp(o, user, swidth, sheight, win, sorted) && i < |o.Line(y)|
    ensures o.Line(y)[i].bytes % 4 == 0 && o.Bpp() * o.win.left % 4 == 0
    ensures o.Line(y)[i].Write? ==> (o.Line(y)[i].addr - o.Row(y)) % 4 == 0
  {
    var m: int := Pow2(AlignBits(o.depth));
    var spans := o.Spans(y);
    SetUpInUnits(user, swidth, sheight, win, sorted, o);
    EncodeAllAt(spans, o.win.width, o.Row(y), o.Bpp());
    LineInUnits(o, y, i, m);
    EncodedWords4(spans[i], o.win.width, o.Row(y), o.depth);
    UnitIsWord(o.depth, o.win.left);
  }

  lemma LineInUnits(o: Overlay, y: nat, i: nat, m: int)
    requires o.Valid() && m > 0 && Multiple(o.win.width, m) && ClipsInUnits(o.clips, m) && i < |o.Spans(y)|
    ensures Multiple(o.Spans(y)[i].start, m) && Multiple(o.Spans(y)[i].end, m)
  {
    SkipListCanonical(o.clips, y, o.win.width);
    MergeInUnits(o.clips[..Reach(o.clips, o.win.width)], y, o.win.width, m);
    ModUnique(0, m, 0, 0);
    SpansInUnits(SkipList(o.clips, y, o.win.width), 0, 0, o.win.width, m, i);
  }

  lemma EncodedWords4(s: Span, width: int, addr: int, depth: nat)
    requires depth in {8, 16, 24, 32}
    requires Multiple(s.start, Pow2(AlignBits(depth))) && Multiple(s.end, Pow2(AlignBits(depth)))
    ensures var i := Encode(s, width, addr, depth / 8); i.bytes % 4 == 0 && (i.Write? ==> (i.addr - addr) % 4 == 0)
  {
    MultipleSum(s.end, s.start, Pow2(AlignBits(depth)));
    UnitIsWord(depth, s.end - s.start);
    UnitIsWord(depth, s.start);
  }

  // -------------------------------------------------------- the whole program

  lemma {:induction false} FlattenPaints(codes: seq<seq<Instr>>, p: int)
    ensures Paints(Flatten(codes), p) <==> exists y :: 0 <= y < |codes| && Paints(codes[y], p)
  {
    if codes != [] {
      var n := |codes| - 1;
      FlattenPaints(codes[..n], p);
      PaintsEither(Flatten(codes[..n]), codes[n], p);
      assert forall y :: 0 <= y < n ==> codes[..n][y] == codes[y];
    }
  }

  lemma PaintsEither(a: seq<Instr>, b: seq<Instr>, p: int)
    ensures Paints(a + b, p) <==> Paints(a, p) || Paints(b, p)
  {
    var c := a + b;
    if Paints(c, p) {
      var i :| 0 <= i < |c| && PaintedBy(c[i], p);
      assert if i < |a| then PaintedBy(a[i], p) else PaintedBy(b[i - |a|], p);
    }
    if Paints(b, p) {
      var i :| 0 <= i < |b| && PaintedBy(b[i], p);
      assert PaintedBy(c[|a| + i], p);
    }
    assert forall i :: 0 <= i < |a| ==> c[i] == a[i];
  }

  /** Byte p belongs to the pixel in column x of line y of the window. */
  predicate PixelByte(o: Overlay, x: int, y: int, p: int) {
    0 <= x < o.win.width && 0 <= y < o.win.height && o.Address(x, y) <= p < o.Address(x, y) + o.Bpp()
  }

  /** The column byte p is in when a written span covers it. */
  lemma ByteColumn(row: int, b: int, start: int, end: int, p: int) returns (x: int)
    requires b > 0 && row + b * start <= p < row + b * start + b * (end - start)
    ensures start <= x < end && row + b * x <= p < row + b * x + b
  {
    x := (p - row) / b;
    assert b * x <= p - row < b * x + b;
    assert b * start + b * (end - start) == b * end;
    assert b * (x + 1) == b * x + b;
    if x < start {
      MulMonotone(b, x + 1, start);
    }
    if end <= x {
      MulMonotone(b, end, x);
    }
  }

  /** A line's code writes whole pixels of that line. */
  lemma LinePixel(o: Overlay, y: nat, p: int) returns (x: int)
    requires o.Valid() && y < o.win.height && Paints(o.Line(y), p)
    ensures PixelByte(o, x, y, p) && Paints(o.Line(y), o.Address(x, y))
  {
    var spans, code := o.Spans(y), o.Line(y);
    SkipListCanonical(o.clips, y, o.win.width);
    EncodeAllAt(spans, o.win.width, o.Row(y), o.Bpp());
    var i :| 0 <= i < |code| && PaintedBy(code[i], p);
    var span := spans[i];
    SpansGap(SkipList(o.clips, y, o.win.width), 0, 0, o.win.width, i);
    x := ByteColumn(o.Row(y), o.Bpp(), span.start, span.end, p);
    ColumnRange(o.Bpp(), span.start, span.end, x);
    assert PaintedBy(code[i], o.Address(x, y));
  }

  lemma LineBytes(o: Overlay, x: int, y: nat, p: int)
    requires o.Valid() && PixelByte(o, x, y, p) && Paints(o.Line(y), o.Address(x, y))
    ensures Paints(o.Line(y), p)
  {
    var spans, code := o.Spans(y), o.Line(y);
    EncodeAllAt(spans, o.win.width, o.Row(y), o.Bpp());
    var i :| 0 <= i < |code| && PaintedBy(code[i], o.Address(x, y));
    ByteInSpan(o.Row(y), o.Bpp(), spans[i].start, spans[i].end, x, p);
    assert PaintedBy(code[i], p);
  }

  lemma ByteInSpan(row: int, b: int, start: int, end: int, x: int, p: int)
    requires b > 0 && row + b * start <= row + b * x < row + b * start + b * (end - start)
    requires row + b * x <= p < row + b * x + b
    ensures row + b * start <= p < row + b * start + b * (end - start)
  {
    ColumnRange(b, start, end, x);
    MulMonotone(b, x + 1, end);
    MulSum(b, x, 1);
    MulSum(b, start, end - start);
  }

  /** The lines an overlay is to show: with the VCR hack not the last four, and of the
      fields those not skipped. */
  predicate InField(o: Overlay, y: int) {
    && (o.vcr ==> y < o.win.height - 4)
    && (o.skipEven ==> y % 2 == 1)
    && (o.skipOdd ==> y % 2 == 0)
  }

  /** Byte p is one of a pixel under no clip, in a line to be shown. */
  ghost predicate ShownByte(o: Overlay, x: int, y: int, p: int) {
    PixelByte(o, x, y, p) && InField(o, y) && !Clipped(o.clips, x, y)
  }

  lemma LineShows(o: Overlay, y: nat, p: int)
    requires o.Valid() && SortedByLeft(o.clips) && y < o.win.height && Addressed(o, y)
    ensures Paints(o.LineCode(y), p) <==> exists x :: ShownByte(o, x, y, p)
  {
    if Paints(o.LineCode(y), p) {
      var x := LinePixel(o, y, p);
      OverlayExact(o, x, y);
      assert ShownByte(o, x, y, p);
    }
    if x :| ShownByte(o, x, y, p) {
      OverlayExact(o, x, y);
      LineBytes(o, x, y, p);
    }
  }

  ghost predicate AllAddressed(o: Overlay) {
    forall y: nat :: y < o.win.height ==> Addressed(o, y)
  }

  /** The program of the whole window writes a byte of memory if and only if it is
      one of a pixel under no clip, in a line to be shown, whatever the
      pitch. */
  lemma ProgramExact(o: Overlay, p: int)
    requires o.Valid() && SortedByLeft(o.clips) && AllAddressed(o)
    ensures Paints(o.Program(), p) <==> exists x, y :: ShownByte(o, x, y, p)
  {
    var codes := o.Codes(o.win.height);
    CodesAt(o, o.win.height);
    FlattenPaints(codes, p);
    if Paints(o.Program(), p) {
      var y :| 0 <= y < |codes| && Paints(codes[y], p);
      LineShows(o, y, p);
      var x :| ShownByte(o, x, y, p);
      assert ShownByte(o, x, y, p);
    }
    if x, y :| ShownByte(o, x, y, p) {
      LineShows(o, y, p);
      assert Paints(codes[y], p);
    }
  }

  // ------------------------------------------------------------------- fields

  /** The same overlay with other lines left out. */
  function ForField(o: Overlay, skipEven: bool, skipOdd: bool): Overlay {
    o.(skipEven := skipEven, skipOdd := skipOdd)
  }

  lemma {:induction false} SameRow(o: Overlay, skipEven: bool, skipOdd: bool, y: nat)
    ensures ForField(o, skipEven, skipOdd).Row(y) == o.Row(y)
  {
    if y > 0 {
      SameRow(o, skipEven, skipOdd, y - 1);
    }
  }

  lemma SameAddressed(o: Overlay, skipEven: bool, skipOdd: bool)
    requires AllAddressed(o)
    ensures AllAddressed(ForField(o, skipEven, skipOdd))
  {
    var t := ForField(o, skipEven, skipOdd);
    forall y: nat | y < t.win.height ensures Addressed(t, y) {
      SameRow(o, skipEven, skipOdd, y);
      assert Addressed(o, y);
      assert forall c :: t.Address(c, y) == o.Address(c, y);
    }
  }

  /** Which bytes the program writes, flag by flag. */
  lemma FieldExact(o: Overlay, skipEven: bool, skipOdd: bool, p: int)
    requires o.Valid() && SortedByLeft(o.clips) && AllAddressed(o)
    ensures Paints(ForField(o, skipEven, skipOdd).Program(), p) <==>
              exists x, y :: PixelByte(o, x, y, p) && !Clipped(o.clips, x, y) && (o.vcr ==> y < o.win.height - 4)
                             && (skipEven ==> y % 2 == 1) && (skipOdd ==> y % 2 == 0)
  {
    var t := ForField(o, skipEven, skipOdd);
    SameAddressed(o, skipEven, skipOdd);
    ProgramExact(t, p);
    forall x, y | 0 <= y ensures PixelByte(t, x, y, p) == PixelByte(o, x, y, p) {
      SameRow(o, skipEven, skipOdd, y);
    }
    if x, y :| ShownByte(t, x, y, p) {
      assert PixelByte(o, x, y, p);
    }
    if x, y :| PixelByte(o, x, y, p) && !Clipped(o.clips, x, y) && (o.vcr ==> y < o.win.height - 4)
               && (skipEven ==> y % 2 == 1) && (skipOdd ==> y % 2 == 0) {
      assert ShownByte(t, x, y, p);
    }
  }

  /** An interlaced overlay: of the two programs, that of the top field writes the
      unclipped pixels of the even lines and that of the bottom field those of the odd
      ones, so that together they write each exactly once. */
  lemma InterlacedOnce(o: Overlay, x: int, y: int, p: int)
    requires o.Valid() && SortedByLeft(o.clips) && AllAddressed(o) && Apart(o) && PixelByte(o, x, y, p)
    ensures var shown := !Clipped(o.clips, x, y) && (o.vcr ==> y < o.win.height - 4);
      && (Paints(ForField(o, false, true).Program(), p) <==> shown && y % 2 == 0)
      && (Paints(ForField(o, true, false).Program(), p) <==> shown && y % 2 == 1)
      && (Paints(ForField(o, false, false).Program(), p) <==> shown)
  {
    FieldExact(o, false, true, p);
    FieldExact(o, true, false, p);
    FieldExact(o, false, false, p);
    forall x1, y1 | PixelByte(o, x1, y1, p) ensures x1 == x && y1 == y {
      OnePixel(o, x, y, x1, y1, p);
    }
  }

  /** Byte p is one of a pixel on the screen, under no user clip, in a line that is
      to be shown; columns count from dx on in the window asked for. */
  ghost predicate VisibleByte(o: Overlay, user: seq<Rect>, swidth: int, sheight: int, win: Rect, x: int, y: int, p: int) {
    var dx := o.win.left - win.left;
    PixelByte(o, x, y, p) && InField(o, y) && OnScreen(swidth, sheight, win, x + dx, y) && !Clipped(user, x + dx, y)
  }

  /** A set-up overlay of a window. */
  ghost predicate IsSetUp(o: Overlay, user: seq<Rect>, swidth: int, sheight: int, win: Rect, sorted: seq<Rect>) {
    && StablePermutation(ClipList(user, true, swidth, sheight, win), sorted) && SortedByLeft(sorted)
    && win.width >= 0 && o.Valid() && o.win == AlignWindow(win, AlignBits(o.depth))
    && o.clips == AlignClips(sorted, o.win.left - win.left, AlignBits(o.depth))
  }

  /** From set-up to hardware: every byte the program writes is one of a visible
      pixel of a line that is not left out, provided the clips round outwards. */
  lemma OverlayPaintsOnlyVisible(user: seq<Rect>, swidth: int, sheight: int, win: Rect, sorted: seq<Rect>,
                                 o: Overlay, p: int) returns (x: int, y: int)
    requires IsSetUp(o, user, swidth, sheight, win, sorted)
    requires forall i :: 0 <= i < |sorted| ==> RoundsOutwards(sorted[i], o.win.left - win.left, AlignBits(o.depth))
    requires AllAddressed(o)
    requires Paints(o.Program(), p)
    ensures VisibleByte(o, user, swidth, sheight, win, x, y, p)
  {
    SortedClips(o, sorted, o.win.left - win.left);
    ProgramExact(o, p);
    x, y :| ShownByte(o, x, y, p);
    ShownIsVisible(user, swidth, sheight, win, sorted, o, x, y, p);
  }

  lemma SortedClips(o: Overlay, sorted: seq<Rect>, dx: int)
    requires SortedByLeft(sorted) && o.clips == AlignClips(sorted, dx, AlignBits(o.depth))
    ensures SortedByLeft(o.clips)
  {
    AlignKeepsSorted(sorted, dx, AlignBits(o.depth));
  }

  lemma ShownIsVisible(user: seq<Rect>, swidth: int, sheight: int, win: Rect, sorted: seq<Rect>, o: Overlay,
                       x: int, y: int, p: int)
    requires IsSetUp(o, user, swidth, sheight, win, sorted)
    requires forall i :: 0 <= i < |sorted| ==> RoundsOutwards(sorted[i], o.win.left - win.left, AlignBits(o.depth))
    requires ShownByte(o, x, y, p)
    ensures VisibleByte(o, user, swidth, sheight, win, x, y, p)
  {
    SetupShowsOnlyVisible(user, true, swidth, sheight, win, sorted, AlignBits(o.depth), x, y);
  }

  /** In the column of this pixel the clip reaches beyond its aligned form. */
  predicate Uncovered(c: Rect, dx: int, k: nat, x: int, y: int) {
    Covers(c, x + dx, y) && !Covers(AlignClip(c, dx, k), x, y)
  }

  /** What alignment uncovers is a stretch at the right end of the clip, of less than
      a unit. */
  lemma UncoveredExact(c: Rect, dx: int, k: nat, x: int, y: int)
    ensures var r := AlignClip(c, dx, k);
      Uncovered(c, dx, k, x, y)
      <==> c.left <= x + dx && Active(c, y) && r.left + r.width <= x < c.left + c.width - dx
  {
    AlignClipCovers(c, dx, k);
  }

  /** The rows do not overlap in memory. */
  predicate Apart(o: Overlay) { o.Bpp() * o.win.width <= o.pitch }

  lemma {:induction false} RowsApart(o: Overlay, y: nat, y1: nat)
    requires o.Valid() && Apart(o) && y < y1
    ensures o.Row(y) + o.Bpp() * o.win.width <= o.Row(y1)
    decreases y1
  {
    MulMonotone(o.Bpp(), 0, o.win.width);
    if y + 1 < y1 {
      RowsApart(o, y, y1 - 1);
    }
  }

  lemma InRow(o: Overlay, x: int, y: int, p: int)
    requires o.Valid() && PixelByte(o, x, y, p)
    ensures o.Row(y) <= p < o.Row(y) + o.Bpp() * o.win.width
  {
    MulMonotone(o.Bpp(), 0, x);
    MulMonotone(o.Bpp(), x + 1, o.win.width);
    MulSum(o.Bpp(), x, 1);
  }

  lemma OnePixel(o: Overlay, x: int, y: int, x1: int, y1: int, p: int)
    requires o.Valid() && Apart(o) && PixelByte(o, x, y, p) && PixelByte(o, x1, y1, p)
    ensures x == x1 && y == y1
  {
    InRow(o, x, y, p);
    InRow(o, x1, y1, p);
    if y < y1 {
      RowsApart(o, y, y1);
    } else if y1 < y {
      RowsApart(o, y1, y);
    }
    SameColumn(o.Bpp(), x, x1, p - o.Row(y));
  }

  lemma SameColumn(b: int, x: int, x1: int, d: int)
    requires b > 0 && b * x <= d < b * x + b && b * x1 <= d < b * x1 + b
    ensures x == x1
  {
    if x < x1 {
      MulMonotone(b, x + 1, x1);
      MulSum(b, x, 1);
    } else if x1 < x {
      MulMonotone(b, x1 + 1, x);
      MulSum(b, x1, 1);
    }
  }

  /** Alignment uncovers this pixel of a line with code, and no other clip hides it. */
  ghost predicate Exposed(o: Overlay, sorted: seq<Rect>, win: Rect, x: int, y: int) {
    var dx := o.win.left - win.left;
    && 0 <= x < o.win.width && 0 <= y < o.win.height && InField(o, y) && !Clipped(o.clips, x, y)
    && exists i :: 0 <= i < |sorted| && Uncovered(sorted[i], dx, AlignBits(o.depth), x, y)
  }

  lemma HiddenExact(user: seq<Rect>, swidth: int, sheight: int, win: Rect, sorted: seq<Rect>, x: int, y: int)
    requires StablePermutation(ClipList(user, true, swidth, sheight, win), sorted)
    requires 0 <= x < win.width && 0 <= y < win.height
    ensures Clipped(sorted, x, y) <==> Clipped(user, x, y) || !OnScreen(swidth, sheight, win, x, y)
  {
    SetupExactUnaligned(user, swidth, sheight, win, sorted, x, y);
  }

  /** A shown pixel is a visible one unless alignment has exposed it. */
  lemma ShownVisible(user: seq<Rect>, swidth: int, sheight: int, win: Rect, sorted: seq<Rect>, o: Overlay,
                     x: int, y: int, p: int)
    requires IsSetUp(o, user, swidth, sheight, win, sorted) && ShownByte(o, x, y, p)
    ensures VisibleByte(o, user, swidth, sheight, win, x, y, p) <==> !Exposed(o, sorted, win, x, y)
  {
    var dx, k := o.win.left - win.left, AlignBits(o.depth);
    AlignWindowFacts(win, k);
    HiddenExact(user, swidth, sheight, win, sorted, x + dx, y);
    forall i | 0 <= i < |sorted|
      ensures Uncovered(sorted[i], dx, k, x, y) <==> Covers(sorted[i], x + dx, y)
    {
      assert o.clips[i] == AlignClip(sorted[i], dx, k);
    }
  }

  /** At any depth: the program writes nothing but visible pixels if and only if
      alignment exposes none. */
  lemma PaintsOnlyVisibleIff(user: seq<Rect>, swidth: int, sheight: int, win: Rect, sorted: seq<Rect>, o: Overlay)
    requires IsSetUp(o, user, swidth, sheight, win, sorted) && AllAddressed(o) && Apart(o)
    ensures (forall p :: Paints(o.Program(), p) ==> exists x, y :: VisibleByte(o, user, swidth, sheight, win, x, y, p))
            <==> forall x, y :: !Exposed(o, sorted, win, x, y)
  {
    SortedClips(o, sorted, o.win.left - win.left);
    forall x, y | Exposed(o, sorted, win, x, y)
      ensures exists p :: Paints(o.Program(), p) && !exists x, y :: VisibleByte(o, user, swidth, sheight, win, x, y, p)
    {
      ExposedPainted(user, swidth, sheight, win, sorted, o, x, y);
    }
    if forall x, y :: !Exposed(o, sorted, win, x, y) {
      forall p | Paints(o.Program(), p)
        ensures exists x, y :: VisibleByte(o, user, swidth, sheight, win, x, y, p)
      {
        ProgramExact(o, p);
        var x, y :| ShownByte(o, x, y, p);
        ShownVisible(user, swidth, sheight, win, sorted, o, x, y, p);
      }
    }
  }

  /** The bytes of an exposed pixel are written and belong to no visible one. */
  lemma ExposedPainted(user: seq<Rect>, swidth: int, sheight: int, win: Rect, sorted: seq<Rect>, o: Overlay,
                       x: int, y: int)
    requires IsSetUp(o, user, swidth, sheight, win, sorted) && AllAddressed(o) && Apart(o)
    requires Exposed(o, sorted, win, x, y)
    ensures var p := o.Address(x, y);
      Paints(o.Program(), p) && !exists x1, y1 :: VisibleByte(o, user, swidth, sheight, win, x1, y1, p)
  {
    var p := o.Address(x, y);
    SortedClips(o, sorted, o.win.left - win.left);
    assert ShownByte(o, x, y, p);
    ProgramExact(o, p);
    ShownVisible(user, swidth, sheight, win, sorted, o, x, y, p);
    if x1, y1 :| VisibleByte(o, user, swidth, sheight, win, x1, y1, p) {
      OnePixel(o, x, y, x1, y1, p);
    }
  }

  /** Alignment uncovers a column of the window. */
  predicate UncoversColumn(c: Rect, dx: int, k: nat, width: int) {
    var r := AlignClip(c, dx, k);
    Max(r.left + r.width, 0) < Min(c.left + c.width - dx, width)
  }

  predicate CodedLine(o: Overlay, c: Rect, y: int) {
    0 <= y < o.win.height && Active(c, y) && InField(o, y)
  }

  /** Of a single clip on a window wholly on the screen alignment exposes pixels if and
      only if it uncovers a column of the window and there is code for a line of it. */
  lemma OneClipExposed(c: Rect, swidth: int, sheight: int, win: Rect, o: Overlay)
    requires IsSetUp(o, [c], swidth, sheight, win, [c]) && c.width >= 0
    ensures (exists x, y :: Exposed(o, [c], win, x, y))
            <==> UncoversColumn(c, o.win.left - win.left, AlignBits(o.depth), o.win.width)
                 && exists y :: CodedLine(o, c, y)
  {
    var dx, k := o.win.left - win.left, AlignBits(o.depth);
    var r := AlignClip(c, dx, k);
    assert o.clips == [r];
    AlignedReaches(c, dx, k);
    if x, y :| Exposed(o, [c], win, x, y) {
      UncoveredExact(c, dx, k, x, y);
      assert CodedLine(o, c, y);
    }
    if y :| UncoversColumn(c, dx, k, o.win.width) && CodedLine(o, c, y) {
      var x := Max(r.left + r.width, 0);
      UncoveredExact(c, dx, k, x, y);
      assert [c][0] == c && !Covers(o.clips[0], x, y);
      assert Exposed(o, [c], win, x, y);
    }
  }

  lemma AlignedReaches(c: Rect, dx: int, k: nat)
    requires c.width >= 0
    ensures var r := AlignClip(c, dx, k); c.left - dx <= r.left + r.width
  {
    AlignClipCovers(c, dx, k);
    Remainder(c.width, Pow2(k));
    Remainder(c.left - dx, Pow2(k));
  }

  lemma Remainder(w: int, m: int)
    requires m > 0
    ensures 0 <= w % m < m && (w >= 0 ==> w % m <= w)
  {
    assert w == m * (w / m) + w % m;
    if 0 <= w {
      MulMonotone(m, 0, w / m);
    }
  }

  /** With a single clip, then, the program writes a byte that belongs to no visible
      pixel exactly in that case. */
  lemma OneClipIff(c: Rect, swidth: int, sheight: int, win: Rect, o: Overlay)
    requires IsSetUp(o, [c], swidth, sheight, win, [c]) && c.width >= 0 && AllAddressed(o) && Apart(o)
    ensures (forall p :: Paints(o.Program(), p) ==> exists x, y :: VisibleByte(o, [c], swidth, sheight, win, x, y, p))
            <==> !(UncoversColumn(c, o.win.left - win.left, AlignBits(o.depth), o.win.width)
                   && exists y :: CodedLine(o, c, y))
  {
    PaintsOnlyVisibleIff([c], swidth, sheight, win, [c], o);
    OneClipExposed(c, swidth, sheight, win, o);
  }

  /** A program that paints a clipped pixel: 8 bits, a window of 8 by 1 pixels at
      address 1, and the clip [3, 5), which becomes [0, 4). */
  lemma FoursPaintClipped()
    ensures var c, win := Rect(3, 0, 2, 1), Rect(0, 0, 8, 1);
      var o := Overlay(win, [Rect(0, 0, 4, 1)], 8, 1, 8, false, false, false);
      && IsSetUp(o, [c], 8, 1, win, [c]) && o.Address(4, 0) == 5 && Covers(c, 4, 0) && Paints(o.Program(), 5)
  {
    var c, win := Rect(3, 0, 2, 1), Rect(0, 0, 8, 1);
    var o := Overlay(win, [Rect(0, 0, 4, 1)], 8, 1, 8, false, false, false);
    FoursAligned();
    assert ClipList([c], true, 8, 1, win) == [c];
    assert AlignClips([c], 0, 2) == o.clips;
    assert !Covers(o.clips[0], 4, 0) && ShownByte(o, 4, 0, 5);
    ProgramExact(o, 5);
  }

  lemma FoursAligned()
    ensures AlignClip(Rect(3, 0, 2, 1), 0, 2) == Rect(0, 0, 4, 1) && AlignWindow(Rect(0, 0, 8, 1), 2) == Rect(0, 0, 8, 1)
  {
    assert Pow2(1) == 2 * Pow2(0);
    assert Pow2(2) == 2 * Pow2(1);
  }

  /** At 32 bits a pixel nothing is rounded, and exactly the bytes of the visible
      pixels are written. */
  lemma OverlayPaintsVisible32(user: seq<Rect>, swidth: int, sheight: int, win: Rect, sorted: seq<Rect>,
                               o: Overlay, p: int)
    requires StablePermutation(ClipList(user, true, swidth, sheight, win), sorted) && SortedByLeft(sorted)
    requires o.Valid() && o.depth == 32 && o.win == win && o.clips == sorted
    requires AllAddressed(o)
    ensures Paints(o.Program(), p) <==> exists x, y :: VisibleByte(o, user, swidth, sheight, win, x, y, p)
  {
    ProgramExact(o, p);
    forall x, y | PixelByte(o, x, y, p)
      ensures ShownByte(o, x, y, p) <==> VisibleByte(o, user, swidth, sheight, win, x, y, p)
    {
      SetupExactUnaligned(user, swidth, sheight, win, sorted, x, y);
    }
  }
}
