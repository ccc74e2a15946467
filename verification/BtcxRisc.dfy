/** Overlay clip helpers of the bt848/bt878/cx2388x risc code generator
    (video/btcx-risc.c): clipping a window against the screen, sorting clips,
    aligning them, and turning them into the skip list of one scan line. */
module BtcxRisc {
  import opened Basics

  /** A v4l2_rect, also used for the rectangle inside a v4l2_clip. */
  datatype Rect = Rect(left: int, top: int, width: int, height: int)

  datatype Skip = Skip(start: int, end: int)

  /** The caller's v4l2_rect, updated in place by btcx_align. */
  class Window {
    var left: int
    var top: int
    var width: int
    var height: int

    constructor (r: Rect)
      ensures Get() == r
    {
      left, top, width, height := r.left, r.top, r.width, r.height;
    }

    function Get(): Rect
      reads this
    {
      Rect(left, top, width, height)
    }
  }

  predicate Covers(c: Rect, x: int, y: int) {
    c.left <= x < c.left + c.width && c.top <= y < c.top + c.height
  }

  /** Some clip of the list hides pixel (x, y). */
  predicate Clipped(clips: seq<Rect>, x: int, y: int) {
    exists i :: 0 <= i < |clips| && Covers(clips[i], x, y)
  }

  predicate OnScreen(swidth: int, sheight: int, win: Rect, x: int, y: int) {
    0 <= win.left + x < swidth && 0 <= win.top + y < sheight
  }

  // ---------------------------------------------------------------- screen

  /** The parts of the window outside the screen, in window coordinates: left,
      right, top, bottom, each only when it is there. */
  function OffScreen(swidth: int, sheight: int, win: Rect): seq<Rect> {
    (if win.left < 0 then [Rect(0, 0, -win.left, win.height)] else [])
    + (if win.left + win.width > swidth
       then [Rect(swidth - win.left, 0, win.left + win.width - swidth, win.height)] else [])
    + (if win.top < 0 then [Rect(0, 0, win.width, -win.top)] else [])
    + (if win.top + win.height > sheight
       then [Rect(0, sheight - win.top, win.width, win.top + win.height - sheight)] else [])
  }

  /** The screen clips hide exactly the window's off-screen pixels. */
  lemma OffScreenExact(swidth: int, sheight: int, win: Rect, x: int, y: int)
    requires 0 <= x < win.width && 0 <= y < win.height
    ensures Clipped(OffScreen(swidth, sheight, win), x, y) <==> !OnScreen(swidth, sheight, win, x, y)
  {
    var s := OffScreen(swidth, sheight, win);
    if win.left + x < 0 {
      assert Covers(s[0], x, y);
    } else if win.left + x >= swidth {
      assert Covers(s[if win.left < 0 then 1 else 0], x, y);
    } else if win.top + y < 0 {
      assert Covers(s[if win.top + win.height > sheight then |s| - 2 else |s| - 1], x, y);
    } else if win.top + y >= sheight {
      assert Covers(s[|s| - 1], x, y);
    }
  }

  /** Appends the screen clips after the n0 clips already in the array. */
  method ScreenClips(swidth: int, sheight: int, win: Window, clips: array<Rect>, n0: nat) returns (n: nat)
    requires n0 + 4 <= clips.Length
    modifies clips
    ensures n == n0 + |OffScreen(swidth, sheight, win.Get())| <= clips.Length
    ensures clips[..n] == old(clips[..n0]) + OffScreen(swidth, sheight, win.Get())
    ensures clips[n..] == old(clips[..])[n..]
  {
    n := n0;
    if win.left < 0 {
      clips[n] := Rect(0, 0, -win.left, win.height);
      n := n + 1;
    }
    if win.left + win.width > swidth {
      var l := swidth - win.left;
      clips[n] := Rect(l, 0, win.width - l, win.height);
      n := n + 1;
    }
    if win.top < 0 {
      clips[n] := Rect(0, 0, win.width, -win.top);
      n := n + 1;
    }
    if win.top + win.height > sheight {
      var t := sheight - win.top;
      clips[n] := Rect(0, t, win.width, win.height - t);
      n := n + 1;
    }
  }

  // ---------------------------------------------------------------- sorting

  predicate SortedByLeft(s: seq<Rect>) {
    forall i, j :: 0 <= i < j < |s| ==> s[i].left <= s[j].left
  }

  /** The clips with one left edge, in order.  A sort is a stable permutation
      exactly when it changes none of these subsequences. */
  function WithLeft(s: seq<Rect>, l: int): seq<Rect> {
    if s == [] then []
    else (if s[0].left == l then [s[0]] else []) + WithLeft(s[1..], l)
  }

  ghost predicate StablePermutation(s: seq<Rect>, t: seq<Rect>) {
    |s| == |t| && forall l :: WithLeft(s, l) == WithLeft(t, l)
  }

  lemma {:induction false} WithLeftConcat(s: seq<Rect>, t: seq<Rect>, l: int)
    ensures WithLeft(s + t, l) == WithLeft(s, l) + WithLeft(t, l)
  {
    if s == [] {
      assert s + t == t;
    } else {
      assert (s + t)[1..] == s[1..] + t;
      WithLeftConcat(s[1..], t, l);
      Regroup(if s[0].left == l then [s[0]] else [], WithLeft(s[1..], l), WithLeft(t, l));
    }
  }

  lemma {:induction false} WithLeftMember(s: seq<Rect>, c: Rect)
    ensures c in WithLeft(s, c.left) <==> c in s
  {
    if s != [] {
      WithLeftMember(s[1..], c);
    }
  }

  /** A stable permutation keeps the same clips, so it hides the same pixels. */
  lemma StableKeepsClipped(s: seq<Rect>, t: seq<Rect>, x: int, y: int)
    requires StablePermutation(s, t)
    ensures Clipped(s, x, y) <==> Clipped(t, x, y)
  {
    forall c: Rect
      ensures c in s <==> c in t
    {
      WithLeftMember(s, c);
      WithLeftMember(t, c);
      assert WithLeft(s, c.left) == WithLeft(t, c.left);
    }
    assert forall i :: 0 <= i < |s| ==> s[i] in t;
    assert forall i :: 0 <= i < |t| ==> t[i] in s;
  }

  /** Exchanging two neighbours with different left edges is stable. */
  lemma SwapStable(s: seq<Rect>, t: seq<Rect>, j: nat)
    requires j + 1 < |s| && s[j].left != s[j + 1].left
    requires t == s[j := s[j + 1]][j + 1 := s[j]]
    ensures StablePermutation(s, t)
  {
    forall l
      ensures WithLeft(s, l) == WithLeft(t, l)
    {
      assert s == s[..j] + ([s[j]] + ([s[j + 1]] + s[j + 2..]));
      assert t == s[..j] + ([s[j + 1]] + ([s[j]] + s[j + 2..]));
      WithLeftConcat(s[..j], [s[j]] + ([s[j + 1]] + s[j + 2..]), l);
      WithLeftConcat(s[..j], [s[j + 1]] + ([s[j]] + s[j + 2..]), l);
      WithLeftConcat([s[j]], [s[j + 1]] + s[j + 2..], l);
      WithLeftConcat([s[j + 1]], [s[j]] + s[j + 2..], l);
      WithLeftConcat([s[j]], s[j + 2..], l);
      WithLeftConcat([s[j + 1]], s[j + 2..], l);
      assert WithLeft([s[j]], l) == [] || WithLeft([s[j + 1]], l) == [];
    }
  }

  /** From place i on the clips are in order and not before any in front of them. */
  predicate SortedBehind(s: seq<Rect>, i: int) {
    forall p, q :: 0 <= p < q < |s| && i < q ==> s[p].left <= s[q].left
  }

  /** None in front of place j is behind the one there. */
  predicate LargestAt(s: seq<Rect>, j: nat)
    requires j < |s|
  {
    forall p :: 0 <= p < j ==> s[p].left <= s[j].left
  }

  predicate SortedUpTo(s: seq<Rect>, j: nat)
    requires j < |s|
  {
    forall p, q :: 0 <= p < q <= j ==> s[p].left <= s[q].left
  }

  lemma SwapSorts(s: seq<Rect>, t: seq<Rect>, i: nat, j: nat)
    requires j <= i && i + 2 <= |s| && s[j].left > s[j + 1].left && t == s[j := s[j + 1]][j + 1 := s[j]]
    requires SortedBehind(s, i + 1) && LargestAt(s, j)
    ensures SortedBehind(t, i + 1) && LargestAt(t, j + 1) && StablePermutation(s, t)
  {
    SwapStable(s, t, j);
    forall p, q | 0 <= p < q < |t| && i + 1 < q
      ensures t[p].left <= t[q].left
    {
      assert t[q] == s[q];
      assert t[p] == s[if p == j then j + 1 else if p == j + 1 then j else p];
    }
  }

  /** One pass of the bubble sort, up to place i + 1; n counts the exchanges. */
  method BubblePass(clips: array<Rect>, nclips: nat, i: nat) returns (n: nat)
    requires i + 2 <= nclips <= clips.Length && SortedBehind(clips[..nclips], i + 1)
    modifies clips
    ensures clips[nclips..] == old(clips[nclips..])
    ensures StablePermutation(old(clips[..nclips]), clips[..nclips])
    ensures SortedBehind(clips[..nclips], i) && (n == 0 ==> SortedByLeft(clips[..nclips]))
  {
    n := 0;
    var j := 0;
    while j <= i
      invariant 0 <= j <= i + 1
      invariant clips[nclips..] == old(clips[nclips..])
      invariant StablePermutation(old(clips[..nclips]), clips[..nclips])
      invariant SortedBehind(clips[..nclips], i + 1) && LargestAt(clips[..nclips], j)
      invariant n == 0 ==> SortedUpTo(clips[..nclips], j)
    {
      if clips[j].left > clips[j + 1].left {
        ghost var was := clips[..nclips];
        var swap := clips[j];
        clips[j] := clips[j + 1];
        clips[j + 1] := swap;
        n := n + 1;
        SwapSorts(was, clips[..nclips], i, j);
      }
      j := j + 1;
    }
    BehindOneMore(clips[..nclips], i);
  }

  lemma BehindOneMore(s: seq<Rect>, i: nat)
    requires i + 1 < |s| && SortedBehind(s, i + 1) && LargestAt(s, i + 1)
    ensures SortedBehind(s, i) && (SortedUpTo(s, i + 1) ==> SortedByLeft(s))
  {
  }

  /** The bubble sort, with its early exit after a pass without exchanges. */
  method SortClips(clips: array<Rect>, nclips: nat)
    requires nclips <= clips.Length
    modifies clips
    ensures SortedByLeft(clips[..nclips])
    ensures StablePermutation(old(clips[..nclips]), clips[..nclips])
    ensures clips[nclips..] == old(clips[nclips..])
  {
    if nclips < 2 {
      return;
    }
    var i := nclips - 2;
    while i >= 0
      invariant -1 <= i <= nclips - 2
      invariant clips[nclips..] == old(clips[nclips..])
      invariant StablePermutation(old(clips[..nclips]), clips[..nclips])
      invariant SortedBehind(clips[..nclips], i + 1)
    {
      var n := BubblePass(clips, nclips, i);
      if n == 0 {
        break;
      }
      i := i - 1;
    }
  }

  // -------------------------------------------------------------- alignment

  /** x & ~mask on a two's complement integer, for mask = 2^k - 1: the low k
      bits cleared one at a time. */
  function AndNotMask(x: int, k: nat): int
    decreases k
  {
    if k == 0 then x else 2 * AndNotMask(x / 2, k - 1)
  }

  /** Clearing the low k bits rounds down to a multiple of 2^k, also for
      negative integers. */
  lemma {:induction false} AndNotMaskFloor(x: int, k: nat)
    ensures AndNotMask(x, k) == x - x % Pow2(k)
    decreases k
  {
    if k > 0 {
      AndNotMaskFloor(x / 2, k - 1);
      HalveMod(x, Pow2(k - 1));
    }
  }

  lemma HalveMod(x: int, p: int)
    requires p > 0
    ensures x % (2 * p) == 2 * (x / 2 % p) + x % 2
  {
    var r := 2 * (x / 2 % p) + x % 2;
    var q := x / 2 / p;
    assert x == 2 * p * q + r by {
      assert x / 2 == p * q + x / 2 % p;
    }
    ModUnique(x, 2 * p, q, r);
  }

  /** The left edge and width btcx_align computes for a window. */
  function AlignWindow(win: Rect, k: nat): Rect {
    var mask := Pow2(k) - 1;
    var nx := AndNotMask(win.left + mask, k);
    var nw := AndNotMask(win.width, k);
    win.(left := nx, width := if nx + nw > win.left + win.width then nw - (mask + 1) else nw)
  }

  function AlignClip(c: Rect, dx: int, k: nat): Rect {
    var mask := Pow2(k) - 1;
    var nx := AndNotMask(c.left - dx, k);
    var nw := AndNotMask(c.width, k);
    c.(left := nx, width := if nx + nw < c.left - dx + c.width then nw + (mask + 1) else nw)
  }

  function AlignClips(clips: seq<Rect>, dx: int, k: nat): (r: seq<Rect>)
    ensures |r| == |clips|
    ensures forall i :: 0 <= i < |clips| ==> r[i] == AlignClip(clips[i], dx, k)
  {
    seq(|clips|, i requires 0 <= i < |clips| => AlignClip(clips[i], dx, k))
  }

  /** Rounds the window inwards and the clips, shifted with it, outwards. */
  method Align(win: Window, clips: array<Rect>, n: nat, k: nat)
    requires n <= clips.Length
    modifies win, clips
    ensures win.Get() == AlignWindow(old(win.Get()), k)
    ensures clips[..n] == AlignClips(old(clips[..n]), win.left - old(win.left), k)
    ensures clips[n..] == old(clips[n..])
  {
    var mask := Pow2(k) - 1;
    var nx := AndNotMask(win.left + mask, k);
    var nw := AndNotMask(win.width, k);
    if nx + nw > win.left + win.width {
      nw := nw - (mask + 1);
    }
    var dx := nx - win.left;
    win.left := nx;
    win.width := nw;
    for i := 0 to n
      invariant win.Get() == AlignWindow(old(win.Get()), k) && dx == win.left - old(win.left)
      invariant forall j :: 0 <= j < i ==> clips[j] == AlignClip(old(clips[j]), dx, k)
      invariant forall j :: i <= j < clips.Length ==> clips[j] == old(clips[j])
    {
      var c := clips[i];
      nx := AndNotMask(c.left - dx, k);
      nw := AndNotMask(c.width, k);
      if nx + nw < c.left - dx + c.width {
        nw := nw + (mask + 1);
      }
      clips[i] := clips[i].(left := nx);
      clips[i] := clips[i].(width := nw);
    }
  }

  /** The aligned window lies in the original and holds every aligned
      sub-window of it, exactly when the original reaches an aligned column;
      otherwise its width comes out as -2^k. */
  lemma AlignWindowLargest(win: Rect, k: nat)
    requires win.width >= 0
    ensures var m: int, r := Pow2(k), AlignWindow(win, k);
      && Multiple(r.left, m) && Multiple(r.width, m) && win.left <= r.left < win.left + m
      && r.top == win.top && r.height == win.height
      && (r.left <= win.left + win.width ==>
            0 <= r.width && r.left + r.width <= win.left + win.width
            && forall l, w :: Multiple(l, m) && Multiple(w, m) && w >= 0
                 && win.left <= l && l + w <= win.left + win.width
                 ==> r.left <= l && l + w <= r.left + r.width)
      && (r.left > win.left + win.width ==> r.width == -m)
    ensures win.width >= Pow2(k) - 1 ==> AlignWindow(win, k).left <= win.left + win.width
  {
    var m: int, r := Pow2(k), AlignWindow(win, k);
    AlignWindowFacts(win, k);
    if r.left <= win.left + win.width {
      forall l, w | Multiple(l, m) && Multiple(w, m) && w >= 0
        && win.left <= l && l + w <= win.left + win.width
        ensures r.left <= l && l + w <= r.left + r.width
      {
        MultipleGap(r.left, l, m);
        MultipleSum(l, w, m);
        MultipleSum(r.left, r.width, m);
        MultipleGap(l + w, r.left + r.width, m);
      }
    }
  }

  lemma AlignWindowFacts(win: Rect, k: nat)
    requires win.width >= 0
    ensures var m: int, r := Pow2(k), AlignWindow(win, k);
      && Multiple(r.left, m) && Multiple(r.width, m) && win.left <= r.left < win.left + m
      && r.left + r.width <= win.left + win.width < r.left + r.width + m
      && (r.left <= win.left + win.width ==> 0 <= r.width)
      && (r.left > win.left + win.width ==> r.width == -m)
  {
    var m := Pow2(k);
    AndNotMaskFloor(win.left + m - 1, k);
    AndNotMaskFloor(win.width, k);
    FloorFacts(win.left + m - 1, m);
    FloorFacts(win.width, m);
    MultipleStep(win.width - win.width % m, m, -1);
    MultipleGap(0, win.width - win.width % m, m);
    MultipleGap(win.width - win.width % m, 0, m);
  }

  lemma FloorFacts(x: int, m: int)
    requires m > 0
    ensures Multiple(x - x % m, m) && x - m < x - x % m <= x
  {
    ModUnique(x - x % m, m, x / m, 0);
  }

  lemma MultipleStep(x: int, m: int, d: int)
    requires m > 0 && Multiple(x, m)
    ensures Multiple(x + d * m, m)
  {
    ModUnique(x + d * m, m, x / m + d, 0);
  }

  /** An aligned clip starts at or left of the shifted clip, and covers it
      exactly when the two remainders fit one alignment unit; otherwise it
      misses less than one unit at the right. */
  lemma AlignClipCovers(c: Rect, dx: int, k: nat)
    ensures var m, r := Pow2(k), AlignClip(c, dx, k);
      var a, b := (c.left - dx) % m, c.width % m;
      && Multiple(r.left, m) && Multiple(r.width, m)
      && c.left - dx - m < r.left <= c.left - dx
      && (c.left - dx + c.width <= r.left + r.width <==> a + b <= m)
      && (a + b > m ==> r.left + r.width == c.left - dx + c.width - (a + b - m) && a + b - m < m)
      && r.left + r.width < c.left - dx + c.width + m
      && r.top == c.top && r.height == c.height
  {
    var m := Pow2(k);
    AndNotMaskFloor(c.left - dx, k);
    AndNotMaskFloor(c.width, k);
    FloorFacts(c.left - dx, m);
    FloorFacts(c.width, m);
    MultipleStep(c.width - c.width % m, m, 1);
  }

  /** Rounding down every left edge keeps the clips in order. */
  lemma AlignKeepsSorted(clips: seq<Rect>, dx: int, k: nat)
    requires SortedByLeft(clips)
    ensures SortedByLeft(AlignClips(clips, dx, k))
  {
    var r, m := AlignClips(clips, dx, k), Pow2(k);
    forall i, j | 0 <= i < j < |clips|
      ensures r[i].left <= r[j].left
    {
      AlignClipCovers(clips[i], dx, k);
      AlignClipCovers(clips[j], dx, k);
      MultipleGap(r[i].left, r[j].left, m);
    }
  }

  // -------------------------------------------------------------- scan line

  predicate Active(c: Rect, line: int) {
    c.top <= line <= c.top + c.height - 1
  }

  /** A clip wholly left of the window, which the sweep passes over. */
  predicate Passed(c: Rect) {
    c.left + c.width <= 0
  }

  /** A clip beyond the right border, at which the sweep stops. */
  predicate Stops(c: Rect, width: int) {
    !Passed(c) && c.left > width
  }

  /** The number of clips before the one that stops the sweep. */
  function Reach(clips: seq<Rect>, width: int): (n: nat)
    ensures n <= |clips|
    ensures n < |clips| ==> Stops(clips[n], width)
    ensures forall i :: 0 <= i < n ==> !Stops(clips[i], width)
  {
    if clips == [] || Stops(clips[0], width) then 0 else 1 + Reach(clips[1..], width)
  }

  function Merge(skips: seq<Skip>, c: Rect, line: int, width: int): seq<Skip> {
    if Passed(c) || !Active(c, line) then skips
    else if skips == [] || c.left > skips[|skips| - 1].end then
      skips + [Skip(Max(c.left, 0), Min(c.left + c.width, width))]
    else
      var last := skips[|skips| - 1];
      skips[..|skips| - 1] + [last.(end := Min(Max(last.end, c.left + c.width), width))]
  }

  function Limit(m: int, c: Rect, line: int): int {
    if Passed(c) || line > c.top + c.height - 1 then m
    else if line < c.top then Min(m, c.top - 1)
    else Min(m, c.top + c.height - 1)
  }

  function MergeAll(clips: seq<Rect>, line: int, width: int): seq<Skip> {
    if clips == [] then []
    else Merge(MergeAll(clips[..|clips| - 1], line, width), clips[|clips| - 1], line, width)
  }

  function LimitAll(clips: seq<Rect>, line: int): int {
    if clips == [] then 9999
    else Limit(LimitAll(clips[..|clips| - 1], line), clips[|clips| - 1], line)
  }

  /** The skip list of a line, and the last line it is promised for. */
  function SkipList(clips: seq<Rect>, line: int, width: int): seq<Skip> {
    MergeAll(clips[..Reach(clips, width)], line, width)
  }

  function MaxLine(clips: seq<Rect>, line: int, width: int): int {
    LimitAll(clips[..Reach(clips, width)], line)
  }

  /** The next section of the skip list is the clip, cut to the window. */
  method NewSkip(c: Rect, width: int, skips: array<Skip>, skip: nat)
    requires skip < skips.Length
    modifies skips
    ensures skips[..skip + 1] == old(skips[..skip]) + [Skip(Max(c.left, 0), Min(c.left + c.width, width))]
  {
    skips[skip] := Skip(c.left, c.left + c.width);
    if skips[skip].start < 0 {
      skips[skip] := skips[skip].(start := 0);
    }
    if skips[skip].end > width {
      skips[skip] := skips[skip].(end := width);
    }
  }

  /** The last section is extended to the end of the clip, within the window. */
  method ExtendSkip(c: Rect, width: int, skips: array<Skip>, last: nat)
    requires last < skips.Length
    modifies skips
    ensures skips[..last + 1] == old(skips[..last])
                                 + [old(skips[last]).(end := Min(Max(old(skips[last]).end, c.left + c.width), width))]
  {
    var end := c.left + c.width;
    if skips[last].end < end {
      skips[last] := skips[last].(end := end);
    }
    if skips[last].end > width {
      skips[last] := skips[last].(end := width);
    }
  }

  method CalcSkips(line: int, width: int, skips: array<Skip>, clips: array<Rect>, nclips: nat)
    returns (nskips: nat, maxy: int)
    requires nclips <= clips.Length && nclips <= skips.Length
    modifies skips
    ensures nskips <= nclips
    ensures skips[..nskips] == SkipList(clips[..nclips], line, width)
    ensures maxy == MaxLine(clips[..nclips], line, width)
  {
    var skip := 0;
    var maxline := 9999;
    var clip := 0;
    ghost var list := clips[..nclips];
    ghost var reach := Reach(list, width);
    while clip < nclips
      invariant 0 <= skip <= clip <= reach
      invariant skips[..skip] == MergeAll(list[..clip], line, width)
      invariant maxline == LimitAll(list[..clip], line)
    {
      var c := clips[clip];
      assert c == list[clip];
      if Stops(c, width) {
        break;
      }
      assert list[..clip + 1][..clip] == list[..clip];
      clip := clip + 1;
      if c.left + c.width <= 0 {
        continue;
      }
      if line > c.top + c.height - 1 {
        continue;
      }
      if line < c.top {
        if maxline > c.top - 1 {
          maxline := c.top - 1;
        }
        continue;
      }
      if maxline > c.top + c.height - 1 {
        maxline := c.top + c.height - 1;
      }
      if skip == 0 || c.left > skips[skip - 1].end {
        NewSkip(c, width, skips, skip);
        skip := skip + 1;
      } else {
        ExtendSkip(c, width, skips, skip - 1);
      }
    }
    nskips := skip;
    maxy := maxline;
  }

  predicate Skipped(skips: seq<Skip>, x: int) {
    exists i :: 0 <= i < |skips| && skips[i].start <= x < skips[i].end
  }

  /** A skip list a hardware program can be made from: sections in the window,
      in order, with at least one pixel between two of them. */
  predicate Canonical(skips: seq<Skip>, width: int) {
    && (forall i :: 0 <= i < |skips| ==> 0 <= skips[i].start <= skips[i].end <= width)
    && (width > 0 ==> forall i :: 0 <= i < |skips| ==> 0 < skips[i].end)
    && (forall i, j :: 0 <= i < j < |skips| ==> skips[i].end < skips[j].start)
  }

  lemma {:induction false} MergeAllCanonical(clips: seq<Rect>, line: int, width: int)
    requires width >= 0
    requires forall i :: 0 <= i < |clips| ==> clips[i].width >= 0 && !Stops(clips[i], width)
    ensures Canonical(MergeAll(clips, line, width), width) && |MergeAll(clips, line, width)| <= |clips|
  {
    if clips != [] {
      var n := |clips| - 1;
      MergeAllCanonical(clips[..n], line, width);
      MergeCanonical(MergeAll(clips[..n], line, width), clips[n], line, width);
    }
  }

  lemma AppendCanonical(s: seq<Skip>, x: Skip, width: int)
    requires Canonical(s, width) && 0 <= x.start <= x.end <= width && (width > 0 ==> x.end > 0)
    requires s != [] ==> s[|s| - 1].end < x.start
    ensures Canonical(s + [x], width)
  {
    var t := s + [x];
    forall i | 0 <= i < |s|
      ensures t[i].end < x.start
    {
      assert t[i] == s[i] && s[i].end <= s[|s| - 1].end;
    }
  }

  lemma MergeCanonical(s: seq<Skip>, c: Rect, line: int, width: int)
    requires width >= 0 && Canonical(s, width) && c.width >= 0 && !Stops(c, width)
    ensures Canonical(Merge(s, c, line, width), width) && |Merge(s, c, line, width)| <= |s| + 1
  {
    var t := Merge(s, c, line, width);
    if t != s {
      var m := |t| - 1;
      assert t == s[..m] + [t[m]];
      AppendCanonical(s[..m], t[m], width);
    }
  }

  /** In whatever order the clips come, the list is canonical. */
  lemma SkipListCanonical(clips: seq<Rect>, line: int, width: int)
    requires width >= 0
    requires forall i :: 0 <= i < |clips| ==> clips[i].width >= 0
    ensures Canonical(SkipList(clips, line, width), width) && |SkipList(clips, line, width)| <= |clips|
  {
    MergeAllCanonical(clips[..Reach(clips, width)], line, width);
  }

  lemma {:induction false} MergeAllExact(clips: seq<Rect>, line: int, width: int, x: int)
    requires SortedByLeft(clips) && 0 <= x < width
    ensures var s := MergeAll(clips, line, width);
      && (Skipped(s, x) <==> Clipped(clips, x, line))
      && (s != [] ==> exists i :: 0 <= i < |clips| && s[|s| - 1].start == Max(clips[i].left, 0))
  {
    if clips != [] {
      var n := |clips| - 1;
      var init, c := clips[..n], clips[n];
      MergeAllExact(init, line, width, x);
      var s, t := MergeAll(init, line, width), MergeAll(clips, line, width);
      assert Clipped(clips, x, line) <==> Clipped(init, x, line) || Covers(c, x, line) by {
        if Clipped(init, x, line) {
          var i :| 0 <= i < n && Covers(init[i], x, line);
          assert Covers(clips[i], x, line);
        }
      }
      if s != [] {
        var i :| 0 <= i < n && s[|s| - 1].start == Max(init[i].left, 0);
        assert clips[i].left <= c.left;
      }
      if t != s {
        var m := |t| - 1;
        assert t[..m] == s[..m];
        assert Skipped(t, x) <==> Skipped(s[..m], x) || t[m].start <= x < t[m].end by {
          SkippedLast(t, x);
        }
        if |s| == |t| {
          SkippedLast(s, x);
        } else {
          assert s[..m] == s;
        }
      }
    }
  }

  lemma SkippedLast(s: seq<Skip>, x: int)
    requires s != []
    ensures Skipped(s, x) <==>
              Skipped(s[..|s| - 1], x) || s[|s| - 1].start <= x < s[|s| - 1].end
  {
    var m := |s| - 1;
    if Skipped(s[..m], x) {
      var i :| 0 <= i < m && s[..m][i].start <= x < s[..m][i].end;
      assert s[i].start <= x < s[i].end;
    }
  }

  /** The skip list hides exactly the pixels under the clips. */
  lemma SkipListExact(clips: seq<Rect>, line: int, width: int, x: int)
    requires SortedByLeft(clips) && 0 <= x < width
    ensures Skipped(SkipList(clips, line, width), x) <==> Clipped(clips, x, line)
  {
    var r := Reach(clips, width);
    MergeAllExact(clips[..r], line, width, x);
    assert forall i :: 0 <= i < r ==> clips[..r][i] == clips[i];
    if Clipped(clips, x, line) {
      var i :| 0 <= i < |clips| && Covers(clips[i], x, line);
      assert i < r && Covers(clips[..r][i], x, line);
    }
  }

  /** The whole pipeline: screen clips behind the user's, sorted, and swept for line
      y.  A pixel of the window lies outside every section of the list exactly when
      it is on the screen and under no user clip. */
  lemma PipelineExact(user: seq<Rect>, swidth: int, sheight: int, win: Rect, sorted: seq<Rect>, x: int, y: int)
    requires StablePermutation(user + OffScreen(swidth, sheight, win), sorted) && SortedByLeft(sorted)
    requires 0 <= x < win.width && 0 <= y < win.height
    ensures !Skipped(SkipList(sorted, y, win.width), x) <==>
            OnScreen(swidth, sheight, win, x, y) && !Clipped(user, x, y)
  {
    var screen := OffScreen(swidth, sheight, win);
    SkipListExact(sorted, y, win.width, x);
    StableKeepsClipped(user + screen, sorted, x, y);
    ClippedConcat(user, screen, x, y);
    OffScreenExact(swidth, sheight, win, x, y);
  }

  lemma ClippedConcat(a: seq<Rect>, b: seq<Rect>, x: int, y: int)
    ensures Clipped(a + b, x, y) <==> Clipped(a, x, y) || Clipped(b, x, y)
  {
    forall i | 0 <= i < |a| && Covers(a[i], x, y) ensures Clipped(a + b, x, y) {
      assert Covers((a + b)[i], x, y);
    }
    forall i | 0 <= i < |b| && Covers(b[i], x, y) ensures Clipped(a + b, x, y) {
      assert Covers((a + b)[|a| + i], x, y);
    }
  }

  lemma {:induction false} LimitAllStable(clips: seq<Rect>, line: int, line': int, width: int)
    requires line <= line' <= LimitAll(clips, line)
    ensures MergeAll(clips, line', width) == MergeAll(clips, line, width)
    ensures (forall i :: 0 <= i < |clips| ==> clips[i].height >= 0) ==>
              LimitAll(clips, line') == LimitAll(clips, line)
  {
    if clips != [] {
      LimitAllStable(clips[..|clips| - 1], line, line', width);
    }
  }

  lemma {:induction false} LimitAllAhead(clips: seq<Rect>, line: int)
    requires line <= 9999
    ensures line <= LimitAll(clips, line)
  {
    if clips != [] {
      LimitAllAhead(clips[..|clips| - 1], line);
    }
  }

  /** Up to the promised line, every line has the same list and makes the same
      promise; whatever the order of the clips. */
  lemma MaxLineKept(clips: seq<Rect>, line: int, line': int, width: int)
    requires line <= line' <= MaxLine(clips, line, width)
    ensures SkipList(clips, line', width) == SkipList(clips, line, width)
    ensures (forall i :: 0 <= i < |clips| ==> clips[i].height >= 0) ==>
              MaxLine(clips, line', width) == MaxLine(clips, line, width)
  {
    LimitAllStable(clips[..Reach(clips, width)], line, line', width);
  }

  /** The promise covers at least the line asked for, up to line 9999. */
  lemma MaxLineAhead(clips: seq<Rect>, line: int, width: int)
    ensures line <= 9999 <==> line <= MaxLine(clips, line, width)
  {
    var s := clips[..Reach(clips, width)];
    if line <= 9999 {
      LimitAllAhead(s, line);
    } else {
      LimitAllCapped(s, line);
    }
  }

  lemma {:induction false} LimitAllCapped(clips: seq<Rect>, line: int)
    ensures LimitAll(clips, line) <= 9999
  {
    if clips != [] {
      LimitAllCapped(clips[..|clips| - 1], line);
    }
  }

  lemma {:induction false} LimitAllTight(clips: seq<Rect>, line: int) returns (i: nat)
    requires line <= LimitAll(clips, line) < 9999
    requires forall j :: 0 <= j < |clips| ==> clips[j].height > 0
    ensures i < |clips| && !Passed(clips[i])
    ensures Active(clips[i], line) != Active(clips[i], LimitAll(clips, line) + 1)
  {
    var n := |clips| - 1;
    if LimitAll(clips[..n], line) == LimitAll(clips, line) {
      i := LimitAllTight(clips[..n], line);
    } else {
      i := n;
    }
  }

  /** The promise is as long as it can be: with no empty clips, one of the clips
      the sweep reaches starts or ends right after the promised line. */
  lemma MaxLineTight(clips: seq<Rect>, line: int, width: int)
    requires line <= MaxLine(clips, line, width) < 9999
    requires forall j :: 0 <= j < |clips| ==> clips[j].height > 0
    ensures exists i :: 0 <= i < Reach(clips, width) && !Passed(clips[i])
              && Active(clips[i], line) != Active(clips[i], MaxLine(clips, line, width) + 1)
  {
    var i := LimitAllTight(clips[..Reach(clips, width)], line);
  }
}
