/** Flicker control of the CPiA camera driver (video/cpia.c: set_flicker): turning
    it on rounds the exposure to a multiple of the mains period and moves the
    rest into four compensation bytes; turning it off computes it back. */
module CpiaFlicker {
  import opened Basics

  const COMP_RED: Byte := 220
  const COMP_GREEN1: Byte := 214
  const COMP_GREEN2: Byte := 214
  const COMP_BLUE: Byte := 230
  const MAX_EXP: int := 302
  const MAX_EXP_102: int := 255
  const ROUND_UP_EXP_FOR_FLICKER: int := 15

  datatype Command = SetExposure | SetApcor | SetVlOffset

  datatype Gains = Gains(gain1: Byte, gain2: Byte, gain4: Byte, gain8: Byte)

  datatype Exposure = Exposure(gainMode: Byte, expMode: Byte, compMode: Byte, gain: Byte,
                               coarseLo: Byte, coarseHi: Byte,
                               redComp: Byte, green1Comp: Byte, green2Comp: Byte, blueComp: Byte)
  {
    function Coarse(): int { coarseLo + coarseHi * 256 }
  }

  /** The firmware's largest exposure. */
  function Limit(fw102: bool): int {
    if fw102 then MAX_EXP_102 else MAX_EXP
  }

  /** The macro COMPGAIN, with its wrap to a byte. */
  function CompGain(base: Byte, cur: int, new_: int): Byte
    requires base >= 128 && cur >= 0 && new_ > 0
  {
    (128 + Ratio(base - 128, cur, new_)) % 256
  }

  /** b times cur / new_, rounded to the nearest integer. */
  function Ratio(b: int, cur: int, new_: int): int
    requires new_ > 0
  {
    (2 * b * cur + new_) / (2 * new_)
  }

  /** The macro EXP_FROM_COMP, with its wraps. */
  function ExpFromComp(base: Byte, comp: Byte, cur: int): int
    requires base > 128 && cur >= 0
  {
    Scaled(base - 128, (comp + 128) % 256, cur) % 65536
  }

  function Scaled(b: int, g: int, cur: int): int
    requires b > 0
  {
    cur * g / b
  }

  function Lower(e: int, cj: int, limit: int): int
    requires cj > 0
    decreases e
  {
    if e > limit && e >= 0 then Lower(e - cj, cj, limit) else e
  }

  /** The exposure flicker control chooses for the exposure cur. */
  function Chosen(cur: int, cj: int, limit: int): int
    requires cj > 0 && cur >= 0
  {
    var k := (cur + ROUND_UP_EXP_FOR_FLICKER) / cj;
    Lower((if k < 1 then 1 else k) * cj - 1, cj, limit)
  }

  function Halved(e: int, gain: Byte, gainMode: Byte): (int, Byte)
    decreases gainMode - gain
  {
    if e > MAX_EXP && gain < gainMode - 1 then Halved(e / 2, gain + 1, gainMode) else (e, gain)
  }

  /** The exposure the compensation bytes stand for. */
  function Average(x: Exposure): int {
    var c := x.Coarse();
    (ExpFromComp(COMP_RED, x.redComp, c) + ExpFromComp(COMP_GREEN1, x.green1Comp, c)
     + ExpFromComp(COMP_GREEN2, x.green2Comp, c) + ExpFromComp(COMP_BLUE, x.blueComp, c)) / 4
  }

  function WithCoarse(x: Exposure, e: int): Exposure
    requires 0 <= e < 65536
  {
    x.(coarseLo := e % 256, coarseHi := e / 256)
  }

  function WithComps(x: Exposure, r: Byte, g1: Byte, g2: Byte, b: Byte): Exposure {
    x.(redComp := r, green1Comp := g1, green2Comp := g2, blueComp := b)
  }

  /** The exposure settings after turning flicker control on. */
  function On(x: Exposure, cj: int, fw102: bool): Exposure
    requires 1 <= cj <= 255
  {
    var cur := x.Coarse() * Pow2(x.gain);
    var e := Chosen(cur, cj, Limit(fw102));
    ChosenInRange(cur, cj, Limit(fw102));
    var y := WithCoarse(x.(expMode := 2, gain := 0, compMode := if fw102 then 0 else 1), e);
    if cur > e then
      var c := if cur > 2 * e then 2 * e else cur;
      WithComps(y, CompGain(COMP_RED, c, e), CompGain(COMP_GREEN1, c, e), CompGain(COMP_GREEN2, c, e),
                CompGain(COMP_BLUE, c, e))
    else WithComps(y, COMP_RED, COMP_GREEN1, COMP_GREEN2, COMP_BLUE)
  }

  /** The exposure settings after turning flicker control off. */
  function Off(x: Exposure, fw102: bool): Exposure {
    var (e, gain) := Halved(Average(x), x.gain, x.gainMode);
    var capped := if fw102 && e > MAX_EXP_102 then MAX_EXP_102 else if e > MAX_EXP then MAX_EXP else e;
    HalvedInRange(Average(x), x.gain, x.gainMode);
    WithComps(WithCoarse(x.(gain := gain, compMode := 1), capped), COMP_RED, COMP_GREEN1, COMP_GREEN2, COMP_BLUE)
  }

  lemma {:induction false} HalvedInRange(e: int, gain: Byte, gainMode: Byte)
    requires e >= 0
    ensures 0 <= Halved(e, gain, gainMode).0 <= e
    decreases gainMode - gain
  {
    if e > MAX_EXP && gain < gainMode - 1 {
      HalvedInRange(e / 2, gain + 1, gainMode);
    }
  }

  // ---------------------------------------------------------- chosen exposure

  /** e is one less than a multiple of the coarse jump. */
  predicate OnGrid(e: int, cj: int)
    requires cj > 0
  {
    Multiple(e + 1, cj)
  }

  /** Two grid points less than a jump apart in one direction. */
  lemma GridGap(t: int, s: int, cj: int)
    requires cj > 0 && OnGrid(t, cj) && OnGrid(s, cj)
    ensures t < s + cj ==> t <= s
  {
    MultipleGap(t + 1, s + 1, cj);
  }

  lemma {:induction false} LowerIsLargest(e: int, cj: int, limit: int)
    requires cj > 0 && OnGrid(e, cj) && limit >= cj - 1 && e >= cj - 1
    ensures var s := Lower(e, cj, limit);
      OnGrid(s, cj) && cj - 1 <= s <= limit && s <= e
      && forall t :: OnGrid(t, cj) && t <= limit && t <= e ==> t <= s
    decreases e
  {
    if e > limit {
      GridDown(e, cj);
      ModUnique(cj, cj, 1, 0);
      GridGap(e, cj - 1, cj);
      LowerIsLargest(e - cj, cj, limit);
      forall t | OnGrid(t, cj) && t <= limit && t <= e
        ensures t <= e - cj
      {
        GridGap(t, e - cj, cj);
      }
    }
  }

  lemma GridDown(e: int, cj: int)
    requires cj > 0 && OnGrid(e, cj)
    ensures OnGrid(e - cj, cj)
  {
    ModUnique(e - cj + 1, cj, (e + 1) / cj - 1, 0);
  }

  /** The first candidate: the largest grid point below room, or the smallest one. */
  lemma FirstCandidate(room: int, cj: int, k: int, e: int)
    requires cj > 0 && room >= 0
    requires k == (if room / cj < 1 then 1 else room / cj) && e == k * cj - 1
    ensures OnGrid(e, cj) && e >= cj - 1 && (e < room || e == cj - 1)
    ensures forall t :: OnGrid(t, cj) && t < room ==> t <= e
  {
    ModUnique(e + 1, cj, k, 0);
    MulApart(cj, k);
    assert room == cj * (room / cj) + room % cj;
    forall t | OnGrid(t, cj) && t < room
      ensures t <= e
    {
      GridGap(t, e, cj);
    }
  }

  /** The chosen exposure is on the grid, positive and within the limit, and it is
      the largest such value not above the current exposure plus the rounding
      allowance, or the smallest one there is. */
  lemma ChosenInRange(cur: int, cj: int, limit: int)
    requires 1 <= cj <= 255 && cur >= 0 && limit >= MAX_EXP_102
    ensures var s := Chosen(cur, cj, limit);
      && OnGrid(s, cj) && 0 < s <= limit
      && (s < cur + ROUND_UP_EXP_FOR_FLICKER || s == cj - 1)
      && forall t :: OnGrid(t, cj) && t <= limit && t < cur + ROUND_UP_EXP_FOR_FLICKER ==> t <= s
  {
    var room := cur + ROUND_UP_EXP_FOR_FLICKER;
    var k := if room / cj < 1 then 1 else room / cj;
    var e := k * cj - 1;
    FirstCandidate(room, cj, k, e);
    LowerIsLargest(e, cj, limit);
    if cj == 1 {
      ModUnique(2, 1, 2, 0);
      assert OnGrid(1, 1);
    }
  }

  // ---------------------------------------------------------- compensation

  /** What a compensation byte keeps of an exposure of up to twice the base one:
      decoding is off by at most two below and one above. */
  lemma CompRoundTrip(base: Byte, c: int, n: int)
    requires base == COMP_RED || base == COMP_GREEN1 || base == COMP_BLUE
    requires 0 < n <= MAX_EXP && n <= c <= 2 * n
    ensures c - 2 <= ExpFromComp(base, CompGain(base, c, n), n) <= c + 1
  {
    var g, bc, ng := GainOf(base, c, n);
    CompDecodes(base, CompGain(base, c, n), c, n, g, bc, ng);
  }

  lemma CompDecodes(base: Byte, comp: Byte, c: int, n: int, g: int, bc: int, ng: int)
    requires base > 213 && 0 < n <= MAX_EXP && n <= c <= 2 * n
    requires 0 <= g < 256 && comp == (128 + g) % 256
    requires bc == (base - 128) * c && ng == n * g
    requires 2 * ng <= 2 * bc + n < 2 * ng + 2 * n
    ensures c - 2 <= ExpFromComp(base, comp, n) <= c + 1
  {
    var e, be := DecodedOf(base, comp, g, n);
    DecodedBounds(base - 128, c, n, bc, ng, be, e);
    NonNegative(base - 128, be, ng, n, g, e);
  }

  lemma NonNegative(b: int, be: int, ng: int, n: int, g: int, e: int)
    requires b > 0 && n > 0 && g >= 0 && ng == n * g && be == b * e && ng < be + b
    ensures e >= 0
  {
    if e <= -1 {
      MulMonotone(b, e, -1);
      MulMonotone(n, 0, g);
    }
  }

  lemma GainOf(base: Byte, c: int, n: int) returns (g: int, bc: int, ng: int)
    requires base == COMP_RED || base == COMP_GREEN1 || base == COMP_BLUE
    requires 0 < n <= MAX_EXP && n <= c <= 2 * n
    ensures 0 <= g < 256 && CompGain(base, c, n) == (128 + g) % 256
    ensures bc == (base - 128) * c && ng == n * g
    ensures 2 * ng <= 2 * bc + n < 2 * ng + 2 * n
  {
    bc, ng := RatioBounds(base - 128, c, n);
    g := Ratio(base - 128, c, n);
    GainFitsByte(base - 128, c, n, g, bc, ng);
  }

  lemma DecodedOf(base: Byte, comp: Byte, g: int, n: int) returns (e: int, be: int)
    requires base > 128 && n >= 0 && 0 <= g < 256 && comp == (128 + g) % 256
    ensures ExpFromComp(base, comp, n) == e % 65536
    ensures be == (base - 128) * e && be <= n * g < be + (base - 128)
  {
    ByteShift(g);
    e := Scaled(base - 128, g, n);
    be := ScaledBounds(base - 128, g, n);
  }

  lemma ByteShift(g: int)
    requires 0 <= g < 256
    ensures ((128 + g) % 256 + 128) % 256 == g
  {
  }

  lemma DivBounds(a: int, b: int, q: int)
    requires b > 0 && q == a / b
    ensures b * q <= a < b * q + b
  {
  }

  lemma RatioBounds(b: int, c: int, n: int) returns (bc: int, ng: int)
    requires n > 0
    ensures bc == b * c && ng == n * Ratio(b, c, n)
    ensures 2 * ng <= 2 * bc + n < 2 * ng + 2 * n
  {
    bc, ng := b * c, n * Ratio(b, c, n);
    DivBounds(2 * b * c + n, 2 * n, Ratio(b, c, n));
  }

  lemma ScaledBounds(b: int, g: int, n: int) returns (be: int)
    requires b > 0
    ensures be == b * Scaled(b, g, n) && be <= n * g < be + b
  {
    be := b * Scaled(b, g, n);
    DivBounds(n * g, b, Scaled(b, g, n));
  }

  lemma GainFitsByte(b: int, c: int, n: int, g: int, bc: int, ng: int)
    requires 86 <= b <= 102 && 0 < n && n <= c <= 2 * n
    requires bc == b * c && ng == n * g
    requires 2 * ng <= 2 * bc + n < 2 * ng + 2 * n
    ensures 0 <= g < 256
  {
    MulMonotone(c, 0, b);
    MulMonotone(c, b, 102);
    if g >= 256 {
      MulMonotone(n, 256, g);
    } else if g < 0 {
      MulMonotone(n, g, -1);
    }
  }

  lemma DecodedBounds(b: int, c: int, n: int, bc: int, ng: int, be: int, e: int)
    requires 86 <= b && 0 < n <= MAX_EXP
    requires bc == b * c && be == b * e
    requires 2 * ng <= 2 * bc + n < 2 * ng + 2 * n
    requires be <= ng < be + b
    ensures c - 2 <= e <= c + 1
  {
    if e >= c + 2 {
      MulMonotone(b, 2, e - c);
      MulSum(b, e - c, c);
    } else if e <= c - 3 {
      MulMonotone(b, 3, c - e);
      MulSum(b, c - e, e);
    }
  }

  /** Untouched compensation bytes stand for the exposure itself. */
  lemma CompDefault(base: Byte, n: int)
    requires base == COMP_RED || base == COMP_GREEN1 || base == COMP_BLUE
    requires 0 <= n < 65536
    ensures ExpFromComp(base, base, n) == n
  {
    var b := base - 128;
    ModUnique(n * b, b, n, 0);
  }

  /** Turning flicker control on.  Up to the cap of twice the chosen exposure, the
      compensation bytes keep the current exposure within two below and one above;
      an exposure that needs no compensation is kept exactly. */
  lemma OnKeepsExposure(x: Exposure, cj: int, fw102: bool)
    requires 1 <= cj <= 255
    ensures var cur := x.Coarse() * Pow2(x.gain);
      var s := Chosen(cur, cj, Limit(fw102));
      var c := if cur > 2 * s then 2 * s else cur;
      var y := On(x, cj, fw102);
      && y.Coarse() == s && OnGrid(s, cj) && 0 < s <= Limit(fw102) && y.gain == 0
      && y.expMode == 2 && y.gainMode == x.gainMode && y.compMode == (if fw102 then 0 else 1)
      && if cur > s then c - 2 <= Average(y) <= c + 1 else Average(y) == s
  {
    var cur := x.Coarse() * Pow2(x.gain);
    var s := Chosen(cur, cj, Limit(fw102));
    ChosenInRange(cur, cj, Limit(fw102));
    if cur > s {
      var c := if cur > 2 * s then 2 * s else cur;
      CompRoundTrip(COMP_RED, c, s);
      CompRoundTrip(COMP_GREEN1, c, s);
      CompRoundTrip(COMP_BLUE, c, s);
    } else {
      CompDefault(COMP_RED, s);
      CompDefault(COMP_GREEN1, s);
      CompDefault(COMP_BLUE, s);
    }
  }

  /** On, then off.  An exposure that needed no compensation comes back as the
      chosen one, without gain.  Any other comes back, up to the cap of twice the
      chosen one, as a value a within two below and one above: halved into one step
      of gain if it is over the limit of newer firmware and there is a step to
      spare, then cut at the firmware's limit.  On newer firmware with a step to
      spare nothing is cut. */
  lemma OnThenOff(x: Exposure, cj: int, fw102: bool)
    requires 1 <= cj <= 255
    ensures var cur := x.Coarse() * Pow2(x.gain);
      var s := Chosen(cur, cj, Limit(fw102));
      var c := if cur > 2 * s then 2 * s else cur;
      var a := Average(On(x, cj, fw102));
      var z := Off(On(x, cj, fw102), fw102);
      && (cur <= s ==> z.Coarse() == s && z.gain == 0)
      && (cur > s ==>
            c - 2 <= a <= c + 1
            && z.gain == (if a > MAX_EXP && x.gainMode >= 2 then 1 else 0)
            && z.Coarse() == Min(Limit(fw102), if z.gain == 1 then a / 2 else a))
      && (cur > s && !fw102 && x.gainMode >= 2 ==> c - 3 <= z.Coarse() * Pow2(z.gain) <= c + 1)
  {
    var y := On(x, cj, fw102);
    OnKeepsExposure(x, cj, fw102);
    OffAfter(y, Average(y), fw102);
    assert y.gainMode == x.gainMode;
  }

  /** Turning it off with no gain set and an average within reach of one halving. */
  lemma OffAfter(y: Exposure, a: int, fw102: bool)
    requires y.gain == 0 && a == Average(y) && 0 <= a <= 2 * MAX_EXP + 1
    ensures var z := Off(y, fw102);
      && z.gain == (if a > MAX_EXP && y.gainMode >= 2 then 1 else 0)
      && z.Coarse() == Min(Limit(fw102), if z.gain == 1 then a / 2 else a)
      && (!fw102 && y.gainMode >= 2 ==> a - 1 <= z.Coarse() * Pow2(z.gain) <= a)
  {
    HalveOnce(a, y.gainMode);
    assert Pow2(0) == 1 && Pow2(1) == 2 * Pow2(0);
  }

  lemma HalveOnce(a: int, gainMode: Byte)
    requires 0 <= a <= 2 * MAX_EXP + 1
    ensures Halved(a, 0, gainMode) == if a > MAX_EXP && gainMode >= 2 then (a / 2, 1) else (a, 0)
  {
    if a > MAX_EXP && gainMode >= 2 {
      assert Halved(a, 0, gainMode) == Halved(a / 2, 1, gainMode);
    }
  }

  lemma DivTwice(e: int, p: int)
    requires p > 0
    ensures e / 2 / p == e / (2 * p)
  {
    var h := e / 2;
    assert h == p * (h / p) + h % p && e == 2 * h + e % 2;
    MulSum(2, p * (h / p), h % p);
    assert 2 * (p * (h / p)) == (2 * p) * (h / p);
    ModUnique(e, 2 * p, h / p, 2 * (h % p) + e % 2);
  }

  /** n halvings are enough, and no more than needed. */
  predicate HalvedBy(e: int, gain: Byte, gainMode: Byte, f: int, g: Byte, n: nat) {
    && g == gain + n && f == e / Pow2(n) && (f <= MAX_EXP || g >= gainMode - 1)
    && (n > 0 ==> e / Pow2(n - 1) > MAX_EXP && g <= gainMode - 1)
  }

  lemma {:induction false} HalvedEnough(e: int, gain: Byte, gainMode: Byte) returns (n: nat)
    requires e >= 0
    ensures var (f, g) := Halved(e, gain, gainMode); HalvedBy(e, gain, gainMode, f, g, n)
    decreases gainMode - gain
  {
    n := 0;
    if e > MAX_EXP && gain < gainMode - 1 {
      var m := HalvedEnough(e / 2, gain + 1, gainMode);
      n := m + 1;
      DivTwice(e, Pow2(m));
      if m > 0 {
        DivTwice(e, Pow2(m - 1));
      }
    }
  }

  /** Turning it off from whatever settings: the average is halved, a step of gain for
      each time, while it is over the limit of newer firmware and there are steps to
      spare, and then cut at the firmware's limit; the rest is put back. */
  lemma OffHalves(x: Exposure, fw102: bool) returns (n: nat)
    ensures var z := Off(x, fw102);
      && HalvedBy(Average(x), x.gain, x.gainMode, Average(x) / Pow2(n), z.gain, n)
      && z.Coarse() == Min(Limit(fw102), Average(x) / Pow2(n)) && z.compMode == 1
      && z.redComp == 220 && z.green1Comp == 214 && z.green2Comp == 214 && z.blueComp == 230
      && z.gainMode == x.gainMode && z.expMode == x.expMode
  {
    n := HalvedEnough(Average(x), x.gain, x.gainMode);
    HalvedInRange(Average(x), x.gain, x.gainMode);
  }

  // ------------------------------------------------------------- the function

  /** The camera parameters set_flicker updates. */
  class CamParams {
    var fw102: bool
    var flickerMode: Byte
    var disabled: Byte
    var coarseJump: Byte
    var exposure: Exposure
    var apcor: Gains
    var vlOffset: Gains

    constructor (fw102: bool, coarseJump: Byte, exposure: Exposure, apcor: Gains, vlOffset: Gains)
      ensures this.fw102 == fw102 && this.coarseJump == coarseJump && this.exposure == exposure
    {
      this.fw102, this.coarseJump, this.exposure := fw102, coarseJump, exposure;
      this.apcor, this.vlOffset := apcor, vlOffset;
      flickerMode, disabled := 0, 0;
    }

    method SetFlicker(flags: set<Command>, on: bool) returns (flags': set<Command>)
      requires on ==> coarseJump >= 1
      modifies this`flickerMode, this`disabled, this`exposure, this`apcor, this`vlOffset
      ensures exposure == if on then On(old(exposure), coarseJump, fw102) else Off(old(exposure), fw102)
      ensures flickerMode == (if on then 1 else 0) && disabled == (if on then 0 else 1)
      ensures apcor == if on then Gains(0x18, 0x18, 0x16, 0x14) else Gains(0x18, 0x16, 0x24, 0x34)
      ensures vlOffset == Gains(20, 24, 26, 26)
      ensures flags' == flags + {SetApcor, SetVlOffset}
                        + if !on || old(exposure).expMode != 2 then {SetExposure} else {}
    {
      flags' := flags;
      if on {
        flags' := TurnOn(flags');
        apcor := Gains(0x18, 0x18, 0x16, 0x14);
      } else {
        TurnOff();
        flags' := flags' + {SetExposure};
        apcor := Gains(0x18, 0x16, 0x24, 0x34);
      }
      flags' := flags' + {SetApcor};
      vlOffset := Gains(20, 24, 26, 26);
      flags' := flags' + {SetVlOffset};
    }

    method TurnOn(flags: set<Command>) returns (flags': set<Command>)
      requires coarseJump >= 1
      modifies this`flickerMode, this`disabled, this`exposure
      ensures exposure == On(old(exposure), coarseJump, fw102) && flickerMode == 1 && disabled == 0
      ensures flags' == flags + if old(exposure).expMode != 2 then {SetExposure} else {}
    {
      flags' := flags;
      var currentexp := exposure.Coarse();
      var cj := coarseJump;
      flickerMode := 1;
      disabled := 0;
      if exposure.expMode != 2 {
        flags' := flags' + {SetExposure};
      }
      exposure := exposure.(expMode := 2);
      currentexp := currentexp * Pow2(exposure.gain);
      exposure := exposure.(gain := 0);
      var startexp := (currentexp + ROUND_UP_EXP_FOR_FLICKER) / cj;
      if startexp < 1 {
        startexp := 1;
      }
      startexp := startexp * cj - 1;
      var limit := if fw102 then MAX_EXP_102 else MAX_EXP;
      ghost var chosen := Chosen(currentexp, cj, limit);
      ChosenInRange(currentexp, cj, limit);
      while startexp > limit
        invariant Lower(startexp, cj, limit) == chosen
        decreases startexp
      {
        startexp := startexp - cj;
      }
      exposure := exposure.(coarseLo := startexp % 256, coarseHi := startexp / 256);
      if currentexp > startexp {
        if currentexp > 2 * startexp {
          currentexp := 2 * startexp;
        }
        exposure := exposure.(redComp := CompGain(COMP_RED, currentexp, startexp));
        exposure := exposure.(green1Comp := CompGain(COMP_GREEN1, currentexp, startexp));
        exposure := exposure.(green2Comp := CompGain(COMP_GREEN2, currentexp, startexp));
        exposure := exposure.(blueComp := CompGain(COMP_BLUE, currentexp, startexp));
      } else {
        exposure := exposure.(redComp := COMP_RED, green1Comp := COMP_GREEN1);
        exposure := exposure.(green2Comp := COMP_GREEN2, blueComp := COMP_BLUE);
      }
      exposure := exposure.(compMode := if fw102 then 0 else 1);
    }

    /** The halving loop: an exposure the limit does not hold moves into the gain. */
    method Halve(average: int) returns (startexp: int)
      modifies this`exposure
      ensures exposure == old(exposure).(gain := exposure.gain)
      ensures (startexp, exposure.gain) == Halved(average, old(exposure).gain, exposure.gainMode)
    {
      startexp := average;
      while startexp > MAX_EXP && exposure.gain < exposure.gainMode - 1
        invariant exposure == old(exposure).(gain := exposure.gain)
        invariant Halved(startexp, exposure.gain, exposure.gainMode)
               == Halved(average, old(exposure).gain, exposure.gainMode)
        decreases exposure.gainMode - exposure.gain
      {
        startexp := startexp / 2;
        exposure := exposure.(gain := exposure.gain + 1);
      }
    }

    method TurnOff()
      modifies this`flickerMode, this`disabled, this`exposure
      ensures exposure == Off(old(exposure), fw102) && flickerMode == 0 && disabled == 1
    {
      var currentexp := exposure.Coarse();
      flickerMode := 0;
      disabled := 1;
      var startexp := ExpFromComp(COMP_RED, exposure.redComp, currentexp);
      startexp := startexp + ExpFromComp(COMP_GREEN1, exposure.green1Comp, currentexp);
      startexp := startexp + ExpFromComp(COMP_GREEN2, exposure.green2Comp, currentexp);
      startexp := startexp + ExpFromComp(COMP_BLUE, exposure.blueComp, currentexp);
      startexp := startexp / 4;
      ghost var average := startexp;
      startexp := Halve(startexp);
      HalvedInRange(average, old(exposure).gain, exposure.gainMode);
      if fw102 && startexp > MAX_EXP_102 {
        startexp := MAX_EXP_102;
      }
      if startexp > MAX_EXP {
        startexp := MAX_EXP;
      }
      exposure := exposure.(coarseLo := startexp % 256, coarseHi := startexp / 256);
      exposure := exposure.(redComp := COMP_RED, green1Comp := COMP_GREEN1);
      exposure := exposure.(green2Comp := COMP_GREEN2, blueComp := COMP_BLUE);
      exposure := exposure.(compMode := 1);
    }
  }
}
