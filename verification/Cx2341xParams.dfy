/** Setting the controls of the cx2341x encoder (video/cx2341x.c: cx2341x_set_ctrl,
    cx2341x_calc_audio_properties, cx2341x_ext_ctrls), for the controls whose
    settings depend on each other. */
module Cx2341xParams {
  import opened Basics

  const LAYER_2: int := 1
  const AC3: int := 4
  const VBR: int := 0
  const CBR: int := 1
  const MPEG_1: int := 0
  const MPEG_2: int := 1
  const MPEG1_SS: int := 2
  const MPEG1_VCD: int := 4
  const CCITT_J17: int := 2
  const MAX_GOP: int := 34

  datatype Error = EBUSY | EINVAL | ERANGE

  datatype Ctrl = SamplingFreq | Encoding | L2Bitrate | Ac3Bitrate | AudioMode | ModeExtension | Emphasis | Crc
                | BFrames | GopSize | BitrateMode | Bitrate | BitratePeak | StreamType | Unknown

  datatype Params = Params(
    hasAc3: bool, samplingFreq: int, encoding: int, l2Bitrate: int, ac3Bitrate: int, audioMode: int,
    modeExtension: int, emphasis: int, crc: int, audioProperties: int,
    bFrames: int, gopSize: int, bitrateMode: int, bitrate: int, bitratePeak: int, streamType: int, videoEncoding: int)

  /** The range v4l2_ctrl_check enforces, from the query; the AC3 rate is there only
      with AC3. */
  function Check(p: Params, c: Ctrl, v: int): Option<Error> {
    var (lo, hi) := match c
      case SamplingFreq => (0, 2)
      case Encoding => (LAYER_2, if p.hasAc3 then AC3 else LAYER_2)
      case L2Bitrate => (9, 13)
      case Ac3Bitrate => (2, 15)
      case AudioMode => (0, 3)
      case ModeExtension => (0, 3)
      case Emphasis => (0, 2)
      case Crc => (0, 1)
      case BFrames => (0, 33)
      case GopSize => (1, 34)
      case BitrateMode => (VBR, CBR)
      case Bitrate => (0, 27000000)
      case BitratePeak => (0, 27000000)
      case StreamType => (0, 5)
      case Unknown => (0, 0);
    if c == Unknown || (c == Ac3Bitrate && !p.hasAc3) then Some(EINVAL)
    else if v < lo || v > hi then Some(ERANGE)
    else None
  }

  // --------------------------------------------------------------------- GOP

  /** A size rounded up to whole groups of b, or the largest that there may be. */
  function GopFor(b: int, gop: int): int
    requires b > 0
  {
    var up := b * ((gop + b - 1) / b);
    if up <= MAX_GOP then up else b * (MAX_GOP / b)
  }

  lemma UpIsMultiple(b: int, gop: int)
    requires b > 0
    ensures var up := b * ((gop + b - 1) / b); Multiple(up, b) && gop <= up < gop + b
  {
    var q := (gop + b - 1) / b;
    ModUnique(b * q, b, q, 0);
    assert gop + b - 1 == b * q + (gop + b - 1) % b;
  }

  /** g is a whole number of groups of b, positive and within the limit: the smallest
      one not below what was asked for, if that is in the limit, and the largest one
      in the limit otherwise. */
  ghost predicate Best(g: int, b: int, gop: int)
    requires b > 0
  {
    && Multiple(g, b) && 0 < g <= MAX_GOP
    && (forall h :: Multiple(h, b) && gop <= h <= MAX_GOP ==> g <= h)
    && (g < gop ==> forall h :: Multiple(h, b) && h <= MAX_GOP ==> h <= g)
  }

  lemma GopIsBest(b: int, gop: int)
    requires 1 <= b <= MAX_GOP && gop >= 1
    ensures Best(GopFor(b, gop), b, gop)
  {
    var up := b * ((gop + b - 1) / b);
    UpIsMultiple(b, gop);
    var q := MAX_GOP / b;
    var top := b * q;
    ModUnique(top, b, q, 0);
    assert MAX_GOP == b * q + MAX_GOP % b;
    var g := GopFor(b, gop);
    forall h | Multiple(h, b) && gop <= h <= MAX_GOP
      ensures g <= h
    {
      MultipleGap(up, h, b);
    }
    forall h | Multiple(h, b) && h <= MAX_GOP
      ensures h <= top
    {
      MultipleGap(h, top, b);
    }
    MultipleGap(b, top, b) by {
      ModUnique(b, b, 1, 0);
    }
    if top <= 0 {
      ModUnique(b, b, 1, 0);
    }
  }

  /** The loop both controls share: groups are taken off until the size fits. */
  method RoundGop(b: int, gop: int) returns (g: int)
    requires 1 <= b <= MAX_GOP && gop >= 1
    ensures g == GopFor(b, gop)
  {
    g := b * ((gop + b - 1) / b);
    ghost var up, top := g, b * (MAX_GOP / b);
    UpIsMultiple(b, gop);
    ModUnique(top, b, MAX_GOP / b, 0);
    assert MAX_GOP == top + MAX_GOP % b;
    while g > MAX_GOP
      invariant Multiple(g, b) && (up <= MAX_GOP ==> g == up) && (up > MAX_GOP ==> g > MAX_GOP - b)
      decreases g
    {
      ModUnique(g - b, b, g / b - 1, 0);
      g := g - b;
    }
    if up > MAX_GOP {
      MultipleGap(top, g, b);
      MultipleGap(g, top, b);
    }
  }

  // ------------------------------------------------------------------- audio

  /** The audio word: fields that do not overlap as long as the settings are in range,
      so joining them is adding them. */
  function AudioWord(p: Params): int {
    p.samplingFreq + p.audioMode * 0x100 + p.modeExtension * 0x400
    + (if p.emphasis == CCITT_J17 then 3 else p.emphasis) * 0x1000 + p.crc * 0x4000
    + if p.hasAc3 && p.encoding == AC3 then (3 - LAYER_2) * 4 + p.ac3Bitrate * 0x10 + 0x10000000
      else (3 - p.encoding) * 4 + (1 + p.l2Bitrate) * 0x10
  }

  predicate AudioInRange(p: Params) {
    && 0 <= p.samplingFreq <= 2 && 0 <= p.audioMode <= 3 && 0 <= p.modeExtension <= 3
    && 0 <= p.emphasis <= 2 && 0 <= p.crc <= 1 && 9 <= p.l2Bitrate <= 13 && 2 <= p.ac3Bitrate <= 15
    && (p.encoding == LAYER_2 || (p.hasAc3 && p.encoding == AC3))
  }

  /** What the encoder reads from the fields of the word. */
  lemma AudioWordFields(p: Params)
    requires AudioInRange(p)
    ensures var w := AudioWord(p);
      && w % 4 == p.samplingFreq && w / 4 % 4 == 3 - (if p.encoding == AC3 then LAYER_2 else p.encoding)
      && w / 0x100 % 4 == p.audioMode && w / 0x400 % 4 == p.modeExtension
      && w / 0x1000 % 4 == (if p.emphasis == CCITT_J17 then 3 else p.emphasis) && w / 0x4000 % 2 == p.crc
      && w / 0x10000000 == (if p.encoding == AC3 then 1 else 0)
      && w / 0x10 % 0x10 == (if p.encoding == AC3 then p.ac3Bitrate else 1 + p.l2Bitrate)
  {
    var e := if p.encoding == AC3 then 3 - LAYER_2 else 3 - p.encoding;
    var r := if p.encoding == AC3 then p.ac3Bitrate else 1 + p.l2Bitrate;
    var f := if p.emphasis == CCITT_J17 then 3 else p.emphasis;
    WordFields(p.samplingFreq, e, r, p.audioMode, p.modeExtension, f, p.crc, if p.encoding == AC3 then 1 else 0,
               AudioWord(p));
  }

  lemma WordFields(s: int, e: int, r: int, m: int, x: int, f: int, c: int, k: int, w: int)
    requires 0 <= s < 4 && 0 <= e < 4 && 0 <= r < 16 && 0 <= m < 4 && 0 <= x < 4 && 0 <= f < 4 && 0 <= c < 2 && k >= 0
    requires w == s + 4 * e + 0x10 * r + 0x100 * m + 0x400 * x + 0x1000 * f + 0x4000 * c + 0x10000000 * k
    ensures w % 4 == s && w / 4 % 4 == e && w / 0x10 % 0x10 == r && w / 0x100 % 4 == m && w / 0x400 % 4 == x
    ensures w / 0x1000 % 4 == f && w / 0x4000 % 2 == c && w / 0x10000000 == k
  {
    var q14 := c + 0x4000 * k;
    var q12 := f + 4 * q14;
    var q10 := x + 4 * q12;
    var q8 := m + 4 * q10;
    var q4 := r + 0x10 * q8;
    ModUnique(w, 4, e + 4 * q4, s);
    ModUnique(e + 4 * q4, 4, q4, e);
    ModUnique(w, 0x10, q4, s + 4 * e);
    ModUnique(q4, 0x10, q8, r);
    ModUnique(w, 0x100, q8, s + 4 * e + 0x10 * r);
    ModUnique(q8, 4, q10, m);
    ModUnique(w, 0x400, q10, s + 4 * e + 0x10 * r + 0x100 * m);
    ModUnique(q10, 4, q12, x);
    ModUnique(w, 0x1000, q12, s + 4 * e + 0x10 * r + 0x100 * m + 0x400 * x);
    ModUnique(q12, 4, q14, f);
    ModUnique(w, 0x4000, q14, s + 4 * e + 0x10 * r + 0x100 * m + 0x400 * x + 0x1000 * f);
    ModUnique(q14, 2, 0x2000 * k, c);
    ModUnique(w, 0x10000000, k, w - 0x10000000 * k);
  }

  /** Two settings give the same word exactly when they sound the same. */
  lemma AudioWordIsFaithful(p: Params, q: Params)
    requires AudioInRange(p) && AudioInRange(q)
    ensures AudioWord(p) == AudioWord(q) <==>
            (p.samplingFreq == q.samplingFreq && p.audioMode == q.audioMode && p.modeExtension == q.modeExtension
             && p.emphasis == q.emphasis && p.crc == q.crc && p.encoding == q.encoding
             && (if p.encoding == AC3 then p.ac3Bitrate == q.ac3Bitrate else p.l2Bitrate == q.l2Bitrate))
  {
    AudioWordFields(p);
    AudioWordFields(q);
  }

  // ---------------------------------------------------------------- controls

  datatype Outcome = Outcome(err: Option<Error>, p: Params)

  function EncodingOf(streamType: int): int {
    if streamType == MPEG1_SS || streamType == MPEG1_VCD then MPEG_1 else MPEG_2
  }

  /** One control set, of a value in its range. */
  function Set(p: Params, busy: bool, c: Ctrl, v: int): Outcome
    requires c == BFrames ==> v >= 0
    requires c == GopSize ==> p.bFrames >= 0
  {
    match c
    case SamplingFreq => if busy then Outcome(Some(EBUSY), p) else Outcome(None, p.(samplingFreq := v))
    case Encoding =>
      if busy then Outcome(Some(EBUSY), p)
      else if p.hasAc3 && v != LAYER_2 && v != AC3 then Outcome(Some(ERANGE), p)
      else Outcome(None, p.(encoding := v))
    case L2Bitrate => if busy then Outcome(Some(EBUSY), p) else Outcome(None, p.(l2Bitrate := v))
    case Ac3Bitrate =>
      if busy then Outcome(Some(EBUSY), p)
      else if !p.hasAc3 then Outcome(Some(EINVAL), p)
      else Outcome(None, p.(ac3Bitrate := v))
    case AudioMode => Outcome(None, p.(audioMode := v))
    case ModeExtension => Outcome(None, p.(modeExtension := v))
    case Emphasis => Outcome(None, p.(emphasis := v))
    case Crc => Outcome(None, p.(crc := v))
    case BFrames => Outcome(None, p.(bFrames := v, gopSize := GopFor(v + 1, p.gopSize)))
    case GopSize => Outcome(None, p.(gopSize := GopFor(p.bFrames + 1, v)))
    case BitrateMode =>
      if busy then Outcome(Some(EBUSY), p)
      else if p.videoEncoding == MPEG_1 && v != CBR then Outcome(Some(EINVAL), p)
      else Outcome(None, p.(bitrateMode := v))
    case Bitrate => if busy then Outcome(Some(EBUSY), p) else Outcome(None, p.(bitrate := v))
    case BitratePeak => if busy then Outcome(Some(EBUSY), p) else Outcome(None, p.(bitratePeak := v))
    case StreamType =>
      if busy then Outcome(Some(EBUSY), p)
      else
        Outcome(None, p.(streamType := v, videoEncoding := EncodingOf(v),
                         bitrateMode := if EncodingOf(v) == MPEG_1 then CBR else p.bitrateMode))
    case Unknown => Outcome(Some(EINVAL), p)
  }

  /** What cx2341x_get_ctrl reads. */
  function Get(p: Params, c: Ctrl): Option<int> {
    match c
    case SamplingFreq => Some(p.samplingFreq)
    case Encoding => Some(p.encoding)
    case L2Bitrate => Some(p.l2Bitrate)
    case Ac3Bitrate => Some(p.ac3Bitrate)
    case AudioMode => Some(p.audioMode)
    case ModeExtension => Some(p.modeExtension)
    case Emphasis => Some(p.emphasis)
    case Crc => Some(p.crc)
    case BFrames => Some(p.bFrames)
    case GopSize => Some(p.gopSize)
    case BitrateMode => Some(p.bitrateMode)
    case Bitrate => Some(p.bitrate)
    case BitratePeak => Some(p.bitratePeak)
    case StreamType => Some(p.streamType)
    case Unknown => None
  }

  /** The controls that may be set while the encoder is busy. */
  predicate AnyTime(c: Ctrl) {
    c == AudioMode || c == ModeExtension || c == Emphasis || c == Crc || c == BFrames || c == GopSize
  }

  /** Setting c to v, in the middle of a stream of type ty or not, is refused with e. */
  predicate Refused(ty: int, busy: bool, c: Ctrl, v: int, e: Error) {
    match e
    case EBUSY => busy && !AnyTime(c)
    case EINVAL => !busy && c == BitrateMode && v == VBR && (ty == MPEG1_SS || ty == MPEG1_VCD)
    case ERANGE => !busy && c == Encoding && v != LAYER_2 && v != AC3
  }

  /** Setting c may also change what d reads. */
  predicate Drags(c: Ctrl, d: Ctrl) { (c == BFrames && d == GopSize) || (c == StreamType && d == BitrateMode) }

  predicate Sets(c: Ctrl, d: Ctrl) { c == d || Drags(c, d) }

  /** What every call keeps. */
  predicate Consistent(p: Params) {
    && 0 <= p.bFrames <= 33 && 0 < p.gopSize <= MAX_GOP && Multiple(p.gopSize, p.bFrames + 1)
    && p.videoEncoding == EncodingOf(p.streamType) && (p.videoEncoding == MPEG_1 ==> p.bitrateMode == CBR)
    && AudioInRange(p)
  }

  lemma SetIsConsistent(p: Params, busy: bool, c: Ctrl, v: int)
    requires Consistent(p) && Check(p, c, v) == None
    ensures Consistent(Set(p, busy, c, v).p)
  {
    if c == BFrames {
      GopIsBest(v + 1, p.gopSize);
    } else if c == GopSize {
      GopIsBest(p.bFrames + 1, v);
    }
  }

  /** Setting a control in its range.  It is refused exactly for the reasons there
      are, and then changes nothing.  Otherwise the value reads back, a group size as
      the best there is; every other control reads as before, except the group size
      behind the number of B-frames and the rate mode behind an MPEG-1 stream. */
  lemma SetReadsBack(p: Params, busy: bool, c: Ctrl, v: int, o: Outcome)
    requires Consistent(p) && Check(p, c, v) == None && o == Set(p, busy, c, v)
    ensures forall e :: o.err == Some(e) <==> Refused(p.streamType, busy, c, v, e)
    ensures o.err.Some? ==> o.p == p
    ensures o.err.None? && c != GopSize ==> Get(o.p, c) == Some(v)
    ensures o.err.None? && c == GopSize ==> Best(o.p.gopSize, p.bFrames + 1, v)
    ensures o.err.None? && c == BFrames ==> Best(o.p.gopSize, v + 1, p.gopSize)
    ensures o.err.None? && c == StreamType ==>
              if v == MPEG1_SS || v == MPEG1_VCD then o.p.videoEncoding == MPEG_1 && o.p.bitrateMode == CBR
              else o.p.videoEncoding == MPEG_2 && o.p.bitrateMode == p.bitrateMode
    ensures forall d :: !Sets(c, d) ==> Get(o.p, d) == Get(p, d)
    ensures o.p.hasAc3 == p.hasAc3 && o.p.audioProperties == p.audioProperties
    ensures c != StreamType ==> o.p.videoEncoding == p.videoEncoding
  {
    if c == BFrames {
      GopIsBest(v + 1, p.gopSize);
    } else if c == GopSize {
      GopIsBest(p.bFrames + 1, v);
    }
  }

  /** One control of a call: checked, then set. */
  function SetOne(p: Params, busy: bool, c: Ctrl, v: int): (o: Outcome)
    requires p.bFrames >= 0
    ensures o.p.bFrames >= 0 && o.p.audioProperties == p.audioProperties
  {
    if Check(p, c, v).Some? then Outcome(Check(p, c, v), p) else Set(p, busy, c, v)
  }

  /** While the encoder is idle an audio control takes exactly the values with which the
      audio word is one the encoder can read. */
  lemma RatesTakenIff(p: Params, v: int)
    requires p.bFrames >= 0 && AudioInRange(p)
    ensures SetOne(p, false, SamplingFreq, v).err == None <==> AudioInRange(p.(samplingFreq := v))
    ensures SetOne(p, false, Encoding, v).err == None <==> AudioInRange(p.(encoding := v))
    ensures SetOne(p, false, L2Bitrate, v).err == None <==> AudioInRange(p.(l2Bitrate := v))
    ensures SetOne(p, false, Ac3Bitrate, v).err == None <==> p.hasAc3 && AudioInRange(p.(ac3Bitrate := v))
  {
  }

  lemma AudioTakenIff(p: Params, v: int)
    requires p.bFrames >= 0 && AudioInRange(p)
    ensures SetOne(p, false, AudioMode, v).err == None <==> AudioInRange(p.(audioMode := v))
    ensures SetOne(p, false, ModeExtension, v).err == None <==> AudioInRange(p.(modeExtension := v))
    ensures SetOne(p, false, Emphasis, v).err == None <==> AudioInRange(p.(emphasis := v))
    ensures SetOne(p, false, Crc, v).err == None <==> AudioInRange(p.(crc := v))
  {
  }

  datatype Applied = Applied(o: Outcome, count: nat)

  /** The controls of a call from the i-th on, up to the first that fails. */
  function SetAll(p: Params, busy: bool, cs: seq<(Ctrl, int)>, i: nat): Applied
    requires p.bFrames >= 0 && i <= |cs|
    decreases |cs| - i
  {
    if i == |cs| then Applied(Outcome(None, p), i)
    else
      var o := SetOne(p, busy, cs[i].0, cs[i].1);
      if o.err.Some? then Applied(o, i) else SetAll(o.p, busy, cs, i + 1)
  }

  /** Nothing from the i-th control of a call on sets what d reads. */
  predicate Untouched(cs: seq<(Ctrl, int)>, i: nat, d: Ctrl) {
    forall k | i <= k < |cs| :: !Sets(cs[k].0, d)
  }

  lemma SetReads(p: Params, busy: bool, c: Ctrl, v: int, o: Outcome, d: Ctrl)
    requires p.bFrames >= 0 && (c == BFrames ==> v >= 0) && o == Set(p, busy, c, v)
    ensures !Sets(c, d) ==> Get(o.p, d) == Get(p, d)
    ensures o.err.None? && d == c != GopSize ==> Get(o.p, d) == Some(v)
  {
  }

  lemma SetOneReads(p: Params, busy: bool, c: Ctrl, v: int, o: Outcome, d: Ctrl)
    requires p.bFrames >= 0 && o == SetOne(p, busy, c, v)
    ensures !Sets(c, d) ==> Get(o.p, d) == Get(p, d)
    ensures o.err.None? && d == c != GopSize ==> Get(o.p, d) == Some(v)
  {
    if Check(p, c, v).None? {
      SetReads(p, busy, c, v, o, d);
    }
  }

  /** The next control of a call, what it does to what d reads, and what remains. */
  lemma NextControl(p: Params, busy: bool, cs: seq<(Ctrl, int)>, i: nat, d: Ctrl, a: Applied)
    returns (q: Params, more: bool)
    requires p.bFrames >= 0 && i < |cs| && a == SetAll(p, busy, cs, i)
    ensures q.bFrames >= 0
    ensures if more then a == SetAll(q, busy, cs, i + 1) else a.o.err.Some? && a.o.p == q
    ensures !Sets(cs[i].0, d) ==> Get(q, d) == Get(p, d)
    ensures more && d == cs[i].0 != GopSize ==> Get(q, d) == Some(cs[i].1)
  {
    var o := SetOne(p, busy, cs[i].0, cs[i].1);
    SetOneReads(p, busy, cs[i].0, cs[i].1, o, d);
    q, more := o.p, o.err.None?;
  }

  lemma {:induction false} UntouchedReads(p: Params, busy: bool, cs: seq<(Ctrl, int)>, i: nat, d: Ctrl, a: Applied)
    requires p.bFrames >= 0 && i <= |cs| && Untouched(cs, i, d) && a == SetAll(p, busy, cs, i)
    ensures Get(a.o.p, d) == Get(p, d)
    decreases |cs| - i
  {
    if i < |cs| {
      var q, more := NextControl(p, busy, cs, i, d, a);
      if more {
        UntouchedReads(q, busy, cs, i + 1, d, a);
      }
    }
  }

  /** A call reads back whole: whatever it set last to a control, with nothing behind
      that drags the control along, is what the control reads afterwards. */
  lemma {:induction false} CallReadsBack(p: Params, busy: bool, cs: seq<(Ctrl, int)>, i: nat, k: nat, a: Applied)
    requires p.bFrames >= 0 && i <= k < |cs| && a == SetAll(p, busy, cs, i) && a.o.err == None
    requires cs[k].0 != GopSize && Untouched(cs, k + 1, cs[k].0)
    ensures Get(a.o.p, cs[k].0) == Some(cs[k].1)
    decreases k - i
  {
    var q, more := NextControl(p, busy, cs, i, cs[k].0, a);
    if i < k {
      CallReadsBack(q, busy, cs, i + 1, k, a);
    } else {
      UntouchedReads(q, busy, cs, i + 1, cs[k].0, a);
    }
  }

  /** The controls of an encoder. */
  class Encoder {
    var p: Params

    constructor (hasAc3: bool)
      ensures Consistent(p) && p.hasAc3 == hasAc3 && p.audioProperties == AudioWord(p)
    {
      var d := Params(hasAc3, 1, LAYER_2, 10, 11, 0, 0, 0, 0, 0, 2, 12, VBR, 6000000, 8000000, 0, MPEG_2);
      p := d.(audioProperties := AudioWord(d));
    }

    /** cx2341x_set_ctrl. */
    method SetCtrl(busy: bool, c: Ctrl, v: int) returns (err: Option<Error>)
      requires Consistent(p) && Check(p, c, v) == None
      modifies this
      ensures Consistent(p) && Set(old(p), busy, c, v) == Outcome(err, p)
    {
      SetIsConsistent(p, busy, c, v);
      match c {
        case SamplingFreq =>
          if busy { return Some(EBUSY); }
          p := p.(samplingFreq := v);
        case Encoding =>
          if busy { return Some(EBUSY); }
          if p.hasAc3 {
            if v != LAYER_2 && v != AC3 { return Some(ERANGE); }
          }
          p := p.(encoding := v);
        case L2Bitrate =>
          if busy { return Some(EBUSY); }
          p := p.(l2Bitrate := v);
        case Ac3Bitrate =>
          if busy { return Some(EBUSY); }
          if !p.hasAc3 { return Some(EINVAL); }
          p := p.(ac3Bitrate := v);
        case AudioMode => p := p.(audioMode := v);
        case ModeExtension => p := p.(modeExtension := v);
        case Emphasis => p := p.(emphasis := v);
        case Crc => p := p.(crc := v);
        case BFrames =>
          p := p.(bFrames := v);
          var g := RoundGop(v + 1, p.gopSize);
          p := p.(gopSize := g);
        case GopSize =>
          var g := RoundGop(p.bFrames + 1, v);
          p := p.(gopSize := g);
        case BitrateMode =>
          if busy { return Some(EBUSY); }
          if p.videoEncoding == MPEG_1 && v != CBR { return Some(EINVAL); }
          p := p.(bitrateMode := v);
        case Bitrate =>
          if busy { return Some(EBUSY); }
          p := p.(bitrate := v);
        case BitratePeak =>
          if busy { return Some(EBUSY); }
          p := p.(bitratePeak := v);
        case StreamType =>
          if busy { return Some(EBUSY); }
          p := p.(streamType := v);
          p := p.(videoEncoding := if v == MPEG1_SS || v == MPEG1_VCD then MPEG_1 else MPEG_2);
          if p.videoEncoding == MPEG_1 {
            p := p.(bitrateMode := CBR);
          }
        case Unknown => return Some(EINVAL);
      }
      err := None;
    }

    method CheckAndSet(busy: bool, c: Ctrl, v: int) returns (err: Option<Error>)
      requires Consistent(p)
      modifies this
      ensures Consistent(p) && SetOne(old(p), busy, c, v) == Outcome(err, p)
    {
      err := Check(p, c, v);
      if err.None? {
        err := SetCtrl(busy, c, v);
      }
    }

    /** The loop of cx2341x_ext_ctrls: controls are set up to the first that fails. */
    method SetUpTo(busy: bool, cs: seq<(Ctrl, int)>) returns (err: Option<Error>, i: nat)
      requires Consistent(p)
      modifies this
      ensures Consistent(p) && SetAll(old(p), busy, cs, 0) == Applied(Outcome(err, p), i) && i <= |cs|
      ensures p.audioProperties == old(p).audioProperties
    {
      err, i := None, 0;
      ghost var all := SetAll(p, busy, cs, 0);
      while i < |cs|
        invariant i <= |cs| && Consistent(p) && p.audioProperties == old(p).audioProperties && err == None
        invariant SetAll(p, busy, cs, i) == all
      {
        err := CheckAndSet(busy, cs[i].0, cs[i].1);
        if err.Some? {
          break;
        }
        i := i + 1;
      }
    }

    /** cx2341x_ext_ctrls, setting.  Whatever comes of it, the settings stay
        consistent.  After success a variable rate has a peak not below its mean and
        the audio word is that of the settings; after a failure, before which
        settings may have changed, the audio word is the old one. */
    method ExtCtrls(busy: bool, cs: seq<(Ctrl, int)>) returns (err: Option<Error>, errorIdx: nat)
      requires Consistent(p)
      modifies this
      ensures Consistent(p)
      ensures var Applied(o, n) := SetAll(old(p), busy, cs, 0);
        && p == (if err.None? then o.p.(audioProperties := AudioWord(o.p)) else o.p)
        && err == (if o.err.Some? then o.err
                   else if o.p.bitrateMode == VBR && o.p.bitratePeak < o.p.bitrate then Some(ERANGE) else None)
        && (err.Some? ==> errorIdx == n <= |cs|)
      ensures err.None? ==> (p.bitrateMode == VBR ==> p.bitratePeak >= p.bitrate) && p.audioProperties == AudioWord(p)
      ensures err.Some? ==> p.audioProperties == old(p).audioProperties
    {
      var i;
      err, i := SetUpTo(busy, cs);
      errorIdx := 0;
      if err.None? && p.bitrateMode == VBR && p.bitratePeak < p.bitrate {
        err := Some(ERANGE);
      }
      if err.Some? {
        errorIdx := i;
      } else {
        p := p.(audioProperties := AudioWord(p));
      }
    }
  }
}
