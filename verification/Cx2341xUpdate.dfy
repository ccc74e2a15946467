/** Reprogramming the cx2341x encoder (video/cx2341x.c: cx2341x_update): only what
    differs from the old settings is sent. */
module Cx2341xUpdate {
  import opened Basics

  /** The settings the encoder is programmed from. */
  datatype Params = Params(
    port: int, width: nat, height: nat, is50hz: int,
    streamType: int, navPackets: int, audioProperties: int, audioMute: int,
    videoEncoding: int, aspect: int, bFrames: int, gopSize: int, gopClosure: int,
    bitrateMode: int, bitrate: int, bitratePeak: nat, temporalDecimation: int,
    mute: bool, muteYuv: nat,
    spatialFilterMode: int, spatialFilter: int, lumaSpatialType: int, chromaSpatialType: int,
    temporalFilterMode: int, temporalFilter: int, medianType: int,
    lumaMedianTop: int, lumaMedianBottom: int, chromaMedianTop: int, chromaMedianBottom: int)
  {
    /** The capture window is smaller than the full picture. */
    predicate Scaled() { width != 720 || height != (if is50hz != 0 then 576 else 480) }

    /** The temporal filter the encoder should use: none on a scaled window. */
    function Temporal(): int { if Scaled() then 0 else temporalFilter }

    /** The stream type must be one of the six there are. */
    predicate Valid() { 0 <= streamType < 6 }
  }

  const MPEG_1: int := 0

  /** The commands, in the order in which they are sent. */
  datatype Cmd = OutputPort | FrameRate | FrameSize | StreamType | AspectRatio | GopProperties | GopClosure
               | AudioProperties | MuteAudio | BitRate | DnrFilterMode | CoringLevels | SpatialFilterType
               | DnrFilterProps | FrameDropRate | MuteVideo | Misc

  const COMMANDS: nat := 17

  function InLine(k: nat): Cmd {
    match k
    case 0 => OutputPort
    case 1 => FrameRate
    case 2 => FrameSize
    case 3 => StreamType
    case 4 => AspectRatio
    case 5 => GopProperties
    case 6 => GopClosure
    case 7 => AudioProperties
    case 8 => MuteAudio
    case 9 => BitRate
    case 10 => DnrFilterMode
    case 11 => CoringLevels
    case 12 => SpatialFilterType
    case 13 => DnrFilterProps
    case 14 => FrameDropRate
    case 15 => MuteVideo
    case _ => Misc
  }

  /** The place of a command in line. */
  function Rank(c: Cmd): (r: nat)
    ensures r < COMMANDS && InLine(r) == c
  {
    match c
    case OutputPort => 0
    case FrameRate => 1
    case FrameSize => 2
    case StreamType => 3
    case AspectRatio => 4
    case GopProperties => 5
    case GopClosure => 6
    case AudioProperties => 7
    case MuteAudio => 8
    case BitRate => 9
    case DnrFilterMode => 10
    case CoringLevels => 11
    case SpatialFilterType => 12
    case DnrFilterProps => 13
    case FrameDropRate => 14
    case MuteVideo => 15
    case Misc => 16
  }

  function StreamCode(t: int): int {
    match t
    case 0 => 0
    case 1 => 1
    case 2 => 2
    case 3 => 14
    case 4 => 11
    case _ => 12
  }

  /** What each command carries in a full programming. */
  function Args(c: Cmd, p: Params): seq<int> {
    match c
    case OutputPort => [p.port, 0]
    case FrameRate => [p.is50hz]
    case FrameSize => if p.videoEncoding == MPEG_1 then [p.height / 2, p.width / 2] else [p.height, p.width]
    case StreamType => [StreamCode(p.streamType)]
    case AspectRatio => [1 + p.aspect]
    case GopProperties => [p.gopSize, p.bFrames + 1]
    case GopClosure => [p.gopClosure]
    case AudioProperties => [p.audioProperties]
    case MuteAudio => [p.audioMute]
    case BitRate => [p.bitrateMode, p.bitrate, p.bitratePeak / 400, 0, 0]
    case DnrFilterMode => [p.spatialFilterMode + 2 * p.temporalFilterMode, p.medianType]
    case CoringLevels => [p.lumaMedianBottom, p.lumaMedianTop, p.chromaMedianBottom, p.chromaMedianTop]
    case SpatialFilterType => [p.lumaSpatialType, p.chromaSpatialType]
    case DnrFilterProps => [p.spatialFilter, p.Temporal()]
    case FrameDropRate => [p.temporalDecimation]
    case MuteVideo => [MuteWord(p)]
    case Misc => [7, p.navPackets]
  }

  function MuteWord(p: Params): int { (if p.mute then 1 else 0) + 256 * p.muteYuv }

  /** What the encoder holds of each command. */
  type Device = Cmd -> seq<int>

  /** The encoder behaves as p asks.  The mute colour counts only while muted. */
  ghost predicate Agrees(d: Device, c: Cmd, p: Params) {
    if c == MuteVideo then exists yuv: nat :: Muted(d, p, yuv) else d(c) == Args(c, p)
  }

  predicate Muted(d: Device, p: Params, yuv: nat) {
    d(MuteVideo) == [MuteWord(p.(muteYuv := yuv))] && (p.mute ==> yuv == p.muteYuv)
  }

  ghost predicate Faithful(d: Device, p: Params) {
    forall c: Cmd :: Agrees(d, c, p)
  }

  /** The condition under which a command is sent. */
  predicate Sends(c: Cmd, old_: Option<Params>, p: Params) {
    old_.None? || (
      var o := old_.value;
      match c
      case OutputPort => true
      case FrameRate => o.is50hz != p.is50hz
      case FrameSize => o.width != p.width || o.height != p.height || o.videoEncoding != p.videoEncoding
      case StreamType => o.streamType != p.streamType
      case AspectRatio => o.aspect != p.aspect
      case GopProperties => o.bFrames != p.bFrames || o.gopSize != p.gopSize
      case GopClosure => o.gopClosure != p.gopClosure
      case AudioProperties => o.audioProperties != p.audioProperties
      case MuteAudio => o.audioMute != p.audioMute
      case BitRate => o.bitrateMode != p.bitrateMode || o.bitrate != p.bitrate || o.bitratePeak != p.bitratePeak
      case DnrFilterMode =>
        o.spatialFilterMode != p.spatialFilterMode || o.temporalFilterMode != p.temporalFilterMode
        || o.medianType != p.medianType
      case CoringLevels =>
        o.lumaMedianBottom != p.lumaMedianBottom || o.lumaMedianTop != p.lumaMedianTop
        || o.chromaMedianBottom != p.chromaMedianBottom || o.chromaMedianTop != p.chromaMedianTop
      case SpatialFilterType => o.lumaSpatialType != p.lumaSpatialType || o.chromaSpatialType != p.chromaSpatialType
      case DnrFilterProps => o.spatialFilter != p.spatialFilter || o.temporalFilter != p.Temporal()
      case FrameDropRate => o.temporalDecimation != p.temporalDecimation
      case MuteVideo => o.mute != p.mute || (p.mute && o.muteYuv != p.muteYuv)
      case Misc => o.navPackets != p.navPackets)
  }

  /** Of the commands from rank lo on below hi, those that are sent have taken
      effect; the others are as before. */
  ghost predicate Sent(d0: Device, d: Device, lo: nat, hi: nat, old_: Option<Params>, p: Params) {
    forall c: Cmd :: d(c) == if lo <= Rank(c) < hi && Sends(c, old_, p) then Args(c, p) else d0(c)
  }

  // -------------------------------------------------- is it what it should be

  /** A step the update gets wrong: from a scaled window to the full picture with the
      same filters, of which the temporal one is on.  The encoder had it off. */
  predicate Stale(o: Params, p: Params) {
    o.Scaled() && !p.Scaled() && o.temporalFilter == p.temporalFilter != 0 && o.spatialFilter == p.spatialFilter
  }

  /** With nothing changed only the first command is sent, and the filter strengths again
      while the window is scaled with the temporal filter on. */
  lemma NothingChanged(c: Cmd, p: Params)
    ensures Sends(c, Some(p), p) <==> c == OutputPort || (c == DnrFilterProps && p.Scaled() && p.temporalFilter != 0)
  {
  }

  lemma MuteWordAgrees(d: Device, p: Params)
    requires d(MuteVideo) == Args(MuteVideo, p)
    ensures Agrees(d, MuteVideo, p)
  {
    assert Muted(d, p, p.muteYuv);
  }

  /** A complete programming leaves the encoder as p asks. */
  lemma FullIsFaithful(d0: Device, d: Device, p: Params)
    requires Sent(d0, d, 0, COMMANDS, None, p)
    ensures Faithful(d, p)
  {
    forall c: Cmd ensures Agrees(d, c, p) {
      MuteWordAgrees(d, p);
    }
  }

  /** What a complete programming sends, command by command. */
  lemma Programmed(d0: Device, d: Device, p: Params)
    requires Sent(d0, d, 0, COMMANDS, None, p) && p.Valid()
    ensures d(OutputPort) == [p.port, 0] && d(FrameRate) == [p.is50hz]
    ensures d(FrameSize) == if p.videoEncoding == 0 then [p.height / 2, p.width / 2] else [p.height, p.width]
    ensures d(StreamType) == [[0, 1, 2, 14, 11, 12][p.streamType]] && d(AspectRatio) == [1 + p.aspect]
    ensures d(GopProperties) == [p.gopSize, p.bFrames + 1] && d(GopClosure) == [p.gopClosure]
    ensures d(AudioProperties) == [p.audioProperties] && d(MuteAudio) == [p.audioMute]
    ensures d(BitRate) == [p.bitrateMode, p.bitrate, p.bitratePeak / 400, 0, 0]
    ensures d(DnrFilterMode) == [p.spatialFilterMode + 2 * p.temporalFilterMode, p.medianType]
    ensures d(CoringLevels) == [p.lumaMedianBottom, p.lumaMedianTop, p.chromaMedianBottom, p.chromaMedianTop]
    ensures d(SpatialFilterType) == [p.lumaSpatialType, p.chromaSpatialType]
    ensures d(DnrFilterProps) == [p.spatialFilter, if p.width == 720 && p.height == (if p.is50hz != 0 then 576 else 480)
                                                   then p.temporalFilter else 0]
    ensures d(FrameDropRate) == [p.temporalDecimation]
    ensures d(MuteVideo) == [(if p.mute then 1 else 0) + 256 * p.muteYuv] && d(Misc) == [7, p.navPackets]
  {
    assert forall c: Cmd :: d(c) == Args(c, p);
  }

  /** Commands that are not sent carry the same as before, but for one. */
  lemma UnsentIsSame(c: Cmd, o: Params, p: Params)
    requires !Sends(c, Some(o), p) && c != MuteVideo
    ensures Args(c, o) == Args(c, p) <==> !(c == DnrFilterProps && Stale(o, p))
  {
  }

  lemma UnsentMute(d0: Device, d: Device, o: Params, p: Params)
    requires !Sends(MuteVideo, Some(o), p) && Agrees(d0, MuteVideo, o) && d(MuteVideo) == d0(MuteVideo)
    ensures Agrees(d, MuteVideo, p)
  {
    var yuv: nat :| Muted(d0, o, yuv);
    assert Muted(d, p, yuv);
  }

  /** One update: every setting follows, but for the filter strengths in a stale step. */
  lemma StepAgrees(d0: Device, d: Device, o: Params, p: Params, c: Cmd)
    requires Sent(d0, d, 0, COMMANDS, Some(o), p) && Agrees(d0, c, o)
    ensures Agrees(d, c, p) <==> !(c == DnrFilterProps && Stale(o, p))
  {
    if Sends(c, Some(o), p) {
      if c == MuteVideo {
        MuteWordAgrees(d, p);
      }
    } else if c == MuteVideo {
      UnsentMute(d0, d, o, p);
    } else {
      UnsentIsSame(c, o, p);
    }
  }

  /** The encoder still does as asked after an update exactly when the step is not a
      stale one. */
  lemma StepFaithful(d0: Device, d: Device, o: Params, p: Params)
    requires Sent(d0, d, 0, COMMANDS, Some(o), p) && Faithful(d0, o)
    ensures Faithful(d, p) <==> !Stale(o, p)
  {
    forall c: Cmd ensures Agrees(d, c, p) <==> !(c == DnrFilterProps && Stale(o, p)) {
      StepAgrees(d0, d, o, p, c);
    }
    assert Agrees(d, DnrFilterProps, p) <==> !Stale(o, p);
  }

  /** States of the encoder and settings over a run: a full programming, then updates. */
  ghost predicate IsRun(ds: seq<Device>, ps: seq<Params>) {
    && |ds| == |ps| > 0
    && Faithful(ds[0], ps[0])
    && forall k {:trigger ps[k]} | 0 < k < |ps| :: Sent(ds[k - 1], ds[k], 0, COMMANDS, Some(ps[k - 1]), ps[k])
  }

  /** The last update up to the n-th that sent the filter strengths. */
  function LastSent(ps: seq<Params>, n: nat): (k: nat)
    requires n < |ps|
    ensures k <= n
  {
    if n == 0 || Sends(DnrFilterProps, Some(ps[n - 1]), ps[n]) then n else LastSent(ps, n - 1)
  }

  /** The encoder holds the strengths last sent, of which the spatial one is still
      what is asked for. */
  lemma {:induction false} HoldsLastSent(ds: seq<Device>, ps: seq<Params>, n: nat)
    requires IsRun(ds, ps) && n < |ps|
    ensures ds[n](DnrFilterProps) == [ps[n].spatialFilter, ps[LastSent(ps, n)].Temporal()]
  {
    if n == 0 {
      assert Agrees(ds[0], DnrFilterProps, ps[0]);
    } else {
      HoldsLastSent(ds, ps, n - 1);
      var p := ps[n];
    }
  }

  /** After any run the encoder does as the last settings ask, as if programmed in
      full, if and only if the temporal strength last sent is the one they ask for. */
  lemma RunFaithful(ds: seq<Device>, ps: seq<Params>, n: nat)
    requires IsRun(ds, ps) && n < |ps|
    ensures Faithful(ds[n], ps[n]) <==> ps[LastSent(ps, n)].Temporal() == ps[n].Temporal()
  {
    HoldsLastSent(ds, ps, n);
    forall c: Cmd | c != DnrFilterProps ensures Agrees(ds[n], c, ps[n]) {
      RunAlmostFaithful(ds, ps, n, c);
    }
    assert Agrees(ds[n], DnrFilterProps, ps[n]) <==> ps[LastSent(ps, n)].Temporal() == ps[n].Temporal();
  }

  /** So it does over a run without a stale step. */
  lemma {:induction false} UnstaleRun(ds: seq<Device>, ps: seq<Params>, n: nat)
    requires IsRun(ds, ps) && n < |ps|
    requires forall k {:trigger ps[k]} | 0 < k <= n :: !Stale(ps[k - 1], ps[k])
    ensures Faithful(ds[n], ps[n])
  {
    if n > 0 {
      UnstaleRun(ds, ps, n - 1);
      var p := ps[n];
      StepFaithful(ds[n - 1], ds[n], ps[n - 1], ps[n]);
    }
  }

  /** A stale step outlasts an update of something else, and one of the filter heals it. */
  lemma StaleLasts(d0: Device, d1: Device, d2: Device, o: Params, p: Params, q: Params)
    requires Faithful(d0, o) && Stale(o, p) && Sent(d0, d1, 0, COMMANDS, Some(o), p)
    requires Sent(d1, d2, 0, COMMANDS, Some(p), q)
    ensures q == p.(bitrate := p.bitrate + 1) ==> !Stale(p, q) && !Faithful(d2, q)
    ensures q == p.(temporalFilter := 0) ==> Faithful(d2, q)
  {
    RunFaithful([d0, d1, d2], [o, p, q], 2);
  }

  /** Over any run at all, everything but the filter strengths does. */
  lemma {:induction false} RunAlmostFaithful(ds: seq<Device>, ps: seq<Params>, n: nat, c: Cmd)
    requires IsRun(ds, ps) && n < |ps| && c != DnrFilterProps
    ensures Agrees(ds[n], c, ps[n])
  {
    if n > 0 {
      RunAlmostFaithful(ds, ps, n - 1, c);
      var p := ps[n];
      StepAgrees(ds[n - 1], ds[n], ps[n - 1], ps[n], c);
    }
  }

  /** A stale step: enlarging the window of a driver with its default filters. */
  lemma EnlargingIsStale(o: Params, d0: Device, d: Device)
    requires o.width == 360 && o.height == 240 && o.is50hz == 0 && o.temporalFilter == 8
    requires Faithful(d0, o) && Sent(d0, d, 0, COMMANDS, Some(o), o.(width := 720, height := 480))
    ensures d(DnrFilterProps) == [o.spatialFilter, 0] != Args(DnrFilterProps, o.(width := 720, height := 480))
  {
    assert Agrees(d0, DnrFilterProps, o);
  }

  // ------------------------------------------------------------ failed updates

  /** After failed updates from o to p: each command has taken effect or it has not. */
  ghost predicate Between(d0: Device, d: Device, o: Params, p: Params) {
    forall c: Cmd :: d(c) == d0(c) || (Sends(c, Some(o), p) && d(c) == Args(c, p))
  }

  /** However many updates to p fail, and wherever. */
  lemma FailedIsBetween(d0: Device, d: Device, d1: Device, o: Params, p: Params, lo: nat, reached: nat)
    requires Between(d0, d, o, p) && Sent(d, d1, lo, reached, Some(o), p)
    ensures Between(d0, d1, o, p)
  {
    forall c: Cmd
      ensures d1(c) == d0(c) || (Sends(c, Some(o), p) && d1(c) == Args(c, p))
    {
      assert d(c) == d0(c) || (Sends(c, Some(o), p) && d(c) == Args(c, p));
    }
  }

  /** An update that succeeds in the end leaves what it would have left at once. */
  lemma RetryRecovers(d0: Device, d: Device, d1: Device, o: Params, p: Params)
    requires Between(d0, d, o, p) && Sent(d, d1, 0, COMMANDS, Some(o), p)
    ensures Sent(d0, d1, 0, COMMANDS, Some(o), p)
  {
    forall c: Cmd
      ensures d1(c) == if Sends(c, Some(o), p) then Args(c, p) else d0(c)
    {
    }
  }

  // -------------------------------------------------------------- the function

  /** How many of the commands behind the first and below rank r need to be sent. */
  function Needed(before: Option<Params>, p: Params, r: nat): nat {
    if r <= 1 then 0 else Needed(before, p, r - 1) + (if Sends(InLine(r - 1), before, p) then 1 else 0)
  }

  /** The answer to the command of rank r, behind that to the first command. */
  function AnswerAt(answers: seq<int>, before: Option<Params>, p: Params, r: nat): int {
    Answer(answers, 1 + Needed(before, p, r))
  }

  /** An update: the encoder and its coming answers at the start, the first rank that
      counts, and the settings before and after. */
  datatype Job = Job(d0: Device, lo: nat, answers: seq<int>, before: Option<Params>, p: Params)
  {
    function AnswerTo(r: nat): int { AnswerAt(answers, before, p, r) }

    /** No command needed below rank r was refused. */
    predicate Clear(r: nat) {
      forall k: nat {:trigger AnswerAt(answers, before, p, k)} | 1 <= k < r && Sends(InLine(k), before, p) ::
        AnswerAt(answers, before, p, k) == 0
    }

    /** It has come to rank r. */
    ghost predicate At(d: Device, left: seq<int>, r: nat) {
      lo <= r && Sent(d0, d, lo, r, before, p) && left == Later(answers, 1 + Needed(before, p, r)) && Clear(r)
    }

    /** It has ended at rank r, where a command needed was refused. */
    ghost predicate Failed(d: Device, err: int, r: nat) {
      && lo <= r < COMMANDS && Sent(d0, d, lo, r, before, p) && Clear(r)
      && Sends(InLine(r), before, p) && err == AnswerTo(r) != 0
    }
  }

  /** The mailbox of the encoder: which of the coming commands it will refuse. */
  class Mailbox {
    var device: Device
    var refusals: seq<int>

    constructor (refusals: seq<int>)
      ensures this.refusals == refusals
    {
      this.refusals := refusals;
      device := _ => [];
    }

    /** A command that is refused changes nothing. */
    method Api(c: Cmd, args: seq<int>) returns (err: int)
      modifies this
      ensures err == 0 ==> forall x: Cmd :: device(x) == if x == c then args else old(device)(x)
      ensures err != 0 ==> device == old(device)
      ensures err == Answer(old(refusals), 0) && refusals == Later(old(refusals), 1)
    {
      err := if refusals == [] then 0 else refusals[0];
      refusals := if refusals == [] then [] else refusals[1..];
      if err == 0 {
        var was := device;
        device := x => if x == c then args else was(x);
      }
    }

    /** A command of the update, sent if need be, the next in line. */
    method Send(c: Cmd, args: seq<int>, needed: bool, ghost j: Job) returns (err: int)
      requires args == Args(c, j.p) && needed == Sends(c, j.before, j.p)
      requires 1 <= Rank(c) && j.At(device, refusals, Rank(c))
      modifies this
      ensures if err == 0 then j.At(device, refusals, Rank(c) + 1) else j.Failed(device, err, Rank(c))
    {
      err := 0;
      if needed {
        err := Api(c, args);
        Consumed(j, c, old(refusals));
      }
      NextRank(j, c);
    }

    /** The commands for the picture ... */
    method UpdatePicture(force: bool, o: Params, p: Params, ghost j: Job)
      returns (err: int, ghost reached: nat)
      requires p.Valid() && p == j.p && force == j.before.None? && (!force ==> o == j.before.value)
      requires j.At(device, refusals, 1)
      modifies this
      ensures 1 <= reached <= 3 && (err == 0 ==> reached == 3)
      ensures if err == 0 then j.At(device, refusals, reached) else j.Failed(device, err, reached)
    {
      reached := 1;
      err := Send(FrameRate, [p.is50hz], force || o.is50hz != p.is50hz, j);
      if err != 0 { return; }
      reached := 2;
      var w, h := p.width, p.height;
      if p.videoEncoding == MPEG_1 {
        w := w / 2;
        h := h / 2;
      }
      err := Send(FrameSize, [h, w],
                  force || o.width != p.width || o.height != p.height || o.videoEncoding != p.videoEncoding, j);
      if err != 0 { return; }
      reached := 3;
    }

    /** ... for the stream ... */
    method UpdateStream(force: bool, o: Params, p: Params, ghost j: Job)
      returns (err: int, ghost reached: nat)
      requires p.Valid() && p == j.p && force == j.before.None? && (!force ==> o == j.before.value)
      requires j.At(device, refusals, 3)
      modifies this
      ensures 3 <= reached <= 6 && (err == 0 ==> reached == 6)
      ensures if err == 0 then j.At(device, refusals, reached) else j.Failed(device, err, reached)
    {
      reached := 3;
      err := Send(StreamType, [StreamCode(p.streamType)], force || o.streamType != p.streamType, j);
      if err != 0 { return; }
      reached := 4;
      err := Send(AspectRatio, [1 + p.aspect], force || o.aspect != p.aspect, j);
      if err != 0 { return; }
      reached := 5;
      err := Send(GopProperties, [p.gopSize, p.bFrames + 1], force || o.bFrames != p.bFrames || o.gopSize != p.gopSize, j);
      if err != 0 { return; }
      reached := 6;
    }

    /** ... for the groups and the sound ... */
    method UpdateSound(force: bool, o: Params, p: Params, ghost j: Job)
      returns (err: int, ghost reached: nat)
      requires p.Valid() && p == j.p && force == j.before.None? && (!force ==> o == j.before.value)
      requires j.At(device, refusals, 6)
      modifies this
      ensures 6 <= reached <= 8 && (err == 0 ==> reached == 8)
      ensures if err == 0 then j.At(device, refusals, reached) else j.Failed(device, err, reached)
    {
      reached := 6;
      err := Send(GopClosure, [p.gopClosure], force || o.gopClosure != p.gopClosure, j);
      if err != 0 { return; }
      reached := 7;
      err := Send(AudioProperties, [p.audioProperties], force || o.audioProperties != p.audioProperties, j);
      if err != 0 { return; }
      reached := 8;
    }

    /** ... for muting and the bit rate ... */
    method UpdateRate(force: bool, o: Params, p: Params, ghost j: Job)
      returns (err: int, ghost reached: nat)
      requires p.Valid() && p == j.p && force == j.before.None? && (!force ==> o == j.before.value)
      requires j.At(device, refusals, 8)
      modifies this
      ensures 8 <= reached <= 10 && (err == 0 ==> reached == 10)
      ensures if err == 0 then j.At(device, refusals, reached) else j.Failed(device, err, reached)
    {
      reached := 8;
      err := Send(MuteAudio, [p.audioMute], force || o.audioMute != p.audioMute, j);
      if err != 0 { return; }
      reached := 9;
      err := Send(BitRate, [p.bitrateMode, p.bitrate, p.bitratePeak / 400, 0, 0],
                  force || o.bitrateMode != p.bitrateMode || o.bitrate != p.bitrate || o.bitratePeak != p.bitratePeak, j);
      if err != 0 { return; }
      reached := 10;
    }

    /** ... for the noise filters ... */
    method UpdateLevels(force: bool, o: Params, p: Params, ghost j: Job)
      returns (err: int, ghost reached: nat)
      requires p.Valid() && p == j.p && force == j.before.None? && (!force ==> o == j.before.value)
      requires j.At(device, refusals, 10)
      modifies this
      ensures 10 <= reached <= 12 && (err == 0 ==> reached == 12)
      ensures if err == 0 then j.At(device, refusals, reached) else j.Failed(device, err, reached)
    {
      reached := 10;
      err := Send(DnrFilterMode, [p.spatialFilterMode + 2 * p.temporalFilterMode, p.medianType],
                  force || o.spatialFilterMode != p.spatialFilterMode || o.temporalFilterMode != p.temporalFilterMode
                  || o.medianType != p.medianType, j);
      if err != 0 { return; }
      reached := 11;
      err := Send(CoringLevels, [p.lumaMedianBottom, p.lumaMedianTop, p.chromaMedianBottom, p.chromaMedianTop],
                  force || o.lumaMedianBottom != p.lumaMedianBottom || o.lumaMedianTop != p.lumaMedianTop
                  || o.chromaMedianBottom != p.chromaMedianBottom || o.chromaMedianTop != p.chromaMedianTop, j);
      if err != 0 { return; }
      reached := 12;
    }

    method UpdateFilters(force: bool, o: Params, p: Params, temporal: int, ghost j: Job)
      returns (err: int, ghost reached: nat)
      requires p.Valid() && p == j.p && force == j.before.None? && (!force ==> o == j.before.value)
      requires temporal == p.Temporal()
      requires j.At(device, refusals, 12)
      modifies this
      ensures 12 <= reached <= 14 && (err == 0 ==> reached == 14)
      ensures if err == 0 then j.At(device, refusals, reached) else j.Failed(device, err, reached)
    {
      reached := 12;
      err := Send(SpatialFilterType, [p.lumaSpatialType, p.chromaSpatialType],
                  force || o.lumaSpatialType != p.lumaSpatialType || o.chromaSpatialType != p.chromaSpatialType, j);
      if err != 0 { return; }
      reached := 13;
      err := Send(DnrFilterProps, [p.spatialFilter, temporal],
                  force || o.spatialFilter != p.spatialFilter || o.temporalFilter != temporal, j);
      if err != 0 { return; }
      reached := 14;
    }

    /** ... for dropping and muting frames ... */
    method UpdateFrames(force: bool, o: Params, p: Params, ghost j: Job)
      returns (err: int, ghost reached: nat)
      requires p.Valid() && p == j.p && force == j.before.None? && (!force ==> o == j.before.value)
      requires j.At(device, refusals, 14)
      modifies this
      ensures 14 <= reached <= 16 && (err == 0 ==> reached == 16)
      ensures if err == 0 then j.At(device, refusals, reached) else j.Failed(device, err, reached)
    {
      reached := 14;
      err := Send(FrameDropRate, [p.temporalDecimation],
                  force || o.temporalDecimation != p.temporalDecimation, j);
      if err != 0 { return; }
      reached := 15;
      err := Send(MuteVideo, [(if p.mute then 1 else 0) + 256 * p.muteYuv],
                  force || o.mute != p.mute || (p.mute && o.muteYuv != p.muteYuv), j);
      if err != 0 { return; }
      reached := 16;
    }

    /** ... and the rest. */
    method UpdateRest(force: bool, o: Params, p: Params, ghost j: Job)
      returns (err: int, ghost reached: nat)
      requires p.Valid() && p == j.p && force == j.before.None? && (!force ==> o == j.before.value)
      requires j.At(device, refusals, 16)
      modifies this
      ensures 16 <= reached <= 17 && (err == 0 ==> reached == 17)
      ensures if err == 0 then j.At(device, refusals, reached) else j.Failed(device, err, reached)
    {
      reached := 16;
      err := Send(Misc, [7, p.navPackets], force || o.navPackets != p.navPackets, j);
      if err != 0 { return; }
      reached := 17;
    }

    /** cx2341x_update.  The first command is sent in any case and its failure is not
        looked at; after it, the first command needed that is refused ends the update
        with that answer, and nothing else does. */
    method Update(old_: Option<Params>, p: Params) returns (err: int, ghost portErr: int, ghost reached: nat)
      requires p.Valid()
      modifies this
      ensures Sent(old(device), device, if portErr == 0 then 0 else 1, reached, old_, p)
      ensures portErr == Answer(old(refusals), 0) && reached <= COMMANDS && (err == 0 <==> reached == COMMANDS)
      ensures forall k: nat {:trigger AnswerAt(old(refusals), old_, p, k)} | 1 <= k < reached && Sends(InLine(k), old_, p) ::
                AnswerAt(old(refusals), old_, p, k) == 0
      ensures err != 0 ==>
                Sends(InLine(reached), old_, p) && err == AnswerAt(old(refusals), old_, p, reached)
      ensures (forall k | 0 <= k < |old(refusals)| :: old(refusals)[k] == 0) ==>
                err == 0 && portErr == 0 && reached == COMMANDS
    {
      ghost var d0, answers := device, refusals;
      var force := old_.None?;
      var o := if force then p else old_.value;
      portErr := Api(OutputPort, [p.port, 0]);
      ghost var j := Job(d0, if portErr == 0 then 0 else 1, answers, old_, p);
      FirstRank(j, device, refusals);
      err, reached := UpdateAll(force, o, p, j);
      JobDone(j, device, refusals, err, reached);
    }

    method UpdateAll(force: bool, o: Params, p: Params, ghost j: Job) returns (err: int, ghost reached: nat)
      requires p.Valid() && p == j.p && force == j.before.None? && (!force ==> o == j.before.value)
      requires j.At(device, refusals, 1)
      modifies this
      ensures if err == 0 then reached == COMMANDS && j.At(device, refusals, COMMANDS) else j.Failed(device, err, reached)
    {
      err, reached := UpdatePicture(force, o, p, j);
      if err != 0 { return; }
      err, reached := UpdateStream(force, o, p, j);
      if err != 0 { return; }
      var temporal := p.temporalFilter;
      if p.width != 720 || p.height != (if p.is50hz != 0 then 576 else 480) {
        temporal := 0;
      }
      err, reached := UpdateSound(force, o, p, j);
      if err != 0 { return; }
      err, reached := UpdateRate(force, o, p, j);
      if err != 0 { return; }
      err, reached := UpdateLevels(force, o, p, j);
      if err != 0 { return; }
      err, reached := UpdateFilters(force, o, p, temporal, j);
      if err != 0 { return; }
      err, reached := UpdateFrames(force, o, p, j);
      if err != 0 { return; }
      err, reached := UpdateRest(force, o, p, j);
    }
  }

  lemma Consumed(j: Job, c: Cmd, left: seq<int>)
    requires 1 <= Rank(c) && left == Later(j.answers, 1 + Needed(j.before, j.p, Rank(c)))
    ensures Answer(left, 0) == j.AnswerTo(Rank(c))
    ensures Later(left, 1) == Later(j.answers, 2 + Needed(j.before, j.p, Rank(c)))
  {
  }

  /** The step from a rank to the next. */
  lemma NextRank(j: Job, c: Cmd)
    requires 1 <= Rank(c) && j.Clear(Rank(c))
    ensures Needed(j.before, j.p, Rank(c) + 1) == Needed(j.before, j.p, Rank(c)) + if Sends(c, j.before, j.p) then 1 else 0
    ensures (Sends(c, j.before, j.p) ==> j.AnswerTo(Rank(c)) == 0) ==> j.Clear(Rank(c) + 1)
  {
  }

  /** What the end of an update says about the answers. */
  lemma JobDone(j: Job, d: Device, left: seq<int>, err: int, reached: nat)
    requires if err == 0 then reached == COMMANDS && j.At(d, left, COMMANDS) else j.Failed(d, err, reached)
    ensures Sent(j.d0, d, j.lo, reached, j.before, j.p) && reached <= COMMANDS && (err == 0 <==> reached == COMMANDS)
    ensures j.Clear(reached)
    ensures err != 0 ==> Sends(InLine(reached), j.before, j.p) && err == j.AnswerTo(reached)
    ensures (forall k | 0 <= k < |j.answers| :: j.answers[k] == 0) ==> err == 0
  {
  }

  lemma FirstRank(j: Job, d: Device, left: seq<int>)
    requires Sent(j.d0, d, j.lo, 1, j.before, j.p) && j.lo <= 1 && left == Later(j.answers, 1)
    ensures j.At(d, left, 1)
  {
  }
}
