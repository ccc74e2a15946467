/** What the events of a run amount to in the Cafe CCIC driver (video/cafe_ccic.c):
    that frames do come through, which number a buffer carries, which of the waiting
    buffers is filled next, and how long a speculative capture lives. */
module CafeHistory {
  import opened Basics
  import opened CafeProtocol

  // ----------------------------------------------------- frames come through

  /** reqbufs and qbuf, then streaming and a frame. */
  lemma Prepared(s: Cam) returns (t: Cam)
    requires Initial(s)
    ensures var es := [ReqBufs(1, false, false), QbufFlag(0), QbufAdd, StreamOn, Frame(0)];
      Run(s, es) && Final(s, es) == t
    ensures t.Shaped() && t.mode == Streaming && t.pending && t.tasklet == Resting && t.holder == Nobody
    ensures t.nextBuf == 0 && t.valid[0] && (forall f :: 1 <= f < |t.valid| ==> !t.valid[f]) && t.bufSeq[0] == 1
    ensures t.avail == [0] && t.full == [] && t.sb == [SioBuf(true, false, 0)]
  {
    var s1 := s.Step(ReqBufs(1, false, false));
    assert s1.sb == [SioBuf(false, false, 0)];
    var s2 := s1.Step(QbufFlag(0));
    var s3 := s2.Step(QbufAdd);
    assert s3 == s.(sb := [SioBuf(true, false, 0)], avail := [0]);
    t := PreparedEnd(s3);
    var s4 := s3.Step(StreamOn);
    RunBehind(s2, QbufAdd, [StreamOn, Frame(0)]);
    RunBehind(s1, QbufFlag(0), [QbufAdd, StreamOn, Frame(0)]);
    RunBehind(s, ReqBufs(1, false, false), [QbufFlag(0), QbufAdd, StreamOn, Frame(0)]);
  }

  lemma PreparedEnd(s: Cam) returns (t: Cam)
    requires s.Shaped() && s.mode == Idle && s.holder == Nobody && s.tasklet == Resting && s.sb == [SioBuf(true, false, 0)]
    requires s.avail == [0] && s.full == []
    ensures Run(s, [StreamOn, Frame(0)]) && Final(s, [StreamOn, Frame(0)]) == t
    ensures t.Shaped() && t.mode == Streaming && t.pending && t.tasklet == Resting && t.holder == Nobody
    ensures t.nextBuf == 0 && t.valid[0] && (forall f :: 1 <= f < |t.valid| ==> !t.valid[f]) && t.bufSeq[0] == 1
    ensures t.avail == [0] && t.full == [] && t.sb == [SioBuf(true, false, 0)]
  {
    var s4 := s.Step(StreamOn);
    t := s4.Step(Frame(0));
    RunBehind(s4, Frame(0), []);
    RunBehind(s, StreamOn, [Frame(0)]);
  }

  lemma TaskletStates(t: Cam) returns (a: Cam, b: Cam, u: Cam)
    requires t.Shaped() && t.pending && t.tasklet == Resting && t.nextBuf == 0 && t.valid[0] && t.bufSeq[0] == 1
    requires (forall f :: 1 <= f < |t.valid| ==> !t.valid[f]) && t.avail == [0] && t.full == []
    requires t.sb == [SioBuf(true, false, 0)]
    ensures a == t.Step(TaskStart) && t.Effects(TaskStart) == [Took(0)] && a.Shaped() && a.Enabled(TaskCopy)
    ensures b == a.Step(TaskCopy) && a.Effects(TaskCopy) == [Filled(0, 0)] && b.Shaped() && b.Enabled(TaskRetake)
    ensures u == b.Step(TaskRetake) && b.Effects(TaskRetake) == [Moved(0)]
    ensures u.Shaped() && u.mode == t.mode && u.holder == t.holder && u.tasklet == Resting
    ensures u.avail == [] && u.full == [0] && u.sb == [SioBuf(false, true, 1)]
  {
    a := t.Step(TaskStart);
    assert a == t.(pending := false, tasklet := Copying(0, 0, 0), nextBuf := 1, valid := t.valid[0 := false]);
    b := a.Step(TaskCopy);
    assert b == a.(sb := [SioBuf(false, true, 1)], tasklet := Copied(0, 0));
    u := RetakeState(b);
  }

  lemma RetakeState(b: Cam) returns (u: Cam)
    requires b.Shaped() && b.tasklet == Copied(0, 0) && b.avail == [0] && b.full == []
    requires forall f :: 0 <= f < |b.valid| ==> !b.valid[f]
    ensures b.Enabled(TaskRetake) && u == b.Step(TaskRetake) && b.Effects(TaskRetake) == [Moved(0)]
    ensures u == b.(avail := [], full := [0], tasklet := Resting, nextBuf := u.nextBuf) && u.Shaped()
  {
    assert Remove([0], 0) == [];
    u := b.Step(TaskRetake);
    TaskLoopFacts(b.MoveToFull(), 1);
  }

  /** The tasklet copies the frame and moves the buffer. */
  lemma TaskletServes(t: Cam) returns (u: Cam)
    requires t.Shaped() && t.pending && t.tasklet == Resting && t.nextBuf == 0 && t.valid[0] && t.bufSeq[0] == 1
    requires (forall f :: 1 <= f < |t.valid| ==> !t.valid[f]) && t.avail == [0] && t.full == []
    requires t.sb == [SioBuf(true, false, 0)]
    ensures var es := [TaskStart, TaskCopy, TaskRetake];
      Run(t, es) && Final(t, es) == u && History(t, es) == [Took(0), Filled(0, 0), Moved(0)]
    ensures u.Shaped() && u.mode == t.mode && u.holder == t.holder && u.tasklet == Resting
    ensures u.avail == [] && u.full == [0] && u.sb == [SioBuf(false, true, 1)]
  {
    var a, b;
    a, b, u := TaskletStates(t);
    RunBehind(b, TaskRetake, []);
    RunBehind(a, TaskCopy, [TaskRetake]);
    RunBehind(t, TaskStart, [TaskCopy, TaskRetake]);
  }

  /** dqbuf hands it back. */
  lemma DqbufServes(u: Cam) returns (v: Cam)
    requires u.Shaped() && u.mode == Streaming && u.holder == Nobody && u.full == [0] && u.sb == [SioBuf(false, true, 1)]
    ensures var es := [DqbufLook, DqbufTake, DqbufFinish];
      Run(u, es) && Final(u, es) == v && History(u, es) == [Returned(0)]
    ensures v.holder == Nobody && v.full == [] && v.sb == [SioBuf(false, false, 1)]
  {
    var a := u.Step(DqbufLook);
    var b := a.Step(DqbufTake);
    v := b.Step(DqbufFinish);
    RunBehind(b, DqbufFinish, []);
    RunBehind(a, DqbufTake, [DqbufFinish]);
    RunBehind(u, DqbufLook, [DqbufTake, DqbufFinish]);
  }

  /** A frame makes it from the camera to the application: from the initial state, a
      single buffer queued and a single frame, dqbuf returns that buffer with number 1. */
  lemma FrameComesThrough(s: Cam)
    requires Initial(s)
    ensures var es := [ReqBufs(1, false, false), QbufFlag(0), QbufAdd, StreamOn, Frame(0)];
      var fs := [TaskStart, TaskCopy, TaskRetake];
      var gs := [DqbufLook, DqbufTake, DqbufFinish];
      && Run(s, es) && Run(Final(s, es), fs) && Run(Final(Final(s, es), fs), gs)
      && History(Final(Final(s, es), fs), gs) == [Returned(0)]
      && Final(Final(Final(s, es), fs), gs).sb == [SioBuf(false, false, 1)]
  {
    var t := Prepared(s);
    var u := TaskletServes(t);
    var v := DqbufServes(u);
  }

  /** And to read: a capture is set up, a frame ends the wait and is delivered, and the
      capture goes on speculatively. */
  lemma ReadComesThrough(s: Cam)
    requires Initial(s)
    ensures var es := [ReadEnter, ReadOn(false), Frame(0), ReadWake, Deliver];
      && Run(s, es) && History(s, es) == [Reset, Completed(0), Delivered(0)]
      && Final(s, es).mode == SpecRead && Final(s, es).enabled && Final(s, es).holder == Nobody
      && Final(s, es).nextBuf == -1
  {
    var a, b := ReadSetUpStates(s);
    var c, d := ReadFrameStates(b);
    RunBehind(d, Deliver, []);
    RunBehind(c, ReadWake, [Deliver]);
    RunBehind(b, Frame(0), [ReadWake, Deliver]);
    RunBehind(a, ReadOn(false), [Frame(0), ReadWake, Deliver]);
    RunBehind(s, ReadEnter, [ReadOn(false), Frame(0), ReadWake, Deliver]);
  }

  lemma ReadSetUpStates(s: Cam) returns (a: Cam, b: Cam)
    requires Initial(s)
    ensures s.Shaped() && s.Enabled(ReadEnter) && a == s.Step(ReadEnter) && s.Effects(ReadEnter) == []
    ensures a.Shaped() && a.Enabled(ReadOn(false)) && b == a.Step(ReadOn(false)) && a.Effects(ReadOn(false)) == [Reset]
    ensures b.Shaped() && b.mode == SingleRead && b.enabled && b.holder == ReadWaiting && b.nextBuf == -1
    ensures forall f :: 0 <= f < |b.valid| ==> !b.valid[f]
  {
    a := s.Step(ReadEnter);
    b := a.Step(ReadOn(false));
  }

  lemma ReadFrameStates(b: Cam) returns (c: Cam, d: Cam)
    requires b.Shaped() && b.mode == SingleRead && b.enabled && b.holder == ReadWaiting && b.nextBuf == -1
    requires forall f :: 0 <= f < |b.valid| ==> !b.valid[f]
    ensures b.Enabled(Frame(0)) && c == b.Step(Frame(0)) && b.Effects(Frame(0)) == [Completed(0)]
    ensures c.Shaped() && c.Enabled(ReadWake) && d == c.Step(ReadWake) && c.Effects(ReadWake) == []
    ensures d.Shaped() && d.Enabled(Deliver) && d.Effects(Deliver) == [Delivered(0)]
    ensures var e := d.Step(Deliver);
      e.Shaped() && e.mode == SpecRead && e.enabled && e.holder == Nobody && e.nextBuf == -1
  {
    c := b.Step(Frame(0));
    d := c.Step(ReadWake);
  }

  // -------------------------------------------------------- frame numbers

  function Count(h: seq<Effect>): nat {
    if h == [] then 0 else Count(h[..|h| - 1]) + One(h[|h| - 1].Completed?)
  }

  /** Where x last happened, or -1. */
  function LastOf(h: seq<Effect>, x: Effect): (i: int)
    ensures -1 <= i < |h| && (i >= 0 ==> h[i] == x) && forall k :: i < k < |h| ==> h[k] != x
  {
    if h == [] then -1 else if h[|h| - 1] == x then |h| - 1 else LastOf(h[..|h| - 1], x)
  }

  /** Where buffer b was last filled, or -1. */
  function LastFill(h: seq<Effect>, b: nat): (i: int)
    ensures -1 <= i < |h| && (i >= 0 ==> h[i].Filled? && h[i].b == b)
    ensures forall k :: i < k < |h| ==> !(h[k].Filled? && h[k].b == b)
  {
    if h == [] then -1
    else if h[|h| - 1].Filled? && h[|h| - 1].b == b then |h| - 1
    else LastFill(h[..|h| - 1], b)
  }

  /** The place of the frame in DMA buffer f among all frames. */
  function PlaceOf(h: seq<Effect>, f: nat): nat {
    Count(h[..LastOf(h, Completed(f)) + 1])
  }

  /** DMA buffers know the place of their frame. */
  predicate Placed(bufSeq: seq<nat>, past: seq<Effect>) {
    forall f :: 0 <= f < |bufSeq| && LastOf(past, Completed(f)) >= 0 ==> bufSeq[f] == PlaceOf(past, f)
  }

  /** What is full, or being copied, has been completed. */
  predicate Backed(valid: seq<bool>, tasklet: Tasklet, past: seq<Effect>) {
    && (forall f :: 0 <= f < |valid| && valid[f] ==> LastOf(past, Completed(f)) >= 0)
    && (tasklet.Copying? ==> LastOf(past, Completed(tasklet.bufno)) >= 0)
  }

  /** Buffers filled know the place of the frame they were last filled with. */
  predicate Informed(sb: seq<SioBuf>, past: seq<Effect>) {
    forall b :: 0 <= b < |sb| && LastFill(past, b) >= 0 ==> Knows(sb[b], past, b)
  }

  predicate Knows(x: SioBuf, past: seq<Effect>, b: nat)
    requires LastFill(past, b) >= 0
  {
    var j := LastFill(past, b);
    LastOf(past[..j], Completed(past[j].f)) >= 0 && x.sequence == PlaceOf(past[..j], past[j].f)
  }

  /** past is all that happened since streaming started. */
  predicate Numbered(s: Cam, past: seq<Effect>) {
    s.Shaped() && s.sequence == Count(past) && Placed(s.bufSeq, past) && Backed(s.valid, s.tasklet, past)
    && Informed(s.sb, past)
  }

  lemma OneMore(past: seq<Effect>, x: Effect)
    ensures Count(past + [x]) == Count(past) + One(x.Completed?)
    ensures forall y :: LastOf(past + [x], y) == if y == x then |past| else LastOf(past, y)
    ensures forall b: nat :: LastFill(past + [x], b) == if x.Filled? && x.b == b then |past| else LastFill(past, b)
  {
    assert (past + [x])[..|past|] == past;
  }

  lemma PlaceKept(past: seq<Effect>, x: Effect, f: nat)
    requires x != Completed(f) && LastOf(past, Completed(f)) >= 0
    ensures PlaceOf(past + [x], f) == PlaceOf(past, f)
  {
    OneMore(past, x);
    var i := LastOf(past, Completed(f));
    assert (past + [x])[..i + 1] == past[..i + 1];
  }

  lemma PlaceNew(past: seq<Effect>, f: nat)
    ensures PlaceOf(past + [Completed(f)], f) == Count(past) + 1
  {
    OneMore(past, Completed(f));
    assert (past + [Completed(f)])[..|past| + 1] == past + [Completed(f)];
  }

  lemma KnowsKept(x: SioBuf, past: seq<Effect>, y: Effect, b: nat)
    requires LastFill(past, b) >= 0 && Knows(x, past, b) && !(y.Filled? && y.b == b)
    ensures LastFill(past + [y], b) >= 0 && Knows(x, past + [y], b)
  {
    OneMore(past, y);
    var j := LastFill(past, b);
    assert (past + [y])[..j] == past[..j];
  }

  lemma PlacedFrame(bufSeq: seq<nat>, past: seq<Effect>, f: nat)
    requires Placed(bufSeq, past) && f < |bufSeq|
    ensures Placed(bufSeq[f := Count(past) + 1], past + [Completed(f)])
  {
    var t, x := bufSeq[f := Count(past) + 1], Completed(f);
    forall g | 0 <= g < |t| && LastOf(past + [x], Completed(g)) >= 0
      ensures t[g] == PlaceOf(past + [x], g)
    {
      OneMore(past, x);
      if g == f {
        PlaceNew(past, f);
      } else {
        PlaceKept(past, x, g);
      }
    }
  }

  lemma PlacedKept(bufSeq: seq<nat>, past: seq<Effect>, x: Effect)
    requires Placed(bufSeq, past) && !x.Completed?
    ensures Placed(bufSeq, past + [x])
  {
    forall g | 0 <= g < |bufSeq| && LastOf(past + [x], Completed(g)) >= 0
      ensures bufSeq[g] == PlaceOf(past + [x], g)
    {
      OneMore(past, x);
      PlaceKept(past, x, g);
    }
  }

  lemma InformedKept(sb: seq<SioBuf>, past: seq<Effect>, x: Effect)
    requires Informed(sb, past) && !x.Filled?
    ensures Informed(sb, past + [x])
  {
    forall b | 0 <= b < |sb| && LastFill(past + [x], b) >= 0
      ensures Knows(sb[b], past + [x], b)
    {
      OneMore(past, x);
      KnowsKept(sb[b], past, x, b);
    }
  }

  lemma InformedFill(sb: seq<SioBuf>, past: seq<Effect>, b: nat, f: nat, y: SioBuf)
    requires Informed(sb, past) && b < |sb| && LastOf(past, Completed(f)) >= 0 && y.sequence == PlaceOf(past, f)
    ensures Informed(sb[b := y], past + [Filled(b, f)])
  {
    var t, x := sb[b := y], Filled(b, f);
    assert (past + [x])[..|past|] == past;
    forall c | 0 <= c < |t| && LastFill(past + [x], c) >= 0
      ensures Knows(t[c], past + [x], c)
    {
      OneMore(past, x);
      if c != b {
        KnowsKept(sb[c], past, x, c);
      }
    }
  }

  lemma BackedKept(valid: seq<bool>, tasklet: Tasklet, past: seq<Effect>, x: Effect)
    requires Backed(valid, tasklet, past)
    ensures Backed(valid, tasklet, past + [x])
  {
    OneMore(past, x);
  }

  lemma BackedFrame(valid: seq<bool>, tasklet: Tasklet, past: seq<Effect>, f: nat)
    requires Backed(valid, tasklet, past) && f < |valid|
    ensures Backed(valid[f := true], tasklet, past + [Completed(f)])
  {
    OneMore(past, Completed(f));
  }

  lemma CountMore(past: seq<Effect>, x: Effect)
    ensures Count(past + [x]) == Count(past) + One(x.Completed?)
  {
    OneMore(past, x);
  }

  lemma FrameFacts(s: Cam, f: nat, t: Cam)
    requires s.Shaped() && s.Enabled(Frame(f)) && t == s.Step(Frame(f))
    ensures t.Shaped() && t.sequence == s.sequence + 1 && t.bufSeq == s.bufSeq[f := s.sequence + 1]
    ensures t.valid == s.valid[f := true] && t.sb == s.sb && t.tasklet == s.tasklet
    ensures t.nextBuf == (if s.nextBuf < 0 then f else s.nextBuf) && t.holder == s.holder
  {
  }

  lemma NumberedFrame(s: Cam, past: seq<Effect>, f: nat)
    requires Numbered(s, past) && s.Enabled(Frame(f))
    ensures Numbered(s.Step(Frame(f)), past + [Completed(f)])
  {
    FrameFacts(s, f, s.Step(Frame(f)));
    CountMore(past, Completed(f));
    PlacedFrame(s.bufSeq, past, f);
    InformedKept(s.sb, past, Completed(f));
    BackedFrame(s.valid, s.tasklet, past, f);
  }

  lemma NumberedCopy(s: Cam, past: seq<Effect>)
    requires Numbered(s, past) && s.Enabled(TaskCopy)
    ensures Numbered(s.Step(TaskCopy), past + s.Effects(TaskCopy))
  {
    var b, f := s.tasklet.sbuf, s.tasklet.bufno;
    CountMore(past, Filled(b, f));
    PlacedKept(s.bufSeq, past, Filled(b, f));
    InformedFill(s.sb, past, b, f, SioBuf(false, true, s.bufSeq[f]));
    BackedKept(s.valid, s.tasklet, past, Filled(b, f));
  }

  /** The numbers stay and nothing becomes full. */
  predicate SameNumbers(s: Cam, t: Cam) {
    && t.Shaped() && t.sequence == s.sequence && t.bufSeq == s.bufSeq && |t.sb| == |s.sb| && |t.valid| == |s.valid|
    && (forall b :: 0 <= b < |s.sb| ==> t.sb[b].sequence == s.sb[b].sequence)
    && (forall f :: 0 <= f < |t.valid| && t.valid[f] ==> s.valid[f])
    && (t.tasklet.Copying? ==> s.tasklet == t.tasklet || s.valid[t.tasklet.bufno])
  }

  lemma NumberedSame(s: Cam, past: seq<Effect>, t: Cam)
    requires s.Shaped() && Numbered(s, past) && SameNumbers(s, t)
    ensures Numbered(t, past)
  {
    forall b | 0 <= b < |t.sb| && LastFill(past, b) >= 0
      ensures Knows(t.sb[b], past, b)
    {
      assert Knows(s.sb[b], past, b);
    }
  }

  lemma NumberedNeutral(s: Cam, past: seq<Effect>, x: Effect)
    requires Numbered(s, past) && !x.Completed? && !x.Filled?
    ensures Numbered(s, past + [x])
  {
    CountMore(past, x);
    PlacedKept(s.bufSeq, past, x);
    InformedKept(s.sb, past, x);
    BackedKept(s.valid, s.tasklet, past, x);
  }

  /** The events that neither complete a frame nor fill a buffer. */
  lemma SameNumbersStep(s: Cam, e: Event)
    requires s.Shaped() && s.Enabled(e) && Reset !in s.Effects(e) && Emptied !in s.Effects(e) && s.Step(e).Shaped()
    requires !e.Frame? && !e.TaskCopy?
    ensures SameNumbers(s, s.Step(e))
  {
    EffectsFacts(s, e);
    if e.TaskStart? || e.TaskRetake? {
      SameNumbersTasklet(s, e);
    } else if e.QbufFlag? || e.DqbufFinish? {
      SameNumbersFlags(s, e);
    } else {
      SameNumbersRest(s, e);
    }
  }

  lemma SameNumbersTasklet(s: Cam, e: Event)
    requires s.Shaped() && s.Enabled(e) && s.Step(e).Shaped() && (e.TaskStart? || e.TaskRetake?)
    ensures SameNumbers(s, s.Step(e))
  {
    if e.TaskStart? {
      TaskLoopFacts(s.(pending := false), 0);
    } else {
      ShapedMoved(s);
      TaskLoopFacts(s.MoveToFull(), s.tasklet.i + 1);
    }
  }

  lemma SameNumbersFlags(s: Cam, e: Event)
    requires s.Shaped() && s.Enabled(e) && s.Step(e).Shaped() && (e.QbufFlag? || e.DqbufFinish?)
    ensures SameNumbers(s, s.Step(e))
  {
  }

  lemma SameNumbersRest(s: Cam, e: Event)
    requires s.Shaped() && s.Enabled(e) && !Resets(s, e) && !Empties(s, e) && s.Step(e).Shaped()
    requires !e.Frame? && !e.TaskCopy? && !e.TaskStart? && !e.TaskRetake? && !e.QbufFlag? && !e.DqbufFinish?
    ensures SameNumbers(s, s.Step(e))
  {
  }

  lemma NeutralEffects(s: Cam, e: Event)
    requires s.Shaped() && s.Enabled(e) && !e.Frame? && !e.TaskCopy?
    ensures |s.Effects(e)| <= 2 && forall x :: x in s.Effects(e) ==> !x.Completed? && !x.Filled?
  {
    if e.TaskRetake? {
      ShapedMoved(s);
    }
  }

  lemma NumberedAll(s: Cam, past: seq<Effect>, h: seq<Effect>)
    requires Numbered(s, past) && |h| <= 2 && forall x :: x in h ==> !x.Completed? && !x.Filled?
    ensures Numbered(s, past + h)
  {
    if |h| == 0 {
      assert past + h == past;
    } else if |h| == 1 {
      assert h == [h[0]];
      NumberedNeutral(s, past, h[0]);
    } else {
      assert h == [h[0]] + [h[1]] && past + h == past + [h[0]] + [h[1]];
      NumberedNeutral(s, past, h[0]);
      NumberedNeutral(s, past + [h[0]], h[1]);
    }
  }

  lemma NumberedStep(s: Cam, past: seq<Effect>, e: Event)
    requires Numbered(s, past) && s.Enabled(e) && Reset !in s.Effects(e) && Emptied !in s.Effects(e) && s.Step(e).Shaped()
    ensures Numbered(s.Step(e), past + s.Effects(e))
  {
    if e.Frame? {
      NumberedFrame(s, past, e.frame);
    } else if e.TaskCopy? {
      NumberedCopy(s, past);
    } else {
      SameNumbersStep(s, e);
      NumberedSame(s, past, s.Step(e));
      NeutralEffects(s, e);
      NumberedAll(s.Step(e), past, s.Effects(e));
    }
  }

  lemma {:induction false} NumberedRun(s: Cam, past: seq<Effect>, es: seq<Event>)
    requires Numbered(s, past) && Run(s, es) && Reset !in History(s, es) && Emptied !in History(s, es)
    ensures Numbered(Final(s, es), past + History(s, es))
    decreases |es|
  {
    if es == [] {
      assert past + [] == past;
    } else {
      var t := s.Step(es[0]);
      HistoryParts(s, es);
      NumberedStep(s, past, es[0]);
      NumberedRun(t, past + s.Effects(es[0]), es[1..]);
      Regroup(past, s.Effects(es[0]), History(t, es[1..]));
    }
  }

  /** Behind streamon, unless a copy is still under way from before: a buffer carries
      the place, counted from streamon, of the frame it was last filled with. */
  lemma BufferNumbers(s: Cam, es: seq<Event>, b: nat)
    requires s.Shaped() && s.Enabled(StreamOn) && s.mode == Idle && s.sb != [] && !s.tasklet.Copying?
    requires Run(s.Step(StreamOn), es)
    requires var h := History(s.Step(StreamOn), es);
      Reset !in h && Emptied !in h && LastFill(h, b) >= 0 && b < |Final(s.Step(StreamOn), es).sb|
    ensures Knows(Final(s.Step(StreamOn), es).sb[b], History(s.Step(StreamOn), es), b)
  {
    var t := s.Step(StreamOn);
    NumberedRun(t, [], es);
    assert [] + History(t, es) == History(t, es);
  }

  // ------------------------------------------------- which buffer is filled

  /** The waiting buffers, each queued later than all those behind it. */
  predicate Stacked(past: seq<Effect>, l: seq<nat>)
    decreases |l|
  {
    l == [] || (
      && LastOf(past, Queued(l[0])) >= 0
      && (forall c :: c in l[1..] ==> LastOf(past, Queued(c)) < LastOf(past, Queued(l[0])))
      && Stacked(past, l[1..]))
  }

  lemma {:induction false} StackedMore(past: seq<Effect>, x: Effect, l: seq<nat>)
    requires Stacked(past, l) && (x.Queued? ==> x.b !in l)
    ensures Stacked(past + [x], l)
    decreases |l|
  {
    OneMore(past, x);
    if l != [] {
      StackedMore(past, x, l[1..]);
    }
  }

  lemma StackedPush(past: seq<Effect>, b: nat, l: seq<nat>)
    requires Stacked(past, l) && b !in l
    ensures Stacked(past + [Queued(b)], [b] + l)
  {
    StackedMore(past, Queued(b), l);
    OneMore(past, Queued(b));
    assert ([b] + l)[1..] == l;
  }

  lemma {:induction false} StackedRemove(past: seq<Effect>, l: seq<nat>, b: nat)
    requires Stacked(past, l)
    ensures Stacked(past, Remove(l, b))
    decreases |l|
  {
    if l != [] {
      StackedRemove(past, l[1..], b);
      RemoveFacts(l[1..], b);
      if l[0] != b {
        assert ([l[0]] + Remove(l[1..], b))[1..] == Remove(l[1..], b);
      } else {
        assert [] + Remove(l[1..], b) == Remove(l[1..], b);
      }
    }
  }

  lemma StackedAll(past: seq<Effect>, h: seq<Effect>, l: seq<nat>)
    requires Stacked(past, l) && |h| <= 2 && forall x :: x in h ==> !x.Queued?
    ensures Stacked(past + h, l)
  {
    if |h| == 0 {
      assert past + h == past;
    } else if |h| == 1 {
      assert h == [h[0]];
      StackedMore(past, h[0], l);
    } else {
      assert past + h == past + [h[0]] + [h[1]];
      StackedMore(past, h[0], l);
      StackedMore(past + [h[0]], h[1], l);
    }
  }

  /** All events but qbuf's leave the waiting buffers, drop one or drop all. */
  lemma WaitingStep(s: Cam, e: Event)
    requires s.Shaped() && s.Enabled(e) && !e.QbufAdd?
    ensures |s.Effects(e)| <= 2 && forall x :: x in s.Effects(e) ==> !x.Queued?
    ensures var l := s.Step(e).avail; l == s.avail || l == [] || (e.TaskRetake? && l == Remove(s.avail, s.tasklet.sbuf))
  {
    if e.TaskStart? {
      TaskLoopFacts(s.(pending := false), 0);
    } else if e.TaskRetake? {
      ShapedMoved(s);
      TaskLoopFacts(s.MoveToFull(), s.tasklet.i + 1);
    }
  }

  lemma StackedStep(s: Cam, past: seq<Effect>, e: Event)
    requires Inv(s) && Stacked(past, s.avail) && s.Enabled(e)
    ensures Stacked(past + s.Effects(e), s.Step(e).avail)
  {
    if e.QbufAdd? {
      StackedPush(past, s.holder.sbuf, s.avail);
    } else {
      WaitingStep(s, e);
      StackedAll(past, s.Effects(e), s.avail);
      if e.TaskRetake? {
        StackedRemove(past + s.Effects(e), s.avail, s.tasklet.sbuf);
      }
    }
  }

  lemma {:induction false} StackedRun(s: Cam, past: seq<Effect>, es: seq<Event>)
    requires Inv(s) && Stacked(past, s.avail) && Run(s, es)
    ensures Stacked(past + History(s, es), Final(s, es).avail)
    decreases |es|
  {
    if es == [] {
      assert past + [] == past;
    } else {
      InvStep(s, es[0]);
      StackedStep(s, past, es[0]);
      StackedRun(s.Step(es[0]), past + s.Effects(es[0]), es[1..]);
      Regroup(past, s.Effects(es[0]), History(s.Step(es[0]), es[1..]));
    }
  }

  /** In every run: the buffer the tasklet fills when it starts a copy is, of all that
      wait, the one queued last. */
  lemma LastQueuedFirst(s: Cam, es: seq<Event>, e: Event, c: nat)
    requires Initial(s) && Run(s, es + [e]) && (e.TaskStart? || e.TaskRetake?)
    requires Final(s, es + [e]).tasklet.Copying? && c in Final(s, es + [e]).avail
    ensures var u, h := Final(s, es + [e]), History(s, es + [e]);
      var b := u.tasklet.sbuf;
      b in u.avail && (c == b || 0 <= LastOf(h, Queued(c)) < LastOf(h, Queued(b)))
  {
    RunConcat(s, es, e);
    StackedRun(s, [], es + [e]);
    assert [] + History(s, es + [e]) == History(s, es + [e]);
    StartsAtHead(Final(s, es), e);
    StackedTop(History(s, es + [e]), Final(s, es + [e]).avail, c);
  }

  lemma StartsAtHead(s: Cam, e: Event)
    requires s.Shaped() && s.Enabled(e) && (e.TaskStart? || e.TaskRetake?) && s.Step(e).tasklet.Copying?
    ensures s.Step(e).avail != [] && s.Step(e).tasklet.sbuf == s.Step(e).avail[0]
  {
    if e.TaskStart? {
      TaskLoopFacts(s.(pending := false), 0);
    } else {
      ShapedMoved(s);
      TaskLoopFacts(s.MoveToFull(), s.tasklet.i + 1);
    }
  }

  lemma {:induction false} StackedTop(past: seq<Effect>, l: seq<nat>, c: nat)
    requires Stacked(past, l) && c in l
    ensures 0 <= LastOf(past, Queued(c)) && (c == l[0] || LastOf(past, Queued(c)) < LastOf(past, Queued(l[0])))
    decreases |l|
  {
    if c != l[0] {
      StackedTop(past, l[1..], c);
    }
  }

  // ------------------------------------------- how long speculation goes on

  /** With n frames since the last delivery, a capture outlives what happens: never do
      as many frames as there are DMA buffers pass without a delivery. */
  predicate Outlives(n: int, bufs: nat, h: seq<Effect>)
    decreases |h|
  {
    h == [] || (
      match h[0]
      case Completed(_) => n + 1 < bufs && Outlives(n + 1, bufs, h[1..])
      case Delivered(_) => Outlives(0, bufs, h[1..])
      case _ => Outlives(n, bufs, h[1..]))
  }

  /** No read of the run times out. */
  ghost predicate NoTimeout(s: Cam, es: seq<Event>)
    requires Run(s, es)
    decreases |es|
  {
    es == [] || (!(es[0].ReadWake? && s.nextBuf < 0) && NoTimeout(s.Step(es[0]), es[1..]))
  }

  /** A capture with n frames since the last delivery, -1 before the first. */
  predicate Living(s: Cam, n: int) {
    && s.enabled && !s.holder.Stopping?
    && if n < 0 then n == -1 && s.mode == SingleRead && s.nextBuf < 0 && !s.holder.Delivers()
       else s.mode == SpecRead && s.specFrames == n
  }

  predicate Dead(s: Cam) { s.mode == Idle && !s.enabled && !s.holder.Stopping? }

  /** The count behind an event. */
  function After(s: Cam, e: Event, n: int): int {
    if e.Frame? then n + 1 else if e.Delivers() && s.nextBuf >= 0 then 0 else n
  }

  lemma LivingFrame(s: Cam, e: Event, n: int)
    requires Inv(s) && s.Enabled(e) && Living(s, n) && e.Frame?
    ensures if n + 1 < |s.valid| then Living(s.Step(e), n + 1) else Dead(s.Step(e))
  {
  }

  lemma LivingTasklet(s: Cam, e: Event, n: int)
    requires Inv(s) && s.Enabled(e) && Living(s, n) && (e.TaskStart? || e.TaskRetake?)
    ensures Living(s.Step(e), n)
  {
    if e.TaskStart? {
      TaskLoopExact(s.(pending := false), 0, s.Step(e));
      TaskLoopFacts(s.(pending := false), 0);
    } else {
      ShapedMoved(s);
      TaskLoopExact(s.MoveToFull(), s.tasklet.i + 1, s.Step(e));
      TaskLoopFacts(s.MoveToFull(), s.tasklet.i + 1);
    }
  }

  lemma LivingRest(s: Cam, e: Event, n: int)
    requires Inv(s) && s.Enabled(e) && Living(s, n) && !Resets(s, e) && !(e.ReadWake? && s.nextBuf < 0)
    requires !e.Frame? && !e.TaskStart? && !e.TaskRetake?
    ensures Living(s.Step(e), After(s, e, n))
  {
  }

  lemma DeadStep(s: Cam, e: Event)
    requires s.Shaped() && s.Enabled(e) && Dead(s) && !Resets(s, e) && !(e.ReadWake? && s.nextBuf < 0)
    ensures Dead(s.Step(e))
  {
    if e.TaskStart? || e.TaskRetake? {
      TaskletOnly(s, e);
      if e.TaskRetake? {
        ShapedMoved(s);
        TaskLoopFacts(s.MoveToFull(), s.tasklet.i + 1);
      } else {
        TaskLoopFacts(s.(pending := false), 0);
      }
    }
  }

  lemma {:induction false} DeadRun(s: Cam, es: seq<Event>)
    requires Capture(s, es) && NoTimeout(s, es) && Dead(s)
    ensures Dead(Final(s, es))
    decreases |es|
  {
    if es != [] {
      HistoryParts(s, es);
      EffectsFacts(s, es[0]);
      DeadStep(s, es[0]);
      DeadRun(s.Step(es[0]), es[1..]);
    }
  }

  lemma OutlivesStep(s: Cam, e: Event, n: int, bufs: nat, h: seq<Effect>)
    requires s.Shaped() && s.Enabled(e)
    ensures Outlives(n, bufs, s.Effects(e) + h) <==> (e.Frame? ==> n + 1 < bufs) && Outlives(After(s, e, n), bufs, h)
  {
    var fx := s.Effects(e);
    if e.TaskRetake? {
      ShapedMoved(s);
      var rest := s.MoveToFull().Takes(s.tasklet.i + 1);
      assert fx + h == [fx[0]] + (rest + h);
      assert ([fx[0]] + (rest + h))[1..] == rest + h;
      OutlivesTook(n, bufs, rest, h);
    } else if e.TaskStart? {
      OutlivesTook(n, bufs, fx, h);
    } else {
      OutlivesOne(s, e, n, bufs, h);
    }
  }

  lemma OutlivesTook(n: int, bufs: nat, fx: seq<Effect>, h: seq<Effect>)
    requires fx == [] || (|fx| == 1 && fx[0].Took?)
    ensures Outlives(n, bufs, fx + h) == Outlives(n, bufs, h)
  {
    if fx == [] {
      assert fx + h == h;
    } else {
      assert (fx + h)[1..] == h;
    }
  }

  lemma OutlivesOne(s: Cam, e: Event, n: int, bufs: nat, h: seq<Effect>)
    requires s.Shaped() && s.Enabled(e) && !e.TaskStart? && !e.TaskRetake?
    ensures Outlives(n, bufs, s.Effects(e) + h) <==> (e.Frame? ==> n + 1 < bufs) && Outlives(After(s, e, n), bufs, h)
  {
    var fx := s.Effects(e);
    if fx == [] {
      assert fx + h == h;
    } else {
      assert (fx + h)[1..] == h;
    }
  }

  /** A read capture without time-outs is still running if and only if it outlives what
      happens: deliveries keep it alive, and frames nobody reads end it. */
  lemma {:induction false} LivesIff(s: Cam, es: seq<Event>, n: int)
    requires Inv(s) && Living(s, n) && Capture(s, es) && NoTimeout(s, es)
    ensures var t := Final(s, es);
      if Outlives(n, |s.valid|, History(s, es)) then t.enabled && t.mode in {SingleRead, SpecRead}
      else !t.enabled && t.mode == Idle
    decreases |es|
  {
    if es != [] {
      var e, t := es[0], s.Step(es[0]);
      HistoryParts(s, es);
      EffectsFacts(s, e);
      InvStep(s, e);
      StepKeepsRing(s, e);
      OutlivesStep(s, e, n, |s.valid|, History(t, es[1..]));
      if e.Frame? {
        LivingFrame(s, e, n);
      } else if e.TaskStart? || e.TaskRetake? {
        LivingTasklet(s, e, n);
      } else {
        LivingRest(s, e, n);
      }
      if e.Frame? && n + 1 >= |s.valid| {
        DeadRun(t, es[1..]);
      } else {
        LivesIff(t, es[1..], After(s, e, n));
      }
    }
  }

  /** Every read capture starts alive. */
  lemma SetUpLives(s: Cam)
    requires Inv(s) && s.SetsUp()
    ensures Living(s.Step(ReadOn(false)), -1)
  {
  }

  // -------------------------------------------------- frames read in order

  /** The frames in these buffers have the last numbers. */
  predicate LastNumbers(bufSeq: seq<nat>, w: seq<nat>, last: nat) {
    forall k | 0 <= k < |w| :: w[k] < |bufSeq| && bufSeq[w[k]] == last + 1 + k - |w|
  }

  /** The buffers lie behind one another in a ring of n. */
  predicate Chain(w: seq<nat>, n: nat) {
    forall k | 0 <= k < |w| - 1 :: w[k + 1] == if w[k] + 1 >= n then 0 else w[k] + 1
  }

  predicate ValidAre(valid: seq<bool>, w: seq<nat>) {
    forall f | 0 <= f < |valid| :: valid[f] <==> f in w
  }

  /** The frames not yet read, the oldest first. */
  predicate Backlog(s: Cam, w: seq<nat>) {
    && s.Shaped() && s.nextBuf == (if w == [] then -1 else w[0])
    && LastNumbers(s.bufSeq, w, s.sequence) && Chain(w, s.NBufs()) && ValidAre(s.valid, w)
  }

  /** A completed frame is no nuisance: it does not overwrite one not yet read, and
      comes behind the last one of those. */
  predicate OnTime(s: Cam, e: Event)
    requires s.Shaped() && s.Enabled(e)
  {
    e.Frame? ==>
      && !s.valid[e.frame]
      && forall g :: 0 <= g < s.NBufs() && s.valid[g] && s.bufSeq[g] == s.sequence ==> e.frame == s.After(g)
  }

  ghost predicate AllOnTime(s: Cam, es: seq<Event>)
    requires Run(s, es)
    decreases |es|
  {
    es == [] || (OnTime(s, es[0]) && AllOnTime(s.Step(es[0]), es[1..]))
  }

  /** The numbers of the frames read delivers. */
  function NumbersRead(s: Cam, es: seq<Event>): seq<nat>
    requires Run(s, es)
    decreases |es|
  {
    if es == [] then []
    else
      (if es[0].Delivers() && s.nextBuf >= 0 then [s.bufSeq[s.nextBuf]] else [])
      + NumbersRead(s.Step(es[0]), es[1..])
  }

  lemma NumbersMore(bufSeq: seq<nat>, w: seq<nat>, last: nat, f: nat)
    requires LastNumbers(bufSeq, w, last) && f < |bufSeq| && f !in w
    ensures LastNumbers(bufSeq[f := last + 1], w + [f], last + 1)
  {
  }

  lemma ChainMore(w: seq<nat>, n: nat, f: nat)
    requires Chain(w, n) && (w != [] ==> f == if w[|w| - 1] + 1 >= n then 0 else w[|w| - 1] + 1)
    ensures Chain(w + [f], n)
  {
    var v := w + [f];
    forall k | 0 <= k < |v| - 1
      ensures v[k + 1] == if v[k] + 1 >= n then 0 else v[k] + 1
    {
      if k < |w| - 1 {
        assert v[k] == w[k] && v[k + 1] == w[k + 1];
      }
    }
  }

  lemma ValidMore(valid: seq<bool>, w: seq<nat>, f: nat)
    requires ValidAre(valid, w) && f < |valid|
    ensures ValidAre(valid[f := true], w + [f])
  {
  }

  lemma BacklogFrame(s: Cam, f: nat, w: seq<nat>, t: Cam)
    requires Backlog(s, w) && f < s.NBufs() && OnTime(s, Frame(f)) && t == s.Step(Frame(f))
    ensures Backlog(t, w + [f]) && t.sequence == s.sequence + 1
  {
    FrameFacts(s, f, t);
    NumbersMore(s.bufSeq, w, s.sequence, f);
    if w != [] {
      var g := w[|w| - 1];
      assert g in w && s.valid[g] && s.bufSeq[g] == s.sequence;
    }
    ChainMore(w, s.NBufs(), f);
    ValidMore(s.valid, w, f);
  }

  lemma NumbersLess(bufSeq: seq<nat>, w: seq<nat>, last: nat)
    requires w != [] && LastNumbers(bufSeq, w, last)
    ensures LastNumbers(bufSeq, w[1..], last) && forall f :: f in w[1..] <==> f in w && f != w[0]
  {
    assert w == [w[0]] + w[1..];
    assert forall k | 0 < k < |w| :: bufSeq[w[k]] != bufSeq[w[0]];
  }

  lemma ChainLess(w: seq<nat>, n: nat)
    requires w != [] && Chain(w, n)
    ensures Chain(w[1..], n)
  {
  }

  lemma BacklogDeliver(s: Cam, w: seq<nat>, t: Cam)
    requires Backlog(s, w) && w != []
    requires t.Shaped() && t.NBufs() == s.NBufs() && t.bufSeq == s.bufSeq && t.sequence == s.sequence
    requires t.valid == s.valid[w[0] := false]
    requires t.nextBuf == if t.valid[s.After(w[0])] then s.After(w[0]) else -1
    ensures Backlog(t, w[1..])
  {
    NumbersLess(s.bufSeq, w, s.sequence);
    ChainLess(w, s.NBufs());
    assert ValidAre(t.valid, w[1..]);
    if |w| > 1 {
      assert w[0 + 1] == s.After(w[0]) && w[1] in w[1..];
    }
  }

  /** Nothing else touches the ring of a read capture. */
  lemma RingKept(s: Cam, e: Event, t: Cam)
    requires ReadSession(s) && s.Enabled(e) && !Resets(s, e) && !e.Frame? && !(e.Delivers() && s.nextBuf >= 0)
    requires t == s.Step(e)
    ensures t.valid == s.valid && t.nextBuf == s.nextBuf && t.bufSeq == s.bufSeq && t.sequence == s.sequence
  {
    if e.TaskRetake? {
      ShapedMoved(s);
    }
  }

  /** The list of frames to read, kept through an event. */
  lemma BacklogStep(s: Cam, e: Event, w: seq<nat>, t: Cam) returns (v: seq<nat>)
    requires ReadSession(s) && Backlog(s, w) && s.Enabled(e) && OnTime(s, e) && !Resets(s, e)
    requires t == s.Step(e) && t.Shaped()
    ensures Backlog(t, v)
    ensures t.sequence - |v| == s.sequence - |w| + One(e.Delivers() && s.nextBuf >= 0)
  {
    if e.Frame? {
      BacklogFrame(s, e.frame, w, t);
      v := w + [e.frame];
    } else if e.Delivers() && s.nextBuf >= 0 {
      BacklogDeliver(s, w, t);
      v := w[1..];
    } else {
      RingKept(s, e, t);
      v := w;
    }
  }

  predicate Consecutive(r: seq<nat>, first: int) {
    forall k | 0 <= k < |r| :: r[k] == first + k
  }

  lemma ConsecutiveMore(x: nat, r: seq<nat>)
    requires Consecutive(r, x + 1)
    ensures Consecutive([x] + r, x)
  {
  }

  lemma NumbersReadTurn(s: Cam, es: seq<Event>, r: seq<nat>)
    requires Run(s, es) && es != [] && r == NumbersRead(s.Step(es[0]), es[1..])
    ensures NumbersRead(s, es) == if es[0].Delivers() && s.nextBuf >= 0 then [s.bufSeq[s.nextBuf]] + r else r
  {
  }

  lemma {:induction false} ReadFrom(s: Cam, es: seq<Event>, w: seq<nat>)
    requires ReadSession(s) && Backlog(s, w) && Capture(s, es) && AllOnTime(s, es)
    ensures Consecutive(NumbersRead(s, es), s.sequence + 1 - |w|)
    decreases |es|
  {
    if es != [] {
      var t := s.Step(es[0]);
      HistoryParts(s, es);
      assert Reset !in s.Effects(es[0]) && Reset !in History(t, es[1..]);
      EffectsFacts(s, es[0]);
      ReadSessionStep(s, es[0]);
      var v := BacklogStep(s, es[0], w, t);
      ReadFrom(t, es[1..], v);
      NumbersReadTurn(s, es, NumbersRead(t, es[1..]));
      if es[0].Delivers() && s.nextBuf >= 0 {
        ConsecutiveMore(s.bufSeq[w[0]], NumbersRead(t, es[1..]));
      }
    }
  }

  /** A read capture without a leftover tasklet, whose frames come round the ring and
      overwrite none that waits, is read in order with none left out: the k-th
      delivery is of the k-th frame since the set-up. */
  lemma ReadInOrder(s: Cam, es: seq<Event>)
    requires Inv(s) && s.SetsUp() && Quiet(s)
    requires var t := s.Step(ReadOn(false)); Capture(t, es) && AllOnTime(t, es)
    ensures Consecutive(NumbersRead(s.Step(ReadOn(false)), es), s.sequence + 1)
  {
    InvStep(s, ReadOn(false));
    ReadFrom(s.Step(ReadOn(false)), es, []);
  }

  /** A reader that sleeps through a turn of the ring does not: with two buffers, of
      three frames it gets the last one first. */
  lemma OverrunSkips(t: Cam, es: seq<Event>)
    requires t.Shaped() && t.NBufs() == 2 && t.holder == ReadWaiting && t.nextBuf == -1
    requires es == [Frame(0), Frame(1), Frame(0), ReadWake, Deliver]
    ensures Capture(t, es) && NumbersRead(t, es) == [t.sequence + 3]
  {
    var a := t.Step(Frame(0));
    FrameFacts(t, 0, a);
    TwoMore(a, es[1..]);
    Unread(t, 0, a, es[1..], es);
  }

  lemma TwoMore(a: Cam, es: seq<Event>)
    requires a.Shaped() && a.NBufs() == 2 && a.holder == ReadWaiting && a.nextBuf == 0
    requires es == [Frame(1), Frame(0), ReadWake, Deliver]
    ensures Capture(a, es) && NumbersRead(a, es) == [a.sequence + 2]
  {
    var b := a.Step(Frame(1));
    FrameFacts(a, 1, b);
    FirstAnew(b, es[1..]);
    Unread(a, 1, b, es[1..], es);
  }

  lemma FirstAnew(b: Cam, es: seq<Event>)
    requires b.Shaped() && b.holder == ReadWaiting && b.nextBuf == 0 && es == [Frame(0), ReadWake, Deliver]
    ensures Capture(b, es) && NumbersRead(b, es) == [b.sequence + 1]
  {
    var c := b.Step(Frame(0));
    FrameFacts(b, 0, c);
    ReadLast(c, es[1..]);
    Unread(b, 0, c, es[1..], es);
  }

  lemma ReadLast(c: Cam, es: seq<Event>)
    requires c.Shaped() && c.holder == ReadWaiting && c.nextBuf >= 0 && es == [ReadWake, Deliver]
    ensures Capture(c, es) && NumbersRead(c, es) == [c.bufSeq[c.nextBuf]]
  {
    var d := c.Step(ReadWake);
    assert es[1..] == [Deliver] + es[2..] && es == [ReadWake] + es[1..];
    RunBehind(d, Deliver, es[2..]);
    RunBehind(c, ReadWake, es[1..]);
    NumbersReadTurn(d, es[1..], []);
    NumbersReadTurn(c, es, [d.bufSeq[d.nextBuf]]);
  }

  lemma Unread(s: Cam, f: nat, t: Cam, es: seq<Event>, all: seq<Event>)
    requires s.Shaped() && f < s.NBufs() && t == s.Step(Frame(f)) && Capture(t, es) && all == [Frame(f)] + es
    ensures Capture(s, all) && NumbersRead(s, all) == NumbersRead(t, es)
  {
    RunBehind(s, Frame(f), es);
    NumbersReadTurn(s, all, NumbersRead(t, es));
  }
}
