/**
 * The frame-based animation timeline of `Animation.java`: frames with
 * cumulative end times, a cursor that `update` advances by the time elapsed
 * since the last tick, wrap-around or clamping at the end, and an optional
 * frame at which playback pauses by itself.
 *
 * The pure part (the value `Timeline` and the function `Step`) specifies
 * `update`; the class `Animation` holds the same state in fields and its
 * methods are proved against it.
 */
module Animations {
  import opened Wrappers
  import JavaInt

  /** `Animation.Frame`: an image resource id and the time at which the frame ends. */
  datatype Frame = Frame(image: int, endTime: int)

  /** What `update` can throw. */
  datatype AnimationError =
    | DivisionByZero        // `elapsedTime %= duration` with a zero total duration
    | FrameIndexOutOfBounds // the frame scan ran past the last frame

  /** The fields of an `Animation`, as one value. The float speed factor is not part of it. */
  datatype Timeline = Timeline(
    frames: seq<Frame>,
    duration: int,
    elapsed: int,
    current: int,
    playing: bool,
    repeating: bool,
    looped: bool,
    pauseAt: int)

  /** The new timeline after an `update`, and whether it returned or threw. */
  datatype StepResult = StepResult(next: Timeline, outcome: Outcome<AnimationError>)

  // ---------------------------------------------------------------------------
  // Frame end times

  function Sum(ds: seq<int>): (total: int)
  {
    if ds == [] then 0 else Sum(ds[..|ds| - 1]) + ds[|ds| - 1]
  }

  /**
   * `fs` are the frames that successive `addFrame` calls with durations `ds`
   * build: each frame ends at the total of the durations up to and including
   * its own.
   */
  predicate Cumulative(fs: seq<Frame>, ds: seq<int>)
  {
    && |fs| == |ds|
    && (fs != [] ==>
         && Cumulative(fs[..|fs| - 1], ds[..|ds| - 1])
         && fs[|fs| - 1].endTime == Sum(ds))
  }

  predicate NonNegative(ds: seq<int>)
  {
    forall i :: 0 <= i < |ds| ==> ds[i] >= 0
  }

  /** End times never decrease along the frame list. */
  predicate Sorted(frames: seq<Frame>)
  {
    forall i, j :: 0 <= i <= j < |frames| ==> frames[i].endTime <= frames[j].endTime
  }

  /** Frame `i` ends at the sum of the first `i + 1` durations. */
  lemma {:induction false} CumulativeAt(fs: seq<Frame>, ds: seq<int>, i: nat)
    requires Cumulative(fs, ds) && i < |fs|
    ensures fs[i].endTime == Sum(ds[..i + 1])
    decreases |fs|
  {
    if i == |fs| - 1 {
      assert ds[..i + 1] == ds;
    } else {
      var n := |fs|;
      CumulativeAt(fs[..n - 1], ds[..n - 1], i);
      assert ds[..n - 1][..i + 1] == ds[..i + 1];
    }
  }

  lemma {:induction false} SumPrefixGrows(ds: seq<int>, i: nat, j: nat)
    requires NonNegative(ds)
    requires i <= j <= |ds|
    ensures Sum(ds[..i]) <= Sum(ds[..j])
    decreases j
  {
    if i < j {
      var p := ds[..j];
      assert p[..|p| - 1] == ds[..j - 1];
      SumPrefixGrows(ds, i, j - 1);
    }
  }

  /**
   * With no negative frame duration the end times are non-decreasing and
   * none is below 0.
   */
  lemma CumulativeSorted(fs: seq<Frame>, ds: seq<int>)
    requires Cumulative(fs, ds) && NonNegative(ds)
    ensures Sorted(fs)
    ensures forall i :: 0 <= i < |fs| ==> 0 <= fs[i].endTime
  {
    forall i, j | 0 <= i <= j < |fs| ensures fs[i].endTime <= fs[j].endTime {
      CumulativeAt(fs, ds, i);
      CumulativeAt(fs, ds, j);
      SumPrefixGrows(ds, i + 1, j + 1);
    }
    forall i | 0 <= i < |fs| ensures 0 <= fs[i].endTime {
      CumulativeAt(fs, ds, i);
      assert ds[..0] == [];
      SumPrefixGrows(ds, 0, i + 1);
    }
  }

  /** Appending a duration and a frame ending at the new total keeps the frames cumulative. */
  lemma CumulativeAppend(fs: seq<Frame>, ds: seq<int>, image: int, d: int)
    requires Cumulative(fs, ds)
    ensures Cumulative(fs + [Frame(image, Sum(ds) + d)], ds + [d])
  {
    var fs', ds' := fs + [Frame(image, Sum(ds) + d)], ds + [d];
    assert fs'[..|fs'| - 1] == fs;
    assert ds'[..|ds'| - 1] == ds;
  }

  // ---------------------------------------------------------------------------
  // Accessors

  /** `getFrameImage(i)`: the image of frame `i`, or the sentinel -1 for an index out of range. */
  function ImageAt(frames: seq<Frame>, i: int): (image: int)
    ensures 0 <= i < |frames| ==> image == frames[i].image
    ensures i < 0 || |frames| <= i ==> image == -1
  {
    if i < 0 || i >= |frames| then -1 else frames[i].image
  }

  // ---------------------------------------------------------------------------
  // `update`

  /**
   * The frame scan of `update`: from index `i`, step forward while the time
   * `t` is past the end of the frame. Stops at `|frames|` when every frame
   * from `i` on is over (the Java code then throws, reading one past the
   * last frame).
   */
  function Scan(frames: seq<Frame>, i: int, t: int): (j: int)
    requires 0 <= i <= |frames|
    ensures i <= j <= |frames|
    decreases |frames| - i
  {
    if i == |frames| || t <= frames[i].endTime then i else Scan(frames, i + 1, t)
  }

  /**
   * The scan stops at the first frame from `i` on whose end time is not
   * below `t`: every frame it passes is over, the one it stops at is not.
   */
  lemma {:induction false} ScanFindsFirst(frames: seq<Frame>, i: int, t: int)
    requires 0 <= i <= |frames|
    ensures var j := Scan(frames, i, t);
      && (forall k :: i <= k < j ==> frames[k].endTime < t)
      && (j < |frames| ==> t <= frames[j].endTime)
    decreases |frames| - i
  {
    if i < |frames| && t > frames[i].endTime {
      ScanFindsFirst(frames, i + 1, t);
    }
  }

  /** The cursor is in range (or one past the end, after a failed scan). */
  predicate CursorInRange(t: Timeline)
  {
    0 <= t.current <= |t.frames|
  }

  /** The shape `addFrame` maintains: the last frame ends at the total duration. */
  predicate Shaped(t: Timeline)
  {
    && CursorInRange(t)
    && (|t.frames| == 0 ==> t.duration == 0)
    && (|t.frames| > 0 ==> t.frames[|t.frames| - 1].endTime == t.duration)
  }

  /** Whether the accumulated time `e` reaches the end of the timeline. */
  predicate Reaches(t: Timeline, e: int)
  {
    e >= t.duration
  }

  /** Whether `update(delta)` does anything at all. */
  predicate Advances(t: Timeline)
  {
    t.playing && |t.frames| > 1
  }

  /**
   * The first half of `update`: accumulate the time `e` and, at the end of the
   * timeline, wrap it around (repeating) or clamp it (not repeating).
   */
  function Settle(t: Timeline, e: int): (s: Timeline)
    requires CursorInRange(t)
    requires !(Reaches(t, e) && t.repeating && t.duration == 0)
    ensures CursorInRange(s)
    ensures s.frames == t.frames && s.duration == t.duration && s.repeating == t.repeating
    ensures s.playing == t.playing && s.pauseAt == t.pauseAt
  {
    if !Reaches(t, e) then t.(elapsed := e)
    else if t.repeating then t.(elapsed := JavaInt.Rem(e, t.duration), current := 0, looped := true)
    else t.(elapsed := t.duration, looped := true)
  }

  /**
   * The second half of `update`: scan forward to the first frame not yet over,
   * then pause if that is the pause target.
   */
  function Seek(t: Timeline): (r: StepResult)
    requires CursorInRange(t)
    ensures CursorInRange(r.next)
    ensures r.next.frames == t.frames && r.next.duration == t.duration
    ensures r.next.repeating == t.repeating && r.next.elapsed == t.elapsed
  {
    var c := Scan(t.frames, t.current, t.elapsed);
    var t' := t.(current := c);
    if c == |t.frames| then StepResult(t', Fail(FrameIndexOutOfBounds))
    else if c == t.pauseAt then StepResult(t'.(playing := false, pauseAt := -1), Pass)
    else StepResult(t', Pass)
  }

  /**
   * `update(delta)`, where `delta` is the elapsed time already multiplied by
   * the speed factor and truncated to an integer.
   */
  function Step(t: Timeline, delta: int): (r: StepResult)
    requires CursorInRange(t)
    ensures CursorInRange(r.next)
    ensures r.next.frames == t.frames && r.next.duration == t.duration
    ensures r.next.repeating == t.repeating
  {
    if !Advances(t) then StepResult(t, Pass)
    else
      var e := t.elapsed + delta;
      if Reaches(t, e) && t.repeating && t.duration == 0 then
        StepResult(t.(elapsed := e), Fail(DivisionByZero))
      else
        Seek(Settle(t, e))
  }

  /** A paused timeline, or one with fewer than two frames, is left exactly as it is. */
  lemma StepIdle(t: Timeline, delta: int)
    requires CursorInRange(t)
    requires !t.playing || |t.frames| <= 1
    ensures Step(t, delta) == StepResult(t, Pass)
  {
  }

  /**
   * `update` throws the division-by-zero exception exactly when a repeating
   * timeline of total duration 0 is advanced to a non-negative time.
   */
  lemma StepDivisionByZero(t: Timeline, delta: int)
    requires CursorInRange(t)
    ensures Step(t, delta).outcome == Fail(DivisionByZero) <==>
      Advances(t) && t.repeating && t.duration == 0 && t.elapsed + delta >= 0
  {
  }

  /**
   * With a non-negative total duration and the cursor on a frame, the scan
   * never runs past the last frame: `update` can fail only by dividing by zero,
   * and the cursor stays on a frame.
   */
  lemma StepInBounds(t: Timeline, delta: int)
    requires Shaped(t) && t.current < |t.frames| && t.duration >= 0
    ensures Step(t, delta).outcome != Fail(FrameIndexOutOfBounds)
    ensures Step(t, delta).next.current < |t.frames|
  {
    if Advances(t) {
      var e := t.elapsed + delta;
      var n := |t.frames|;
      if Reaches(t, e) && t.repeating && t.duration > 0 {
        JavaInt.NonNegativeAgrees(e, t.duration);
      }
      if !(Reaches(t, e) && t.repeating && t.duration == 0) {
        var s := Settle(t, e);
        assert s.elapsed <= t.frames[n - 1].endTime;
        ScanFindsFirst(t.frames, s.current, s.elapsed);
      }
    }
  }

  /**
   * Reaching the end of a repeating timeline of positive duration wraps the
   * cursor time modulo the duration, rescans from frame 0 and records the loop.
   */
  lemma StepWraps(t: Timeline, delta: int)
    requires CursorInRange(t) && Advances(t) && t.repeating && t.duration > 0
    requires t.elapsed + delta >= t.duration
    ensures var r := Step(t, delta);
      && r.next.elapsed == (t.elapsed + delta) % t.duration
      && 0 <= r.next.elapsed < t.duration
      && r.next.looped
      && r.next.current == Scan(t.frames, 0, r.next.elapsed)
  {
    JavaInt.NonNegativeAgrees(t.elapsed + delta, t.duration);
  }

  /**
   * Reaching the end of a non-repeating timeline clamps the cursor time to the
   * duration and still records a loop; the cursor only moves forward.
   */
  lemma StepClamps(t: Timeline, delta: int)
    requires CursorInRange(t) && Advances(t) && !t.repeating
    requires t.elapsed + delta >= t.duration
    ensures var r := Step(t, delta);
      && r.next.elapsed == t.duration
      && r.next.looped
      && r.next.current == Scan(t.frames, t.current, t.duration)
      && r.next.current >= t.current
  {
  }

  /**
   * With sorted end times, a last frame of positive length and the cursor on a
   * frame, clamping leaves the cursor on the last frame.
   */
  lemma ClampLandsOnLastFrame(t: Timeline, delta: int)
    requires Shaped(t) && Advances(t) && !t.repeating && Sorted(t.frames)
    requires t.current < |t.frames|
    requires t.frames[|t.frames| - 2].endTime < t.duration
    requires t.elapsed + delta >= t.duration
    ensures Step(t, delta).next.current == |t.frames| - 1
  {
    var n := |t.frames|;
    ScanFindsFirst(t.frames, t.current, t.duration);
  }

  /** Before the end is reached the cursor moves forward only. */
  lemma StepForward(t: Timeline, delta: int)
    requires CursorInRange(t)
    requires !Reaches(t, t.elapsed + delta)
    ensures Step(t, delta).next.current >= t.current
    ensures Advances(t) ==> Step(t, delta).next.elapsed == t.elapsed + delta
    ensures Step(t, delta).next.looped == t.looped
  {
  }

  /**
   * `update` sets the loop flag exactly when it advances a timeline to its end
   * without dividing by zero, and never clears it.
   */
  lemma StepLoopFlag(t: Timeline, delta: int)
    requires CursorInRange(t)
    ensures Step(t, delta).next.looped <==>
      t.looped || (Advances(t) && Reaches(t, t.elapsed + delta) && !(t.repeating && t.duration == 0))
  {
  }

  /**
   * The cursor frame is the first frame whose end time is at or after the
   * cursor time.
   */
  predicate Synced(t: Timeline)
  {
    && 0 <= t.current < |t.frames|
    && t.elapsed <= t.frames[t.current].endTime
    && forall k :: 0 <= k < t.current ==> t.frames[k].endTime < t.elapsed
  }

  /**
   * The scan ends synced when every frame before its start is already over
   * and the time does not pass the last frame's end.
   */
  lemma SeekSynced(t: Timeline)
    requires CursorInRange(t) && t.current < |t.frames|
    requires t.elapsed <= t.frames[|t.frames| - 1].endTime
    requires forall k :: 0 <= k < t.current ==> t.frames[k].endTime < t.elapsed
    ensures Synced(Seek(t).next)
  {
    ScanFindsFirst(t.frames, t.current, t.elapsed);
  }

  /**
   * From a synced timeline and a later cursor time, settling the clock leaves
   * the scan a valid start: every frame before the cursor over, and the time
   * within the animation.
   */
  lemma SettleReadyToSeek(t: Timeline, e: int)
    requires Shaped(t) && Sorted(t.frames) && Synced(t)
    requires 0 <= t.elapsed <= e
    requires !(Reaches(t, e) && t.repeating && t.duration == 0)
    ensures var s := Settle(t, e);
      && CursorInRange(s) && s.current < |s.frames|
      && 0 <= s.elapsed <= s.frames[|s.frames| - 1].endTime
      && forall k :: 0 <= k < s.current ==> s.frames[k].endTime < s.elapsed
  {
    var n := |t.frames|;
    assert t.frames[t.current].endTime <= t.frames[n - 1].endTime;
    if Reaches(t, e) && t.repeating {
      JavaInt.NonNegativeAgrees(e, t.duration);
    }
  }

  /**
   * On sorted frames, an `update` with a non-negative delta that returns
   * normally keeps the cursor frame the first frame not yet over.
   */
  lemma StepKeepsSynced(t: Timeline, delta: int)
    requires Shaped(t) && Sorted(t.frames) && Synced(t)
    requires 0 <= t.elapsed && 0 <= delta
    requires Step(t, delta).outcome == Pass
    ensures Synced(Step(t, delta).next)
    ensures 0 <= Step(t, delta).next.elapsed
  {
    if Advances(t) {
      var e := t.elapsed + delta;
      assert !(Reaches(t, e) && t.repeating && t.duration == 0);
      SettleReadyToSeek(t, e);
      var s := Settle(t, e);
      SeekSynced(s);
      assert Step(t, delta) == Seek(s);
    }
  }

  /** Restarting a timeline of sorted frames that start at or after 0 leaves it synced. */
  lemma RestartSynced(t: Timeline)
    requires |t.frames| > 0 && t.frames[0].endTime >= 0
    ensures Synced(t.(elapsed := 0, current := 0, looped := false, playing := true))
  {
  }

  /**
   * A negative delta (a negative speed factor) moves the cursor time back but
   * never the cursor frame, so the frame no longer matches the time.
   */
  lemma NegativeDeltaDesyncs()
    ensures var t := Timeline([Frame(1, 100), Frame(2, 250)], 250, 110, 1, true, true, false, -1);
      Synced(t) && !Synced(Step(t, -50).next) && Step(t, -50).next.current == 1
  {
    var t := Timeline([Frame(1, 100), Frame(2, 250)], 250, 110, 1, true, true, false, -1);
    var t' := Step(t, -50).next;
    assert t'.elapsed == 60 && t'.current == 1;
    assert t'.frames[0].endTime >= t'.elapsed;
  }

  /**
   * On sorted frames a negative delta that takes the cursor time back to or
   * before the end of the previous frame leaves the cursor frame where it was,
   * so the timeline is no longer synced.
   */
  lemma NegativeDeltaStaysBehind(t: Timeline, delta: int)
    requires Shaped(t) && Sorted(t.frames) && Synced(t) && Advances(t)
    requires t.current > 0 && delta < 0
    requires t.elapsed + delta <= t.frames[t.current - 1].endTime
    ensures Step(t, delta).next.current == t.current
    ensures !Synced(Step(t, delta).next)
  {
    var n := |t.frames|;
    assert t.frames[t.current].endTime <= t.frames[n - 1].endTime;
    assert !Reaches(t, t.elapsed + delta);
  }

  /**
   * Landing on the pause target stops playback and clears the target; every
   * later `update` is then a no-op until playback is started again.
   */
  lemma AutoPauseFires(t: Timeline, delta: int, later: int)
    requires CursorInRange(t) && Advances(t)
    requires Step(t, delta).outcome == Pass
    requires Step(t, delta).next.current == t.pauseAt
    ensures var t' := Step(t, delta).next;
      !t'.playing && t'.pauseAt == -1 && Step(t', later) == StepResult(t', Pass)
  {
  }

  /**
   * `update` stops playback only by landing on the pause target: otherwise
   * it keeps playing and keeps a pending target.
   */
  lemma PauseOnlyOnTarget(t: Timeline, delta: int)
    requires CursorInRange(t)
    ensures var r := Step(t, delta);
      var fired := Advances(t) && r.outcome == Pass && r.next.current == t.pauseAt;
      && r.next.playing == (t.playing && !fired)
      && r.next.pauseAt == (if fired then -1 else t.pauseAt)
  {
  }

  /** Without a pause target an `update` never stops playback: the auto-pause fires once. */
  lemma NoTargetNoPause(t: Timeline, delta: int)
    requires CursorInRange(t) && t.pauseAt == -1
    ensures Step(t, delta).next.playing == t.playing
    ensures Step(t, delta).next.pauseAt == -1
  {
  }

  /**
   * A full duration's worth of time on a repeating timeline that has just
   * been restarted sets the loop flag and returns the cursor to frame 0.
   */
  lemma FullTurnLoops(t: Timeline)
    requires CursorInRange(t) && Advances(t) && t.repeating && t.duration > 0
    requires t.elapsed == 0 && t.frames[0].endTime >= 0
    ensures var t' := Step(t, t.duration).next;
      t'.looped && t'.elapsed == 0 && t'.current == 0
  {
  }

  /** Two frames ending at 100 and 250, repeating: ticks of 50, 60 and 150. */
  lemma TwoFrameScenario()
    ensures var t0 := Timeline([Frame(1, 100), Frame(2, 250)], 250, 0, 0, true, true, false, -1);
      var t1 := Step(t0, 50).next;
      var t2 := Step(t1, 60).next;
      var t3 := Step(t2, 150).next;
      && t1.current == 0 && ImageAt(t1.frames, t1.current) == 1
      && t2.elapsed == 110 && t2.current == 1 && ImageAt(t2.frames, t2.current) == 2
      && t3.elapsed == 10 && t3.current == 0 && t3.looped
  {
    var t0 := Timeline([Frame(1, 100), Frame(2, 250)], 250, 0, 0, true, true, false, -1);
    var t2 := Step(Step(t0, 50).next, 60).next;
    JavaInt.NonNegativeAgrees(260, 250);
    assert Step(t2, 150).next.elapsed == 10;
  }

  // ---------------------------------------------------------------------------
  // The class

  class Animation {
    var frames: seq<Frame>
    /** Total duration in milliseconds: the sum of the durations given to `addFrame`. */
    var duration: int
    var elapsedTime: int
    var currentFrame: int
    var isPlaying: bool
    var isRepeating: bool
    var hasLooped: bool
    /** Frame at which to pause by itself, or -1 for none. */
    var indexPauseAt: int
    /** The durations passed to `addFrame`, in order. */
    ghost var durations: seq<int>

    /** The frames are the ones the `addFrame` calls so far have built. */
    ghost predicate FramesBuilt()
      reads this`frames, this`durations, this`duration
    {
      Cumulative(frames, durations) && duration == Sum(durations)
    }

    ghost predicate Valid()
      reads this
    {
      && FramesBuilt()
      && Shaped(State())
      && -1 <= indexPauseAt
      && (indexPauseAt <= 0 || indexPauseAt < |frames|)
    }

    function State(): (t: Timeline)
      reads this
    {
      Timeline(frames, duration, elapsedTime, currentFrame,
               isPlaying, isRepeating, hasLooped, indexPauseAt)
    }

    /** A new animation: no frames, playing, repeating, not looped, no pause target. */
    constructor ()
      ensures Valid() && durations == []
      ensures State() == Timeline([], 0, 0, 0, true, true, false, -1)
    {
      frames := [];
      duration := 0;
      elapsedTime := 0;
      currentFrame := 0;
      isPlaying := true;
      isRepeating := true;
      hasLooped := false;
      indexPauseAt := -1;
      durations := [];
    }

    /** `addFrame(image, d)`: one more frame, ending at the new total duration. */
    method AddFrame(image: int, d: int)
      requires Valid()
      modifies this
      ensures Valid()
      ensures durations == old(durations) + [d]
      ensures duration == old(duration) + d
      ensures frames == old(frames) + [Frame(image, duration)]
      ensures State() == old(State()).(frames := frames, duration := duration)
    {
      CumulativeAppend(frames, durations, image, d);
      duration := duration + d;
      frames := frames + [Frame(image, duration)];
      durations := durations + [d];
    }

    /** `setCurrentFrame(f)`: ignored unless `f` names a frame. */
    method SetCurrentFrame(f: int)
      requires Valid()
      modifies this
      ensures Valid() && durations == old(durations)
      ensures 0 <= f < |frames| ==> State() == old(State()).(current := f)
      ensures !(0 <= f < |frames|) ==> State() == old(State())
    {
      if f < 0 || f >= |frames| {
        return;
      }
      currentFrame := f;
    }

    /** `getFrameImage(i)`. */
    function GetFrameImage(i: int): (image: int)
      reads this
      ensures image == ImageAt(frames, i)
    {
      ImageAt(frames, i)
    }

    /** `getCurrentFrameImage()`: -1 while there is no frame under the cursor. */
    function GetCurrentFrameImage(): (image: int)
      reads this
      ensures image == GetFrameImage(currentFrame)
    {
      GetFrameImage(currentFrame)
    }

    /** `setRepeating(repeating)`. */
    method SetRepeating(repeating: bool)
      requires Valid()
      modifies this
      ensures Valid() && durations == old(durations)
      ensures State() == old(State()).(repeating := repeating)
    {
      isRepeating := repeating;
    }

    /** `hasLooped()`. */
    function HasLooped(): (r: bool)
      reads this
      ensures r == State().looped
    {
      hasLooped
    }

    /** `start()`: resumes playback from where it stands. */
    method Start()
      requires Valid()
      modifies this
      ensures Valid() && durations == old(durations)
      ensures State() == old(State()).(playing := true)
    {
      isPlaying := true;
    }

    /** `restart()`: back to time 0 and frame 0, loop flag cleared, playing. */
    method Restart()
      requires Valid()
      modifies this
      ensures Valid() && durations == old(durations)
      ensures State() == old(State()).(elapsed := 0, current := 0, looped := false, playing := true)
    {
      elapsedTime := 0;
      currentFrame := 0;
      hasLooped := false;
      isPlaying := true;
    }

    /** `pause()`. */
    method Pause()
      requires Valid()
      modifies this
      ensures Valid() && durations == old(durations)
      ensures State() == old(State()).(playing := false)
    {
      isPlaying := false;
    }

    /** `pauseAt(frame)`: an index that names no frame falls back to frame 0. */
    method PauseAt(frame: int)
      requires Valid()
      modifies this
      ensures Valid() && durations == old(durations)
      ensures 0 <= frame < |frames| ==> State() == old(State()).(pauseAt := frame)
      ensures !(0 <= frame < |frames|) ==> State() == old(State()).(pauseAt := 0)
    {
      if frame < 0 || frame >= |frames| {
        indexPauseAt := 0;
      } else {
        indexPauseAt := frame;
      }
    }

    /**
     * `update(elapsedTime)`, given the elapsed time already scaled by the
     * speed factor. Returns `Fail` where the Java method throws; the fields
     * then hold what they held when it threw.
     */
    method Update(delta: int) returns (r: Outcome<AnimationError>)
      requires Valid()
      modifies this
      ensures Valid() && durations == old(durations)
      ensures StepResult(State(), r) == Step(old(State()), delta)
    {
      if isPlaying && |frames| > 1 {
        r := AdvanceClock(delta);
        if r == Pass {
          r := ScanForward();
        }
      } else {
        r := Pass;
      }
    }

    /**
     * The start of `update`: advance the clock by `delta` and, at or past the
     * end, wrap it (repeating) or hold it at the end, recording the loop.
     */
    method AdvanceClock(delta: int) returns (r: Outcome<AnimationError>)
      requires Valid()
      modifies this
      ensures Valid() && durations == old(durations)
      ensures var e := old(elapsedTime) + delta;
        if Reaches(old(State()), e) && old(isRepeating) && old(duration) == 0
        then r == Fail(DivisionByZero) && State() == old(State()).(elapsed := e)
        else r == Pass && State() == Settle(old(State()), e)
    {
      elapsedTime := elapsedTime + delta;
      if elapsedTime >= duration {
        if isRepeating {
          if duration == 0 {
            return Fail(DivisionByZero);
          }
          elapsedTime := JavaInt.Rem(elapsedTime, duration);
          currentFrame := 0;
        } else {
          elapsedTime := duration;
        }
        hasLooped := true;
      }
      r := Pass;
    }

    /**
     * The end of `update`: move the cursor forward while the cursor time is
     * past the end of its frame, then pause if it landed on the pause target.
     */
    method ScanForward() returns (r: Outcome<AnimationError>)
      requires Valid()
      modifies this
      ensures Valid() && durations == old(durations)
      ensures StepResult(State(), r) == Seek(old(State()))
    {
      ghost var t0 := State();
      // The scan runs on a local copy of the cursor; the field is written
      // once it stops, which is where the Java loop leaves it too.
      var c := currentFrame;
      while c < |frames| && elapsedTime > frames[c].endTime
        invariant currentFrame <= c <= |frames|
        invariant Scan(frames, c, elapsedTime) == Scan(frames, currentFrame, elapsedTime)
        decreases |frames| - c
      {
        c := c + 1;
      }
      currentFrame := c;
      if currentFrame == |frames| {
        return Fail(FrameIndexOutOfBounds);
      }
      if currentFrame == indexPauseAt {
        isPlaying := false;
        indexPauseAt := -1;
      }
      r := Pass;
    }
  }
}
