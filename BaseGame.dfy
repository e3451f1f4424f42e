/**
 * The game lifecycle of `BaseGame.java`: starting the game (registering its
 * scenes, firing the start callback, starting the initial scene and the game
 * loop), pausing, resuming and ending it, and handing `update`/`onDraw` to
 * the current scene.
 *
 * The callbacks a game or a scene receives are not modelled by their code
 * (it belongs to the game's author); each call is recorded instead as an
 * `Event` appended to a trace, so the order and number of callbacks is part
 * of the state the lemmas talk about. `GameState` is the state as a value and
 * the `...Spec` functions are the operations on it; the class `BaseGame`
 * holds the same state in fields and its methods are proved against them.
 */
module Game {
  import opened Wrappers
  import opened Render
  import JavaInt

  /** A callback the game makes, in the order it makes them. */
  datatype Event =
    | OnStart                                   // the game's `onStart()`
    | OnPaused                                  // the game's `onPaused()`
    | OnResume                                  // the game's `onResume()`
    | OnOver                                    // the game's `onOver()`
    | SceneOnStart(scene: Scene)                // a scene's `onStart()`
    | SceneOnUpdate(scene: Scene, elapsed: int) // a scene's `onUpdate(elapsedTime)`
    | SceneOnDraw(scene: Scene)                 // a scene's `onDraw()`
    | LoopStart                                 // the game loop thread is started

  /** The exceptions the game's own operations throw. */
  datatype GameError =
    | NoScenes                // RuntimeException: the game defines no scenes
    | NoInitialScene          // RuntimeException: the game defines no initial scene
    | Registry(e: SceneError) // an exception from the scene registry
    | NoCurrentScene          // NullPointerException: no scene is current
    | LoopAlreadyStarted      // IllegalThreadStateException: the loop thread was started before
    | DivisionByZero          // ArithmeticException: a refresh rate of 0

  /** Everything the game's operations read or change. */
  datatype GameState = GameState(
    registry: Registry,
    current: Option<SceneKey>,
    over: bool,
    paused: bool,
    loopStarted: bool,
    trace: seq<Event>)

  /** The new state after an operation and how the operation ended. */
  datatype GameStep = GameStep(next: GameState, outcome: Outcome<GameError>)

  /** A freshly constructed game: no scenes, not over, not paused, the loop not started. */
  function Initial(): (g: GameState)
    ensures g.registry == map[] && g.current.None? && g.trace == []
    ensures !g.over && !g.paused && !g.loopStarted
  {
    GameState(map[], None, false, false, false, [])
  }

  /** What `isRunning()` reports: that the game is not paused. */
  predicate Running(g: GameState)
  {
    !g.paused
  }

  /** A game that is over is never paused. */
  predicate Consistent(g: GameState)
  {
    g.over ==> !g.paused
  }

  /** The number of `onOver()` calls in a trace. */
  function Overs(trace: seq<Event>): (n: nat)
    ensures n <= |trace|
    ensures n == 0 <==> OnOver !in trace
  {
    if trace == [] then 0
    else Overs(trace[..|trace| - 1]) + (if trace[|trace| - 1] == OnOver then 1 else 0)
  }

  /** `getUpdateInterval()`: milliseconds per frame, by Java's truncating division. */
  function UpdateInterval(fps: int): (r: Result<int, GameError>)
    ensures r.Failure? <==> fps == 0
    ensures r.Failure? ==> r.error == DivisionByZero
    ensures r.Success? ==> r.value == JavaInt.Div(1000, fps)
  {
    if fps == 0 then Failure(DivisionByZero) else Success(JavaInt.Div(1000, fps))
  }

  /** `pause()`: no effect once over or already paused; otherwise pause, then `onPaused()`. */
  function PauseSpec(g: GameState): (h: GameState)
    ensures h.(paused := g.paused, trace := g.trace) == g
    ensures h.paused == (g.paused || !g.over)
    ensures g.trace <= h.trace && |h.trace| <= |g.trace| + 1
  {
    if g.over || g.paused then g
    else g.(paused := true, trace := g.trace + [OnPaused])
  }

  /** `resume()`: no effect once over or when not paused; otherwise `onResume()`, then resume. */
  function ResumeSpec(g: GameState): (h: GameState)
    ensures h.(paused := g.paused, trace := g.trace) == g
    ensures h.paused == (g.paused && g.over)
    ensures g.trace <= h.trace && |h.trace| <= |g.trace| + 1
  {
    if g.over || !g.paused then g
    else g.(paused := false, trace := g.trace + [OnResume])
  }

  /** `end()`: no effect once over; otherwise over and not paused, then `onOver()`. */
  function EndSpec(g: GameState): (h: GameState)
    ensures h.(over := g.over, paused := g.paused, trace := g.trace) == g
    ensures h.over && h.paused == (g.paused && g.over)
    ensures g.trace <= h.trace && |h.trace| <= |g.trace| + 1
  {
    if g.over then g
    else g.(over := true, paused := false, trace := g.trace + [OnOver])
  }

  /**
   * `startScene(key)`: an unregistered class is an error and changes nothing;
   * otherwise the scene becomes current and its `onStart()` is called. An
   * exception from that callback is swallowed, so it changes nothing here.
   */
  function StartSceneSpec(g: GameState, key: SceneKey): (s: GameStep)
    ensures s.next.(current := g.current, trace := g.trace) == g
    ensures s.outcome.Fail? ==> s.next == g
    ensures g.trace <= s.next.trace && |s.next.trace| <= |g.trace| + 1
  {
    if key !in g.registry then GameStep(g, Fail(Registry(UnknownScene(key))))
    else GameStep(g.(current := Some(key), trace := g.trace + [SceneOnStart(g.registry[key])]), Pass)
  }

  /** The current scene, when one is set: `getCurrentScene()`. */
  function CurrentScene(g: GameState): (s: Option<Scene>)
    ensures s.Some? <==> g.current.Some? && g.current.value in g.registry
    ensures s.Some? ==> s.value == g.registry[g.current.value]
  {
    if g.current.Some? && g.current.value in g.registry then Some(g.registry[g.current.value]) else None
  }

  /** `update(elapsedTime)`: handed to the current scene; with none it throws. */
  function UpdateSpec(g: GameState, elapsed: int): (s: GameStep)
    ensures s.next.(trace := g.trace) == g
    ensures s.outcome.Fail? ==> s.next == g
    ensures g.trace <= s.next.trace && |s.next.trace| <= |g.trace| + 1
  {
    match CurrentScene(g)
    case None => GameStep(g, Fail(NoCurrentScene))
    case Some(scene) => GameStep(g.(trace := g.trace + [SceneOnUpdate(scene, elapsed)]), Pass)
  }

  /** `onDraw()`: handed to the current scene; with none it throws. */
  function DrawSpec(g: GameState): (s: GameStep)
    ensures s.next.(trace := g.trace) == g
    ensures s.outcome.Fail? ==> s.next == g
    ensures g.trace <= s.next.trace && |s.next.trace| <= |g.trace| + 1
  {
    match CurrentScene(g)
    case None => GameStep(g, Fail(NoCurrentScene))
    case Some(scene) => GameStep(g.(trace := g.trace + [SceneOnDraw(scene)]), Pass)
  }

  /**
   * `start()` with the game's scene list and initial scene class (`None` is
   * Java `null`): both are checked first; then every scene is registered,
   * stopping at the first exception; then `onStart()`, the flags are reset,
   * the initial scene is started and, last, the loop thread.
   */
  function StartSpec(g: GameState, scenes: seq<Option<Scene>>, initial: Option<SceneKey>): (s: GameStep)
    ensures g.trace <= s.next.trace
    ensures g.registry.Keys <= s.next.registry.Keys
    ensures g.loopStarted ==> s.next.loopStarted
  {
    if scenes == [] then GameStep(g, Fail(NoScenes))
    else if initial.None? then GameStep(g, Fail(NoInitialScene))
    else
      var reg := RegisterAll(g.registry, scenes);
      var g1 := g.(registry := reg.registry);
      if reg.outcome.Fail? then GameStep(g1, Fail(Registry(reg.outcome.error)))
      else
        var g2 := g1.(trace := g1.trace + [OnStart], over := false, paused := false);
        var s := StartSceneSpec(g2, initial.value);
        if s.outcome.Fail? then s
        else if s.next.loopStarted then GameStep(s.next, Fail(LoopAlreadyStarted))
        else GameStep(s.next.(loopStarted := true, trace := s.next.trace + [LoopStart]), Pass)
  }

  // ---------------------------------------------------------------------------
  // Pause, resume and end
  // ---------------------------------------------------------------------------

  /**
   * `pause()` fires `onPaused()` exactly when the game is neither over nor
   * paused, and a second `pause()` does nothing.
   */
  lemma PauseOnce(g: GameState)
    ensures PauseSpec(g) != g <==> !g.over && !g.paused
    ensures !g.over ==> PauseSpec(g).paused && !Running(PauseSpec(g))
    ensures PauseSpec(PauseSpec(g)) == PauseSpec(g)
    ensures !g.over && !g.paused ==> PauseSpec(g).trace == g.trace + [OnPaused]
    ensures Overs(PauseSpec(g).trace) == Overs(g.trace)
  {
    if !g.over && !g.paused {
      assert PauseSpec(g).trace[..|PauseSpec(g).trace| - 1] == g.trace;
    }
  }

  /**
   * `resume()` on a game that is not paused, or is over, does nothing;
   * otherwise it fires `onResume()` and the game runs again.
   */
  lemma ResumeOnlyWhenPaused(g: GameState)
    ensures ResumeSpec(g) != g <==> !g.over && g.paused
    ensures !g.over ==> Running(ResumeSpec(g))
    ensures ResumeSpec(ResumeSpec(g)) == ResumeSpec(g)
    ensures !g.over && g.paused ==> ResumeSpec(g).trace == g.trace + [OnResume]
  {
  }

  /** Resuming a game just paused puts the flags back and records the two callbacks. */
  lemma PauseThenResume(g: GameState)
    requires !g.over && !g.paused
    ensures ResumeSpec(PauseSpec(g)) == g.(trace := g.trace + [OnPaused, OnResume])
  {
  }

  /**
   * `end()` fires `onOver()` at most once: the first call ends the game, and
   * the game then reports both `isOver()` and `isRunning()`.
   */
  lemma EndOnce(g: GameState)
    ensures EndSpec(g).over
    ensures Consistent(g) ==> Running(EndSpec(g))
    ensures EndSpec(EndSpec(g)) == EndSpec(g)
    ensures Overs(EndSpec(g).trace) == Overs(g.trace) + (if g.over then 0 else 1)
  {
    if !g.over {
      assert EndSpec(g).trace[..|EndSpec(g).trace| - 1] == g.trace;
    }
  }

  /** Once over, `pause()` and `resume()` do nothing. */
  lemma OverIgnoresPauseAndResume(g: GameState)
    requires g.over
    ensures PauseSpec(g) == g && ResumeSpec(g) == g
  {
  }

  /** Every operation keeps a consistent game consistent. */
  lemma OperationsKeepConsistent(g: GameState, key: SceneKey, elapsed: int,
                                 scenes: seq<Option<Scene>>, initial: Option<SceneKey>)
    requires Consistent(g)
    ensures Consistent(PauseSpec(g)) && Consistent(ResumeSpec(g)) && Consistent(EndSpec(g))
    ensures Consistent(StartSceneSpec(g, key).next)
    ensures Consistent(UpdateSpec(g, elapsed).next) && Consistent(DrawSpec(g).next)
    ensures Consistent(StartSpec(g, scenes, initial).next)
  {
  }

  // ---------------------------------------------------------------------------
  // Sequences of operations
  // ---------------------------------------------------------------------------

  /** A call on a started game. */
  datatype Command =
    | PauseCmd
    | ResumeCmd
    | EndCmd
    | StartSceneCmd(key: SceneKey)
    | UpdateCmd(elapsed: int)
    | DrawCmd
    | StartCmd(scenes: seq<Option<Scene>>, initial: Option<SceneKey>)

  /** The state after one call, whether it returned normally or threw. */
  function Apply(g: GameState, c: Command): (h: GameState)
  {
    match c
    case PauseCmd => PauseSpec(g)
    case ResumeCmd => ResumeSpec(g)
    case EndCmd => EndSpec(g)
    case StartSceneCmd(key) => StartSceneSpec(g, key).next
    case UpdateCmd(elapsed) => UpdateSpec(g, elapsed).next
    case DrawCmd => DrawSpec(g).next
    case StartCmd(scenes, initial) => StartSpec(g, scenes, initial).next
  }

  /** The state after a sequence of calls. */
  function Run(g: GameState, cs: seq<Command>): (h: GameState)
    decreases |cs|
  {
    if cs == [] then g else Run(Apply(g, cs[0]), cs[1..])
  }

  /**
   * Only `start()` can reopen a game that is over: any other sequence of
   * calls leaves it over, never fires `onOver()` again and only appends to
   * the callbacks already made.
   */
  lemma {:induction false} OverIsFinalWithoutStart(g: GameState, cs: seq<Command>)
    requires g.over
    requires forall i :: 0 <= i < |cs| ==> !cs[i].StartCmd?
    ensures Run(g, cs).over
    ensures g.trace <= Run(g, cs).trace
    ensures OnOver !in Run(g, cs).trace[|g.trace|..]
    decreases |cs|
  {
    if cs != [] {
      var h := Apply(g, cs[0]);
      assert h.over && g.trace <= h.trace && OnOver !in h.trace[|g.trace|..] by {
        if cs[0].PauseCmd? || cs[0].ResumeCmd? || cs[0].EndCmd? {
          assert h == g;
        } else {
          assert h.trace == g.trace || exists e :: e != OnOver && h.trace == g.trace + [e];
        }
      }
      assert forall i :: 0 <= i < |cs[1..]| ==> !cs[1..][i].StartCmd? by {
        forall i | 0 <= i < |cs[1..]| ensures !cs[1..][i].StartCmd? {
          assert cs[1..][i] == cs[i + 1];
        }
      }
      OverIsFinalWithoutStart(h, cs[1..]);
      var t := Run(g, cs).trace;
      assert t[|g.trace|..] == h.trace[|g.trace|..] + t[|h.trace|..];
    }
  }

  /** One call other than `start()`: it ends the game only if it is `end()`, and fires `onOver()` only then. */
  lemma ApplyWithoutStart(g: GameState, c: Command)
    requires !c.StartCmd?
    ensures Apply(g, c).over == (g.over || c.EndCmd?)
    ensures g.trace <= Apply(g, c).trace
    ensures Overs(Apply(g, c).trace) == Overs(g.trace) + (if c.EndCmd? && !g.over then 1 else 0)
  {
    var t := Apply(g, c).trace;
    if t != g.trace {
      assert t[..|t| - 1] == g.trace;
    }
  }

  /**
   * Without `start()`, `onOver()` fires at most once over any sequence of
   * calls, and not at all once the game is over.
   */
  lemma {:induction false} AtMostOneOver(g: GameState, cs: seq<Command>)
    requires forall i :: 0 <= i < |cs| ==> !cs[i].StartCmd?
    ensures Overs(Run(g, cs).trace) <= Overs(g.trace) + (if g.over then 0 else 1)
    decreases |cs|
  {
    if cs != [] {
      var h := Apply(g, cs[0]);
      ApplyWithoutStart(g, cs[0]);
      forall i | 0 <= i < |cs[1..]| ensures !cs[1..][i].StartCmd? {
        assert cs[1..][i] == cs[i + 1];
      }
      AtMostOneOver(h, cs[1..]);
    }
  }

  /** Every sequence of calls keeps a consistent game consistent. */
  lemma {:induction false} RunKeepsConsistent(g: GameState, cs: seq<Command>)
    requires Consistent(g)
    ensures Consistent(Run(g, cs))
    decreases |cs|
  {
    if cs != [] {
      var c := cs[0];
      if c.StartCmd? {
        OperationsKeepConsistent(g, "", 0, c.scenes, c.initial);
      } else if c.StartSceneCmd? {
        OperationsKeepConsistent(g, c.key, 0, [], None);
      } else if c.UpdateCmd? {
        OperationsKeepConsistent(g, "", c.elapsed, [], None);
      } else {
        OperationsKeepConsistent(g, "", 0, [], None);
      }
      RunKeepsConsistent(Apply(g, cs[0]), cs[1..]);
    }
  }

  // ---------------------------------------------------------------------------
  // Start
  // ---------------------------------------------------------------------------

  /** With no scenes or no initial scene, `start()` throws before changing anything. */
  lemma StartChecksFirst(g: GameState, scenes: seq<Option<Scene>>, initial: Option<SceneKey>)
    requires scenes == [] || initial.None?
    ensures StartSpec(g, scenes, initial).next == g
    ensures StartSpec(g, scenes, initial).outcome ==
      if scenes == [] then Fail(NoScenes) else Fail(NoInitialScene)
  {
  }

  /**
   * `start()` returns normally exactly when there are scenes, none is null,
   * none of their classes is registered twice or already, the initial class
   * is among them or already registered, and the loop was never started.
   */
  lemma StartPasses(g: GameState, scenes: seq<Option<Scene>>, initial: Option<SceneKey>)
    ensures StartSpec(g, scenes, initial).outcome == Pass <==>
      && scenes != [] && initial.Some?
      && Registrable(g.registry, scenes)
      && initial.value in g.registry.Keys + Keys(scenes)
      && !g.loopStarted
  {
    RegisterAllPasses(g.registry, scenes);
    if Registrable(g.registry, scenes) {
      RegisterAllKeys(g.registry, scenes);
    }
  }

  /**
   * A `start()` that returns normally registers every scene of the list
   * under its class, beside the scenes registered before.
   */
  lemma StartRegisters(g: GameState, scenes: seq<Option<Scene>>, initial: Option<SceneKey>)
    requires StartSpec(g, scenes, initial).outcome == Pass
    ensures forall i :: 0 <= i < |scenes| ==> scenes[i].Some?
    ensures var h := StartSpec(g, scenes, initial).next;
      && h.registry.Keys == g.registry.Keys + Keys(scenes)
      && (forall k :: k in g.registry ==> h.registry[k] == g.registry[k])
      && (forall i :: 0 <= i < |scenes| ==> h.registry[scenes[i].value.key] == scenes[i].value)
  {
    assert StartSpec(g, scenes, initial).next.registry == RegisterAll(g.registry, scenes).registry;
    RegisterAllKeys(g.registry, scenes);
    RegisterAllEntries(g.registry, scenes);
  }

  /**
   * A `start()` that returns normally makes the initial scene current, clears
   * both flags, starts the loop, and calls the game's `onStart()`, the
   * initial scene's `onStart()` and the loop, in that order.
   */
  lemma StartEffect(g: GameState, scenes: seq<Option<Scene>>, initial: Option<SceneKey>)
    requires StartSpec(g, scenes, initial).outcome == Pass
    ensures initial.Some?
    ensures var h := StartSpec(g, scenes, initial).next;
      && h.current == initial
      && CurrentScene(h) == Some(h.registry[initial.value])
      && !h.over && !h.paused && h.loopStarted
      && h.trace == g.trace + [OnStart, SceneOnStart(h.registry[initial.value]), LoopStart]
  {
  }

  /**
   * A `start()` whose registration throws keeps the scenes registered before
   * the failing one and makes no callback; the flags and the current scene
   * are untouched.
   */
  lemma StartRegistrationFails(g: GameState, scenes: seq<Option<Scene>>, initial: Option<SceneKey>)
    requires scenes != [] && initial.Some?
    requires !Registrable(g.registry, scenes)
    ensures var s := StartSpec(g, scenes, initial);
      && s.outcome.Fail? && s.outcome.error.Registry?
      && s.next == g.(registry := RegisterAll(g.registry, scenes).registry)
  {
    RegisterAllPasses(g.registry, scenes);
  }

  /**
   * An initial scene class that is not registered makes `start()` throw only
   * after the game's `onStart()` ran and the flags were reset, and the loop
   * is not started.
   */
  lemma StartUnknownInitialScene(g: GameState, scenes: seq<Option<Scene>>, key: SceneKey)
    requires scenes != [] && Registrable(g.registry, scenes)
    requires key !in g.registry.Keys + Keys(scenes)
    ensures var s := StartSpec(g, scenes, Some(key));
      && s.outcome == Fail(Registry(UnknownScene(key)))
      && s.next.trace == g.trace + [OnStart]
      && !s.next.over && !s.next.paused && s.next.loopStarted == g.loopStarted
  {
    RegisterAllPasses(g.registry, scenes);
    RegisterAllKeys(g.registry, scenes);
  }

  /**
   * Calling `start()` again with the same scenes throws on registering the
   * first one, before any callback, and changes nothing.
   */
  lemma StartTwiceFails(g: GameState, scenes: seq<Option<Scene>>, initial: Option<SceneKey>)
    requires StartSpec(g, scenes, initial).outcome == Pass
    ensures var h := StartSpec(g, scenes, initial).next;
      StartSpec(h, scenes, initial) == GameStep(h, Fail(Registry(DuplicateScene(scenes[0].value.key))))
  {
    RegisterAllTwiceFails(g.registry, scenes);
  }

  /**
   * `start()` clears `isOver`: a game that was ended and is started again,
   * with a scene of a new class, is no longer over (the second loop start
   * throws, after the flags were reset), so the next `end()` fires `onOver()`
   * a second time.
   */
  lemma StartReopensEndedGame()
    ensures var a := Scene("Menu", 0);
      var b := Scene("Level", 1);
      var g := StartSpec(Initial(), [Some(a)], Some("Menu")).next;
      var ended := EndSpec(g);
      var s := StartSpec(ended, [Some(b)], Some("Level"));
      && ended.over
      && s.outcome == Fail(LoopAlreadyStarted)
      && !s.next.over
      && EndSpec(s.next).trace == [OnStart, SceneOnStart(a), LoopStart, OnOver, OnStart, SceneOnStart(b), OnOver]
  {
    var a := Scene("Menu", 0);
    var b := Scene("Level", 1);
    var m1 := map["Menu" := a];
    assert Register(map[], Some(a)) == Success(m1);
    assert RegisterAll(map[], [Some(a)]) == Registration(m1, Pass) by {
      assert [Some(a)][1..] == [];
    }
    var g := StartSpec(Initial(), [Some(a)], Some("Menu")).next;
    assert g == GameState(m1, Some("Menu"), false, false, true, [OnStart, SceneOnStart(a), LoopStart]);
    var ended := EndSpec(g);
    var m2 := m1["Level" := b];
    assert Register(m1, Some(b)) == Success(m2);
    assert RegisterAll(m1, [Some(b)]) == Registration(m2, Pass) by {
      assert [Some(b)][1..] == [];
    }
    var s := StartSpec(ended, [Some(b)], Some("Level"));
    assert s.next == GameState(m2, Some("Level"), false, false, true,
      [OnStart, SceneOnStart(a), LoopStart, OnOver, OnStart, SceneOnStart(b)]);
  }

  // ---------------------------------------------------------------------------
  // Scenes, update, draw and the update interval
  // ---------------------------------------------------------------------------

  /**
   * `startScene(key)` succeeds exactly for a registered class; it then makes
   * that scene current and calls its `onStart()`.
   */
  lemma StartSceneMakesCurrent(g: GameState, key: SceneKey)
    ensures StartSceneSpec(g, key).outcome == Pass <==> key in g.registry
    ensures key in g.registry ==> CurrentScene(StartSceneSpec(g, key).next) == Some(g.registry[key])
    ensures key in g.registry ==> StartSceneSpec(g, key).next.trace == g.trace + [SceneOnStart(g.registry[key])]
    ensures key !in g.registry ==> StartSceneSpec(g, key).next == g
    ensures StartSceneSpec(g, key).next.registry == g.registry
  {
  }

  /**
   * `update` and `onDraw` throw exactly when no scene is current; otherwise
   * they reach the current scene, and nothing but the callback record changes.
   */
  lemma UpdateAndDrawDelegate(g: GameState, elapsed: int)
    ensures UpdateSpec(g, elapsed).outcome == Pass <==> CurrentScene(g).Some?
    ensures DrawSpec(g).outcome == Pass <==> CurrentScene(g).Some?
    ensures CurrentScene(g).Some? ==>
      && UpdateSpec(g, elapsed).next.trace == g.trace + [SceneOnUpdate(CurrentScene(g).value, elapsed)]
      && DrawSpec(g).next.trace == g.trace + [SceneOnDraw(CurrentScene(g).value)]
    ensures UpdateSpec(g, elapsed).next.(trace := g.trace) == g
    ensures DrawSpec(g).next.(trace := g.trace) == g
  {
  }

  /** Before any scene is current, `update` throws (as `getCurrentScene()` is `null`). */
  lemma UpdateBeforeStartFails(elapsed: int)
    ensures UpdateSpec(Initial(), elapsed) == GameStep(Initial(), Fail(NoCurrentScene))
    ensures DrawSpec(Initial()) == GameStep(Initial(), Fail(NoCurrentScene))
  {
  }

  /**
   * For a positive refresh rate, the update interval is the largest whole
   * number of milliseconds that fits `fps` times into a second.
   */
  lemma UpdateIntervalBounds(fps: int)
    requires fps > 0
    ensures UpdateInterval(fps).Success?
    ensures var q := UpdateInterval(fps).value;
      0 <= q && q * fps <= 1000 < (q + 1) * fps
  {
    JavaInt.NonNegativeAgrees(1000, fps);
  }

  /** A negative refresh rate gives a non-positive interval, rounded toward zero as Java does. */
  lemma UpdateIntervalNegative(fps: int)
    requires fps < 0
    ensures UpdateInterval(fps).Success?
    ensures UpdateInterval(fps).value == -(1000 / -fps)
  {
  }

  // ---------------------------------------------------------------------------
  // The game object
  // ---------------------------------------------------------------------------

  class BaseGame {
    /** The scene registry the game owns. */
    const scenes: SceneCollection
    /** The refresh rate, in frames per second. */
    const fps: int
    var isOver: bool
    var isPaused: bool
    /** Whether the loop thread has been started (a thread starts at most once). */
    var loopStarted: bool
    /** The callbacks made so far. */
    ghost var trace: seq<Event>

    ghost predicate Valid()
      reads scenes
    {
      scenes.Valid()
    }

    ghost function State(): GameState
      reads this, scenes
    {
      GameState(scenes.scenes, scenes.currentScene, isOver, isPaused, loopStarted, trace)
    }

    /** `BaseGame(fps)`: an empty registry, not over, not paused, the loop not started. */
    constructor (fps: int)
      ensures Valid() && State() == Initial() && this.fps == fps
      ensures fresh(scenes)
    {
      this.fps := fps;
      scenes := new SceneCollection();
      isOver := false;
      isPaused := false;
      loopStarted := false;
      trace := [];
    }

    /** `getCurrentScene()`, and likewise `getActiveScene()`. */
    function GetCurrentScene(): (s: Option<Scene>)
      reads this, scenes
      ensures s == CurrentScene(State())
    {
      scenes.GetCurrentScene()
    }

    /** `getUpdateInterval()`. */
    function GetUpdateInterval(): (r: Result<int, GameError>)
      ensures r == UpdateInterval(fps)
    {
      UpdateInterval(fps)
    }

    /** `isOver()`. */
    function IsOver(): (r: bool)
      reads this
      ensures r == State().over
    {
      isOver
    }

    /** `isRunning()`. */
    function IsRunning(): (r: bool)
      reads this
      ensures r == Running(State())
    {
      !isPaused
    }

    /** `pause()`. */
    method Pause()
      modifies this
      ensures State() == PauseSpec(old(State()))
    {
      if isOver || isPaused {
        return;
      }
      isPaused := true;
      trace := trace + [OnPaused];
    }

    /** `resume()`. */
    method Resume()
      modifies this
      ensures State() == ResumeSpec(old(State()))
    {
      if isOver || !isPaused {
        return;
      }
      trace := trace + [OnResume];
      isPaused := false;
    }

    /** `end()`. */
    method End()
      modifies this
      ensures State() == EndSpec(old(State()))
    {
      if isOver {
        return;
      }
      isOver := true;
      isPaused := false;
      trace := trace + [OnOver];
    }

    /** `update(elapsedTime)`. */
    method Update(elapsed: int) returns (r: Outcome<GameError>)
      modifies this
      ensures GameStep(State(), r) == UpdateSpec(old(State()), elapsed)
    {
      var scene := GetCurrentScene();
      if scene.None? {
        return Fail(NoCurrentScene);
      }
      trace := trace + [SceneOnUpdate(scene.value, elapsed)];
      r := Pass;
    }

    /** `onDraw()`. */
    method OnDraw() returns (r: Outcome<GameError>)
      modifies this
      ensures GameStep(State(), r) == DrawSpec(old(State()))
    {
      var scene := GetCurrentScene();
      if scene.None? {
        return Fail(NoCurrentScene);
      }
      trace := trace + [SceneOnDraw(scene.value)];
      r := Pass;
    }

    /** `startScene(key)`. */
    method StartScene(key: SceneKey) returns (r: Outcome<GameError>)
      requires Valid()
      modifies this, scenes
      ensures Valid()
      ensures GameStep(State(), r) == StartSceneSpec(old(State()), key)
    {
      var scene := scenes.GetScene(key);
      if scene.Failure? {
        return Fail(Registry(scene.error));
      }
      var _ := scenes.SetCurrentScene(key);
      trace := trace + [SceneOnStart(scene.value)];
      r := Pass;
    }

    /** The loop of `start()` that adds each scene in turn, stopping at the first exception. */
    method AddScenes(list: seq<Option<Scene>>) returns (r: Outcome<SceneError>)
      requires Valid()
      modifies scenes
      ensures Valid() && scenes.currentScene == old(scenes.currentScene)
      ensures Registration(scenes.scenes, r) == RegisterAll(old(scenes.scenes), list)
    {
      for i := 0 to |list|
        invariant Valid()
        invariant scenes.currentScene == old(scenes.currentScene)
        invariant RegisterAll(old(scenes.scenes), list) == RegisterAll(scenes.scenes, list[i..])
      {
        assert list[i..][0] == list[i] && list[i..][1..] == list[i + 1..];
        r := scenes.AddScene(list[i]);
        if r.Fail? {
          return;
        }
      }
      assert list[|list|..] == [];
      r := Pass;
    }

    /** `start()`, given what the game's `getScenes()` and `getInitialScene()` return. */
    method Start(list: seq<Option<Scene>>, initial: Option<SceneKey>) returns (r: Outcome<GameError>)
      requires Valid()
      modifies this, scenes
      ensures Valid()
      ensures GameStep(State(), r) == StartSpec(old(State()), list, initial)
    {
      if list == [] {
        return Fail(NoScenes);
      }
      if initial.None? {
        return Fail(NoInitialScene);
      }
      var registered := AddScenes(list);
      if registered.Fail? {
        return Fail(Registry(registered.error));
      }
      trace := trace + [OnStart];
      isOver := false;
      isPaused := false;
      r := StartScene(initial.value);
      if r.Fail? {
        return;
      }
      if loopStarted {
        return Fail(LoopAlreadyStarted);
      }
      loopStarted := true;
      trace := trace + [LoopStart];
    }
  }
}
