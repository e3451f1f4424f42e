/**
 * The scene registry of `render/SceneCollection.java`: scenes filed under
 * their class, at most one per class, and a nullable current scene.
 *
 * `Register` and `RegisterAll` are `addScene` and a run of `addScene` calls on
 * the map alone; the class `SceneCollection` holds the map and the current
 * key in fields and its methods are proved against them.
 */
module Render {
  import opened Wrappers

  /** What the registry files a scene under: the scene's Java class, by name. */
  type SceneKey = string

  /** A scene object: its class, and an identity telling apart two objects of one class. */
  datatype Scene = Scene(key: SceneKey, id: nat)

  /** The exceptions the registry throws. */
  datatype SceneError =
    | NullScene                     // NullPointerException: `addScene(null)`
    | DuplicateScene(key: SceneKey) // IllegalArgumentException: the class is already registered
    | UnknownScene(key: SceneKey)   // IllegalArgumentException: the class is not registered

  type Registry = map<SceneKey, Scene>

  /** Every scene is filed under its own class. */
  ghost predicate KeyedByClass(m: Registry)
  {
    forall k :: k in m ==> m[k].key == k
  }

  /** `addScene(scene)` on the map: `None` stands for `null`. */
  function Register(m: Registry, scene: Option<Scene>): (r: Result<Registry, SceneError>)
    ensures scene.None? ==> r == Failure(NullScene)
    ensures scene.Some? && scene.value.key in m ==> r == Failure(DuplicateScene(scene.value.key))
    ensures r.Success? <==> scene.Some? && scene.value.key !in m
    ensures r.Success? ==> r.value.Keys == m.Keys + {scene.value.key}
    ensures r.Success? ==> |r.value| == |m| + 1
    ensures r.Success? ==> r.value[scene.value.key] == scene.value
    ensures r.Success? ==> forall k :: k in m ==> r.value[k] == m[k]
  {
    if scene.None? then Failure(NullScene)
    else if scene.value.key in m then Failure(DuplicateScene(scene.value.key))
    else Success(m[scene.value.key := scene.value])
  }

  /** Registering keeps every scene filed under its own class. */
  lemma RegisterKeyedByClass(m: Registry, scene: Option<Scene>)
    requires KeyedByClass(m)
    ensures Register(m, scene).Success? ==> KeyedByClass(Register(m, scene).value)
  {
  }

  /** The map after a run of `addScene` calls, and how the run ended. */
  datatype Registration = Registration(registry: Registry, outcome: Outcome<SceneError>)

  /**
   * `addScene` for each scene in order, stopping at the first exception; the
   * scenes registered before it stay registered.
   */
  function RegisterAll(m: Registry, scenes: seq<Option<Scene>>): (r: Registration)
    ensures m.Keys <= r.registry.Keys
    ensures forall k :: k in m ==> r.registry[k] == m[k]
    decreases |scenes|
  {
    if scenes == [] then Registration(m, Pass)
    else
      match Register(m, scenes[0])
      case Failure(e) => Registration(m, Fail(e))
      case Success(m') => RegisterAll(m', scenes[1..])
  }

  /** The classes of a list of non-null scenes. */
  function Keys(scenes: seq<Option<Scene>>): (ks: set<SceneKey>)
    requires forall i :: 0 <= i < |scenes| ==> scenes[i].Some?
    ensures forall i :: 0 <= i < |scenes| ==> scenes[i].value.key in ks
    ensures forall k :: k in ks ==> exists i :: 0 <= i < |scenes| && scenes[i].value.key == k
  {
    set i | 0 <= i < |scenes| :: scenes[i].value.key
  }

  /** No scene is null, no two scenes share a class, and none of their classes is in `m`. */
  ghost predicate Registrable(m: Registry, scenes: seq<Option<Scene>>)
  {
    && (forall i :: 0 <= i < |scenes| ==> scenes[i].Some?)
    && (forall i :: 0 <= i < |scenes| ==> scenes[i].value.key !in m)
    && (forall i, j :: 0 <= i < j < |scenes| ==> scenes[i].value.key != scenes[j].value.key)
  }

  /** A list is registrable when its head can be registered and its tail can be after it. */
  lemma RegistrableCons(m: Registry, scenes: seq<Option<Scene>>)
    requires scenes != []
    ensures Registrable(m, scenes) <==>
      && scenes[0].Some? && scenes[0].value.key !in m
      && Registrable(m[scenes[0].value.key := scenes[0].value], scenes[1..])
  {
    var rest := scenes[1..];
    if scenes[0].Some? && scenes[0].value.key !in m {
      var m' := m[scenes[0].value.key := scenes[0].value];
      if Registrable(m, scenes) {
        forall i | 0 <= i < |rest| ensures rest[i].value.key !in m' {
          assert rest[i] == scenes[i + 1];
        }
        forall i, j | 0 <= i < j < |rest| ensures rest[i].value.key != rest[j].value.key {
          assert rest[i] == scenes[i + 1] && rest[j] == scenes[j + 1];
        }
      }
      if Registrable(m', rest) {
        forall i | 0 <= i < |scenes| ensures scenes[i].Some? && scenes[i].value.key !in m {
          if i > 0 { assert scenes[i] == rest[i - 1]; }
        }
        forall i, j | 0 <= i < j < |scenes| ensures scenes[i].value.key != scenes[j].value.key {
          assert scenes[j] == rest[j - 1];
          if i > 0 { assert scenes[i] == rest[i - 1]; }
        }
      }
    }
  }

  /**
   * A run of `addScene` calls returns normally exactly when the scenes are
   * registrable: no null, no class twice, no class already registered.
   */
  lemma {:induction false} RegisterAllPasses(m: Registry, scenes: seq<Option<Scene>>)
    ensures RegisterAll(m, scenes).outcome == Pass <==> Registrable(m, scenes)
    decreases |scenes|
  {
    if scenes != [] {
      RegistrableCons(m, scenes);
      var r := Register(m, scenes[0]);
      if r.Success? {
        RegisterAllPasses(r.value, scenes[1..]);
      }
    }
  }

  /** The classes of a list are the class of its head and the classes of its tail. */
  lemma KeysCons(scenes: seq<Option<Scene>>)
    requires scenes != [] && forall i :: 0 <= i < |scenes| ==> scenes[i].Some?
    ensures Keys(scenes) == {scenes[0].value.key} + Keys(scenes[1..])
  {
    var rest := scenes[1..];
    forall k | k in Keys(scenes) ensures k in {scenes[0].value.key} + Keys(rest) {
      var i :| 0 <= i < |scenes| && scenes[i].value.key == k;
      if i > 0 { assert rest[i - 1] == scenes[i]; }
    }
    forall k | k in Keys(rest) ensures k in Keys(scenes) {
      var i :| 0 <= i < |rest| && rest[i].value.key == k;
      assert scenes[i + 1] == rest[i];
    }
  }

  /**
   * After a run of `addScene` calls that returns normally, the map's classes
   * are the old ones plus those of the list.
   */
  lemma {:induction false} RegisterAllKeys(m: Registry, scenes: seq<Option<Scene>>)
    requires RegisterAll(m, scenes).outcome == Pass
    ensures forall i :: 0 <= i < |scenes| ==> scenes[i].Some?
    ensures RegisterAll(m, scenes).registry.Keys == m.Keys + Keys(scenes)
    decreases |scenes|
  {
    RegisterAllPasses(m, scenes);
    if scenes != [] {
      var r := Register(m, scenes[0]);
      assert r.Success?;
      var rest := scenes[1..];
      var registry := RegisterAll(r.value, rest).registry;
      assert RegisterAll(m, scenes).registry == registry;
      RegisterAllKeys(r.value, rest);
      KeysCons(scenes);
      assert r.value.Keys == m.Keys + {scenes[0].value.key};
    } else {
      assert Keys(scenes) == {};
    }
  }

  /**
   * After a run of `addScene` calls that returns normally, every scene of the
   * list is registered under its class.
   */
  lemma {:induction false} RegisterAllEntries(m: Registry, scenes: seq<Option<Scene>>)
    requires RegisterAll(m, scenes).outcome == Pass
    ensures forall i :: 0 <= i < |scenes| ==>
      && scenes[i].Some?
      && scenes[i].value.key in RegisterAll(m, scenes).registry
      && RegisterAll(m, scenes).registry[scenes[i].value.key] == scenes[i].value
    decreases |scenes|
  {
    if scenes != [] {
      var m' := Register(m, scenes[0]).value;
      var rest := scenes[1..];
      var registry := RegisterAll(m', rest).registry;
      assert RegisterAll(m, scenes).registry == registry;
      RegisterAllEntries(m', rest);
      assert registry[scenes[0].value.key] == scenes[0].value;
      forall i | 0 < i < |scenes|
        ensures scenes[i].Some? && scenes[i].value.key in registry && registry[scenes[i].value.key] == scenes[i].value
      {
        assert scenes[i] == rest[i - 1];
      }
    }
  }

  /**
   * Registering the same non-empty list a second time fails on its first
   * scene and adds nothing.
   */
  lemma RegisterAllTwiceFails(m: Registry, scenes: seq<Option<Scene>>)
    requires |scenes| > 0
    requires RegisterAll(m, scenes).outcome == Pass
    ensures var m' := RegisterAll(m, scenes).registry;
      RegisterAll(m', scenes) == Registration(m', Fail(DuplicateScene(scenes[0].value.key)))
  {
    RegisterAllEntries(m, scenes);
  }

  class SceneCollection {
    var scenes: Registry
    /** The class of the current scene, or `None` (Java `null`) before one is set. */
    var currentScene: Option<SceneKey>

    /** The current key, when set, is registered; every scene is filed under its class. */
    ghost predicate Valid()
      reads this
    {
      && KeyedByClass(scenes)
      && (currentScene.Some? ==> currentScene.value in scenes)
    }

    /** A new, empty collection with no current scene. */
    constructor ()
      ensures Valid() && scenes == map[] && currentScene == None
    {
      scenes := map[];
      currentScene := None;
    }

    /** `addScene(scene)`: fails on `null` and on a class already registered, changing nothing. */
    method AddScene(scene: Option<Scene>) returns (r: Outcome<SceneError>)
      requires Valid()
      modifies this
      ensures Valid() && currentScene == old(currentScene)
      ensures match Register(old(scenes), scene)
        case Success(m) => r == Pass && scenes == m
        case Failure(e) => r == Fail(e) && scenes == old(scenes)
    {
      RegisterKeyedByClass(scenes, scene);
      if scene.None? {
        return Fail(NullScene);
      }
      if scene.value.key in scenes {
        return Fail(DuplicateScene(scene.value.key));
      }
      scenes := scenes[scene.value.key := scene.value];
      r := Pass;
    }

    /** `getCurrentScene()`: the current scene, or `None` (Java `null`) while none is set. */
    function GetCurrentScene(): (s: Option<Scene>)
      reads this
      ensures Valid() ==> (s.Some? <==> currentScene.Some?)
      ensures s.Some? ==>
        currentScene.Some? && currentScene.value in scenes && s.value == scenes[currentScene.value]
      ensures Valid() && s.Some? ==> s.value.key == currentScene.value
    {
      if currentScene.Some? && currentScene.value in scenes then Some(scenes[currentScene.value])
      else None
    }

    /** `setCurrentScene(key)`: only a registered class can become current. */
    method SetCurrentScene(key: SceneKey) returns (r: Outcome<SceneError>)
      requires Valid()
      modifies this
      ensures Valid() && scenes == old(scenes)
      ensures r == Pass <==> key in scenes
      ensures r == Pass ==> currentScene == Some(key)
      ensures r == Pass ==> GetCurrentScene() == Some(scenes[key])
      ensures r != Pass ==> r == Fail(UnknownScene(key)) && currentScene == old(currentScene)
    {
      if key in scenes {
        currentScene := Some(key);
        r := Pass;
      } else {
        r := Fail(UnknownScene(key));
      }
    }

    /** `getScene(key)`: the scene registered under `key`; an unknown class is an error. */
    function GetScene(key: SceneKey): (r: Result<Scene, SceneError>)
      reads this
      ensures r.Success? <==> key in scenes
      ensures r.Success? ==> r.value == scenes[key]
      ensures Valid() && r.Success? ==> r.value.key == key
      ensures r.Failure? ==> r.error == UnknownScene(key)
    {
      if key in scenes then Success(scenes[key]) else Failure(UnknownScene(key))
    }

    /** `listScenes()`: every registered class exactly once, in no particular order. */
    method ListScenes() returns (keys: seq<SceneKey>)
      ensures forall i, j :: 0 <= i < j < |keys| ==> keys[i] != keys[j]
      ensures forall k :: k in keys <==> k in scenes
      ensures |keys| == |scenes|
    {
      keys := [];
      var rest := scenes.Keys;
      while rest != {}
        invariant rest <= scenes.Keys
        invariant forall k :: k in keys <==> k in scenes && k !in rest
        invariant forall i, j :: 0 <= i < j < |keys| ==> keys[i] != keys[j]
        invariant |keys| + |rest| == |scenes|
        decreases |rest|
      {
        var k :| k in rest;
        keys := keys + [k];
        rest := rest - {k};
      }
    }
  }
}
