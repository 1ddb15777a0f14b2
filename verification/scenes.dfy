/**
 * The scene stack of the client (mp3d-client/src/scenes/mod.rs). Scenes are
 * opaque values of type T; what a scene does with an event or an update is
 * a parameter, and only the stack discipline around it is modelled.
 */
module Scenes {
  import opened Wrappers

  /** `SceneSwitch`: what a scene asks the manager to do after its update. */
  datatype Switch<T> = Stay | Push(next: T) | Pop | Replace(next: T) | Quit

  /** `SceneManager`: the last element is the current scene. */
  datatype Manager<T> = Manager(scenes: seq<T>)

  /** What a scene's `update` does: its new state and the switch it asks for. */
  type Step<!T> = T -> (T, Switch<T>)

  /** `SceneManager::new`. */
  function NewManager<T>(initial: T): (m: Manager<T>)
    ensures |m.scenes| == 1 && Current(m) == Some(initial)
  {
    Manager([initial])
  }

  /** The scene `handle_event`, `update` and `render` act on (`last_mut`), if any. */
  function Current<T>(m: Manager<T>): (r: Option<T>)
    ensures r.None? <==> |m.scenes| == 0
    ensures r.Some? ==> r.value == m.scenes[|m.scenes| - 1]
  {
    if |m.scenes| == 0 then None else Some(m.scenes[|m.scenes| - 1])
  }

  /** `handle_event`: only the current scene sees the event. */
  function HandleEvent<T, E>(m: Manager<T>, e: E, handle: (T, E) -> T): (r: Manager<T>)
    ensures |r.scenes| == |m.scenes|
    ensures forall i :: 0 <= i < |m.scenes| - 1 ==> r.scenes[i] == m.scenes[i]
    ensures |m.scenes| > 0 ==> Current(r) == Some(handle(m.scenes[|m.scenes| - 1], e))
  {
    if |m.scenes| == 0 then m
    else Manager(m.scenes[..|m.scenes| - 1] + [handle(m.scenes[|m.scenes| - 1], e)])
  }

  /**
   * `update`: the current scene updates itself in place, then its switch is
   * applied. The result is false only for `Quit`; an empty stack does nothing.
   */
  function Update<T>(m: Manager<T>, step: Step<T>): (r: (Manager<T>, bool))
    ensures !r.1 <==> |m.scenes| > 0 && step(m.scenes[|m.scenes| - 1]).1.Quit?
    ensures |m.scenes| == 0 ==> r == (m, true)
  {
    if |m.scenes| == 0 then (m, true)
    else
      var below := m.scenes[..|m.scenes| - 1];
      var (top, sw) := step(m.scenes[|m.scenes| - 1]);
      match sw
      case Stay => (Manager(below + [top]), true)
      case Push(n) => (Manager(below + [top, n]), true)
      case Pop => (Manager(below), true)
      case Replace(n) => (Manager(below + [n]), true)
      case Quit => (Manager(below + [top]), false)
  }

  /** The change in stack height a switch makes. */
  function Height<T>(sw: Switch<T>): int {
    match sw
    case Push(_) => 1
    case Pop => -1
    case _ => 0
  }

  /**
   * An update changes the height by exactly what the switch asks for: Push
   * adds one, Pop removes one, the others keep it; and the scenes below the
   * current one are never touched.
   */
  lemma UpdateShape<T>(m: Manager<T>, step: Step<T>)
    requires |m.scenes| > 0
    ensures var sw := step(m.scenes[|m.scenes| - 1]).1;
      var r := Update(m, step).0;
      && |r.scenes| == |m.scenes| + Height(sw)
      && forall i :: 0 <= i < |m.scenes| - 1 ==> r.scenes[i] == m.scenes[i]
  {
  }

  /**
   * What becomes current: the pushed or replacing scene; after a pop the
   * scene below; otherwise the current scene in its updated state.
   */
  lemma UpdateCurrent<T>(m: Manager<T>, step: Step<T>)
    requires |m.scenes| > 0
    ensures var (top, sw) := step(m.scenes[|m.scenes| - 1]);
      var r := Update(m, step).0;
      && ((sw.Push? || sw.Replace?) ==> Current(r) == Some(sw.next))
      && (sw.Pop? ==> Current(r) == (if |m.scenes| > 1 then Some(m.scenes[|m.scenes| - 2]) else None))
      && ((sw.Stay? || sw.Quit?) ==> Current(r) == Some(top))
  {
  }

  /** Quitting leaves the stack as a `Stay` would. */
  lemma QuitKeepsStack<T>(m: Manager<T>, step: Step<T>, stay: Step<T>)
    requires |m.scenes| > 0
    requires step(m.scenes[|m.scenes| - 1]).1.Quit?
    requires stay(m.scenes[|m.scenes| - 1]) == (step(m.scenes[|m.scenes| - 1]).0, Stay)
    ensures Update(m, step).0 == Update(m, stay).0
  {
  }

  /**
   * A pushed scene that pops itself on its first update hands control back:
   * the stack is the one left after the push, minus the pushed scene.
   */
  lemma PushThenPop<T>(m: Manager<T>, step: Step<T>)
    requires |m.scenes| > 0
    requires step(m.scenes[|m.scenes| - 1]).1.Push?
    requires step(step(m.scenes[|m.scenes| - 1]).1.next).1.Pop?
    ensures var (top, _) := step(m.scenes[|m.scenes| - 1]);
      Update(Update(m, step).0, step).0 == Manager(m.scenes[..|m.scenes| - 1] + [top])
  {
    var (top, sw) := step(m.scenes[|m.scenes| - 1]);
    var m1 := Update(m, step).0;
    assert m1.scenes == m.scenes[..|m.scenes| - 1] + [top, sw.next];
    assert m1.scenes[..|m1.scenes| - 1] == m.scenes[..|m.scenes| - 1] + [top];
  }

  /** The stack only runs empty when its last scene pops itself. */
  lemma EmptiesOnlyByLastPop<T>(m: Manager<T>, step: Step<T>)
    requires |m.scenes| > 0 && |Update(m, step).0.scenes| == 0
    ensures |m.scenes| == 1 && step(m.scenes[0]).1.Pop?
  {
  }
}
