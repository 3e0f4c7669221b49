/** The scene manager: the current scene, the scene scheduled to replace it, the previous
    scene for going back, and a quit flag. Scenes are identified by number; the calls the
    manager makes on them (enter, exit, per-frame update) are recorded in a log, and what
    a scene's own update returns is reported as "the result of that scene". */
module Scenes {

  datatype Option<T> = None | Some(value: T)

  type SceneId = nat

  /** A call the manager makes on a scene. */
  datatype Hook = Enter(id: SceneId) | Exit(id: SceneId) | Tick(id: SceneId)

  /** What Update returns: the termination signal, nothing (no current scene), or whatever
      the named scene's own update returned. */
  datatype Outcome = Terminated | NoScene | Ran(id: SceneId)

  /** The manager's fields. */
  datatype SceneSlots = SceneSlots(prev: Option<SceneId>, current: Option<SceneId>,
                           next: Option<SceneId>, quit: bool)

  /** NewSceneManager: no scenes, not quitting. */
  const Initial := SceneSlots(None, None, None, false)

  /** SwitchTo: schedule a scene; nothing is entered or exited yet. */
  function SwitchToStep(s: SceneSlots, id: SceneId): (r: SceneSlots)
    ensures r.next == Some(id)
    ensures r.prev == s.prev && r.current == s.current && r.quit == s.quit
  {
    s.(next := Some(id))
  }

  /** SwitchBack: schedule the previous scene if there is one, otherwise do nothing. */
  function SwitchBackStep(s: SceneSlots): (r: SceneSlots)
    ensures s.prev.Some? ==> r == s.(next := s.prev)
    ensures s.prev.None? ==> r == s
  {
    if s.prev.Some? then s.(next := s.prev) else s
  }

  /** Quit: every later Update terminates. */
  function QuitStep(s: SceneSlots): (r: SceneSlots)
    ensures r.quit
  {
    s.(quit := true)
  }

  /** The scheduled switch, if any: exit the current scene, remember it as the previous
      one, enter the scheduled one and clear the schedule. */
  function Transition(s: SceneSlots): (r: (SceneSlots, seq<Hook>))
    ensures r.0.next == None && r.0.quit == s.quit
    ensures s.next.None? ==> r == (s, [])
    ensures s.next.Some? ==> r.0.prev == s.current && r.0.current == s.next
    ensures s.next.Some? ==> r.1 == (if s.current.Some? then [Exit(s.current.value)] else [])
                                      + [Enter(s.next.value)]
  {
    match s.next
    case None => (s, [])
    case Some(n) =>
      var exits := if s.current.Some? then [Exit(s.current.value)] else [];
      (SceneSlots(s.current, s.next, None, s.quit), exits + [Enter(n)])
  }

  /** Update: terminate if quitting; otherwise apply the scheduled switch, then update the
      current scene and return its result, or nothing when there is none. */
  function UpdateStep(s: SceneSlots): (r: (SceneSlots, Outcome, seq<Hook>))
    ensures s.quit ==> r == (s, Terminated, [])
    ensures !s.quit ==> r.0 == Transition(s).0
    ensures !s.quit && r.0.current.Some? ==>
      r.1 == Ran(r.0.current.value) && r.2 == Transition(s).1 + [Tick(r.0.current.value)]
    ensures !s.quit && r.0.current.None? ==> r.1 == NoScene && r.2 == Transition(s).1
  {
    if s.quit then (s, Terminated, [])
    else
      var (t, hooks) := Transition(s);
      match t.current
      case Some(c) => (t, Ran(c), hooks + [Tick(c)])
      case None => (t, NoScene, hooks)
  }

  /** How many times the log enters a scene. */
  function Enters(log: seq<Hook>, id: SceneId): nat
  {
    if |log| == 0 then 0
    else (if log[0] == Enter(id) then 1 else 0) + Enters(log[1..], id)
  }

  /** Counting over a joined log adds up. */
  lemma {:induction false} EntersAppend(a: seq<Hook>, b: seq<Hook>, id: SceneId)
    ensures Enters(a + b, id) == Enters(a, id) + Enters(b, id)
  {
    if |a| == 0 {
      assert a + b == b;
    } else {
      assert (a + b)[0] == a[0] && (a + b)[1..] == a[1..] + b;
      EntersAppend(a[1..], b, id);
    }
  }

  /** A switch takes effect once: the Update after the one that performed it enters
      nothing and only updates the new scene. */
  lemma TransitionAppliedOnce(s: SceneSlots)
    requires !s.quit && s.next.Some?
    ensures var (t, _, _) := UpdateStep(s);
      t.next.None? && UpdateStep(t) == (t, Ran(s.next.value), [Tick(s.next.value)])
  {
    var t := UpdateStep(s).0;
    assert Transition(t) == (t, []);
    assert [] + [Tick(s.next.value)] == [Tick(s.next.value)];
  }

  /** Quitting is permanent: no later switch, going back or update clears it, and every
      Update then terminates without calling any scene. */
  lemma QuitSticky(s: SceneSlots, id: SceneId)
    requires s.quit
    ensures UpdateStep(s) == (s, Terminated, [])
    ensures SwitchToStep(s, id).quit && SwitchBackStep(s).quit && UpdateStep(s).0.quit
  {
  }

  /** Go forward to a then b, then back: a is current again and has been entered twice. */
  lemma SwitchBackRestores(a: SceneId, b: SceneId)
    requires a != b
    ensures var (s1, _, l1) := UpdateStep(SwitchToStep(Initial, a));
      var (s2, _, l2) := UpdateStep(SwitchToStep(s1, b));
      var (s3, _, l3) := UpdateStep(SwitchBackStep(s2));
      s3.current == Some(a) && s3.prev == Some(b) && Enters(l1 + l2 + l3, a) == 2
  {
    var (s1, _, l1) := UpdateStep(SwitchToStep(Initial, a));
    var (s2, _, l2) := UpdateStep(SwitchToStep(s1, b));
    var (s3, _, l3) := UpdateStep(SwitchBackStep(s2));
    assert l1 == [Enter(a), Tick(a)];
    assert l2 == [Exit(a), Enter(b), Tick(b)];
    assert l3 == [Exit(b), Enter(a), Tick(a)];
    assert Enters([Tick(a)], a) == 0 by { assert [Tick(a)][1..] == []; }
    assert Enters([Tick(b)], a) == 0 by { assert [Tick(b)][1..] == []; }
    assert Enters(l1, a) == 1 by { assert l1[1..] == [Tick(a)]; }
    assert Enters([Enter(b), Tick(b)], a) == 0 by { assert [Enter(b), Tick(b)][1..] == [Tick(b)]; }
    assert Enters(l2, a) == 0 by { assert l2[1..] == [Enter(b), Tick(b)]; }
    assert Enters([Enter(a), Tick(a)], a) == 1 by { assert [Enter(a), Tick(a)][1..] == [Tick(a)]; }
    assert Enters(l3, a) == 1 by { assert l3[1..] == [Enter(a), Tick(a)]; }
    EntersAppend(l1, l2, a);
    EntersAppend(l1 + l2, l3, a);
  }

  /** With nothing before it, SwitchBack schedules nothing and Update runs no scene. */
  lemma SwitchBackWithoutHistory()
    ensures UpdateStep(SwitchBackStep(Initial)) == (Initial, NoScene, [])
  {
  }

  /** The scene manager object. `log` records the calls made on scenes, in order. */
  class SceneManager {
    var prev: Option<SceneId>
    var current: Option<SceneId>
    var next: Option<SceneId>
    var quit: bool
    var log: seq<Hook>

    function Value(): SceneSlots
      reads this
    {
      SceneSlots(prev, current, next, quit)
    }

    constructor ()
      ensures Value() == Initial && log == []
    {
      prev, current, next, quit := None, None, None, false;
      log := [];
    }

    method SwitchTo(id: SceneId)
      modifies this
      ensures Value() == SwitchToStep(old(Value()), id) && log == old(log)
    {
      next := Some(id);
    }

    method SwitchBack()
      modifies this
      ensures Value() == SwitchBackStep(old(Value())) && log == old(log)
    {
      if prev.Some? {
        next := prev;
      }
    }

    method Quit()
      modifies this
      ensures Value() == QuitStep(old(Value())) && log == old(log)
    {
      quit := true;
    }

    method Update() returns (outcome: Outcome)
      modifies this
      ensures var (s, o, hooks) := UpdateStep(old(Value()));
        Value() == s && outcome == o && log == old(log) + hooks
    {
      if quit {
        return Terminated;
      }
      if next.Some? {
        if current.Some? {
          log := log + [Exit(current.value)];
        }
        prev := current;
        current := next;
        log := log + [Enter(current.value)];
        next := None;
      }
      if current.Some? {
        log := log + [Tick(current.value)];
        return Ran(current.value);
      }
      return NoScene;
    }
  }
}
