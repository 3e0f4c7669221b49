/** The older scene manager: a current scene and a scheduled one, with no history and no
    quit flag. Scenes, the calls made on them and Update's result are represented as in
    the current manager. */
module LegacyScenes {
  import S = Scenes

  /** The older manager's fields. */
  datatype Slots = Slots(current: S.Option<S.SceneId>, next: S.Option<S.SceneId>)

  /** NewManager: no scenes. */
  const Empty := Slots(S.None, S.None)

  /** SwitchTo: schedule a scene, replacing any scene already scheduled. */
  function SwitchToStep(s: Slots, id: S.SceneId): (r: Slots)
    ensures r == Slots(s.current, S.Some(id))
  {
    s.(next := S.Some(id))
  }

  /** Update: apply the scheduled switch (exit the old scene, then enter the new one and
      clear the schedule), then update the current scene and return its result. */
  function UpdateStep(s: Slots): (r: (Slots, S.Outcome, seq<S.Hook>))
    ensures r.0.next == S.None
    ensures r.0.current == if s.next.Some? then s.next else s.current
    ensures r.1 == if r.0.current.Some? then S.Ran(r.0.current.value) else S.NoScene
  {
    var (t, hooks) :=
      if s.next.Some? then
        (Slots(s.next, S.None),
         (if s.current.Some? then [S.Exit(s.current.value)] else []) + [S.Enter(s.next.value)])
      else (s, []);
    if t.current.Some? then (t, S.Ran(t.current.value), hooks + [S.Tick(t.current.value)])
    else (t, S.NoScene, hooks)
  }

  /** The older manager behaves like the current one with its history ignored and no quit
      requested: same scenes afterwards, same result, same calls. */
  lemma AgreesWithCurrentManager(s: Slots, prev: S.Option<S.SceneId>)
    ensures var (t, o, hooks) := UpdateStep(s);
      var (u, o', hooks') := S.UpdateStep(S.SceneSlots(prev, s.current, s.next, false));
      t == Slots(u.current, u.next) && o == o' && hooks == hooks'
  {
  }

  /** Of two switches requested before an Update, only the second is entered, and the
      old scene is exited before it is. */
  lemma LastSwitchWins(a: S.SceneId, b: S.SceneId, c: S.SceneId)
    ensures UpdateStep(SwitchToStep(SwitchToStep(Slots(S.Some(c), S.None), a), b))
      == (Slots(S.Some(b), S.None), S.Ran(b), [S.Exit(c), S.Enter(b), S.Tick(b)])
  {
    assert [S.Exit(c)] + [S.Enter(b)] + [S.Tick(b)] == [S.Exit(c), S.Enter(b), S.Tick(b)];
  }

  /** A switch is applied once: the following Update only updates the scene. */
  lemma NoReentry(s: Slots)
    requires s.next.Some?
    ensures var t := UpdateStep(s).0; UpdateStep(t) == (t, S.Ran(s.next.value), [S.Tick(s.next.value)])
  {
    assert [] + [S.Tick(s.next.value)] == [S.Tick(s.next.value)];
  }

  /** The older scene manager object; `log` records the calls made on scenes. */
  class Manager {
    var current: S.Option<S.SceneId>
    var next: S.Option<S.SceneId>
    var log: seq<S.Hook>

    function Value(): Slots
      reads this
    {
      Slots(current, next)
    }

    constructor ()
      ensures Value() == Empty && log == []
    {
      current, next := S.None, S.None;
      log := [];
    }

    method SwitchTo(id: S.SceneId)
      modifies this
      ensures Value() == SwitchToStep(old(Value()), id) && log == old(log)
    {
      next := S.Some(id);
    }

    method Update() returns (outcome: S.Outcome)
      modifies this
      ensures var (s, o, hooks) := UpdateStep(old(Value()));
        Value() == s && outcome == o && log == old(log) + hooks
    {
      if next.Some? {
        if current.Some? {
          log := log + [S.Exit(current.value)];
        }
        current := next;
        log := log + [S.Enter(current.value)];
        next := S.None;
      }
      if current.Some? {
        log := log + [S.Tick(current.value)];
        return S.Ran(current.value);
      }
      return S.NoScene;
    }
  }
}
