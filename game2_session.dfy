/**
 * The session logic of game2.js as pure transitions over a snapshot of
 * the game object: the `gameState` record, the current `target`, the
 * `targets` array handed to the ray query, and the target meshes among
 * the scene's children. The class in game2.dfy performs these steps in
 * place; here they are stated and reasoned about as values.
 */
module Game2Session {

  import opened Wrappers
  import opened Seqs
  import opened Clock
  import opened Game2Targets

  /** `this.gameState`. */
  datatype GameState = GameState(
    isActive: bool,
    score: int,
    timeRemaining: real,
    targetsHit: int,
    startTime: Option<int>)

  /** The record the constructor installs before `startGame` runs. */
  const InitialState: GameState := GameState(false, 0, SessionSeconds, 0, None)

  /**
   * The fields the session logic reads and writes. `scene` lists only the
   * target meshes among the scene's children, in insertion order.
   */
  datatype Session = Session(state: GameState, target: Target?, targets: seq<Target>, scene: seq<Target>)

  /** The object as the constructor leaves it before calling `init`. */
  const Unstarted: Session := Session(InitialState, null, [], [])

  /** The live targets: the current target, if there is one. */
  function Live(s: Session): seq<Target>
  {
    if s.target == null then [] else [s.target]
  }

  /**
   * At most one live target, and the ray-query array and the scene hold
   * exactly it; the live target is one `createTarget` could have built.
   */
  predicate Consistent(s: Session)
  {
    && s.targets == Live(s)
    && s.scene == s.targets
    && (s.target != null ==> s.target.WellFormed())
  }

  /** Every hit is worth between 62 and 250 points, so the score is bounded by the hit count. */
  predicate ScoreWithinHits(g: GameState)
  {
    LeastScore * g.targetsHit <= g.score <= GreatestScore * g.targetsHit
  }

  /** What every reachable session satisfies. */
  predicate Good(s: Session)
  {
    Consistent(s) && ScoreWithinHits(s.state) && s.state.timeRemaining >= 0.0
  }

  /**
   * `spawnTarget`: drop the previous target from the scene (its geometry and
   * material are disposed, which only the class tracks), then make `next` the
   * one live target.
   */
  function Spawned(s: Session, next: Target): (r: Session)
    ensures r.state == s.state
    ensures r.target == next && r.targets == [next] && next in r.scene
    ensures Consistent(s) && next.WellFormed() ==> Consistent(r)
    ensures Consistent(s) && s.target != null && s.target != next ==> s.target !in r.scene
  {
    var prev: Option<Target> := if s.target == null then None else Some(s.target);
    s.(target := next, scene := Swapped(s.scene, prev, next), targets := [next])
  }

  /** `Spawned` as `spawnTarget` builds it: the scene after the removal, then `next` appended. */
  lemma SpawnedInSteps(s: Session, kept: seq<Target>, next: Target)
    requires kept == if s.target == null then s.scene else RemoveFirst(s.scene, s.target)
    ensures Spawned(s, next) == s.(target := next, scene := kept + [next], targets := [next])
  {
    var prev: Option<Target> := if s.target == null then None else Some(s.target);
    SwappedInSteps(s.scene, prev, kept, next);
  }

  /**
   * `removeTarget(t)`: the first occurrence of `t` leaves the scene and the
   * ray-query array, and the current target is cleared when it is `t`.
   */
  function Removed(s: Session, t: Target?): (r: Session)
    ensures r.state == s.state
    ensures r.target == null <==> s.target == null || s.target == t
    ensures r.target != null ==> r.target == s.target
  {
    if t == null then s
    else
      var mesh: Target := t;
      var target := if s.target == mesh then null else s.target;
      s.(scene := RemoveFirst(s.scene, mesh), targets := RemoveFirst(s.targets, mesh), target := target)
  }

  /**
   * What `removeTarget(t)` does to the scene and the array: one occurrence
   * of `t` fewer in each, and no change at all where `t` does not occur.
   */
  lemma RemovedDropsOne(s: Session, t: Target)
    ensures multiset(Removed(s, t).scene) == multiset(s.scene) - multiset{t}
    ensures multiset(Removed(s, t).targets) == multiset(s.targets) - multiset{t}
    ensures t !in s.scene ==> Removed(s, t).scene == s.scene
    ensures t !in s.targets ==> Removed(s, t).targets == s.targets
  {
  }

  /** Removing the live target empties the array and the scene; removing anything else changes nothing. */
  lemma RemovedKeepsConsistent(s: Session, t: Target?)
    requires Consistent(s)
    ensures Consistent(Removed(s, t))
    ensures s.target != null && t == s.target ==> Removed(s, t).scene == []
    ensures t != s.target ==> Removed(s, t) == s
  {
    if t != null && t == s.target {
      assert RemoveFirst([t], t) == [];
    }
  }

  /** The score and hit counter after hitting `t`. */
  function Credited(g: GameState, t: Target): GameState
  {
    g.(score := g.score + t.baseScore, targetsHit := g.targetsHit + 1)
  }

  /**
   * `handleTargetHit(t)`: ignored while inactive or for a null target;
   * otherwise the target's base score and one hit are credited, the target
   * is removed and a fresh one spawned.
   */
  function Hit(s: Session, t: Target?, next: Target): (r: Session)
    ensures !s.state.isActive || t == null ==> r == s
    ensures s.state.isActive && t != null ==>
              r.state == Credited(s.state, t) && r.target == next && r.targets == [next]
    ensures Consistent(s) && next.WellFormed() ==> Consistent(r)
  {
    if !s.state.isActive || t == null then s
    else Spawned(Removed(s.(state := Credited(s.state, t)), t), next)
  }

  /**
   * `handleClick` followed by `performRaycast`: while active, the nearest
   * live target the ray meets is hit. `struck` is the set of objects the
   * ray meets; the live array is searched in its own order.
   */
  function Click(s: Session, struck: set<Target>, next: Target): (r: Session)
    ensures !s.state.isActive ==> r == s
    ensures Consistent(s) && s.state.isActive && s.target != null && s.target in struck ==>
              r == Hit(s, s.target, next)
    ensures Consistent(s) && !(s.state.isActive && s.target != null && s.target in struck) ==>
              r == s
  {
    if !s.state.isActive then s
    else
      var hits := KeepIn(s.targets, struck);
      if |hits| > 0 then Hit(s, hits[0], next) else s
  }

  /** `!this.gameState.startTime` is false: a start time is set and, being a number, is not 0. */
  predicate HasStartTime(g: GameState)
  {
    g.startTime.Some? && g.startTime.value != 0
  }

  /**
   * `updateTimer` at clock reading `now`: ignored while inactive or without a
   * start time; otherwise the remaining time is recomputed and the session
   * ends once it reaches 0.
   */
  function Tick(s: Session, now: int): (r: Session)
    ensures !s.state.isActive || !HasStartTime(s.state) ==> r == s
    ensures s.state.isActive && HasStartTime(s.state) ==>
              && r.state.timeRemaining == Remaining(s.state.startTime.value, now)
              && (r.state.isActive <==> now - s.state.startTime.value < 20000)
              && r.state.score == s.state.score && r.state.targetsHit == s.state.targetsHit
    ensures r.state.startTime == s.state.startTime
    ensures r.state.isActive ==> r.target == s.target && r.targets == s.targets && r.scene == s.scene
    ensures Consistent(s) ==> Consistent(r)
  {
    if !s.state.isActive || !HasStartTime(s.state) then s
    else
      var ticked := s.(state := s.state.(timeRemaining := Remaining(s.state.startTime.value, now)));
      if ticked.state.timeRemaining <= 0.0 then
        (if Consistent(ticked) then EndedEmptiesScene(ticked); Ended(ticked) else Ended(ticked))
      else ticked
  }

  /** One iteration of `this.targets.forEach(...)` in `cleanup`: position `k` is visited only if the array still reaches it. */
  function ForEachStep(s: Session, k: nat): Session
  {
    if k < |s.targets| then Removed(s, s.targets[k]) else s
  }

  /**
   * The first `k` iterations of `forEach` over the array, counted from
   * position 0, while `removeTarget` splices that same array.
   */
  function RemoveEach(s: Session, k: nat): (r: Session)
    ensures r.state == s.state
  {
    if k == 0 then s else ForEachStep(RemoveEach(s, k - 1), k - 1)
  }

  /** `cleanup`: remove every listed target, empty the array, then remove the current target if one is left. */
  function Cleaned(s: Session): (r: Session)
    ensures r.state == s.state && r.target == null && r.targets == []
  {
    var swept := RemoveEach(s, |s.targets|).(targets := []);
    if swept.target != null then Removed(swept, swept.target) else swept
  }

  /** `endGame`: deactivate, then clean up. */
  function Ended(s: Session): (r: Session)
    ensures r.state == s.state.(isActive := false)
    ensures r.target == null && r.targets == []
  {
    Cleaned(s.(state := s.state.(isActive := false)))
  }

  /** On a consistent session `cleanup` leaves no target in the scene and keeps the session consistent. */
  lemma CleanupEmptiesScene(s: Session)
    requires Consistent(s)
    ensures Cleaned(s).scene == []
    ensures Consistent(Cleaned(s))
  {
    if s.target != null {
      RemovedKeepsConsistent(s, s.target);
      assert RemoveEach(s, 1) == Removed(s, s.target);
    }
  }

  /** `endGame` on a consistent session leaves an inactive, consistent session with no target anywhere. */
  lemma EndedEmptiesScene(s: Session)
    requires Consistent(s)
    ensures Ended(s).scene == []
    ensures Consistent(Ended(s))
  {
    CleanupEmptiesScene(s.(state := s.state.(isActive := false)));
  }

  /** The record `startGame` installs at clock reading `now`. */
  function Fresh(now: int): GameState
  {
    GameState(true, 0, SessionSeconds, 0, Some(now))
  }

  /** `startGame` (and `restartGame`, which only calls it): a new record, then a first target. */
  function Started(s: Session, now: int, next: Target): (r: Session)
    ensures r.state.isActive && r.state.score == 0 && r.state.targetsHit == 0
    ensures r.state.timeRemaining == SessionSeconds && r.state.startTime == Some(now)
    ensures r.target == next && r.targets == [next]
    ensures Consistent(s) && next.WellFormed() ==> Good(r)
  {
    Spawned(s.(state := Fresh(now)), next)
  }

  /** `formatTime`: the whole seconds shown on the timer, `Math.ceil`. */
  function FormatTime(seconds: real): (shown: int)
    ensures 0.0 <= seconds <= SessionSeconds ==> 0 <= shown <= 20
    ensures seconds >= 0.0 ==> (shown == 0 <==> seconds == 0.0)
  {
    Ceil(seconds)
  }

  /** What can happen to the game object: an animation frame, a click, the restart button. */
  datatype Event =
    | Frame(now: int)
    | Shot(struck: set<Target>, next: Target)
    | RestartPressed(now: int, next: Target)

  /** Every target an event would spawn is one `createTarget` could have built. */
  predicate WellFormedEvents(evs: seq<Event>)
  {
    forall i :: 0 <= i < |evs| && !evs[i].Frame? ==> evs[i].next.WellFormed()
  }

  function Step(s: Session, e: Event): Session
  {
    match e
    case Frame(now) => Tick(s, now)
    case Shot(struck, next) => Click(s, struck, next)
    case RestartPressed(now, next) => Started(s, now, next)
  }

  /** The session after a sequence of events. */
  function Run(s: Session, evs: seq<Event>): Session
    decreases |evs|
  {
    if evs == [] then s else Run(Step(s, evs[0]), evs[1..])
  }

  /** `new TargetPracticeGame()` at clock reading `now`: the constructor's record, then `startGame`. */
  function Constructed(now: int, first: Target): (r: Session)
    ensures first.WellFormed() ==> Good(r)
  {
    Started(Unstarted, now, first)
  }

  // ---------------------------------------------------------------------
  // Properties

  /** A hit on a well-formed target keeps the score within the bounds its hit count allows. */
  lemma CreditKeepsBounds(g: GameState, t: Target)
    requires ScoreWithinHits(g) && t.WellFormed()
    ensures ScoreWithinHits(Credited(g, t))
  {
    assert LeastScore <= t.baseScore <= GreatestScore;
  }

  /** Every event keeps a reachable session reachable. */
  lemma StepKeepsGood(s: Session, e: Event)
    requires Good(s)
    requires !e.Frame? ==> e.next.WellFormed()
    ensures Good(Step(s, e))
  {
    match e
    case Frame(now) =>
      if s.state.isActive && HasStartTime(s.state) {
        assert Step(s, e).state.timeRemaining >= 0.0;
      }
    case Shot(struck, next) =>
      if s.state.isActive && s.target != null && s.target in struck {
        CreditKeepsBounds(s.state, s.target);
      }
    case RestartPressed(now, next) =>
  }

  /** No sequence of events leaves the reachable states. */
  lemma {:induction false} RunKeepsGood(s: Session, evs: seq<Event>)
    requires Good(s) && WellFormedEvents(evs)
    ensures Good(Run(s, evs))
    decreases |evs|
  {
    if evs != [] {
      StepKeepsGood(s, evs[0]);
      assert WellFormedEvents(evs[1..]) by {
        forall i | 0 <= i < |evs[1..]| && !evs[1..][i].Frame?
          ensures evs[1..][i].next.WellFormed()
        {
          assert evs[1..][i] == evs[i + 1];
        }
      }
      RunKeepsGood(Step(s, evs[0]), evs[1..]);
    }
  }

  /** Without a restart, the score and the hit counter only grow. */
  predicate NoRestart(evs: seq<Event>)
  {
    forall i :: 0 <= i < |evs| ==> !evs[i].RestartPressed?
  }

  lemma StepCountersGrow(s: Session, e: Event)
    requires Good(s) && !e.RestartPressed?
    ensures Step(s, e).state.targetsHit >= s.state.targetsHit
    ensures Step(s, e).state.score >= s.state.score
  {
    if e.Shot? && s.state.isActive && s.target != null && s.target in e.struck {
      assert s.target.baseScore >= LeastScore;
    }
  }

  lemma {:induction false} RunCountersGrow(s: Session, evs: seq<Event>)
    requires Good(s) && WellFormedEvents(evs) && NoRestart(evs)
    ensures Run(s, evs).state.targetsHit >= s.state.targetsHit
    ensures Run(s, evs).state.score >= s.state.score
    decreases |evs|
  {
    if evs != [] {
      StepCountersGrow(s, evs[0]);
      StepKeepsGood(s, evs[0]);
      assert WellFormedEvents(evs[1..]) by {
        forall i | 0 <= i < |evs[1..]| && !evs[1..][i].Frame?
          ensures evs[1..][i].next.WellFormed()
        {
          assert evs[1..][i] == evs[i + 1];
        }
      }
      assert NoRestart(evs[1..]) by {
        forall i | 0 <= i < |evs[1..]| ensures !evs[1..][i].RestartPressed? {
          assert evs[1..][i] == evs[i + 1];
        }
      }
      RunCountersGrow(Step(s, evs[0]), evs[1..]);
    }
  }

  /** Once a session has ended, only the restart button changes anything. */
  lemma {:induction false} EndedIsFinal(s: Session, evs: seq<Event>)
    requires !s.state.isActive && NoRestart(evs)
    ensures Run(s, evs) == s
    decreases |evs|
  {
    if evs != [] {
      assert Step(s, evs[0]) == s;
      assert NoRestart(evs[1..]) by {
        forall i | 0 <= i < |evs[1..]| ensures !evs[1..][i].RestartPressed? {
          assert evs[1..][i] == evs[i + 1];
        }
      }
      EndedIsFinal(s, evs[1..]);
    }
  }

  /** A second `endGame` changes nothing. */
  lemma EndedIdempotent(s: Session)
    ensures Ended(Ended(s)) == Ended(s)
  {
    var e := Ended(s);
    assert RemoveEach(e, |e.targets|) == e;
  }

  /**
   * The first frame at or after the 20-second mark ends an active, started
   * session and leaves no target in the scene.
   */
  lemma DeadlineEndsSession(s: Session, now: int)
    requires Consistent(s) && s.state.isActive && HasStartTime(s.state)
    requires now - s.state.startTime.value >= 20000
    ensures !Tick(s, now).state.isActive
    ensures Tick(s, now).state.timeRemaining == 0.0
    ensures Tick(s, now).scene == [] && Tick(s, now).target == null
  {
  }

  /**
   * `cleanup` as written visits the array while splicing it, so with two
   * listed targets the second is skipped and stays in the scene; it never
   * shows because at most one target is ever live.
   */
  lemma CleanupSkipsSecondTarget(g: GameState, a: Target, b: Target)
    requires a != b
    ensures Cleaned(Session(g, null, [a, b], [a, b])).scene == [b]
  {
    var s := Session(g, null, [a, b], [a, b]);
    var s1 := Removed(s, a);
    assert s1.targets == [b] && s1.scene == [b];
    assert RemoveEach(s, 1) == s1;
    assert RemoveEach(s, 2) == s1;
  }

  /**
   * A start at clock reading 0 counts as no start in `updateTimer`'s guard:
   * such a session never times out.
   */
  lemma StartAtEpochNeverEnds(s: Session, next: Target, now: int)
    ensures Tick(Started(s, 0, next), now) == Started(s, 0, next)
  {
  }

  /** Before the 20-second mark a frame keeps the session running with time left. */
  lemma BeforeDeadlineContinues(s: Session, now: int)
    requires s.state.isActive && HasStartTime(s.state)
    requires now - s.state.startTime.value < 20000
    ensures Tick(s, now).state.isActive
    ensures Tick(s, now).state.timeRemaining > 0.0
  {
  }
}
