/**
 * The session logic of game/game.js as pure transitions over a snapshot of
 * the game object: the `gameState` record, the current `target`, the
 * `targets` array handed to the ray query, and the target meshes among the
 * scene's children. Unlike game2.js this version disposes of nothing,
 * never cleans up at the end, checks for an active session in the click
 * handler rather than in `hitTarget`, and writes a ranking entry when a
 * session ends. The class in game.dfy performs these steps in place.
 */
module GameSession {

  import opened Wrappers
  import opened Seqs
  import opened Clock
  import opened GameTargets

  /** `this.gameState`. */
  datatype GameState = GameState(
    isActive: bool,
    score: int,
    hits: int,
    timeRemaining: real,
    startTime: Option<int>)

  /** The record the constructor installs. */
  const InitialState: GameState := GameState(false, 0, 0, SessionSeconds, None)

  /**
   * The fields the session logic reads and writes. `scene` lists only the
   * target meshes among the scene's children, in insertion order.
   */
  datatype Session = Session(state: GameState, target: Target?, targets: seq<Target>, scene: seq<Target>)

  /** The object as the constructor leaves it: nothing starts a session until `startGame` is called from outside. */
  const Unstarted: Session := Session(InitialState, null, [], [])

  /** The live targets: the current target, if there is one. */
  function Live(s: Session): seq<Target>
  {
    if s.target == null then [] else [s.target]
  }

  /**
   * At most one live target, and the ray-query array and the scene hold
   * exactly it; the live target is one `spawnTarget` could have built.
   */
  predicate Consistent(s: Session)
  {
    && s.targets == Live(s)
    && s.scene == s.targets
    && (s.target != null ==> s.target.WellFormed())
  }

  /** Every hit is worth between 125 and 500 points, so the score is bounded by the hit count. */
  predicate ScoreWithinHits(g: GameState)
  {
    LeastScore * g.hits <= g.score <= GreatestScore * g.hits
  }

  /** What every reachable session satisfies; an active session always has a start time. */
  predicate Good(s: Session)
  {
    && Consistent(s)
    && ScoreWithinHits(s.state)
    && s.state.timeRemaining >= 0.0
    && (s.state.isActive ==> s.state.startTime.Some?)
  }

  /**
   * `spawnTarget`: take the previous target out of the scene, then make
   * `next` the one live target. Nothing is disposed in this version.
   */
  function Spawned(s: Session, next: Target): (r: Session)
    ensures r.state == s.state
    ensures r.target == next && r.targets == [next] && next in r.scene
    ensures Consistent(s) && next.WellFormed() ==> Consistent(r)
    ensures Consistent(s) && s.target != null && s.target != next ==> s.target !in r.scene
  {
    var prev: Option<Target> := if s.target == null then None else Some(s.target);
    s.(target := next, scene := Swapped(s.scene, prev, next), targets := [next])
  }

  /** `Spawned` as `spawnTarget` builds it: the scene after the removal, then `next` appended. */
  lemma SpawnedInSteps(s: Session, kept: seq<Target>, next: Target)
    requires kept == if s.target == null then s.scene else RemoveFirst(s.scene, s.target)
    ensures Spawned(s, next) == s.(target := next, scene := kept + [next], targets := [next])
  {
    var prev: Option<Target> := if s.target == null then None else Some(s.target);
    SwappedInSteps(s.scene, prev, kept, next);
  }

  /** The score and hit counter after hitting `t`. */
  function Credited(g: GameState, t: Target): GameState
  {
    g.(score := g.score + t.score, hits := g.hits + 1)
  }

  /**
   * `hitTarget(t)`: credit the target's score and one hit, then spawn
   * `next`. There is no check for an active session here.
   */
  function Hit(s: Session, t: Target, next: Target): (r: Session)
    ensures r.state.score == s.state.score + t.score && r.state.hits == s.state.hits + 1
    ensures r.state.isActive == s.state.isActive
    ensures r.state.timeRemaining == s.state.timeRemaining && r.state.startTime == s.state.startTime
    ensures r.target == next && r.targets == [next]
    ensures Consistent(s) && next.WellFormed() ==> Consistent(r)
  {
    Spawned(s.(state := Credited(s.state, t)), next)
  }

  /**
   * `onClick`: ignored while inactive; otherwise the first listed target
   * among those the ray meets (`struck`) is hit.
   */
  function Click(s: Session, struck: set<Target>, next: Target): (r: Session)
    ensures !s.state.isActive ==> r == s
    ensures Consistent(s) && s.state.isActive && s.target != null && s.target in struck ==>
              r == Hit(s, s.target, next)
    ensures Consistent(s) && !(s.state.isActive && s.target != null && s.target in struck) ==>
              r == s
  {
    if !s.state.isActive then s
    else
      var hit := KeepIn(s.targets, struck);
      if |hit| > 0 then Hit(s, hit[0], next) else s
  }

  /** `Date.now() - this.gameState.startTime`: a `null` start time subtracts as 0. */
  function StartMillis(g: GameState): int
  {
    if g.startTime.Some? then g.startTime.value else 0
  }

  /** `endGame`'s effect on the session: it only deactivates; the target stays where it is. */
  function Ended(s: Session): (r: Session)
    ensures r.state == s.state.(isActive := false)
    ensures r.target == s.target && r.targets == s.targets && r.scene == s.scene
  {
    s.(state := s.state.(isActive := false))
  }

  /**
   * `updateTimer` at clock reading `now`: ignored while inactive; otherwise
   * the remaining time is recomputed and the session ends once it is 0.
   */
  function Tick(s: Session, now: int): (r: Session)
    ensures !s.state.isActive ==> r == s
    ensures s.state.isActive ==>
              && r.state.timeRemaining == Remaining(StartMillis(s.state), now)
              && (r.state.isActive <==> now - StartMillis(s.state) < 20000)
    ensures r.state.score == s.state.score && r.state.hits == s.state.hits
    ensures r.state.startTime == s.state.startTime
    ensures r.target == s.target && r.targets == s.targets && r.scene == s.scene
  {
    if !s.state.isActive then s
    else
      var ticked := s.(state := s.state.(timeRemaining := Remaining(StartMillis(s.state), now)));
      if ticked.state.timeRemaining <= 0.0 then Ended(ticked) else ticked
  }

  /** Whether `updateTimer` at `now` calls `endGame`, which writes the ranking. */
  predicate TickEnds(s: Session, now: int)
  {
    s.state.isActive && Remaining(StartMillis(s.state), now) <= 0.0
  }

  /** The record `startGame` installs at clock reading `now`. */
  function Fresh(now: int): GameState
  {
    GameState(true, 0, 0, SessionSeconds, Some(now))
  }

  /** `startGame` at clock reading `now`: a new record, then a first target. */
  function Started(s: Session, now: int, next: Target): (r: Session)
    ensures r.state.isActive && r.state.score == 0 && r.state.hits == 0
    ensures r.state.timeRemaining == SessionSeconds && r.state.startTime == Some(now)
    ensures r.target == next && r.targets == [next]
    ensures Consistent(s) && next.WellFormed() ==> Good(r)
  {
    Spawned(s.(state := Fresh(now)), next)
  }

  /** What can happen to the game object: an animation frame, a click, a call of `startGame` from the page. */
  datatype Event =
    | Frame(now: int)
    | Shot(struck: set<Target>, next: Target)
    | Start(now: int, next: Target)

  /** Every target an event would spawn is one `spawnTarget` could have built. */
  predicate WellFormedEvents(evs: seq<Event>)
  {
    forall i :: 0 <= i < |evs| && !evs[i].Frame? ==> evs[i].next.WellFormed()
  }

  function Step(s: Session, e: Event): Session
  {
    match e
    case Frame(now) => Tick(s, now)
    case Shot(struck, next) => Click(s, struck, next)
    case Start(now, next) => Started(s, now, next)
  }

  /** Whether the event makes `endGame` write a ranking entry. */
  predicate Saves(s: Session, e: Event)
  {
    e.Frame? && TickEnds(s, e.now)
  }

  /** The session after a sequence of events. */
  function Run(s: Session, evs: seq<Event>): Session
    decreases |evs|
  {
    if evs == [] then s else Run(Step(s, evs[0]), evs[1..])
  }

  /** How many ranking entries a sequence of events writes. */
  function Saved(s: Session, evs: seq<Event>): nat
    decreases |evs|
  {
    if evs == [] then 0
    else (if Saves(s, evs[0]) then 1 else 0) + Saved(Step(s, evs[0]), evs[1..])
  }

  /** No call of `startGame` among the events. */
  predicate NoStart(evs: seq<Event>)
  {
    forall i :: 0 <= i < |evs| ==> !evs[i].Start?
  }

  // ---------------------------------------------------------------------
  // Properties

  /** The constructor's object is a reachable session. */
  lemma UnstartedIsGood()
    ensures Good(Unstarted)
    ensures !Unstarted.state.isActive
  {
  }

  /** A frame ends the session exactly when it reports that a ranking entry is written. */
  lemma TickEndsExactly(s: Session, now: int)
    ensures TickEnds(s, now) <==> s.state.isActive && !Tick(s, now).state.isActive
    ensures TickEnds(s, now) <==> s.state.isActive && now - StartMillis(s.state) >= 20000
  {
  }

  /** A hit on a well-formed target keeps the score within the bounds its hit count allows. */
  lemma CreditKeepsBounds(g: GameState, t: Target)
    requires ScoreWithinHits(g) && t.WellFormed()
    ensures ScoreWithinHits(Credited(g, t))
  {
    assert LeastScore <= t.score <= GreatestScore;
  }

  /** Every event keeps a reachable session reachable. */
  lemma StepKeepsGood(s: Session, e: Event)
    requires Good(s)
    requires !e.Frame? ==> e.next.WellFormed()
    ensures Good(Step(s, e))
  {
    match e
    case Frame(now) =>
    case Shot(struck, next) =>
      if s.state.isActive && s.target != null && s.target in struck {
        CreditKeepsBounds(s.state, s.target);
      }
    case Start(now, next) =>
  }

  lemma WellFormedEventsTail(evs: seq<Event>)
    requires evs != [] && WellFormedEvents(evs)
    ensures WellFormedEvents(evs[1..])
  {
    forall i | 0 <= i < |evs[1..]| && !evs[1..][i].Frame?
      ensures evs[1..][i].next.WellFormed()
    {
      assert evs[1..][i] == evs[i + 1];
    }
  }

  lemma NoStartTail(evs: seq<Event>)
    requires evs != [] && NoStart(evs)
    ensures NoStart(evs[1..]) && !evs[0].Start?
  {
    forall i | 0 <= i < |evs[1..]| ensures !evs[1..][i].Start? {
      assert evs[1..][i] == evs[i + 1];
    }
  }

  /** No sequence of events leaves the reachable states. */
  lemma {:induction false} RunKeepsGood(s: Session, evs: seq<Event>)
    requires Good(s) && WellFormedEvents(evs)
    ensures Good(Run(s, evs))
    decreases |evs|
  {
    if evs != [] {
      StepKeepsGood(s, evs[0]);
      WellFormedEventsTail(evs);
      RunKeepsGood(Step(s, evs[0]), evs[1..]);
    }
  }

  lemma StepCountersGrow(s: Session, e: Event)
    requires Good(s) && !e.Start?
    ensures Step(s, e).state.hits >= s.state.hits
    ensures Step(s, e).state.score >= s.state.score
  {
    if e.Shot? && s.state.isActive && s.target != null && s.target in e.struck {
      assert s.target.score >= LeastScore;
    }
  }

  /** Without a new start, the score and the hit counter only grow. */
  lemma {:induction false} RunCountersGrow(s: Session, evs: seq<Event>)
    requires Good(s) && WellFormedEvents(evs) && NoStart(evs)
    ensures Run(s, evs).state.hits >= s.state.hits
    ensures Run(s, evs).state.score >= s.state.score
    decreases |evs|
  {
    if evs != [] {
      StepCountersGrow(s, evs[0]);
      StepKeepsGood(s, evs[0]);
      WellFormedEventsTail(evs);
      NoStartTail(evs);
      RunCountersGrow(Step(s, evs[0]), evs[1..]);
    }
  }

  /** Once a session has ended, nothing but `startGame` changes it, and no further ranking entry is written. */
  lemma {:induction false} EndedIsFinal(s: Session, evs: seq<Event>)
    requires !s.state.isActive && NoStart(evs)
    ensures Run(s, evs) == s
    ensures Saved(s, evs) == 0
    decreases |evs|
  {
    if evs != [] {
      NoStartTail(evs);
      assert Step(s, evs[0]) == s;
      EndedIsFinal(s, evs[1..]);
    }
  }

  /** Between two calls of `startGame` at most one ranking entry is written, and none once the session is over. */
  lemma {:induction false} OneSavePerSession(s: Session, evs: seq<Event>)
    requires NoStart(evs)
    ensures Saved(s, evs) <= 1
    ensures !s.state.isActive ==> Saved(s, evs) == 0
    decreases |evs|
  {
    if evs != [] {
      NoStartTail(evs);
      var next := Step(s, evs[0]);
      if Saves(s, evs[0]) {
        TickEndsExactly(s, evs[0].now);
        EndedIsFinal(next, evs[1..]);
      } else {
        OneSavePerSession(next, evs[1..]);
        if !s.state.isActive {
          assert next == s;
        }
      }
    }
  }

  /**
   * An active session that sees a frame at or after its 20-second mark
   * writes exactly one ranking entry: clicks keep it active and leave its
   * start time alone until that frame.
   */
  lemma {:induction false} DeadlineSavesOnce(s: Session, evs: seq<Event>, i: nat)
    requires s.state.isActive && NoStart(evs)
    requires i < |evs| && evs[i].Frame? && evs[i].now - StartMillis(s.state) >= 20000
    ensures Saved(s, evs) == 1
    decreases i
  {
    NoStartTail(evs);
    var next := Step(s, evs[0]);
    if Saves(s, evs[0]) {
      TickEndsExactly(s, evs[0].now);
      EndedIsFinal(next, evs[1..]);
    } else {
      if evs[0].Frame? {
        TickEndsExactly(s, evs[0].now);
      }
      assert i > 0;
      assert next.state.isActive && StartMillis(next.state) == StartMillis(s.state);
      assert evs[1..][i - 1] == evs[i];
      DeadlineSavesOnce(next, evs[1..], i - 1);
    }
  }
}
