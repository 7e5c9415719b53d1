/**
 * The game object of game/game.js. Each method updates the fields in place
 * the way the source does and is proved to perform the matching transition
 * of GameSession on the object's snapshot. The stored ranking is passed in
 * and the list written back is returned.
 */
module Game {

  import opened Wrappers
  import opened Seqs
  import opened Space
  import opened Clock
  import opened Ranking
  import opened GameTargets
  import opened GameSession

  class TargetPracticeGame {
    var gameState: GameState
    var target: Target?
    /** The array handed to the ray query. */
    var targets: seq<Target>
    /** The target meshes among `scene.children`, in insertion order. */
    var scene: seq<Target>

    function Snapshot(): Session
      reads this
    {
      Session(gameState, target, targets, scene)
    }

    ghost predicate Valid()
      reads this
    {
      Good(Snapshot())
    }

    /**
     * `new TargetPracticeGame()`: the initial record and no target. The first
     * animation frame's `updateTimer` finds the session inactive and does
     * nothing.
     */
    constructor ()
      ensures Valid() && Snapshot() == Unstarted
    {
      gameState := InitialState;
      target := null;
      targets := [];
      scene := [];
    }

    /** `startGame` at clock reading `now`: a fresh record, then a first target. */
    method StartGame(now: int, d: Draws)
      requires Consistent(Snapshot()) && d.Valid()
      modifies this
      ensures Valid()
      ensures target != null && fresh(target) && Snapshot() == Started(old(Snapshot()), now, target)
      ensures BuiltFrom(target, d)
    {
      gameState := Fresh(now);
      SpawnTarget(d);
    }

    /** `spawnTarget`: take the current target out of the scene, then build, show and list a new one. */
    method SpawnTarget(d: Draws)
      requires d.Valid()
      modifies this
      ensures target != null && fresh(target) && target.WellFormed() && BuiltFrom(target, d)
      ensures Snapshot() == Spawned(old(Snapshot()), target)
    {
      ghost var before := Snapshot();
      if target != null {
        scene := RemoveFirst(scene, target);
      }
      var size := RandomSize(d.size);
      var t := new Target(size, RandomPosition(d.x, d.y, d.z), TargetColor, TargetScore(size));
      SpawnedInSteps(before, scene, t);
      target := t;
      scene := scene + [t];
      targets := [t];
    }

    /**
     * `onClick`: while active, hit the first listed target among those the
     * ray meets (`struck`).
     */
    method OnClick(struck: set<Target>, d: Draws)
      requires Valid() && d.Valid()
      modifies this
      ensures Valid()
      ensures old(gameState.isActive && target != null && target in struck) ==>
                target != null && fresh(target) && Snapshot() == Click(old(Snapshot()), struck, target)
      ensures old(gameState.isActive && target != null && target in struck) ==> BuiltFrom(target, d)
      ensures !old(gameState.isActive && target != null && target in struck) ==>
                Snapshot() == old(Snapshot())
    {
      if !gameState.isActive {
        return;
      }
      var hit := KeepIn(targets, struck);
      if |hit| > 0 {
        HitTarget(hit[0], d);
      }
    }

    /** `hitTarget(t)`: add the target's score and one hit, then spawn a new target. */
    method HitTarget(t: Target, d: Draws)
      requires Valid() && t.WellFormed() && d.Valid()
      modifies this
      ensures Valid()
      ensures target != null && fresh(target) && Snapshot() == Hit(old(Snapshot()), t, target)
      ensures BuiltFrom(target, d)
    {
      ghost var credited := old(Snapshot()).(state := Credited(gameState, t));
      CreditKeepsBounds(gameState, t);
      gameState := gameState.(score := gameState.score + t.score);
      gameState := gameState.(hits := gameState.hits + 1);
      assert Snapshot() == credited;
      SpawnTarget(d);
    }

    /**
     * `updateTimer` at clock reading `now`: while active, recompute the
     * remaining time and end the game once none is left. The result is the
     * ranking `endGame` stores, if it ran.
     */
    method UpdateTimer(now: int, playerName: string, stored: Option<seq<Entry>>)
      returns (saved: Option<seq<Entry>>)
      requires Valid()
      modifies this
      ensures Valid()
      ensures Snapshot() == Tick(old(Snapshot()), now)
      ensures saved.Some? <==> TickEnds(old(Snapshot()), now)
      ensures saved.Some? ==> saved.value == Ranked(stored, Entry(playerName, gameState.score, gameState.hits))
    {
      saved := None;
      if !gameState.isActive {
        return;
      }
      gameState := gameState.(timeRemaining := Remaining(StartMillis(gameState), now));
      if gameState.timeRemaining <= 0.0 {
        var ranking := EndGame(playerName, stored);
        saved := Some(ranking);
      }
    }

    /**
     * `endGame`: deactivate, then add the player's result to the stored
     * ranking (`None`, a missing key or falsy value, reads as empty), sort it by descending score
     * and keep the first ten entries.
     */
    method EndGame(playerName: string, stored: Option<seq<Entry>>) returns (saved: seq<Entry>)
      requires Valid()
      modifies this
      ensures Valid()
      ensures Snapshot() == Ended(old(Snapshot()))
      ensures saved == Ranked(stored, Entry(playerName, gameState.score, gameState.hits))
    {
      gameState := gameState.(isActive := false);
      var ranking := Loaded(stored);
      ranking := ranking + [Entry(playerName, gameState.score, gameState.hits)];
      ranking := SortByScore(ranking);
      saved := ranking[..Kept(|ranking|)];
    }
  }
}
