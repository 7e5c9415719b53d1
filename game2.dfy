/**
 * The game object of game2.js. Each method updates the fields in place
 * the way the source does and is proved to perform the matching transition
 * of Game2Session on the object's snapshot. A ghost set follows the
 * geometry and material disposal: the live target is never disposed, and
 * every target that stops being live through a respawn or the end of the
 * game is.
 */
module Game2 {

  import opened Seqs
  import opened Space
  import opened Clock
  import opened Game2Targets
  import opened Game2Session

  class TargetPracticeGame {
    var gameState: GameState
    var target: Target?
    /** The array handed to the ray query. */
    var targets: seq<Target>
    /** The target meshes among `scene.children`, in insertion order. */
    var scene: seq<Target>
    /** The meshes whose geometry and material have been disposed. */
    ghost var disposed: set<Target>

    function Snapshot(): Session
      reads this
    {
      Session(gameState, target, targets, scene)
    }

    /** The mesh on show has not had its geometry and material disposed. */
    ghost predicate LiveNotDisposed()
      reads this
    {
      target != null ==> target !in disposed
    }

    ghost predicate Valid()
      reads this
    {
      Good(Snapshot()) && LiveNotDisposed()
    }

    /**
     * `new TargetPracticeGame()`: the initial record and no target, then
     * `startGame` at clock reading `now`. The constructor's last act, the
     * first animation frame and its `updateTimer`, is the first `Frame`
     * event and so the first `UpdateTimer` call on the new object.
     */
    constructor (now: int, d: Draws, colorDraw: real)
      requires d.Valid() && IsUnit(colorDraw)
      ensures Valid()
      ensures target != null && Snapshot() == Constructed(now, target) && BuiltFrom(target, d, colorDraw)
    {
      gameState := InitialState;
      target := null;
      targets := [];
      scene := [];
      disposed := {};
      new;
      StartGame(now, d, colorDraw);
    }

    /** `spawnTarget`: dispose of the current target, then create, show and list a new one. */
    method SpawnTarget(d: Draws, colorDraw: real)
      requires d.Valid() && IsUnit(colorDraw)
      modifies this
      ensures LiveNotDisposed()
      ensures target != null && fresh(target) && target.WellFormed() && BuiltFrom(target, d, colorDraw)
      ensures Snapshot() == Spawned(old(Snapshot()), target)
      ensures disposed == old(disposed) + (if old(target) == null then {} else {old(target)})
    {
      ghost var before := Snapshot();
      ghost var gone: set<Target> := {};
      if target != null {
        scene := RemoveFirst(scene, target);
        gone := {target};
      }
      ghost var kept := scene;
      var t := CreateTarget(d, colorDraw);
      assert t !in disposed + gone;
      target := t;
      scene := scene + [t];
      targets := [t];
      disposed := disposed + gone;
      assert Snapshot() == before.(target := t, scene := kept + [t], targets := [t]);
      SpawnedInSteps(before, kept, t);
    }

    /**
     * `removeTarget(t)`: take `t` out of the scene, disposing of it, if it is
     * there; take it out of the array; clear the current target if it is `t`.
     */
    method RemoveTarget(t: Target?)
      modifies this
      ensures LiveNotDisposed() || !old(LiveNotDisposed())
      ensures Snapshot() == Removed(old(Snapshot()), t)
      ensures disposed == old(disposed) + (if t != null && t in old(scene) then {t} else {})
    {
      ghost var before := Snapshot();
      ghost var gone: set<Target> := {};
      if t != null {
        var mesh: Target := t;
        if mesh in scene {
          scene := RemoveFirst(scene, mesh);
          gone := {mesh};
        }
        assert scene == RemoveFirst(before.scene, mesh);
        var index := IndexOf(targets, mesh);
        if index > -1 {
          targets := targets[..index] + targets[index + 1..];
        }
        assert targets == RemoveFirst(before.targets, mesh);
      }
      // With a null argument `indexOf` finds nothing: the array holds meshes only.
      if target == t {
        target := null;
      }
      disposed := disposed + gone;
      assert gameState == before.state;
    }

    /** `handleTargetHit(t)`: credit the target's score and one hit, replace the target. */
    method HandleTargetHit(t: Target?, d: Draws, colorDraw: real)
      requires Valid() && d.Valid() && IsUnit(colorDraw)
      requires t != null ==> t.WellFormed()
      modifies this
      ensures Valid()
      ensures !old(gameState.isActive) || t == null ==>
                Snapshot() == old(Snapshot()) && disposed == old(disposed)
      ensures old(gameState.isActive) && t != null ==>
                target != null && fresh(target) && Snapshot() == Hit(old(Snapshot()), t, target)
      ensures old(gameState.isActive) && t != null ==> BuiltFrom(target, d, colorDraw)
      ensures old(gameState.isActive) && t != null && old(target) != null ==> old(target) in disposed
      ensures old(disposed) <= disposed
    {
      if !gameState.isActive || t == null {
        return;
      }
      CreditKeepsBounds(gameState, t);
      ghost var before := Snapshot();
      gameState := Credited(gameState, t);
      assert Snapshot() == before.(state := Credited(before.state, t));
      RemoveTarget(t);
      ghost var removed := Snapshot();
      SpawnTarget(d, colorDraw);
      assert Snapshot() == Spawned(removed, target);
    }

    /**
     * `handleClick` and `performRaycast`: while active, hit the first listed
     * target among those the ray meets (`struck`).
     */
    method HandleClick(struck: set<Target>, d: Draws, colorDraw: real)
      requires Valid() && d.Valid() && IsUnit(colorDraw)
      modifies this
      ensures Valid()
      ensures old(gameState.isActive && target != null && target in struck) ==>
                target != null && fresh(target) && Snapshot() == Click(old(Snapshot()), struck, target)
      ensures old(gameState.isActive && target != null && target in struck) ==> BuiltFrom(target, d, colorDraw)
      ensures !old(gameState.isActive && target != null && target in struck) ==>
                Snapshot() == old(Snapshot()) && disposed == old(disposed)
      ensures old(gameState.isActive && target != null && target in struck) ==> old(target) in disposed
      ensures old(disposed) <= disposed
    {
      if !gameState.isActive {
        return;
      }
      var intersects := KeepIn(targets, struck);
      if |intersects| > 0 {
        HandleTargetHit(intersects[0], d, colorDraw);
      }
    }

    /** `updateTimer` at clock reading `now`: recompute the remaining time and end the game once none is left. */
    method UpdateTimer(now: int)
      requires Valid()
      modifies this
      ensures Valid()
      ensures Snapshot() == Tick(old(Snapshot()), now)
      ensures old(disposed) <= disposed
      ensures gameState.isActive == old(gameState.isActive) ==> disposed == old(disposed)
      ensures old(gameState.isActive) && !gameState.isActive && old(target) != null ==> old(target) in disposed
    {
      if !gameState.isActive || !HasStartTime(gameState) {
        return;
      }
      gameState := gameState.(timeRemaining := Remaining(gameState.startTime.value, now));
      if gameState.timeRemaining <= 0.0 {
        EndGame();
      }
    }

    /** `startGame` at clock reading `now`: a fresh record and a first target. */
    method StartGame(now: int, d: Draws, colorDraw: real)
      requires Consistent(Snapshot()) && d.Valid() && IsUnit(colorDraw)
      modifies this
      ensures Valid()
      ensures target != null && fresh(target) && Snapshot() == Started(old(Snapshot()), now, target)
      ensures BuiltFrom(target, d, colorDraw)
      ensures disposed == old(disposed) + (if old(target) == null then {} else {old(target)})
    {
      gameState := Fresh(now);
      SpawnTarget(d, colorDraw);
    }

    /** `restartGame`: the restart button starts a new game. */
    method RestartGame(now: int, d: Draws, colorDraw: real)
      requires Valid() && d.Valid() && IsUnit(colorDraw)
      modifies this
      ensures Valid()
      ensures target != null && fresh(target) && Snapshot() == Started(old(Snapshot()), now, target)
      ensures BuiltFrom(target, d, colorDraw)
      ensures disposed == old(disposed) + (if old(target) == null then {} else {old(target)})
    {
      StartGame(now, d, colorDraw);
    }

    /** `endGame`: deactivate and clean up; the target that was on show is disposed. */
    method EndGame()
      requires Valid()
      modifies this
      ensures Valid()
      ensures Snapshot() == Ended(old(Snapshot()))
      ensures old(target) != null ==> old(target) in disposed
      ensures old(disposed) <= disposed
    {
      EndedEmptiesScene(Snapshot());
      gameState := gameState.(isActive := false);
      Cleanup();
    }

    /**
     * `cleanup`: the `forEach` pass over the array, then empty the array and
     * remove the current target if one is left. On a consistent object the
     * listed target is the one on show, and it ends up disposed.
     */
    method Cleanup()
      modifies this
      ensures LiveNotDisposed() || !old(LiveNotDisposed())
      ensures Snapshot() == Cleaned(old(Snapshot()))
      ensures old(disposed) <= disposed
      ensures Consistent(old(Snapshot())) && old(target) != null ==> old(target) in disposed
    {
      RemoveListed();
      targets := [];
      if target != null {
        RemoveTarget(target);
      }
    }

    /**
     * `this.targets.forEach(target => this.removeTarget(target))`: the
     * positions below the array's starting length are visited in order, and
     * one the shrinking array no longer reaches is skipped.
     */
    method RemoveListed()
      modifies this
      ensures LiveNotDisposed() || !old(LiveNotDisposed())
      ensures Snapshot() == RemoveEach(old(Snapshot()), old(|targets|))
      ensures old(disposed) <= disposed
      ensures old(|targets|) > 0 && old(targets[0]) in old(scene) ==> old(targets[0]) in disposed
    {
      ghost var start := Snapshot();
      var n := |targets|;
      var k := 0;
      while k < n
        invariant 0 <= k <= n
        invariant LiveNotDisposed() || !old(LiveNotDisposed())
        invariant old(disposed) <= disposed
        invariant k > 0 && start.targets[0] in start.scene ==> start.targets[0] in disposed
        invariant Snapshot() == RemoveEach(start, k)
        invariant targets == RemoveEach(start, k).targets
      {
        Visit(k);
        k := k + 1;
      }
    }

    /** One call of the `forEach` callback, at position `k`, if the array still reaches it. */
    method Visit(k: nat)
      modifies this
      ensures LiveNotDisposed() || !old(LiveNotDisposed())
      ensures Snapshot() == ForEachStep(old(Snapshot()), k)
      ensures old(disposed) <= disposed
      ensures k < old(|targets|) && old(targets[k]) in old(scene) ==> old(targets[k]) in disposed
    {
      if k < |targets| {
        RemoveTarget(targets[k]);
      }
    }
  }
}
