# Target practice: a Dafny model

Two versions of a browser target-practice game are modelled here: `game2.js` and `game/game.js`. In both, a player has 20 seconds to click spheres that appear one at a time at random places in a room. Each hit is worth more the smaller the sphere is. When the time is up the session ends. `game2.js` then tears down its targets. `game/game.js` instead adds the player's result to a top-ten ranking kept in browser storage.

Each version is modelled in three layers:

- **Targets.** `Game2Targets` (game2_targets.dfy) and `GameTargets` (game_targets.dfy) hold sizes, positions, colours and scores. They are pure functions over supplied random draws.
- **Session.** `Game2Session` (game2_session.dfy) and `GameSession` (game_session.dfy) hold the session state machine. It is written as pure transitions over a snapshot of the game object: the `gameState` record, the current `target`, the `targets` array used for ray queries, and the target meshes in the scene. These modules also hold the lemmas about whole runs of events: frames, clicks and restarts. `Game2Cleanup` (game2_cleanup.dfy) works out what `cleanup`'s `forEach` does to an array it splices while iterating.
- **Class.** `Game2` (game2.dfy) and `Game` (game.dfy) contain a `TargetPracticeGame` class whose methods update those fields in place, as the source does. Each method is proved to perform the matching transition on `Snapshot()`. In game2.dfy a ghost set tracks which meshes have had their geometry and material disposed.

Shared modules:

- `Ranking` (ranking.dfy): the ranking update of `endGame` in game/game.js, with a stable sort. Section 23.1.3.30 of ECMA-262 (ES2023) requires `Array.prototype.sort` to be stable.
- `Clock`: the 20-second countdown.
- `Seqs`: `indexOf`, splice-removal, the scene swap both `spawnTarget`s perform, ray filtering over sequences, and the entries at odd and at even positions.
- `Space`: points, boxes and draws.
- `RealFacts`: a few facts about real division.
- `Versions`: compares the two scoring formulas.
- `Wrappers`: an `Option` type.

The environment enters as parameters:

- `Math.random()`: each value is a supplied real in [0, 1). A `Draws` value carries the four values a new target consumes (size, x, y, z), and game2.js takes one more for the colour.
- `Date.now()`: an integer `now`, in milliseconds.
- The ray query: a set `struck` of the meshes the ray meets. The live array is searched in its own order.
- `localStorage`: an `Option<seq<Entry>>` passed in, with the stored list returned.

Some behaviour of the code that a reader might not expect, and that the model keeps:

- The score is `Math.floor`, not rounded, and it is only non-increasing in the size. Radii 0.79 and 0.791 score the same (`Game2Targets.ScoreNotStrictlyDecreasing`).
- `!startTime` in game2.js treats a start time of 0 as "not started" (`Game2Session.StartAtEpochNeverEnds`).
- game/game.js does no cleanup when a session ends. The last target stays in the scene (`GameSession.Ended`).
- `JSON.parse(...) || []` reads a missing key and any falsy stored JSON value (`null`, `false`, `0`, `""`) as the empty list; `stored == None` stands for all of these. Unparsable text is not read as empty: `JSON.parse` throws. A stored value that parses but is not an array (`{}`, `5`, `"x"`) is not read as empty either: `ranking.push` throws on it.

## Model

| member | source | states |
|---|---|---|
| Clock.Remaining | game2.js:334-338 | The remaining time is never negative and is 0 exactly from 20 000 ms after the start. Until then it plus the elapsed time is 20 s, and it is at most 20 s once the clock has reached the start. |
| Clock.RemainingNonIncreasing | game/game.js:118-121 | A later clock reading never leaves more time. |
| Clock.Ceil | game2.js:347-349 | `Math.ceil`: the least integer not below its argument. |
| Seqs.IndexOf | game2.js:226 | `indexOf` returns -1 exactly when the element is absent; otherwise it returns the position of its first occurrence. |
| Seqs.Swapped | game2.js:197-209 | The scene after `spawnTarget`: `next` is shown last, and without a previous target, or with one not in the scene, the rest of the scene is unchanged. (That the previous target loses one occurrence is `Seqs.SwappedCounts`.) |
| Seqs.SwappedCounts | game/game.js:78-94 | As multisets, a swap takes one occurrence of the previous target out of the scene and adds one of the new target. |
| Seqs.RemoveFirst | game2.js:226-229 | After `indexOf`/`splice(i, 1)`, one occurrence of the element is gone and nothing else has changed (multiset). An absent element leaves the array unchanged. |
| Seqs.KeepIn | game2.js:311 | The ray query's result holds only members of the array that the ray meets, and every such member. |
| Game2Targets.RandomTargetSize | game2.js:148-150 | A unit draw gives a radius in [0.2, 0.8). |
| Game2Targets.RandomPosition | game2.js:152-159 | Three unit draws give a point inside `targetBounds` on every axis. |
| Game2Targets.ColorIndex | game2.js:173-174 | A unit draw picks a valid palette slot. |
| Game2Targets.CalculateScore | game2.js:161-164 | Every radius the generator draws scores between 62 and 250. |
| Game2Targets.ScoreNonIncreasing | game2.js:161-164 | A larger target never scores more. |
| Game2Targets.ScoreNotStrictlyDecreasing | game2.js:161-164 | Two different radii (0.79 and 0.791) score the same 63, so the score is not strictly decreasing. |
| Game2Targets.ScoreMultiplier | game2.js:324-332 | The multiplier lies between 1 and 2. |
| Game2Targets.MultiplierNonIncreasing | game2.js:324-332 | The multiplier never grows with the size. |
| Game2Targets.CreateTarget | game2.js:166-195 | A new mesh built from the draws (`BuiltFrom`): the drawn radius, position and palette colour, and the score of that radius. It satisfies `WellFormed`. |
| Game2Session.Spawned | game2.js:197-209 | `spawnTarget` leaves the record alone and makes the new target the one live and listed target. The previous target leaves the scene (the scene is `Seqs.Swapped`, shared by both versions), and consistency is preserved. |
| Game2Session.Removed | game2.js:211-234 | `removeTarget` clears the current target exactly when it is the argument, or when there was none. The record is unchanged. |
| Game2Session.RemovedDropsOne | game2.js:211-234 | The scene and the array each lose exactly one occurrence of the argument, and neither changes where it is absent. |
| Game2Session.RemovedKeepsConsistent | game2.js:211-234 | Removing the live target empties the scene; removing anything else changes nothing. |
| Game2Session.Hit | game2.js:236-250 | `handleTargetHit` does nothing while inactive or for a null target. Otherwise it credits exactly the base score and one hit and leaves exactly one live target, the new one. |
| Game2Session.Click | game2.js:274-283 | On a consistent session, a click hits the live target exactly when the session is active and the ray meets that target. Otherwise nothing changes. |
| Game2Session.Tick | game2.js:334-345 | No-op while inactive or without a truthy start time. Otherwise the remaining time is `max(0, 20 - elapsed)`, the session stays active exactly while less than 20 s has passed, the counters and the start time are unchanged, target, array and scene stay as they were while the session continues, and consistency is preserved. |
| Game2Session.RemoveEach | game2.js:446 | The `forEach` pass over the spliced array leaves the record alone. |
| Game2Cleanup.VisitNext | game2.js:446 | While the array holds the odd-position targets before the untouched rest, the next visit meets the next even-position target and removes it from the array and the scene. |
| Game2Cleanup.RemoveEachHalfClears | game2.js:446 | While the array still reaches the visited position, after `k` visits over distinct targets the ones that started at positions 0, 2, …, 2k−2 are gone from the scene. The array then holds those at 1, 3, …, 2k−1, followed by the untouched rest. |
| Game2Cleanup.RemoveEachStaysCleared | game2.js:446 | Past the middle, the remaining visits fall beyond the shortened array and change nothing. |
| Game2Cleanup.RemoveEachRemovesEvens | game2.js:444-447 | Over distinct targets, the whole `forEach` pass removes exactly the targets at even starting positions, from the array and the scene. The array keeps exactly the odd-position ones, in order. |
| Game2Session.Cleaned | game2.js:444-453 | `cleanup` leaves no current target and an empty array. |
| Game2Session.Ended | game2.js:370-378 | `endGame` deactivates and leaves no target, listed or current. |
| Game2Session.CleanupEmptiesScene | game2.js:444-453 | On a consistent session `cleanup` also empties the scene and stays consistent. |
| Game2Session.EndedEmptiesScene | game2.js:370-378 | After `endGame` on a consistent session no target is in the scene. |
| Game2Session.Started | game2.js:351-368 | `startGame` sets active, score 0, hits 0, 20 s left and the start time, and leaves exactly one live target. The result is a reachable session. |
| Game2Session.FormatTime | game2.js:347-349 | The shown seconds lie in 0..20, and they are 0 exactly when no time is left. |
| Game2Session.Constructed | game2.js:4-22 | The constructor followed by `startGame` gives a reachable session. |
| Game2Session.CreditKeepsBounds | game2.js:240-242 | Each hit adds between 62 and 250 points, keeping `62·hits ≤ score ≤ 250·hits`. |
| Game2Session.StepKeepsGood | game2.js:236-250 | Frames, clicks and restarts keep a session reachable: consistent, with a bounded score and non-negative time. |
| Game2Session.RunKeepsGood | game2.js:334-383 | Any sequence of events keeps a session reachable. |
| Game2Session.StepCountersGrow | game2.js:241-242 | A frame or a click never decreases the score or the hit counter. |
| Game2Session.RunCountersGrow | game2.js:241-242 | Without a restart, the score and the hit counter only grow. |
| Game2Session.EndedIsFinal | game2.js:335 | Once inactive, no frame or click changes anything. |
| Game2Session.EndedIdempotent | game2.js:370-378 | A second `endGame` changes nothing. |
| Game2Session.DeadlineEndsSession | game2.js:337-342 | The first frame at or after 20 s ends the session with 0 s left and no target in the scene. |
| Game2Session.CleanupSkipsSecondTarget | game2.js:446 | With two listed targets, the splicing `forEach` skips the second, which stays in the scene. |
| Game2Session.StartAtEpochNeverEnds | game2.js:335 | A session started at clock reading 0 is never timed out, whatever the clock says. |
| Game2Session.BeforeDeadlineContinues | game2.js:337-342 | Before 20 s a frame keeps the session active with time left. |
| Game2.TargetPracticeGame.constructor | game2.js:4-58 | Builds the initial record, then `startGame` leaves the object in the `Constructed` state with a first target built from the draws. |
| Game2.TargetPracticeGame.SpawnTarget | game2.js:197-209 | Performs `Spawned` in place. The new target is fresh, well formed and built from the draws (`BuiltFrom`: their radius, position and palette colour, and the score of that radius). The previous target is disposed. |
| Game2.TargetPracticeGame.RemoveTarget | game2.js:211-234 | Performs `Removed` in place. Exactly the argument is disposed, and only if it was in the scene. |
| Game2.TargetPracticeGame.HandleTargetHit | game2.js:236-250 | Performs `Hit` in place and keeps the object valid. The target that was on show is disposed, nothing disposed is ever revived (the disposed set only grows), and after a credited hit the new target is built from the draws. |
| Game2.TargetPracticeGame.HandleClick | game2.js:274-283 | Performs `Click` in place through `performRaycast` (lines 306-317). After a hit the struck target is disposed and the new target is built from the draws. Without a hit nothing changes, disposal included. The disposed set only grows. |
| Game2.TargetPracticeGame.UpdateTimer | game2.js:334-345 | Performs `Tick` in place and keeps the object valid. When the frame ends the game (`endGame`, lines 370-378), the target that was on show is disposed; otherwise nothing is disposed. The disposed set only grows. |
| Game2.TargetPracticeGame.StartGame | game2.js:351-368 | Performs `Started` in place with a target built from the draws. Exactly the previous target, if there was one, is disposed, as `spawnTarget` does (lines 197-201). |
| Game2.TargetPracticeGame.RestartGame | game2.js:380-383 | Performs `Started` in place with a target built from the draws. Exactly the previous target, if there was one, is disposed. |
| Game2.TargetPracticeGame.EndGame | game2.js:370-378 | Performs `Ended` in place. The target that was on show is disposed, and the disposed set only grows. |
| Game2.TargetPracticeGame.Cleanup | game2.js:444-453 | Performs `Cleaned` in place. On a consistent object the live target ends up disposed. |
| Game2.TargetPracticeGame.RemoveListed | game2.js:446 | The loop performs the `forEach` pass (`RemoveEach`). Disposals only accumulate, and the first listed target, if in the scene, is disposed. |
| GameTargets.RandomSize | game/game.js:81 | A unit draw gives a radius in [0.2, 0.8). |
| GameTargets.RandomPosition | game/game.js:85-89 | Three unit draws give a point in [-14,14) × [-10,10) × [-14,14). |
| GameTargets.TargetScore | game/game.js:90 | Every radius drawn scores between 125 and 500. |
| GameTargets.ScoreNonIncreasing | game/game.js:90 | A larger target never scores more. |
| Versions.ScoreTwiceGame2 | game/game.js:90 | The same radius scores `2·s` or `2·s + 1` here, where `s` is its score in game2.js (lines 161-164). |
| GameSession.Spawned | game/game.js:78-94 | `spawnTarget` leaves the record alone and makes the new target the one live and listed target. The previous target leaves the scene (the scene is `Seqs.Swapped`, shared by both versions), and consistency is preserved. |
| GameSession.Hit | game/game.js:108-116 | `hitTarget` adds exactly the target's score and one hit, whether or not the session is active, and respawns one target. |
| GameSession.Click | game/game.js:96-106 | `onClick` does nothing while inactive. On a consistent session it hits the live target exactly when the ray meets it. |
| GameSession.Ended | game/game.js:126-127 | `endGame` only deactivates: the new record is the old one with `isActive` false, and the target, array and scene stay. |
| GameSession.Tick | game/game.js:118-124 | No-op while inactive. Otherwise the remaining time is `max(0, 20 - elapsed)`, with a null start time read as 0. The session stays active exactly while less than 20 s has passed, and nothing else changes. |
| GameSession.Started | game/game.js:62-76 | `startGame` sets active, score 0, hits 0, 20 s left and the start time, and leaves exactly one live target. The result is a reachable session. |
| GameSession.UnstartedIsGood | game/game.js:2-22 | The constructor's object is reachable and inactive. |
| GameSession.TickEndsExactly | game/game.js:121-123 | `endGame` (and so the ranking write) runs exactly when an active session's frame comes at or after 20 s. |
| GameSession.CreditKeepsBounds | game/game.js:109-110 | Each hit adds between 125 and 500 points, keeping `125·hits ≤ score ≤ 500·hits`. |
| GameSession.StepKeepsGood | game/game.js:96-124 | Frames, clicks and starts keep a session reachable. An active session always has a start time. |
| GameSession.RunKeepsGood | game/game.js:62-124 | Any sequence of events keeps a session reachable. |
| GameSession.StepCountersGrow | game/game.js:109-110 | A frame or a click never decreases the score or the hit counter. |
| GameSession.RunCountersGrow | game/game.js:109-110 | Without a new start, the score and the hit counter only grow. |
| GameSession.EndedIsFinal | game/game.js:97 | Once inactive, no frame or click changes anything, and nothing more is written to the ranking. |
| GameSession.OneSavePerSession | game/game.js:118-127 | Between two starts at most one ranking entry is written, and none after the session is over. |
| GameSession.DeadlineSavesOnce | game/game.js:118-127 | An active session that sees a frame at or after 20 s writes exactly one ranking entry. |
| Game.TargetPracticeGame.constructor | game/game.js:2-22 | Builds the initial record with no target: the `Unstarted` session, which is reachable. |
| Game.TargetPracticeGame.StartGame | game/game.js:62-76 | Performs `Started` in place with a target built from the draws. |
| Game.TargetPracticeGame.SpawnTarget | game/game.js:78-94 | Performs `Spawned` in place with a fresh, well-formed target built from the draws (`BuiltFrom`): their radius and position, colour `0xff5555` and score `floor(100/size)`. |
| Game.TargetPracticeGame.OnClick | game/game.js:96-106 | Performs `Click` in place and keeps the object valid. After a hit the new target is built from the draws. |
| Game.TargetPracticeGame.HitTarget | game/game.js:108-116 | Performs `Hit` in place and keeps the object valid. The new target is built from the draws. |
| Game.TargetPracticeGame.UpdateTimer | game/game.js:118-124 | Performs `Tick` in place. It returns a ranking exactly when `endGame` ran, and that ranking is the one `Ranked` describes. |
| Game.TargetPracticeGame.EndGame | game/game.js:126-141 | Performs `Ended` in place and returns the stored ranking with the session's entry added, as `Ranked` describes. |
| Ranking.InsertByScore | game/game.js:138 | Inserting an entry adds exactly that entry (multiset) and grows the list by one. |
| Ranking.SortByScore | game/game.js:138 | `sort((a,b)=>b.score-a.score)` gives a permutation ordered by non-increasing score. |
| Ranking.InsertSorted | game/game.js:138 | Inserting into a sorted list keeps it sorted. |
| Ranking.SortKeepsTies | game/game.js:138 | Stability: the entries with each score keep their input order. |
| Ranking.StableSortIsUnique | game/game.js:138 | Every sorted, tie-order-preserving arrangement is the one `SortByScore` gives, so the result does not depend on the engine's algorithm. |
| Ranking.SortedTiesDetermine | game/game.js:138 | Two sorted lists with the same entries per score are equal. |
| Ranking.Ranked | game/game.js:133-140 | The stored list has at most 10 entries, or fewer when fewer existed, and is sorted by non-increasing score. It is a sub-multiset of the old list plus the new entry, a missing key or falsy stored value (`None`) counts as empty, and with fewer than 10 old entries the new one is kept. |
| Ranking.RankedKeepsTieOrder | game/game.js:133-140 | Equal scores keep insertion order: each score's stored entries are a prefix of that score's entries in the old list plus the new one. |
| Ranking.RankedKeepsBest | game/game.js:139-140 | Only the lowest scores are cut: every kept entry scores at least as much as every dropped one. |

## Left out

- Three.js and the DOM are not modelled: scene, camera, renderer, lights, room, floor, orbit controls, resize handling, and the text written to page elements (`updateUI`, `showGameOver`, and the score and timer writes in game/game.js). Their only effect is on display.
- Ray geometry is not modelled: the mapping to device coordinates, `setFromCamera`, and sphere intersection. A click is reduced to the set of meshes the ray meets. `intersectObjects` sorts its hits by distance, but with at most one live target that order never matters, so the model takes the first listed target instead.
- The `requestAnimationFrame` loop in `animate` and `monitorPerformance` are not modelled. Each frame is an event carrying the clock reading.
- Game2.TargetPracticeGame.constructor: the frame that `this.animate()` runs before game2.js's constructor returns (its `updateTimer` at game2.js:420) is not part of the constructor. It is the first `Frame` event, so right after construction the model shows the full 20 s rather than `20 - elapsed`.
- `showGameOver`'s accuracy figure is not modelled: it is computed and never used.
- `updateScore` in game2.js is not modelled: nothing calls it.
- `userData.id` in game2.js (`Date.now() + Math.random()`) is not modelled: nothing reads it.
- Floating point is not modelled. Sizes, positions and times are exact reals, and clock readings are integer milliseconds.
- JSON serialisation and the failure paths of reading the stored ranking are not modelled: the stored list is passed in already parsed, as an array of entries or `None`. The code has no recovery for either failure. Unparsable text makes `JSON.parse` throw (game/game.js:133). A stored JSON value that is truthy but not an array (`{}`, `5`, `"x"`) parses, and then `ranking.push` throws (game/game.js:134). In both cases `endGame` stops before writing, with `isActive` already false.
- The scene is modelled only as its target meshes. Lights, floor and room are never removed, so they do not affect what is proved. Re-parenting by `scene.add` cannot arise, because every added target is fresh.
- Three.js resource disposal is modelled only as a ghost set of disposed meshes (game2.js). game/game.js disposes of nothing.
- game/game.js never calls `startGame` itself; the page is expected to. The model treats such a call as an event.
- `playerName` in game/game.js is a global the file does not define. It is a parameter here.
- Game2.TargetPracticeGame.HandleTargetHit: requires that a non-null argument is well formed. The method is only reached through the ray query over the live array, whose only member is the well-formed current target.
- Game.TargetPracticeGame.HitTarget: requires a valid object and a well-formed target for the same reason. `onClick` only passes the live target.
- Game.TargetPracticeGame.StartGame: requires a consistent object. Every object the constructor and the other methods produce is one.
- Game2.TargetPracticeGame.RemoveListed: states disposal only for the first listed target. That is the only one a consistent object ever lists.
