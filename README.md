# N-back game view model

A Dafny model of the game engine of an Android N-back training app: the view
model `GameVM` that holds the published game state, the score and the stored
best score. It chooses the game type, runs a game and ends it.

- `game_state.dfy` (module `GameStates`) holds the values: the `GameType` enum
  (Audio, Visual, AudioVisual) and the `GameState` record with its defaults.
  It also holds the pure steps the view model applies. `Visit` and `Publish`
  model the record copy made for each published event. `TicksFrom` and `Ticks`
  give the events one run of the visual loop publishes. `Ended` is the
  end-of-game copy. `RaisedBest` and `SaveRequest` give the best-score update
  and the save it asks for.
- `game_vm.dfy` (module `ViewModels`) holds the class `GameVM`. Its fields are
  `gameState`, `score`, `highscore`, `gameOn`, `matchChecked` and `events`,
  and its methods update them in place. Two ghost fields record what the view
  model sends outside: `shown` is every write of an event into the record by
  the visual loop, in order, and `saveRequests` is every value handed to the
  preferences store.

What the model shows about the code as written:

- No command sets `gameOn` to true. The constructor leaves it false and
  `GoToHomeScreen` sets it false. So a visual game publishes index 0 and then
  stops (`Ticks(events, false)` has length at most 1).
- The `events` array is created empty and never replaced, so a visual game
  started through `StartGame` publishes nothing. The contracts are still
  stated for any array contents, because `RunVisualGame` takes the array as a
  parameter.
- The score is never written, so it stays 0 (part of `Valid()`). A new best is
  saved only if the stored best is negative: `UpdateHighScore` and `StartGame`
  promise that a non-negative best and the save log stay as they were.
- `BestAfter`, `SavesAfter` and the lemmas about them allow a different score
  for every game. This is more general than the code, whose score never
  changes. `Repeated` is the series of the code, the view model's one score
  repeated. `StartGames` runs `StartGame` once per game. Its contract gives
  the whole state after the series. `AfterGames` and `ShownAfterGames` give
  the record and the published events. For the best and the save log it says
  that only the first game counts, and `FixedScoreSeries` proves that this is
  `BestAfter` and `SavesAfter` over `Repeated`.

## Model

| member | source | states |
|---|---|---|
| `ViewModels.GameVM.constructor` | app/src/main/java/mobappdev/example/nback_cimpl/ui/viewmodels/GameVM.kt:61-87 | a new view model has the default record (Visual, eventValue -1, eventNumber 0, not ended, no button error), score 0, the stored best, the game off, no match checked, an empty events array, N = 2 |
| `ViewModels.GameVM.SetGameType` | app/src/main/java/mobappdev/example/nback_cimpl/ui/viewmodels/GameVM.kt:120-123 | only `gameType` changes; every other record field, the score, the best and `gameOn` keep their values |
| `ViewModels.GameVM.StartGame` | app/src/main/java/mobappdev/example/nback_cimpl/ui/viewmodels/GameVM.kt:125-138 | afterwards the game is off and ended, with its type kept; a Visual game publishes exactly the events of one visual run, while Audio and AudioVisual games leave the event fields and the match flag alone; the best becomes the larger of old best and score, and a save is requested exactly when the score beats the old best; with the score fixed at 0, a non-negative best is neither raised nor saved |
| `ViewModels.GameVM.GoToHomeScreen` | app/src/main/java/mobappdev/example/nback_cimpl/ui/viewmodels/GameVM.kt:140-144 | the game is off and the record is the old one with only `gameEnded` set |
| `ViewModels.GameVM.CheckMatch` | app/src/main/java/mobappdev/example/nback_cimpl/ui/viewmodels/GameVM.kt:150-152 | the match button changes nothing |
| `ViewModels.GameVM.RunAudioGame` | app/src/main/java/mobappdev/example/nback_cimpl/ui/viewmodels/GameVM.kt:162-164 | the audio game changes nothing |
| `ViewModels.GameVM.RunVisualGame` | app/src/main/java/mobappdev/example/nback_cimpl/ui/viewmodels/GameVM.kt:166-174 | the events published are `Ticks(events, gameOn)`, in order; the record ends with the last published event on show and `gameEnded` set; the match flag is reset when at least one event was shown; the game is off |
| `ViewModels.GameVM.UpdateHighScore` | app/src/main/java/mobappdev/example/nback_cimpl/ui/viewmodels/GameVM.kt:176-184 | the best becomes the larger of old best and score; the score is unchanged; one save request carrying the new best is logged exactly when the score beats the old best; with the score fixed at 0, a non-negative best is never raised or saved |
| `ViewModels.GameVM.RunAudioVisualGame` | app/src/main/java/mobappdev/example/nback_cimpl/ui/viewmodels/GameVM.kt:186-188 | the audio-visual game changes nothing |
| `GameStates.TicksFrom` | app/src/main/java/mobappdev/example/nback_cimpl/ui/viewmodels/GameVM.kt:167-171 | the loop publishes indices in ascending order from its start with no skips, each with its own value; all remaining indices when the game is on, only the first when it is off, none for an exhausted array |
| `GameStates.PublishKeepsLast` | app/src/main/java/mobappdev/example/nback_cimpl/ui/viewmodels/GameVM.kt:167-169 | publishing events one after another leaves just the last on show and keeps the game type, end flag and button-error flag |
| `GameStates.AfterVisualWalk` | app/src/main/java/mobappdev/example/nback_cimpl/ui/viewmodels/GameVM.kt:166-172 | an empty array leaves the record unchanged; otherwise `eventNumber` lies in `[0, |events|)`, is the last index when the game is on and 0 when it is off, and `eventValue` is the event at that index |
| `GameStates.EndedIdempotent` | app/src/main/java/mobappdev/example/nback_cimpl/ui/viewmodels/GameVM.kt:140-144 | ending sets only `gameEnded`, and ending twice is the same as ending once |
| `GameStates.RaisedBest` | app/src/main/java/mobappdev/example/nback_cimpl/ui/viewmodels/GameVM.kt:176-178 | the new best is the maximum of old best and score: at least both, and equal to one of them |
| `GameStates.SaveRequest` | app/src/main/java/mobappdev/example/nback_cimpl/ui/viewmodels/GameVM.kt:177-182 | at most one save; a save exactly when the score beats the best; the saved value is the new best and lies above the old one |
| `GameStates.BestAfterBounds` | app/src/main/java/mobappdev/example/nback_cimpl/ui/viewmodels/GameVM.kt:176-178 | over any series of games the best never falls below the first best or any score of the series |
| `GameStates.SavesIncrease` | app/src/main/java/mobappdev/example/nback_cimpl/ui/viewmodels/GameVM.kt:176-184 | over any series of games the saved values strictly increase, all lie above the first best and at most the final best, and the last is the final best |
| `GameStates.FixedScoreSeries` | app/src/main/java/mobappdev/example/nback_cimpl/ui/viewmodels/GameVM.kt:176-184 | games that all score the same raise the best only at the first game, to the larger of best and score, and the store receives at most one value, from the first game |
| `GameStates.AfterGamesClosedForm` | app/src/main/java/mobappdev/example/nback_cimpl/ui/viewmodels/GameVM.kt:125-144 | games in a row keep the game type; after at least one game the record is that of a single game, ended, whose visual run finds the game on only if it was the only game; non-visual games leave the event fields as they were |
| `GameStates.ShownAfterGamesFacts` | app/src/main/java/mobappdev/example/nback_cimpl/ui/viewmodels/GameVM.kt:125-174 | games in a row publish nothing exactly when the type is not Visual, there are no games or no events; otherwise the first game publishes every event if the game was on and one otherwise, and every later game publishes one; each published event is a real index with its own value |
| `ViewModels.StartGames` | app/src/main/java/mobappdev/example/nback_cimpl/ui/screens/HomeScreen.kt:137-139 | pressing start for several games in a row leaves the score as it was; the record and the published events are those of `AfterGames` and `ShownAfterGames`; with no games nothing changes; otherwise the game is off, the match flag is reset when a visual game had events, the best is the larger of the old best and the score, and exactly one save was requested when the score beats the old best and none otherwise |

## Left out

- Sound playback: `SoundPool` setup, `playSound`, `playRandomSound` and `loadSounds`. These drive the audio device.
- Coroutines: `viewModelScope.launch`, the `job` and its cancellation, and `delay(eventInterval)`. The pause between events is treated as a step that changes nothing. `gameOn` is read as a field right after each published event, and no other command is interleaved with a running loop.
- `StateFlow` wrappers: each observable value is a plain field. A `StateFlow` skips a value equal to the current one and may drop intermediate values, so the screens can see fewer events than `shown` records.
- The preferences store: reading the stored best and saving it are I/O. The stored best is a constructor parameter, and every save is recorded in the ghost `saveRequests` log.
- `ViewModels.GameVM.constructor`: the source starts the best at 0 and overwrites it when the store emits. The model starts with the stored value.
- The debug log line written when a new best is set.
- `NBackHelper`, the generator of event sequences, is not part of this model. The view model constructs one but never asks it for a sequence.
- The `Factory` companion and `FakeVM`. These are dependency wiring and a test stub.
- The screens (`HomeScreen.kt`, `GameScreen.kt`, `MainActivity.kt`). They are presentation, including the 3×3 highlight of the event value.
- GameVM.kt has a stray closing brace after the first `init` block, so it does not compile as written. The model follows the evident structure, with all listed methods inside the class.
