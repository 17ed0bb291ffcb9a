/**
 * The game view model: the session state the screens observe and the
 * commands they issue (choose a game type, start a game, go back home).
 */
module ViewModels {
  import opened GameStates

  class GameVM {
    var gameState: GameState
    var score: int
    var highscore: int
    var gameOn: bool
    var matchChecked: bool   // reset for each new event
    var events: array<int>   // the events of the game, created empty and never replaced

    /** The N of the N-back task; fixed at 2. */
    const nBack: int := 2

    /** Every write of an event into the record by the visual loop, in order (the screens may see fewer). */
    ghost var shown: seq<Tick>
    /** Every value handed to the preferences store to be saved as the new best. */
    ghost var saveRequests: seq<int>

    /** The event on show has a real index, and no command ever changes the score. */
    ghost predicate Valid()
      reads this
    {
      0 <= gameState.eventNumber && score == 0
    }

    /** A new view model over the best score the preferences store holds. */
    constructor (storedHighscore: int)
      ensures Valid()
      ensures gameState.gameType == Visual && gameState.eventValue == -1 && gameState.eventNumber == 0
      ensures !gameState.gameEnded && !gameState.isMatchButtonError
      ensures score == 0 && highscore == storedHighscore && !gameOn && !matchChecked
      ensures nBack == 2 && fresh(events) && events.Length == 0
      ensures shown == [] && saveRequests == []
    {
      gameState := DefaultGameState();
      score := 0;
      highscore := storedHighscore;
      gameOn := false;
      matchChecked := false;
      events := new int[0];
      shown := [];
      saveRequests := [];
    }

    /** Chooses the game type; every other field keeps its value. */
    method SetGameType(gameType: GameType)
      requires Valid()
      modifies this`gameState
      ensures Valid()
      ensures gameState == old(gameState).(gameType := gameType)
    {
      gameState := gameState.(gameType := gameType);
    }

    /** Runs the game of the chosen type, then records the best score and ends the game. */
    method StartGame()
      requires Valid()
      modifies this`gameState, this`matchChecked, this`gameOn, this`highscore
      modifies this`shown, this`saveRequests
      ensures Valid()
      ensures !gameOn && gameState.gameEnded && gameState.gameType == old(gameState.gameType)
      ensures events[..] == old(events[..])
      ensures gameState == GameStep(old(gameState), events[..], old(gameOn))
      ensures shown == old(shown) + GameShown(old(gameState.gameType), events[..], old(gameOn))
      ensures matchChecked ==
                if old(gameState.gameType) == Visual && events.Length > 0 then false else old(matchChecked)
      ensures highscore == RaisedBest(old(highscore), score)
      ensures saveRequests == old(saveRequests) + SaveRequest(old(highscore), score)
      ensures old(highscore) >= 0 ==> highscore == old(highscore) && saveRequests == old(saveRequests)
    {
      match gameState.gameType {
        case Audio => RunAudioGame();
        case AudioVisual => RunAudioVisualGame();
        case Visual => RunVisualGame(events);
      }
      UpdateHighScore();
      GoToHomeScreen();
    }

    /** Leaves the game: the game is off and marked as ended; nothing else changes. */
    method GoToHomeScreen()
      requires Valid()
      modifies this`gameOn, this`gameState
      ensures Valid()
      ensures !gameOn && gameState == Ended(old(gameState))
    {
      gameOn := false;
      gameState := Ended(gameState);
    }

    /** The match button: it has no effect. */
    method CheckMatch()
      ensures unchanged(this)
    {
    }

    /** The audio game: it has no effect. */
    method RunAudioGame()
      ensures unchanged(this)
    {
    }

    /**
     * The visual game: publishes the events in ascending order from index 0,
     * each with a fresh match flag, stops after the first one published while
     * the game is off, and then ends the game.
     */
    method RunVisualGame(events: array<int>)
      requires Valid()
      modifies this`gameState, this`matchChecked, this`gameOn, this`shown
      ensures Valid()
      ensures shown == old(shown) + Ticks(events[..], old(gameOn))
      ensures gameState == Ended(AfterVisualWalk(old(gameState), events[..], old(gameOn)))
      ensures matchChecked == (if events.Length == 0 then old(matchChecked) else false)
      ensures !gameOn
    {
      ghost var ticks := Ticks(events[..], gameOn);
      ghost var state0, shown0 := gameState, shown;
      ghost var done: seq<Tick> := [];
      var i := 0;
      while i < events.Length
        invariant 0 <= i <= events.Length && i <= |ticks|
        invariant !old(gameOn) ==> i == 0
        invariant gameOn == old(gameOn) && score == old(score)
        invariant done == ticks[..i]
        invariant shown == shown0 + done
        invariant gameState == Publish(state0, done)
        invariant 0 <= gameState.eventNumber
        invariant matchChecked == (if i == 0 then old(matchChecked) else false)
      {
        var tick := Tick(i, events[i]);
        matchChecked := false;
        gameState := Visit(gameState, tick);
        shown := shown + [tick];
        PublishOneMore(state0, done, tick);
        assert ticks[..i + 1] == ticks[..i] + [tick];
        done := done + [tick];
        // the pause between events does not change the state
        i := i + 1;
        if !gameOn {
          break;
        }
      }
      assert done == ticks;
      GoToHomeScreen();
    }

    /** Raises the stored best to the score when the score beats it, and asks the store to save it. */
    method UpdateHighScore()
      requires Valid()
      modifies this`highscore, this`saveRequests
      ensures Valid()
      ensures highscore == RaisedBest(old(highscore), score)
      ensures saveRequests == old(saveRequests) + SaveRequest(old(highscore), score)
      ensures old(highscore) >= 0 ==> highscore == old(highscore) && saveRequests == old(saveRequests)
    {
      if score > highscore {
        highscore := score;
        saveRequests := saveRequests + [highscore];
      }
    }

    /** The audio-visual game: it has no effect. */
    method RunAudioVisualGame()
      ensures unchanged(this)
    {
    }
  }

  /**
   * The start button pressed `rounds` times, one game after another. Each game
   * runs, updates the best and ends as `StartGame` does; only the first can
   * find the game on. Since the score never changes, only the first game can
   * raise the best or ask for a save (`FixedScoreSeries` shows this is the
   * series `BestAfter`/`SavesAfter` over `Repeated`).
   */
  method StartGames(vm: GameVM, rounds: nat)
    requires vm.Valid()
    modifies vm`gameState, vm`matchChecked, vm`gameOn, vm`highscore, vm`shown, vm`saveRequests
    ensures vm.Valid() && vm.score == old(vm.score)
    ensures vm.gameState == AfterGames(old(vm.gameState), vm.events[..], old(vm.gameOn), rounds)
    ensures vm.gameOn == (rounds == 0 && old(vm.gameOn))
    ensures vm.matchChecked ==
              if rounds > 0 && old(vm.gameState.gameType) == Visual && vm.events.Length > 0 then false
              else old(vm.matchChecked)
    ensures vm.shown ==
              old(vm.shown) + ShownAfterGames(old(vm.gameState.gameType), vm.events[..], old(vm.gameOn), rounds)
    ensures vm.highscore == if rounds == 0 then old(vm.highscore) else RaisedBest(old(vm.highscore), old(vm.score))
    ensures vm.saveRequests ==
              old(vm.saveRequests) + if rounds == 0 then [] else SaveRequest(old(vm.highscore), old(vm.score))
    decreases rounds
  {
    if rounds > 0 {
      StartGames(vm, rounds - 1);
      ghost var state, on, events := vm.gameState, vm.gameOn, vm.events[..];
      AfterGamesClosedForm(old(vm.gameState), events, old(vm.gameOn), rounds - 1);
      ShownOneMore(old(vm.shown), old(vm.gameState.gameType), events, old(vm.gameOn), rounds - 1);
      AfterGamesOneMore(old(vm.gameState), events, old(vm.gameOn), rounds - 1);
      RaisedBestAgain(old(vm.highscore), old(vm.score));
      vm.StartGame();
      assert vm.gameState == GameStep(state, events, on);
    }
  }
}
