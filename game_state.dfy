/**
 * The values of an N-back game session: the game type, the state record the
 * view model publishes to the screens, and the pure steps the view model
 * applies to that record and to the stored best score.
 */
module GameStates {

  /** The stimulus channels a game can use. */
  datatype GameType = Audio | Visual | AudioVisual

  /** The record published to the screens after every change. */
  datatype GameState = GameState(
    gameType: GameType,
    eventValue: int,        // value of the event on show, -1 before the first one
    eventNumber: int,       // index of the event on show
    gameEnded: bool,
    isMatchButtonError: bool)

  /** The record a new view model starts from: every field at its default. */
  function DefaultGameState(): GameState
  {
    GameState(Visual, -1, 0, false, false)
  }

  /** One publication of the visual loop: an event's index in the array and its value. */
  datatype Tick = Tick(index: nat, value: int)

  /** The record after one event is published: the event fields take the event's index and value. */
  function Visit(s: GameState, t: Tick): GameState
  {
    s.(eventValue := t.value, eventNumber := t.index)
  }

  /** The record after the events of `ticks` are published one after the other. */
  function Publish(s: GameState, ticks: seq<Tick>): GameState
    decreases |ticks|
  {
    if ticks == [] then s else Visit(Publish(s, ticks[..|ticks| - 1]), ticks[|ticks| - 1])
  }

  /** Publishing one more event is one more visit. */
  lemma PublishOneMore(s: GameState, ticks: seq<Tick>, t: Tick)
    ensures Publish(s, ticks + [t]) == Visit(Publish(s, ticks), t)
  {
    assert (ticks + [t])[..|ticks|] == ticks;
  }

  /** Publishing a run of events leaves only the last one on show and touches no other field. */
  lemma {:induction false} PublishKeepsLast(s: GameState, ticks: seq<Tick>)
    ensures Publish(s, ticks).gameType == s.gameType
    ensures Publish(s, ticks).gameEnded == s.gameEnded
    ensures Publish(s, ticks).isMatchButtonError == s.isMatchButtonError
    ensures ticks == [] ==> Publish(s, ticks) == s
    ensures ticks != [] ==> Publish(s, ticks) == Visit(s, ticks[|ticks| - 1])
  {
    if ticks != [] {
      PublishKeepsLast(s, ticks[..|ticks| - 1]);
    }
  }

  /**
   * The events the visual loop publishes when it starts at index `i`: each
   * index in ascending order with its value, stopping after the first one
   * when `gameOn` is false at the check that follows it.
   */
  function TicksFrom(events: seq<int>, i: nat, gameOn: bool): (r: seq<Tick>)
    requires i <= |events|
    ensures |r| == if i == |events| then 0 else if gameOn then |events| - i else 1
    ensures forall k :: 0 <= k < |r| ==> r[k] == Tick(i + k, events[i + k])
    decreases |events| - i
  {
    if i == |events| then []
    else [Tick(i, events[i])] + (if gameOn then TicksFrom(events, i + 1, gameOn) else [])
  }

  /** The events one run of the visual loop publishes over the whole array. */
  function Ticks(events: seq<int>, gameOn: bool): seq<Tick>
  {
    TicksFrom(events, 0, gameOn)
  }

  /**
   * The record the visual loop leaves behind: an empty array changes nothing;
   * otherwise the last published event, which is the last index when the
   * game is on and index 0 when it is not, is on show.
   */
  function AfterVisualWalk(s: GameState, events: seq<int>, gameOn: bool): (r: GameState)
    ensures r.gameType == s.gameType && r.gameEnded == s.gameEnded
    ensures r.isMatchButtonError == s.isMatchButtonError
    ensures events == [] ==> r == s
    ensures events != [] ==> 0 <= r.eventNumber < |events| && r.eventValue == events[r.eventNumber]
    ensures events != [] ==> r.eventNumber == if gameOn then |events| - 1 else 0
  {
    PublishKeepsLast(s, Ticks(events, gameOn));
    Publish(s, Ticks(events, gameOn))
  }

  /** The record once the game has ended. */
  function Ended(s: GameState): GameState
  {
    s.(gameEnded := true)
  }

  /** Ending the game sets the end flag only, and ending it twice is ending it once. */
  lemma EndedIdempotent(s: GameState)
    ensures Ended(s).gameEnded
    ensures Ended(s).gameType == s.gameType && Ended(s).eventValue == s.eventValue
    ensures Ended(s).eventNumber == s.eventNumber && Ended(s).isMatchButtonError == s.isMatchButtonError
    ensures Ended(Ended(s)) == Ended(s)
  {
  }

  /** The record after one game: the run of its type, then the end. */
  function GameStep(s: GameState, events: seq<int>, gameOn: bool): GameState
  {
    if s.gameType == Visual then Ended(AfterVisualWalk(s, events, gameOn)) else Ended(s)
  }

  /** The events one game of type `gameType` publishes: a visual run, or none for the other types. */
  function GameShown(gameType: GameType, events: seq<int>, gameOn: bool): seq<Tick>
  {
    if gameType == Visual then Ticks(events, gameOn) else []
  }

  /** A second game with the game off shows index 0 again, whatever the first game showed. */
  lemma GameStepAgain(s: GameState, events: seq<int>, gameOn: bool)
    ensures GameStep(GameStep(s, events, gameOn), events, false) == GameStep(s, events, false)
  {
  }

  /**
   * The record after `games` games in a row. Only the first game can start
   * with the game on: every game ends with it off.
   */
  function AfterGames(s: GameState, events: seq<int>, gameOn: bool, games: nat): GameState
  {
    if games == 0 then s else GameStep(AfterGames(s, events, gameOn, games - 1), events, games == 1 && gameOn)
  }

  /** One more game in a row is one more game step, run with the game on only if it is the first. */
  lemma AfterGamesOneMore(s: GameState, events: seq<int>, gameOn: bool, games: nat)
    ensures AfterGames(s, events, gameOn, games + 1) ==
              GameStep(AfterGames(s, events, gameOn, games), events, games == 0 && gameOn)
  {
  }

  /**
   * A series of games keeps the game type; after at least one game the record
   * is that of a single game, run with the game on only if there was one game.
   */
  lemma {:induction false} AfterGamesClosedForm(s: GameState, events: seq<int>, gameOn: bool, games: nat)
    ensures AfterGames(s, events, gameOn, games).gameType == s.gameType
    ensures games == 0 ==> AfterGames(s, events, gameOn, games) == s
    ensures games > 0 && s.gameType == Visual ==>
              AfterGames(s, events, gameOn, games) == Ended(AfterVisualWalk(s, events, games == 1 && gameOn))
    ensures games > 0 && s.gameType != Visual ==> AfterGames(s, events, gameOn, games) == Ended(s)
  {
    if games > 0 {
      AfterGamesClosedForm(s, events, gameOn, games - 1);
      if games > 1 {
        GameStepAgain(s, events, games == 2 && gameOn);
      }
    }
  }

  /** The events published over `games` games in a row of type `gameType`, in order. */
  function ShownAfterGames(gameType: GameType, events: seq<int>, gameOn: bool, games: nat): seq<Tick>
  {
    if games == 0 then []
    else ShownAfterGames(gameType, events, gameOn, games - 1) + GameShown(gameType, events, games == 1 && gameOn)
  }

  /** One more game in a row appends the events that game publishes, after whatever came before. */
  lemma ShownOneMore(before: seq<Tick>, gameType: GameType, events: seq<int>, gameOn: bool, games: nat)
    ensures before + ShownAfterGames(gameType, events, gameOn, games + 1) ==
              before + ShownAfterGames(gameType, events, gameOn, games) + GameShown(gameType, events, games == 0 && gameOn)
  {
    var last := GameShown(gameType, events, games == 0 && gameOn);
    assert ShownAfterGames(gameType, events, gameOn, games + 1) == ShownAfterGames(gameType, events, gameOn, games) + last;
  }

  /** Every tick of `ticks` is a real event of `events`, carrying that event's value. */
  ghost predicate RealEvents(ticks: seq<Tick>, events: seq<int>)
  {
    forall k :: 0 <= k < |ticks| ==> ticks[k].index < |events| && ticks[k].value == events[ticks[k].index]
  }

  /**
   * A series publishes nothing exactly when it is not visual, empty or over no
   * events; otherwise all events in the first game when it starts on, and one
   * in every other game; each published event is a real one with its value.
   */
  lemma {:induction false} ShownAfterGamesFacts(gameType: GameType, events: seq<int>, gameOn: bool, games: nat)
    ensures ShownAfterGames(gameType, events, gameOn, games) == [] <==>
              gameType != Visual || games == 0 || events == []
    ensures gameType == Visual && games > 0 && events != [] ==>
              |ShownAfterGames(gameType, events, gameOn, games)| == (if gameOn then |events| else 1) + games - 1
    ensures RealEvents(ShownAfterGames(gameType, events, gameOn, games), events)
  {
    if games > 0 {
      ShownAfterGamesFacts(gameType, events, gameOn, games - 1);
      var before := ShownAfterGames(gameType, events, gameOn, games - 1);
      var last := GameShown(gameType, events, games == 1 && gameOn);
      assert ShownAfterGames(gameType, events, gameOn, games) == before + last;
      assert RealEvents(last, events);
      assert |before + last| == |before| + |last|;
      forall k | 0 <= k < |before + last|
        ensures (before + last)[k].index < |events| && (before + last)[k].value == events[(before + last)[k].index]
      {
        if k < |before| {
          assert (before + last)[k] == before[k];
        } else {
          assert (before + last)[k] == last[k - |before|];
        }
      }
    }
  }

  /** The stored best after a game that scored `score`: the larger of the two. */
  function RaisedBest(best: int, score: int): (r: int)
    ensures r >= best && r >= score
    ensures r == best || r == score
  {
    if score > best then score else best
  }

  /**
   * The values handed to the preferences store after a game that scored
   * `score`: one request, carrying the new best, exactly when the score beats
   * the stored best.
   */
  function SaveRequest(best: int, score: int): (r: seq<int>)
    ensures |r| <= 1
    ensures r != [] <==> score > best
    ensures forall x :: x in r ==> x == RaisedBest(best, score) && x > best
  {
    if score > best then [score] else []
  }

  /** A second game with the same score neither raises the best again nor asks for another save. */
  lemma RaisedBestAgain(best: int, score: int)
    ensures RaisedBest(RaisedBest(best, score), score) == RaisedBest(best, score)
    ensures SaveRequest(RaisedBest(best, score), score) == []
  {
  }

  /** The stored best after games that scored `scores`, in order. */
  function BestAfter(best: int, scores: seq<int>): int
    decreases |scores|
  {
    if scores == [] then best
    else RaisedBest(BestAfter(best, scores[..|scores| - 1]), scores[|scores| - 1])
  }

  /** Every value handed to the preferences store over games that scored `scores`, in order. */
  function SavesAfter(best: int, scores: seq<int>): seq<int>
    decreases |scores|
  {
    if scores == [] then []
    else
      var before := scores[..|scores| - 1];
      SavesAfter(best, before) + SaveRequest(BestAfter(best, before), scores[|scores| - 1])
  }

  /** Over any series of games the stored best never falls below the first best or any score. */
  lemma {:induction false} BestAfterBounds(best: int, scores: seq<int>)
    ensures best <= BestAfter(best, scores)
    ensures forall k :: 0 <= k < |scores| ==> scores[k] <= BestAfter(best, scores)
  {
    if scores != [] {
      var before := scores[..|scores| - 1];
      BestAfterBounds(best, before);
      assert forall k :: 0 <= k < |before| ==> scores[k] == before[k];
    }
  }

  /**
   * Over any series of games the store receives a strictly increasing series
   * of values, each above the first best, the last of which is the final best.
   */
  lemma {:induction false} SavesIncrease(best: int, scores: seq<int>)
    ensures forall x :: x in SavesAfter(best, scores) ==> best < x <= BestAfter(best, scores)
    ensures forall j, k :: 0 <= j < k < |SavesAfter(best, scores)| ==>
              SavesAfter(best, scores)[j] < SavesAfter(best, scores)[k]
    ensures SavesAfter(best, scores) != [] ==>
              SavesAfter(best, scores)[|SavesAfter(best, scores)| - 1] == BestAfter(best, scores)
  {
    if scores != [] {
      var before := scores[..|scores| - 1];
      SavesIncrease(best, before);
      BestAfterBounds(best, before);
    }
  }

  /** One more game adds one step to the best and to the saves, as a single best-score update does. */
  lemma SavesAfterStep(best: int, scores: seq<int>, score: int)
    ensures BestAfter(best, scores + [score]) == RaisedBest(BestAfter(best, scores), score)
    ensures SavesAfter(best, scores + [score]) ==
              SavesAfter(best, scores) + SaveRequest(BestAfter(best, scores), score)
  {
    assert (scores + [score])[..|scores|] == scores;
  }

  /** The scores of `games` games that all scored `score`. */
  function Repeated(score: int, games: nat): seq<int>
  {
    if games == 0 then [] else Repeated(score, games - 1) + [score]
  }

  /** One more game with the same score is one more best-score update. */
  lemma RepeatedOneMore(best: int, score: int, games: nat)
    ensures BestAfter(best, Repeated(score, games + 1)) ==
              RaisedBest(BestAfter(best, Repeated(score, games)), score)
    ensures SavesAfter(best, Repeated(score, games + 1)) ==
              SavesAfter(best, Repeated(score, games)) + SaveRequest(BestAfter(best, Repeated(score, games)), score)
  {
    SavesAfterStep(best, Repeated(score, games), score);
  }

  /**
   * Games that all score the same: the best is raised at most by the first
   * game, and the store receives at most one value, from the first game.
   */
  lemma {:induction false} FixedScoreSeries(best: int, score: int, games: nat)
    ensures games > 0 ==> BestAfter(best, Repeated(score, games)) == RaisedBest(best, score)
    ensures SavesAfter(best, Repeated(score, games)) ==
              if games == 0 then [] else SaveRequest(best, score)
  {
    if games > 0 {
      var g := games - 1;
      FixedScoreSeries(best, score, g);
      RepeatedOneMore(best, score, g);
      var before, last := SavesAfter(best, Repeated(score, g)), SaveRequest(BestAfter(best, Repeated(score, g)), score);
      if g == 0 {
        assert before == [] && last == SaveRequest(best, score);
      } else {
        assert before == SaveRequest(best, score) && last == [];
      }
      assert before + last == SaveRequest(best, score);
    }
  }
}
