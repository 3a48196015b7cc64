/**
  The rules of the linear board game, stated as functions on a snapshot of
  the game: which stored event names take effect, how the events of a tile
  are resolved, what one move does and what one roll of the die does.
  The mutable game object (module Game) is proved against these functions.
*/
module Board {
  import opened Optional
  import opened Strings

  /** The finish tile; the track runs from tile 0 to here. */
  const LAST_TILE: int := 100
  /** Tiles a Treasure event moves the player forward. */
  const TREASURE_MOVE: int := 10
  /** Tiles a Portal event moves the player (backward). */
  const PORTAL_MOVE: int := -3

  datatype Player = Player1 | Player2 {
    /** The identifier the game uses for the player in its text format. */
    function Name(): string {
      match this
      case Player1 => "Player1"
      case Player2 => "Player2"
    }

    /** The opponent, which is whose turn comes next after this player's. */
    function Other(): (q: Player)
      ensures q != this
    {
      match this
      case Player1 => Player2
      case Player2 => Player1
    }
  }

  /** Switching turns twice gives the turn back to the same player. */
  lemma SwitchTwice(p: Player)
    ensures p.Other().Other() == p
  {}

  /** The events that have an effect; any other stored name has none. */
  datatype Event = Treasure | Portal {
    /** The name under which the event is reported as applied. */
    function Name(): string {
      match this
      case Treasure => "Treasure"
      case Portal => "Portal"
    }

    function Delta(): int {
      match this
      case Treasure => TREASURE_MOVE
      case Portal => PORTAL_MOVE
    }
  }

  /** The event a stored name stands for, matched without regard to case;
      an unknown name stands for no event. */
  function Recognise(name: string): (r: Option<Event>)
    ensures r == Some(Treasure) <==> Lower(name) == Lower(Treasure.Name())
    ensures r == Some(Portal) <==> Lower(name) == Lower(Portal.Name())
  {
    assert Lower(Treasure.Name()) == "treasure";
    assert Lower(Portal.Name()) == "portal";
    var lower := Lower(name);
    if lower == "treasure" then Some(Treasure)
    else if lower == "portal" then Some(Portal)
    else None
  }

  /** A name as the parser stores it is recognised exactly when it is the
      event's own name: normalising on load and matching on resolution agree. */
  lemma RecogniseStored(name: string, e: Event)
    requires Capitalize(name) == name
    ensures Recognise(name) == Some(e) <==> name == e.Name()
  {
    if Recognise(name) == Some(e) {
      var lower := Lower(name);
      assert |name| == |e.Name()|;
      assert name == [UpperChar(name[0])] + Lower(name[1..]);
      assert Lower(name[1..]) == lower[1..];
      forall i | 0 <= i < |name| ensures name[i] == e.Name()[i] {
        if i > 0 {
          assert name[i] == lower[i];
        } else {
          assert lower[0] == LowerChar(name[0]);
        }
      }
    }
    if name == e.Name() {
      assert Lower(name) == Lower(e.Name());
    }
  }

  /** The recognised events among `names`, in their stored order: the
      `applied` list of a resolution. Unknown names are skipped. */
  function Recognised(names: seq<string>): (es: seq<Event>)
    ensures |es| <= |names|
    decreases |names|
  {
    if names == [] then []
    else
      var init := Recognised(names[..|names| - 1]);
      match Recognise(names[|names| - 1])
      case Some(e) => init + [e]
      case None => init
  }

  /** No recognised name, no event; every name recognised, each name's own
      event in the names' order. */
  lemma {:induction false} RecognisedExtremes(names: seq<string>)
    ensures (forall k :: 0 <= k < |names| ==> Recognise(names[k]).None?) ==> Recognised(names) == []
    ensures (forall k :: 0 <= k < |names| ==> Recognise(names[k]).Some?) ==>
      |Recognised(names)| == |names|
      && forall k :: 0 <= k < |names| ==> Recognised(names)[k] == Recognise(names[k]).value
    decreases |names|
  {
    if names != [] {
      var init := names[..|names| - 1];
      RecognisedExtremes(init);
      assert forall k :: 0 <= k < |init| ==> init[k] == names[k];
    }
  }

  /** Resolving two lists one after the other applies the events of the
      first, then those of the second: the applied list keeps the names' order. */
  lemma {:induction false} RecognisedAppend(a: seq<string>, b: seq<string>)
    ensures Recognised(a + b) == Recognised(a) + Recognised(b)
    decreases |b|
  {
    if b == [] {
      assert a + b == a;
    } else {
      var init := b[..|b| - 1];
      RecognisedAppend(a, init);
      assert (a + b)[..|a + b| - 1] == a + init;
      assert (a + b)[|a + b| - 1] == b[|b| - 1];
    }
  }

  /** Sum of the moves of `es`, applied one after another. */
  function Shift(es: seq<Event>): int
    decreases |es|
  {
    if es == [] then 0 else Shift(es[..|es| - 1]) + es[|es| - 1].Delta()
  }

  /** The total move of a list of events is 10 per Treasure and -3 per
      Portal, whatever their order. */
  lemma {:induction false} ShiftCounts(es: seq<Event>)
    ensures Shift(es) == TREASURE_MOVE * multiset(es)[Treasure] + PORTAL_MOVE * multiset(es)[Portal]
    decreases |es|
  {
    if es != [] {
      var init := es[..|es| - 1];
      ShiftCounts(init);
      assert es == init + [es[|es| - 1]];
      assert multiset(es) == multiset(init) + multiset{es[|es| - 1]};
    }
  }

  function Min(a: int, b: int): int {
    if a <= b then a else b
  }

  /** `max(0, min(LAST_TILE, x))`. */
  function Clamp(x: int): (r: int)
    ensures 0 <= r <= LAST_TILE
    ensures 0 <= x <= LAST_TILE ==> r == x
    ensures x < 0 ==> r == 0
    ensures x > LAST_TILE ==> r == LAST_TILE
  {
    if x < 0 then 0 else Min(LAST_TILE, x)
  }

  /** The outcome of resolving the events of one tile. */
  datatype Resolution = Resolution(applied: seq<Event>, final: int)

  /** Resolving the event names stored at `tile`: one pass over them, no
      chaining to the tile an event leads to, and a single clamp at the end. */
  function Resolve(names: seq<string>, tile: int): (r: Resolution)
    ensures r.applied == Recognised(names)
    ensures r.final == Clamp(tile + TREASURE_MOVE * multiset(r.applied)[Treasure]
                                  + PORTAL_MOVE * multiset(r.applied)[Portal])
  {
    var applied := Recognised(names);
    ShiftCounts(applied);
    Resolution(applied, Clamp(tile + Shift(applied)))
  }

  /** A value copy of the whole game: whose turn it is, where each player
      stands, the event names stored per tile, and the winner if any. */
  datatype State = State(
    turn: Player,
    pos1: int,
    pos2: int,
    events: map<int, seq<string>>,
    winner: Option<Player>)
  {
    function Pos(p: Player): int {
      match p
      case Player1 => pos1
      case Player2 => pos2
    }

    function WithPos(p: Player, x: int): (s: State)
      ensures s.Pos(p) == x && s.Pos(p.Other()) == Pos(p.Other())
      ensures s.turn == turn && s.events == events && s.winner == winner
    {
      match p
      case Player1 => this.(pos1 := x)
      case Player2 => this.(pos2 := x)
    }
  }

  /** The state of a new game: Player1 to move, both at tile 0, no events, no winner. */
  function Default(): State {
    State(Player1, 0, 0, map[], None)
  }

  /** `events.get(tile, [])`. */
  function Lookup(events: map<int, seq<string>>, tile: int): seq<string> {
    if tile in events then events[tile] else []
  }

  /** The winner that positions imply: a player on the last tile, Player2
      taking precedence because the load checks it last. */
  function DerivedWinner(pos1: int, pos2: int): (w: Option<Player>)
    ensures w == Some(Player2) <==> pos2 >= LAST_TILE
    ensures w == Some(Player1) <==> pos1 >= LAST_TILE && pos2 < LAST_TILE
  {
    if pos2 >= LAST_TILE then Some(Player2)
    else if pos1 >= LAST_TILE then Some(Player1)
    else None
  }

  predicate InRange(s: State) {
    0 <= s.pos1 <= LAST_TILE && 0 <= s.pos2 <= LAST_TILE
  }

  /** Both players on the track and the winner the one the positions imply. */
  predicate Consistent(s: State) {
    InRange(s) && s.winner == DerivedWinner(s.pos1, s.pos2)
  }

  /** The new state after an operation and what the operation reports. */
  datatype Transition<R> = Transition(next: State, result: R)

  /** Resolving the events of the tile `p` stands on: the new position is the
      resolution's final tile, and reaching the last tile makes `p` the
      winner; nothing else changes. */
  function AfterEvents(s: State, p: Player): (t: Transition<Resolution>)
    ensures t.result == Resolve(Lookup(s.events, s.Pos(p)), s.Pos(p))
    ensures 0 <= t.next.Pos(p) == t.result.final <= LAST_TILE
    ensures t.next.Pos(p.Other()) == s.Pos(p.Other())
    ensures t.next.turn == s.turn && t.next.events == s.events
    ensures t.next.winner == if t.result.final == LAST_TILE then Some(p) else s.winner
    ensures Consistent(s) && s.winner.None? ==> Consistent(t.next)
  {
    var tile := s.Pos(p);
    var r := Resolve(Lookup(s.events, tile), tile);
    var moved := s.WithPos(p, r.final);
    Transition(if r.final >= LAST_TILE then moved.(winner := Some(p)) else moved, r)
  }

  /** What a move reports: a refusal naming the winner once the game is
      over, or the details of the move. */
  datatype MoveResult =
    | AlreadyFinished(wonBy: Player)
    | Moved(player: Player, rolled: int, start: int, movedTo: int,
            events: seq<Event>, final: int, winner: Option<Player>)

  /** Moving `p` forward `steps` tiles. A finished game refuses and stays as
      it is. Otherwise the player moves to `min(start + steps, LAST_TILE)`;
      reaching the last tile wins at once with no events resolved, and any
      other tile has its events resolved. */
  function AfterMove(s: State, p: Player, steps: int): (t: Transition<MoveResult>)
    ensures s.winner.Some? ==> t == Transition(s, AlreadyFinished(s.winner.value))
    ensures s.winner.None? ==>
      (t.result.Moved? && t.result.player == p && t.result.rolled == steps
       && t.result.start == s.Pos(p) && t.result.movedTo == Min(s.Pos(p) + steps, LAST_TILE)
       && t.next.Pos(p) == t.result.final && t.next.winner == t.result.winner)
    ensures s.winner.None? && s.Pos(p) + steps >= LAST_TILE ==>
      (t.result.events == [] && t.result.final == LAST_TILE && t.result.winner == Some(p))
    ensures s.winner.None? && s.Pos(p) + steps < LAST_TILE ==>
      (t.result.events == Recognised(Lookup(s.events, s.Pos(p) + steps))
       && t.result.final == Clamp(s.Pos(p) + steps + TREASURE_MOVE * multiset(t.result.events)[Treasure]
                                                  + PORTAL_MOVE * multiset(t.result.events)[Portal]))
    ensures s.winner.None? ==> (t.next.winner == Some(p) <==> t.next.Pos(p) == LAST_TILE)
    ensures s.winner.None? ==> t.next.winner.None? || t.next.winner == Some(p)
    ensures t.next.Pos(p.Other()) == s.Pos(p.Other())
    ensures t.next.turn == s.turn && t.next.events == s.events
    ensures Consistent(s) ==> Consistent(t.next)
  {
    if s.winner.Some? then
      Transition(s, AlreadyFinished(s.winner.value))
    else
      var start := s.Pos(p);
      var movedTo := Min(start + steps, LAST_TILE);
      var moved := s.WithPos(p, movedTo);
      if movedTo >= LAST_TILE then
        Transition(moved.(winner := Some(p)), Moved(p, steps, start, movedTo, [], movedTo, Some(p)))
      else
        var e := AfterEvents(moved, p);
        Transition(e.next, Moved(p, steps, start, movedTo, e.result.applied, e.result.final, e.next.winner))
  }

  /** One roll of the die for the player whose turn it is: refused once there
      is a winner; otherwise the move, then the turn passes to the opponent
      unless that move won the game. */
  function AfterRoll(s: State, die: int): (t: Transition<MoveResult>)
    ensures s.winner.Some? ==> t == Transition(s, AlreadyFinished(s.winner.value))
    ensures s.winner.None? ==> t.result.Moved? && t.result.player == s.turn && t.result.rolled == die
    ensures s.winner.None? ==>
      t.result == AfterMove(s, s.turn, die).result
      && t.next.Pos(s.turn) == t.result.final && t.next.winner == t.result.winner
    ensures s.winner.None? ==> t.next.turn == if t.next.winner.None? then s.turn.Other() else s.turn
    ensures t.next.Pos(s.turn.Other()) == s.Pos(s.turn.Other())
    ensures t.next.events == s.events
    ensures Consistent(s) ==> Consistent(t.next)
  {
    if s.winner.Some? then
      Transition(s, AlreadyFinished(s.winner.value))
    else
      var m := AfterMove(s, s.turn, die);
      var next := if m.next.winner.None? then m.next.(turn := m.next.turn.Other()) else m.next;
      Transition(next, m.result)
  }

  /** The game after a series of rolls, one die value per roll. */
  function AfterRolls(s: State, dice: seq<int>): State
    decreases |dice|
  {
    if dice == [] then s else AfterRolls(AfterRoll(s, dice[0]).next, dice[1..])
  }

  /** Over any series of rolls the players stay on the track and the winner
      stays the one the positions imply. */
  lemma {:induction false} RollsKeepConsistent(s: State, dice: seq<int>)
    requires Consistent(s)
    ensures Consistent(AfterRolls(s, dice))
    decreases |dice|
  {
    if dice != [] {
      RollsKeepConsistent(AfterRoll(s, dice[0]).next, dice[1..]);
    }
  }

  /** A winner is final: once it is set, no series of rolls changes anything. */
  lemma {:induction false} WinnerIsFinal(s: State, dice: seq<int>)
    requires s.winner.Some?
    ensures AfterRolls(s, dice) == s
    decreases |dice|
  {
    if dice != [] {
      WinnerIsFinal(AfterRoll(s, dice[0]).next, dice[1..]);
    }
  }

  /** While nobody has won, the turn alternates: after an even number of
      rolls it is back with the player who started, after an odd number it
      is with the opponent. */
  lemma {:induction false} TurnAlternates(s: State, dice: seq<int>)
    requires AfterRolls(s, dice).winner.None?
    ensures AfterRolls(s, dice).turn == if |dice| % 2 == 0 then s.turn else s.turn.Other()
    decreases |dice|
  {
    if dice != [] {
      var next := AfterRoll(s, dice[0]).next;
      if s.winner.Some? {
        WinnerIsFinal(s, dice);
      } else {
        if next.winner.Some? {
          WinnerIsFinal(next, dice[1..]);
        } else {
          TurnAlternates(next, dice[1..]);
          SwitchTwice(s.turn);
        }
      }
    }
  }
}
