/**
  The server's single game, `state` in the source: a record that the move
  engine updates in place. Each method is proved against the value-level
  rule of the Board module, and the class invariant `Valid` is kept by all.
*/
module Game {
  import opened Optional
  import opened Board
  import opened Codec

  class GameState {
    var turn: Player
    var pos1: int
    var pos2: int
    var events: map<int, seq<string>>
    var winner: Option<Player>

    /** The fields as one value. */
    function View(): State
      reads this
    {
      State(turn, pos1, pos2, events, winner)
    }

    /** Both players on the track, the winner the one the positions imply,
        and every stored event name in the form the loader stores it. */
    ghost predicate Valid()
      reads this
    {
      Consistent(View()) && WellFormedEvents(events)
    }

    /** A new game: Player1 to move, both at tile 0, no events, no winner. */
    constructor ()
      ensures View() == Default() && Valid()
    {
      turn := Player1;
      pos1 := 0;
      pos2 := 0;
      events := map[];
      winner := None;
    }

    function Position(p: Player): (x: int)
      reads this
      ensures x == View().Pos(p)
    {
      if p == Player1 then pos1 else pos2
    }

    /** `state["positions"][p] = x`. */
    method SetPosition(p: Player, x: int)
      modifies this
      ensures View() == old(View()).WithPos(p, x)
    {
      if p == Player1 {
        pos1 := x;
      } else {
        pos2 := x;
      }
    }

    /** Loading the game file (a missing file is `None`) replaces the whole state. */
    method Load(file: Option<seq<string>>)
      modifies this
      ensures View() == Parse(file) && Valid()
    {
      var parsed := ParseGameFile(file);
      turn := parsed.turn;
      pos1 := parsed.pos1;
      pos2 := parsed.pos2;
      events := parsed.events;
      winner := parsed.winner;
    }

    /** The lines the game file is written with; loading them gives the
        state back. */
    method Save() returns (lines: seq<string>)
      ensures lines == Render(View())
      ensures Valid() ==> Parse(Some(lines)) == View()
    {
      lines := WriteGameFile(View());
      if Valid() {
        LoadAfterSave(View());
      }
    }

    /** Resolving the events of the tile `p` stands on, then moving `p` to
        the tile they lead to; reaching the last tile wins. */
    method ApplyEvents(p: Player) returns (applied: seq<Event>, final: int)
      modifies this
      ensures View() == AfterEvents(old(View()), p).next
      ensures applied == AfterEvents(old(View()), p).result.applied
      ensures final == AfterEvents(old(View()), p).result.final
      ensures old(Valid()) && old(winner).None? ==> Valid()
    {
      var pos := Position(p);
      applied, final := ResolveTile(Lookup(events, pos), pos);
      SetPosition(p, final);
      if final >= LAST_TILE {
        winner := Some(p);
      }
    }

    /** Moving `p` forward `steps` tiles: refused once the game has a
        winner, an immediate win on reaching the last tile, and the landed
        tile's events resolved otherwise. */
    method AttemptMove(p: Player, steps: int) returns (result: MoveResult)
      modifies this
      ensures View() == AfterMove(old(View()), p, steps).next
      ensures result == AfterMove(old(View()), p, steps).result
      ensures old(Valid()) ==> Valid()
    {
      ghost var s := View();
      if winner.Some? {
        assert AfterMove(s, p, steps) == Transition(s, AlreadyFinished(s.winner.value));
        return AlreadyFinished(winner.value);
      }
      var start := Position(p);
      var newPos := Min(start + steps, LAST_TILE);
      SetPosition(p, newPos);
      ghost var moved := s.WithPos(p, newPos);
      assert View() == moved;
      if newPos >= LAST_TILE {
        winner := Some(p);
        return Moved(p, steps, start, newPos, [], newPos, Some(p));
      }
      ghost var e := AfterEvents(moved, p);
      var applied, finalPos := ApplyEvents(p);
      assert View() == e.next;
      result := Moved(p, steps, start, newPos, applied, finalPos, winner);
      assert AfterMove(s, p, steps) == Transition(e.next, result);
    }

    /** The turn passes to the other player. */
    method SwitchTurn()
      modifies this
      ensures turn == old(turn).Other() && turn != old(turn)
      ensures View() == old(View()).(turn := old(turn).Other())
      ensures old(Valid()) ==> Valid()
    {
      turn := if turn == Player1 then Player2 else Player1;
    }

    /** One roll of the die for the player whose turn it is: refused once
        there is a winner; otherwise the move, then the turn passes unless
        the move won; the game is saved after every move. */
    method Roll(die: int) returns (result: MoveResult, saved: Option<seq<string>>)
      requires 1 <= die <= 6
      requires Valid()
      modifies this
      ensures Valid()
      ensures View() == AfterRoll(old(View()), die).next
      ensures result == AfterRoll(old(View()), die).result
      ensures old(winner).Some? ==> saved == None
      ensures old(winner).None? ==>
        saved == Some(Render(View())) && Parse(saved) == View()
    {
      if winner.Some? {
        return AlreadyFinished(winner.value), None;
      }
      var player := turn;
      result := AttemptMove(player, die);
      if winner.None? {
        SwitchTurn();
      }
      var lines := Save();
      saved := Some(lines);
    }
  }

  /** The pass over the event names stored at `tile`, in their order:
      Treasure moves 10 forward, Portal 3 back, other names are skipped;
      the sum is clamped once at the end. */
  method ResolveTile(names: seq<string>, tile: int) returns (applied: seq<Event>, final: int)
    ensures Resolution(applied, final) == Resolve(names, tile)
  {
    var pos := tile;
    applied := [];
    var i := 0;
    while i < |names|
      invariant 0 <= i <= |names|
      invariant applied == Recognised(names[..i])
      invariant pos == tile + Shift(applied)
    {
      assert names[..i + 1][..i] == names[..i];
      var ev := Recognise(names[i]);
      if ev == Some(Treasure) {
        pos := pos + TREASURE_MOVE;
        applied := applied + [Treasure];
      } else if ev == Some(Portal) {
        pos := pos + PORTAL_MOVE;
        applied := applied + [Portal];
      }
      i := i + 1;
    }
    assert names[..|names|] == names;
    pos := Min(LAST_TILE, pos);
    if pos < 0 {
      pos := 0;
    }
    final := pos;
  }
}
