/**
  The game file format: `Turn:`, `Player1:`, `Player2:` and `Events:` lines
  (keys in any case) followed by `<tile>: <name>, <name>` lines. The file is
  given as its sequence of lines; a missing file is `None`.
*/
module Codec {
  import opened Optional
  import opened Strings
  import opened Board
  import opened Keys

  /** How far the reading of a game file has got: the values read so far
      and whether the `Events:` line has been seen. */
  datatype Scan = Scan(
    turn: Player,
    pos1: int,
    pos2: int,
    events: map<int, seq<string>>,
    inEvents: bool)

  const START: Scan := Scan(Player1, 0, 0, map[], false)

  /** `line.lower().startswith(key)`. */
  predicate HasKey(line: string, key: string) {
    key <= Lower(line)
  }

  /** A line that starts with a key ending in a colon contains a colon. */
  lemma KeyColon(line: string, key: string)
    requires HasKey(line, key) && key != [] && key[|key| - 1] == ':'
    ensures ':' in line
  {
    var j := |key| - 1;
    assert Lower(line)[j] == ':';
    assert line[j] == ':';
  }

  /** `line.split(":", 1)[1].strip()`. */
  function ValueOf(line: string): string
    requires ':' in line
  {
    Strip(SplitFirst(line, ':').1)
  }

  /** The `Turn:` value: exactly `Player2` gives Player2, anything else Player1. */
  function TurnValue(v: string): (p: Player)
    ensures p == Player2 <==> v == Player2.Name()
  {
    if v == Player1.Name() then Player1
    else if v == Player2.Name() then Player2
    else Player1
  }

  /** A `Player1:`/`Player2:` value: `max(0, int(v))`, or 0 when `v` is not an integer. */
  function PositionValue(v: string): (n: int)
    ensures n >= 0
    ensures ParseInt(v).None? ==> n == 0
    ensures ParseInt(v).Some? && ParseInt(v).value >= 0 ==> n == ParseInt(v).value
    ensures ParseInt(v).Some? && ParseInt(v).value < 0 ==> n == 0
  {
    match ParseInt(v)
    case Some(k) => if k > 0 then k else 0
    case None => 0
  }

  /** An event name as it is stored: non-empty, trimmed, without a comma,
      first letter upper case and the rest lower case. */
  predicate NormalName(n: string) {
    n != [] && !IsSpace(n[0]) && !IsSpace(n[|n| - 1]) && ',' !in n && Capitalized(n)
  }

  /** Every tile holds a non-empty list of stored names. */
  predicate WellFormedEvents(events: map<int, seq<string>>) {
    forall t :: t in events ==>
      events[t] != [] && forall k :: 0 <= k < |events[t]| ==> NormalName(events[t][k])
  }

  /** `[e.strip().capitalize() for e in parts if e.strip()]`: the stored
      names of comma-separated pieces, blanks dropped. */
  function Names(parts: seq<string>): (names: seq<string>)
    requires forall k :: 0 <= k < |parts| ==> ',' !in parts[k]
    ensures |names| <= |parts|
    ensures forall k :: 0 <= k < |names| ==> NormalName(names[k])
    ensures (forall k :: 0 <= k < |parts| ==> Strip(parts[k]) == []) ==> names == []
    decreases |parts|
  {
    if parts == [] then []
    else
      var rest := Names(parts[1..]);
      var t := Strip(parts[0]);
      if t == [] then rest
      else
        NameIsNormal(parts[0]);
        [Capitalize(t)] + rest
  }

  /** Every piece with text in it is stored, trimmed and capitalized,
      whatever its name. */
  lemma {:induction false} NamesKeep(parts: seq<string>)
    requires forall k :: 0 <= k < |parts| ==> ',' !in parts[k]
    ensures forall k :: 0 <= k < |parts| && Strip(parts[k]) != [] ==>
      Capitalize(Strip(parts[k])) in Names(parts)
    decreases |parts|
  {
    if parts != [] {
      var tail := parts[1..];
      NamesKeep(tail);
      var rest := Names(tail);
      var t := Strip(parts[0]);
      var names := Names(parts);
      assert forall x :: x in rest ==> x in names by {
        if t != [] {
          assert names == [Capitalize(t)] + rest;
        }
      }
      forall k | 0 <= k < |parts| && Strip(parts[k]) != [] ensures Capitalize(Strip(parts[k])) in names {
        if k == 0 {
          assert names[0] == Capitalize(t);
        } else {
          assert parts[k] == tail[k - 1];
        }
      }
    }
  }

  /** Reading pieces in two runs gives the names of the first run followed
      by those of the second: blank pieces drop out without reordering the rest. */
  lemma {:induction false} NamesAppend(a: seq<string>, b: seq<string>)
    requires forall k :: 0 <= k < |a| ==> ',' !in a[k]
    requires forall k :: 0 <= k < |b| ==> ',' !in b[k]
    ensures forall k :: 0 <= k < |a + b| ==> ',' !in (a + b)[k]
    ensures Names(a + b) == Names(a) + Names(b)
    decreases |a|
  {
    forall k | 0 <= k < |a + b| ensures ',' !in (a + b)[k] {
      if k >= |a| {
        assert (a + b)[k] == b[k - |a|];
      }
    }
    if a == [] {
      assert a + b == b;
    } else {
      var ab := a + b;
      var tail := a[1..];
      assert ab[0] == a[0];
      assert ab[1..] == tail + b;
      NamesAppend(tail, b);
      if Strip(a[0]) == [] {
        assert Names(ab) == Names(tail + b);
        assert Names(a) == Names(tail);
      } else {
        assert Names(ab) == [Capitalize(Strip(a[0]))] + Names(tail + b);
        assert Names(a) == [Capitalize(Strip(a[0]))] + Names(tail);
      }
    }
  }

  /** When no piece is blank, the stored names are the pieces in order,
      each trimmed and capitalized. */
  lemma {:induction false} NamesAll(parts: seq<string>)
    requires forall k :: 0 <= k < |parts| ==> ',' !in parts[k]
    requires forall k :: 0 <= k < |parts| ==> Strip(parts[k]) != []
    ensures |Names(parts)| == |parts|
    ensures forall k :: 0 <= k < |parts| ==> Names(parts)[k] == Capitalize(Strip(parts[k]))
    decreases |parts|
  {
    if parts != [] {
      var tail := parts[1..];
      assert forall k :: 0 <= k < |tail| ==> tail[k] == parts[k + 1];
      NamesAll(tail);
      var names := Names(parts);
      assert names == [Capitalize(Strip(parts[0]))] + Names(tail);
      forall k | 0 <= k < |parts| ensures names[k] == Capitalize(Strip(parts[k])) {
        if k > 0 {
          assert names[k] == Names(tail)[k - 1];
        }
      }
    }
  }

  /** Trimming then capitalizing a comma-free piece with some text in it gives a stored name. */
  lemma NameIsNormal(e: string)
    requires ',' !in e && Strip(e) != []
    ensures NormalName(Capitalize(Strip(e)))
  {
    var t := Strip(e);
    StripKeepsOut(e, ',');
    CapitalizeNormal(t);
    var c := Capitalize(t);
    forall i | 0 <= i < |c| ensures c[i] != ',' {
      CapitalizeAt(t, i);
    }
  }

  /** The effect of one line of the file: blank and `#` lines are skipped;
      otherwise the keys are tested in the order `turn:`, `player1:`,
      `player2:`, `events:`, so they are honoured even after `Events:`. */
  function ScanLine(a: Scan, raw: string): (b: Scan)
    ensures WellFormedEvents(a.events) ==> WellFormedEvents(b.events)
  {
    var line := Strip(raw);
    if line == [] || line[0] == '#' then a
    else if HasKey(line, "turn:") then
      KeyColon(line, "turn:");
      a.(turn := TurnValue(ValueOf(line)))
    else if HasKey(line, "player1:") then
      KeyColon(line, "player1:");
      a.(pos1 := PositionValue(ValueOf(line)))
    else if HasKey(line, "player2:") then
      KeyColon(line, "player2:");
      a.(pos2 := PositionValue(ValueOf(line)))
    else if HasKey(line, "events:") then a.(inEvents := true)
    else if a.inEvents then a.(events := TileLine(a.events, line))
    else a
  }

  /** A `<tile>: <names>` line once `Events:` has been seen: lines without a
      colon or whose tile is not an integer are skipped; otherwise the names
      are appended to those the tile already has, unless there are none. */
  function TileLine(events: map<int, seq<string>>, line: string): (r: map<int, seq<string>>)
    ensures WellFormedEvents(events) ==> WellFormedEvents(r)
  {
    if ':' !in line then events
    else
      var (left, right) := SplitFirst(line, ':');
      match ParseInt(Strip(left))
      case None => events
      case Some(tile) =>
        var names := Names(Split(right, ','));
        if names == [] then events
        else events[tile := Lookup(events, tile) + names]
  }

  /** A tile line without a colon, whose tile is not an integer, or whose
      names are all blank leaves the event table as it is. */
  lemma TileLineSkips(events: map<int, seq<string>>, line: string)
    ensures ':' !in line
      || ParseInt(Strip(SplitFirst(line, ':').0)).None?
      || Names(Split(SplitFirst(line, ':').1, ',')) == []
      ==> TileLine(events, line) == events
  {}

  /** A tile line only ever appends: every tile keeps the names it had, in front. */
  lemma TileLineAppends(events: map<int, seq<string>>, line: string)
    ensures var r := TileLine(events, line);
      forall t :: t in events ==> t in r && events[t] <= r[t]
    ensures var r := TileLine(events, line);
      forall t :: t in r && (t !in events || r[t] != events[t]) ==>
        ':' in line && ParseInt(Strip(SplitFirst(line, ':').0)) == Some(t)
  {
    var r := TileLine(events, line);
    if r != events {
      var (left, right) := SplitFirst(line, ':');
      var tile := ParseInt(Strip(left)).value;
      var names := Names(Split(right, ','));
      assert r == events[tile := Lookup(events, tile) + names];
      forall t | t in events ensures t in r && events[t] <= r[t] {
        if t == tile {
          assert r[t] == events[t] + names;
        }
      }
      forall t | t in r && t != tile ensures t in events && r[t] == events[t] {
      }
    }
  }

  /** Blank lines and comment lines change nothing. */
  lemma SkippedLine(a: Scan, raw: string)
    requires Strip(raw) == [] || Strip(raw)[0] == '#'
    ensures ScanLine(a, raw) == a
  {}

  /** A line without a colon never changes the event table, in any mode. */
  lemma NoColonKeepsEvents(a: Scan, raw: string)
    requires ':' !in raw
    ensures ScanLine(a, raw).events == a.events
  {
    StripKeepsOut(raw, ':');
  }

  /** The effect of the lines in order, from the reading state `a`. */
  function ScanFrom(a: Scan, lines: seq<string>): (b: Scan)
    ensures WellFormedEvents(a.events) ==> WellFormedEvents(b.events)
    decreases |lines|
  {
    if lines == [] then a
    else
      var b := ScanFrom(a, lines[..|lines| - 1]);
      ScanLine(b, lines[|lines| - 1])
  }

  /** After reading: positions clamped to the track, then the winner is any
      player on the last tile, Player2 checked last. */
  function Finish(a: Scan): (s: State)
    ensures Consistent(s)
    ensures s.turn == a.turn && s.events == a.events
    ensures s.pos1 == Clamp(a.pos1) && s.pos2 == Clamp(a.pos2)
  {
    var pos1 := Clamp(a.pos1);
    var pos2 := Clamp(a.pos2);
    State(a.turn, pos1, pos2, a.events, DerivedWinner(pos1, pos2))
  }

  /** The state a game file describes; a missing or empty file describes a new game. */
  function Parse(file: Option<seq<string>>): (s: State)
    ensures Consistent(s) && WellFormedEvents(s.events)
    ensures file == None || file == Some([]) ==> s == Default()
  {
    match file
    case None => Default()
    case Some(lines) => Finish(ScanFrom(START, lines))
  }

  /** Reading a game file: each line in turn, then the positions are
      clamped to the track and the winner is set from them. */
  method ParseGameFile(file: Option<seq<string>>) returns (parsed: State)
    ensures parsed == Parse(file)
  {
    if file.None? {
      return Default();
    }
    var lines := file.value;
    var scan := START;
    var i := 0;
    while i < |lines|
      invariant 0 <= i <= |lines|
      invariant scan == ScanFrom(START, lines[..i])
    {
      assert lines[..i + 1][..i] == lines[..i];
      ghost var before := scan;
      var line := Strip(lines[i]);
      if line == [] || line[0] == '#' {
      } else if HasKey(line, "turn:") {
        KeyColon(line, "turn:");
        var right := ValueOf(line);
        scan := scan.(turn := if right == Player1.Name() || right == Player2.Name() then TurnValue(right) else Player1);
      } else if HasKey(line, "player1:") {
        KeyColon(line, "player1:");
        scan := scan.(pos1 := PositionValue(ValueOf(line)));
      } else if HasKey(line, "player2:") {
        KeyColon(line, "player2:");
        scan := scan.(pos2 := PositionValue(ValueOf(line)));
      } else if HasKey(line, "events:") {
        scan := scan.(inEvents := true);
      } else if scan.inEvents {
        scan := scan.(events := TileLine(scan.events, line));
      }
      assert scan == ScanLine(before, lines[i]);
      i := i + 1;
    }
    assert lines[..|lines|] == lines;
    assert Parse(file) == Finish(scan);
    var pos1 := Clamp(scan.pos1);
    var pos2 := Clamp(scan.pos2);
    var winner: Option<Player> := None;
    if pos1 >= LAST_TILE {
      winner := Some(Player1);
      pos1 := LAST_TILE;
    }
    if pos2 >= LAST_TILE {
      winner := Some(Player2);
      pos2 := LAST_TILE;
    }
    parsed := State(scan.turn, pos1, pos2, scan.events, winner);
  }

  /** `f"Turn: {turn}"`. */
  function TurnLine(p: Player): string {
    "Turn: " + p.Name()
  }

  /** `f"Player1: {pos}"` and `f"Player2: {pos}"`. */
  function PositionLine(p: Player, pos: int): string {
    p.Name() + ": " + IntToString(pos)
  }

  /** `f"{tile}: {', '.join(names)}"`. */
  function EventLine(tile: int, names: seq<string>): string {
    IntToString(tile) + ": " + Join(names, ", ")
  }

  /** The fixed first lines of a game file. */
  function Header(s: State): seq<string> {
    [TurnLine(s.turn), PositionLine(Player1, s.pos1), PositionLine(Player2, s.pos2), "", "Events:"]
  }

  /** One event line per tile of `tiles`, in that order. */
  function EventLines(events: map<int, seq<string>>, tiles: seq<int>): (lines: seq<string>)
    ensures |lines| == |tiles|
  {
    seq(|tiles|, k requires 0 <= k < |tiles| => EventLine(tiles[k], Lookup(events, tiles[k])))
  }

  lemma AppendAssoc(a: seq<string>, b: seq<string>, c: seq<string>)
    ensures (a + b) + c == a + (b + c)
  {}

  lemma EventLinesSnoc(events: map<int, seq<string>>, tiles: seq<int>, k: nat)
    requires k < |tiles|
    ensures EventLines(events, tiles[..k + 1])
      == EventLines(events, tiles[..k]) + [EventLine(tiles[k], Lookup(events, tiles[k]))]
  {}

  /** The lines a state is written as: the header, then one event line per
      tile, tiles in ascending order. */
  function Render(s: State): (lines: seq<string>)
    ensures |lines| == 5 + |s.events.Keys|
  {
    Header(s) + EventLines(s.events, SortedKeys(s.events.Keys))
  }

  /** Writing a game file: the header lines, then one line per tile. */
  method WriteGameFile(st: State) returns (lines: seq<string>)
    ensures lines == Render(st)
  {
    lines := [TurnLine(st.turn), PositionLine(Player1, st.pos1), PositionLine(Player2, st.pos2), "", "Events:"];
    ghost var header := lines;
    assert header == Header(st);
    var tiles := SortedKeys(st.events.Keys);
    if st.events != map[] {
      for k := 0 to |tiles|
        invariant lines == header + EventLines(st.events, tiles[..k])
      {
        var line := EventLine(tiles[k], st.events[tiles[k]]);
        EventLinesSnoc(st.events, tiles, k);
        AppendAssoc(header, EventLines(st.events, tiles[..k]), [line]);
        lines := lines + [line];
      }
      assert tiles[..|tiles|] == tiles;
    } else {
      assert st.events.Keys == {};
    }
  }

  // Reading back what was written: each kind of written line has the
  // effect it stands for, and so a whole written file gives its state back.

  lemma ScanSnoc(a: Scan, xs: seq<string>, x: string)
    ensures ScanFrom(a, xs + [x]) == ScanLine(ScanFrom(a, xs), x)
  {
    assert (xs + [x])[..|xs|] == xs;
  }

  /** Reading two blocks of lines one after the other is reading them together. */
  lemma {:induction false} ScanAppend(a: Scan, xs: seq<string>, ys: seq<string>)
    ensures ScanFrom(a, xs + ys) == ScanFrom(ScanFrom(a, xs), ys)
    decreases |ys|
  {
    if ys == [] {
      assert xs + ys == xs;
    } else {
      var init := ys[..|ys| - 1];
      assert (xs + ys)[..|xs + ys| - 1] == xs + init;
      assert (xs + ys)[|xs + ys| - 1] == ys[|ys| - 1];
      ScanAppend(a, xs, init);
    }
  }

  lemma StripPadded(s: string)
    requires s != [] && !IsSpace(s[0]) && !IsSpace(s[|s| - 1])
    ensures Strip(" " + s) == s
  {
    var t := " " + s;
    assert t[0] == ' ' && t[1..] == s;
    assert StripLeft(t) == StripLeft(s);
    assert StripLeft(s) == s;
    assert StripRight(s) == s;
  }

  lemma KeyOf(key: string, low: string, rest: string)
    requires Lower(key) == low
    ensures HasKey(key + rest, low)
  {
    assert Lower(key + rest)[..|key|] == Lower(key);
  }

  lemma NotKey(line: string, key: string, i: nat)
    requires i < |key| && i < |line| && LowerChar(line[i]) != key[i]
    ensures !HasKey(line, key)
  {
    assert Lower(line)[i] == LowerChar(line[i]);
  }

  lemma StartsWith(x: string, y: string)
    requires x != []
    ensures x + y != [] && (x + y)[0] == x[0]
  {}

  /** A written `Turn:` line is trimmed, has the key and holds the player's name. */
  lemma TurnLineText(p: Player)
    ensures var line := TurnLine(p);
      Strip(line) == line && HasKey(line, "turn:") && ':' in line && ValueOf(line) == p.Name()
  {
    TurnLineSplit(p);
    TurnLineStripped(p);
    TurnLineKey(p);
  }

  lemma TurnLineSplit(p: Player)
    ensures ':' in TurnLine(p) && ValueOf(TurnLine(p)) == p.Name()
  {
    assert TurnLine(p) == "Turn" + ": " + p.Name();
    SplitAtColon("Turn", p.Name());
    StripPadded(p.Name());
  }

  lemma TurnLineStripped(p: Player)
    ensures Strip(TurnLine(p)) == TurnLine(p)
  {
    ConcatEnds("Turn: ", p.Name());
  }

  lemma TurnLineKey(p: Player)
    ensures HasKey(TurnLine(p), "turn:")
  {
    assert Lower("Turn:") == "turn:";
    assert TurnLine(p) == "Turn:" + (" " + p.Name());
    KeyOf("Turn:", "turn:", " " + p.Name());
  }

  lemma TurnLineFirst(p: Player)
    ensures TurnLine(p) != [] && TurnLine(p)[0] == 'T'
  {
    StartsWith("Turn: ", p.Name());
  }

  lemma ReadTurnKey(a: Scan, line: string)
    requires Strip(line) == line && line != [] && line[0] != '#' && HasKey(line, "turn:")
    ensures ':' in line && ScanLine(a, line) == a.(turn := TurnValue(ValueOf(line)))
  {
    KeyColon(line, "turn:");
  }

  lemma ReadTurnText(a: Scan, line: string, p: Player)
    requires line == TurnLine(p)
    ensures ScanLine(a, line) == a.(turn := p)
  {
    TurnLineText(p);
    TurnLineFirst(p);
    ReadTurnKey(a, line);
  }

  /** Reading a written `Turn:` line sets the turn. */
  lemma ReadTurnLine(a: Scan, p: Player)
    ensures ScanLine(a, TurnLine(p)) == a.(turn := p)
  {
    ReadTurnText(a, TurnLine(p), p);
  }

  /** A written position line is trimmed, holds the number, and its first
      key match is its own player's key. */
  lemma PositionLineText(p: Player, n: int)
    ensures var line := PositionLine(p, n);
      Strip(line) == line && ':' in line && ValueOf(line) == IntToString(n)
  {
    PositionLineSplit(p, n);
    PositionLineStripped(p, n);
  }

  lemma PositionLineSplit(p: Player, n: int)
    ensures ':' in PositionLine(p, n) && ValueOf(PositionLine(p, n)) == IntToString(n)
  {
    SplitAtColon(p.Name(), IntToString(n));
    StripPadded(IntToString(n));
  }

  lemma PositionLineStripped(p: Player, n: int)
    ensures Strip(PositionLine(p, n)) == PositionLine(p, n)
  {
    ConcatEnds(p.Name(), ": ");
    StripConcat(p.Name() + ": ", IntToString(n));
  }

  lemma PositionLineKeys(p: Player, n: int)
    ensures var line := PositionLine(p, n);
      line != [] && line[0] == 'P' && !HasKey(line, "turn:")
      && HasKey(line, if p == Player1 then "player1:" else "player2:")
      && (p == Player2 ==> !HasKey(line, "player1:"))
  {
    var v := IntToString(n);
    var line := PositionLine(p, n);
    var key := if p == Player1 then "player1:" else "player2:";
    assert Lower(p.Name() + ":") == key;
    assert line == (p.Name() + ":") + (" " + v);
    KeyOf(p.Name() + ":", key, " " + v);
    StartsWith(p.Name() + ":", " " + v);
    NotKey(line, "turn:", 0);
    if p == Player2 {
      assert line[6] == '2';
      NotKey(line, "player1:", 6);
    }
  }

  lemma ReadPlayer1Key(a: Scan, line: string)
    requires Strip(line) == line && line != [] && line[0] != '#'
    requires !HasKey(line, "turn:") && HasKey(line, "player1:")
    ensures ':' in line && ScanLine(a, line) == a.(pos1 := PositionValue(ValueOf(line)))
  {
    KeyColon(line, "player1:");
  }

  lemma ReadPlayer2Key(a: Scan, line: string)
    requires Strip(line) == line && line != [] && line[0] != '#'
    requires !HasKey(line, "turn:") && !HasKey(line, "player1:") && HasKey(line, "player2:")
    ensures ':' in line && ScanLine(a, line) == a.(pos2 := PositionValue(ValueOf(line)))
  {
    KeyColon(line, "player2:");
  }

  /** Reading a written position line sets that position. */
  lemma ReadPositionLine(a: Scan, p: Player, n: int)
    requires n >= 0
    ensures ScanLine(a, PositionLine(p, n)) == if p == Player1 then a.(pos1 := n) else a.(pos2 := n)
  {
    PositionLineText(p, n);
    PositionLineKeys(p, n);
    ParseIntToString(n);
    if p == Player1 {
      ReadPlayer1Key(a, PositionLine(p, n));
    } else {
      ReadPlayer2Key(a, PositionLine(p, n));
    }
  }

  lemma ReadBlankLine(a: Scan)
    ensures ScanLine(a, "") == a
  {}

  lemma EventsLineKey()
    ensures HasKey("Events:", "events:")
  {
    assert Lower("Events:") == "events:";
    KeyOf("Events:", "events:", "");
    assert "Events:" + "" == "Events:";
  }

  lemma EventsLineOtherKeys()
    ensures !HasKey("Events:", "turn:") && !HasKey("Events:", "player1:") && !HasKey("Events:", "player2:")
  {
    NotKey("Events:", "turn:", 0);
    NotKey("Events:", "player1:", 0);
    NotKey("Events:", "player2:", 0);
  }

  lemma EventsLineStripped()
    ensures Strip("Events:") == "Events:"
  {
    StripFacts("Events:");
  }

  lemma ReadEventsKey(a: Scan, line: string)
    requires Strip(line) == line && line != [] && line[0] != '#'
    requires !HasKey(line, "turn:") && !HasKey(line, "player1:") && !HasKey(line, "player2:")
    requires HasKey(line, "events:")
    ensures ScanLine(a, line) == a.(inEvents := true)
  {}

  /** Reading the written `Events:` line starts the event table. */
  lemma ReadEventsLine(a: Scan)
    ensures ScanLine(a, "Events:") == a.(inEvents := true)
  {
    EventsLineKey();
    EventsLineOtherKeys();
    EventsLineStripped();
    ReadEventsKey(a, "Events:");
  }

  /** Reading five lines is reading them one after the other. */
  lemma ScanFive(a: Scan, l0: string, l1: string, l2: string, l3: string, l4: string)
    ensures ScanFrom(a, [l0, l1, l2, l3, l4])
      == ScanLine(ScanLine(ScanLine(ScanLine(ScanLine(a, l0), l1), l2), l3), l4)
  {
    ScanSnoc(a, [], l0);
    assert [] + [l0] == [l0];
    ScanSnoc(a, [l0], l1);
    assert [l0] + [l1] == [l0, l1];
    ScanSnoc(a, [l0, l1], l2);
    assert [l0, l1] + [l2] == [l0, l1, l2];
    ScanSnoc(a, [l0, l1, l2], l3);
    assert [l0, l1, l2] + [l3] == [l0, l1, l2, l3];
    ScanSnoc(a, [l0, l1, l2, l3], l4);
    assert [l0, l1, l2, l3] + [l4] == [l0, l1, l2, l3, l4];
  }

  /** Reading the header gives the turn and the positions, and starts the event table. */
  lemma ReadHeader(s: State)
    requires s.pos1 >= 0 && s.pos2 >= 0
    ensures ScanFrom(START, Header(s)) == Scan(s.turn, s.pos1, s.pos2, map[], true)
  {
    var s1 := START.(turn := s.turn);
    var s2 := s1.(pos1 := s.pos1);
    var s3 := s2.(pos2 := s.pos2);
    ScanFive(START, TurnLine(s.turn), PositionLine(Player1, s.pos1), PositionLine(Player2, s.pos2), "", "Events:");
    ReadTurnLine(START, s.turn);
    ReadPositionLine(s1, Player1, s.pos1);
    ReadPositionLine(s2, Player2, s.pos2);
    ReadBlankLine(s3);
    ReadEventsLine(s3);
  }

  // Event lines.

  /** The first and last characters of a join of non-empty pieces are those
      of its first and last pieces. */
  lemma {:induction false} JoinEnds(parts: seq<string>, sep: string)
    requires |parts| >= 1 && forall k :: 0 <= k < |parts| ==> parts[k] != []
    ensures var j := Join(parts, sep);
      j != [] && j[0] == parts[0][0] && j[|j| - 1] == parts[|parts| - 1][|parts[|parts| - 1]| - 1]
    decreases |parts|
  {
    if |parts| > 1 {
      JoinEnds(parts[1..], sep);
      assert Join(parts, sep) == parts[0] + sep + Join(parts[1..], sep);
    }
  }

  /** Each name with one blank in front: the pieces that `", ".join(names)`
      falls into when it is split at the commas. */
  function Padded(names: seq<string>): (r: seq<string>)
    ensures |r| == |names|
    ensures forall k :: 0 <= k < |r| ==> r[k] == " " + names[k]
  {
    seq(|names|, k requires 0 <= k < |names| => " " + names[k])
  }

  /** A blank, then the names joined by `", "`, is the padded names joined by `","`. */
  lemma {:induction false} PaddedJoin(names: seq<string>)
    requires |names| >= 1
    ensures " " + Join(names, ", ") == Join(Padded(names), [','])
    decreases |names|
  {
    if |names| > 1 {
      PaddedJoin(names[1..]);
      assert Padded(names)[1..] == Padded(names[1..]);
      assert " " + Join(names, ", ") == (" " + names[0]) + [','] + (" " + Join(names[1..], ", "));
    }
  }

  /** Padding stored names cannot add a comma. */
  lemma PaddedNoComma(names: seq<string>)
    requires forall k :: 0 <= k < |names| ==> NormalName(names[k])
    ensures forall k :: 0 <= k < |Padded(names)| ==> ',' !in Padded(names)[k]
  {}

  /** Reading pieces whose first one has text in it stores that one first. */
  lemma NamesCons(parts: seq<string>)
    requires parts != [] && forall k :: 0 <= k < |parts| ==> ',' !in parts[k]
    requires Strip(parts[0]) != []
    ensures Names(parts) == [Capitalize(Strip(parts[0]))] + Names(parts[1..])
  {}

  /** A padded stored name in front of other pieces is read back as itself. */
  lemma NamesPaddedCons(parts: seq<string>, n: string, rest: seq<string>)
    requires parts != [] && forall k :: 0 <= k < |parts| ==> ',' !in parts[k]
    requires parts[0] == " " + n && NormalName(n)
    requires Names(parts[1..]) == rest
    ensures Names(parts) == [n] + rest
  {
    StripPadded(n);
    CapitalizedFixed(n);
    NamesCons(parts);
  }

  /** Reading the padded pieces of stored names gives the names back. */
  lemma {:induction false} NamesOfPadded(names: seq<string>)
    requires forall k :: 0 <= k < |names| ==> NormalName(names[k])
    ensures forall k :: 0 <= k < |Padded(names)| ==> ',' !in Padded(names)[k]
    ensures Names(Padded(names)) == names
    decreases |names|
  {
    PaddedNoComma(names);
    if names != [] {
      var parts := Padded(names);
      NamesOfPadded(names[1..]);
      assert parts[1..] == Padded(names[1..]);
      NamesPaddedCons(parts, names[0], names[1..]);
      assert names == [names[0]] + names[1..];
    }
  }

  /** Splitting the padded join at the commas gives the padded names. */
  lemma SplitPadded(names: seq<string>)
    requires names != [] && forall k :: 0 <= k < |names| ==> NormalName(names[k])
    ensures Split(" " + Join(names, ", "), ',') == Padded(names)
  {
    PaddedJoin(names);
    PaddedNoComma(names);
    SplitJoin(Padded(names), ',');
  }

  /** `str(n)` holds no colon and no surrounding blanks. */
  lemma NumberText(n: int)
    ensures var v := IntToString(n);
      ':' !in v && Strip(v) == v && (IsDigit(v[0]) || v[0] == '-')
  {
    var v := IntToString(n);
    forall i | 0 <= i < |v| ensures v[i] != ':' {
      if i > 0 {
        assert IsDigit(v[i]);
      }
    }
  }

  /** A written event line splits at its first colon into the tile number
      and the padded, joined names. */
  lemma EventLineSplit(tile: int, names: seq<string>)
    ensures var line := EventLine(tile, names);
      ':' in line && SplitFirst(line, ':') == (IntToString(tile), " " + Join(names, ", "))
  {
    NumberText(tile);
    SplitAtColon(IntToString(tile), Join(names, ", "));
  }

  /** A written event line starts with the tile number and ends with the
      last name, so it has no surrounding blanks. */
  lemma EventLineEnds(tile: int, names: seq<string>)
    requires names != [] && forall k :: 0 <= k < |names| ==> NormalName(names[k])
    ensures var line := EventLine(tile, names);
      line != [] && line[0] == IntToString(tile)[0] && Strip(line) == line
  {
    var v := IntToString(tile);
    var j := Join(names, ", ");
    var line := EventLine(tile, names);
    NumberText(tile);
    JoinEnds(names, ", ");
    ConcatEnds(v, ": ");
    ConcatEnds(v + ": ", j);
  }

  /** None of the header keys starts a line that starts like a number. */
  lemma NumberKeys(line: string)
    requires line != [] && (IsDigit(line[0]) || line[0] == '-')
    ensures line[0] != '#' && !HasKey(line, "turn:") && !HasKey(line, "player1:")
      && !HasKey(line, "player2:") && !HasKey(line, "events:")
  {
    NotKey(line, "turn:", 0);
    NotKey(line, "player1:", 0);
    NotKey(line, "player2:", 0);
    NotKey(line, "events:", 0);
  }

  lemma ReadTileKey(a: Scan, line: string)
    requires Strip(line) == line && line != [] && line[0] != '#' && a.inEvents
    requires !HasKey(line, "turn:") && !HasKey(line, "player1:") && !HasKey(line, "player2:")
    requires !HasKey(line, "events:")
    ensures ScanLine(a, line) == a.(events := TileLine(a.events, line))
  {}

  /** A written event line adds its names to its tile. */
  lemma TileLineOf(events: map<int, seq<string>>, tile: int, names: seq<string>)
    requires names != [] && forall k :: 0 <= k < |names| ==> NormalName(names[k])
    ensures TileLine(events, EventLine(tile, names)) == events[tile := Lookup(events, tile) + names]
  {
    var line := EventLine(tile, names);
    var right := " " + Join(names, ", ");
    EventLineSplit(tile, names);
    assert SplitFirst(line, ':') == (IntToString(tile), right);
    NumberText(tile);
    ParseIntToString(tile);
    assert ParseInt(Strip(IntToString(tile))) == Some(tile);
    SplitPadded(names);
    NamesOfPadded(names);
    assert Names(Split(right, ',')) == names;
  }

  lemma ReadTileText(a: Scan, line: string, tile: int, names: seq<string>)
    requires line == EventLine(tile, names) && a.inEvents
    requires names != [] && forall k :: 0 <= k < |names| ==> NormalName(names[k])
    ensures ScanLine(a, line) == a.(events := a.events[tile := Lookup(a.events, tile) + names])
  {
    EventLineEnds(tile, names);
    NumberText(tile);
    NumberKeys(line);
    ReadTileKey(a, line);
    TileLineOf(a.events, tile, names);
  }

  /** Reading a written event line, once in the event table, adds its names to its tile. */
  lemma ReadTileLine(a: Scan, tile: int, names: seq<string>)
    requires a.inEvents
    requires names != [] && forall k :: 0 <= k < |names| ==> NormalName(names[k])
    ensures ScanLine(a, EventLine(tile, names)) == a.(events := a.events[tile := Lookup(a.events, tile) + names])
  {
    ReadTileText(a, EventLine(tile, names), tile, names);
  }

  // Whole files.

  /** The entries of `events` for the tiles listed in `tiles`. */
  function Among(events: map<int, seq<string>>, tiles: seq<int>): (r: map<int, seq<string>>)
    ensures forall t :: t in r <==> t in tiles && t in events
    ensures forall t :: t in r ==> r[t] == events[t]
  {
    map t | t in tiles && t in events :: events[t]
  }

  /** Adding the next tile's entry to those of the tiles before it. */
  lemma AmongSnoc(events: map<int, seq<string>>, tiles: seq<int>, k: nat)
    requires 0 < k <= |tiles| && tiles[k - 1] in events
    requires forall i, j :: 0 <= i < j < |tiles| ==> tiles[i] < tiles[j]
    ensures var tile := tiles[k - 1];
      var before := Among(events, tiles[..k - 1]);
      before[tile := Lookup(before, tile) + events[tile]] == Among(events, tiles[..k])
  {
    var tile := tiles[k - 1];
    var before := Among(events, tiles[..k - 1]);
    var after := Among(events, tiles[..k]);
    assert tile !in tiles[..k - 1];
    assert Lookup(before, tile) + events[tile] == events[tile];
    assert tiles[..k] == tiles[..k - 1] + [tile];
    assert after.Keys == before.Keys + {tile};
  }

  /** Reading one more event line is reading that line after the others. */
  lemma ScanEventLinesSnoc(a: Scan, events: map<int, seq<string>>, tiles: seq<int>, k: nat)
    requires 0 < k <= |tiles|
    ensures ScanFrom(a, EventLines(events, tiles[..k]))
      == ScanLine(ScanFrom(a, EventLines(events, tiles[..k - 1])), EventLine(tiles[k - 1], Lookup(events, tiles[k - 1])))
  {
    EventLinesSnoc(events, tiles, k - 1);
    ScanSnoc(a, EventLines(events, tiles[..k - 1]), EventLine(tiles[k - 1], Lookup(events, tiles[k - 1])));
  }

  /** Reading the event lines of the first `k` tiles, starting from an empty
      table, fills the table with exactly those tiles' entries. */
  lemma {:induction false} ReadEventLines(a: Scan, events: map<int, seq<string>>, tiles: seq<int>, k: nat)
    requires a.inEvents && a.events == map[] && WellFormedEvents(events)
    requires forall i :: 0 <= i < |tiles| ==> tiles[i] in events
    requires forall i, j :: 0 <= i < j < |tiles| ==> tiles[i] < tiles[j]
    requires k <= |tiles|
    ensures ScanFrom(a, EventLines(events, tiles[..k])) == a.(events := Among(events, tiles[..k]))
  {
    if k == 0 {
      assert tiles[..0] == [];
      assert Among(events, []) == map[];
    } else {
      var tile := tiles[k - 1];
      var b := a.(events := Among(events, tiles[..k - 1]));
      ReadEventLines(a, events, tiles, k - 1);
      ScanEventLinesSnoc(a, events, tiles, k);
      ReadTileLine(b, tile, events[tile]);
      AmongSnoc(events, tiles, k);
    }
  }

  /** The entries of all of a table's tiles are the table. */
  lemma AmongAll(events: map<int, seq<string>>)
    ensures Among(events, SortedKeys(events.Keys)) == events
  {}

  lemma ScanParts(a: Scan, h: seq<string>, e: seq<string>, b: Scan, c: Scan)
    requires ScanFrom(a, h) == b && ScanFrom(b, e) == c
    ensures ScanFrom(a, h + e) == c
  {
    ScanAppend(a, h, e);
  }

  /** Reading the event lines of a whole table fills an empty table with it. */
  lemma ReadAllEventLines(a: Scan, events: map<int, seq<string>>)
    requires a.inEvents && a.events == map[] && WellFormedEvents(events)
    ensures ScanFrom(a, EventLines(events, SortedKeys(events.Keys))) == a.(events := events)
  {
    var tiles := SortedKeys(events.Keys);
    ReadEventLines(a, events, tiles, |tiles|);
    assert tiles[..|tiles|] == tiles;
    AmongAll(events);
  }

  /** Reading a written file gives back the turn, the positions and the table. */
  lemma ReadRendered(s: State)
    requires s.pos1 >= 0 && s.pos2 >= 0 && WellFormedEvents(s.events)
    ensures ScanFrom(START, Render(s)) == Scan(s.turn, s.pos1, s.pos2, s.events, true)
  {
    var b := Scan(s.turn, s.pos1, s.pos2, map[], true);
    ReadHeader(s);
    ReadAllEventLines(b, s.events);
    ScanParts(START, Header(s), EventLines(s.events, SortedKeys(s.events.Keys)), b, b.(events := s.events));
  }

  /** Saving a consistent state and loading the file gives the same state. */
  lemma LoadAfterSave(s: State)
    requires Consistent(s) && WellFormedEvents(s.events)
    ensures Parse(Some(Render(s))) == s
  {
    ReadRendered(s);
  }

  /** A loaded state saved and loaded again is unchanged. */
  lemma ReloadIsStable(file: Option<seq<string>>)
    ensures Parse(Some(Render(Parse(file)))) == Parse(file)
  {
    LoadAfterSave(Parse(file));
  }
}
