# Linear board game: a verified model of its state machine

This is a Dafny model of the game engine behind a two-player board game served over HTTP. The original is `game/BoardGame.py`.

- The players advance along a track from tile 0 to tile `LAST_TILE` (100) by rolling a die.
- Landing on a tile resolves the events stored there. `Treasure` moves the player 10 tiles forward and `Portal` moves them 3 back.
- The first player to reach the last tile wins, and a win is final.
- The game is kept in a plain text file with the keys `Turn:`, `Player1:`, `Player2:`, `Events:` and `<tile>: <name>, <name>` lines.

Modules, leaf first:

- `Optional` (`optional.dfy`): the `Option` type. `None` stands for Python's `None` and for a missing file.
- `Strings` (`strings.dfy`): ASCII models of the Python built-ins the game uses: `str.strip`, `str.lower`, `str.capitalize`, `str.split`, `str.split(c, 1)`, `str.join`, `int(str)` and `str(int)`. The properties the game relies on are proved about them, for example `int(str(n)) == n`, splitting a join, and capitalizing being idempotent. `str.startswith` on a lowered line is `Codec.HasKey`.
- `Keys` (`keys.dfy`): `sorted(dict.keys())` on the integer tiles of the event table.
- `Board` (`board.dfy`): the rules as functions on a value snapshot `State` of the game:
  - which stored names are events (`Recognise`, `Recognised`);
  - how the events of one tile resolve (`Resolve`, `AfterEvents`);
  - what one move does (`AfterMove`) and what one roll does (`AfterRoll`, `AfterRolls`);
  - lemmas over any number of rolls: positions stay on the track, a winner is final, and the turn alternates.
- `Codec` (`codec.dfy`): the game file.
  - `Parse` specifies the reader line by line, and the method `ParseGameFile` is its loop.
  - `Render` specifies the writer, and the method `WriteGameFile` is its loop.
  - The lemmas prove that loading a saved game gives the saved game back.
- `Game` (`game_state.dfy`): the global `state` dictionary as the class `GameState`. Its fields are `turn`, `pos1`, `pos2`, `events` and `winner`.
  - Its methods `ApplyEvents`, `AttemptMove`, `SwitchTurn`, `Roll` and `Load` update the fields in place, and `Save` reads them to produce the file's lines. Each one is proved against the `Board`/`Codec` function for the same step.
  - The module-level method `ResolveTile` is the single pass over a tile's event names.

A game file is modelled as its sequence of lines. `None` means the file does not exist. The die value is a parameter of `Roll`.

Three points of the source's behaviour worth knowing:

- The event table holds the stored names as text, not a closed set of event kinds. Unknown names are kept when the file is loaded and skipped when events are resolved.
- The writer emits a line for every tile in the table. The table never holds an empty list, because the reader adds no entry for a line without names. So the writer never writes a tile without names, though it does not test for one.
- The round trip needs more than positions in range and a consistent winner. Every stored name must also be in the form the reader stores it: non-empty, trimmed, comma-free and capitalized. `Codec.LoadAfterSave` requires exactly this, and every state the game reaches satisfies it (`Game.GameState.Valid`).

## Model

| member | source | states |
|---|---|---|
| Board.Player.Other | game/BoardGame.py:239-240 | the player whose turn comes next is never the current one |
| Board.SwitchTwice | game/BoardGame.py:239-240 | switching the turn twice gives it back to the same player |
| Board.RecogniseStored | game/BoardGame.py:181-188 | for a name in the capitalized form the loader stores, the case-insensitive match finds an event exactly when the name is that event's own name |
| Board.Recognise | game/BoardGame.py:182-188 | a name is Treasure exactly when it lowers to `treasure`, and Portal exactly when it lowers to `portal` |
| Board.Recognised | game/BoardGame.py:181-188 | the events applied from a list of names are at most one per name |
| Board.RecognisedExtremes | game/BoardGame.py:181-188 | a list with no recognised name applies no event; a list of recognised names applies, in order, each name's own event |
| Board.RecognisedAppend | game/BoardGame.py:181-188 | the events of two lists of names in a row are those of the first list followed by those of the second |
| Board.ShiftCounts | game/BoardGame.py:181-188 | the summed move of the applied events is 10 per Treasure minus 3 per Portal, whatever their order |
| Board.Clamp | game/BoardGame.py:192 | `max(0, min(LAST_TILE, x))` lies on the track, keeps an on-track value, and sends values below and above the track to its two ends |
| Board.Resolve | game/BoardGame.py:176-192 | the applied events are exactly the recognised names in stored order; the final tile is the clamp of tile + 10·#Treasure − 3·#Portal, clamped once |
| Game.ResolveTile | game/BoardGame.py:176-192 | the loop over a tile's names, with invariants on the applied list and the running position, computes `Resolve` |
| Board.AfterEvents | game/BoardGame.py:168-198 | resolving events uses only the current tile's list, moves only that player to the final tile, sets the winner exactly when the final tile is the last, and changes nothing else; a consistent game with no winner stays consistent |
| Game.GameState.ApplyEvents | game/BoardGame.py:168-198 | the in-place update leaves the fields equal to `AfterEvents` of the old fields and returns its applied list and final tile; on a valid game with no winner it keeps the class invariant |
| Board.AfterMove | game/BoardGame.py:201-236 | a finished game refuses and is unchanged; otherwise the player moves to min(start+steps, LAST_TILE) and wins at once with no events and final LAST_TILE, or else resolves the landed tile's events; the winner is set iff the player ends on the last tile; the other player, the turn and the events are untouched; a consistent state stays consistent |
| Game.GameState.AttemptMove | game/BoardGame.py:201-236 | the in-place move leaves the fields equal to `AfterMove` of the old fields and returns its result; the class invariant is kept |
| Game.GameState.SwitchTurn | game/BoardGame.py:239-240 | the turn passes to the other player, nothing else changes, and the class invariant is kept |
| Board.AfterRoll | game/BoardGame.py:272-280 | a finished game refuses and is unchanged; otherwise the result is that of `AfterMove` for the player to move and the die, the mover stands on its final tile with its winner, the turn passes iff there is still no winner, the other player and the events are untouched, and consistency is kept |
| Game.GameState.Roll | game/BoardGame.py:272-286 | a roll updates the fields to `AfterRoll`, keeps the class invariant, and after a move saves lines that load back to the new state |
| Board.RollsKeepConsistent | game/BoardGame.py:272-280 | over any series of rolls both positions stay in [0, LAST_TILE] and the winner stays the one the positions imply |
| Board.WinnerIsFinal | game/BoardGame.py:206-207 | once there is a winner, no series of rolls changes the game |
| Board.TurnAlternates | game/BoardGame.py:279-280 | while nobody has won, the turn after n rolls is the starting player for even n and the opponent for odd n |
| Board.DerivedWinner | game/BoardGame.py:124-127 | a player at or past the last tile is the winner, and Player2 takes precedence when both are there |
| Codec.TurnValue | game/BoardGame.py:86-89 | the turn is Player2 exactly when the value is `Player2`; anything else gives Player1 |
| Codec.PositionValue | game/BoardGame.py:90-101 | a position value is `max(0, int(v))`: 0 when the text is not an integer or is a negative one, the integer itself otherwise |
| Codec.Names | game/BoardGame.py:115 | the stored names of the comma-separated pieces are at most as many as the pieces, each is non-empty, trimmed, comma-free and capitalized, and pieces that are all blank give no name |
| Codec.NamesKeep | game/BoardGame.py:115 | every piece with text in it is stored, trimmed and capitalized, whether or not it names a known event |
| Codec.NamesAll | game/BoardGame.py:115 | when no piece is blank, the stored names are exactly the pieces in order, each trimmed and capitalized |
| Codec.NamesAppend | game/BoardGame.py:115 | the names of two runs of pieces are those of the first run followed by those of the second, so blank pieces drop out without reordering the rest |
| Codec.NameIsNormal | game/BoardGame.py:115 | trimming and capitalizing a comma-free piece with text in it gives a name in stored form |
| Codec.TileLine | game/BoardGame.py:105-117 | a tile line keeps the event table well formed |
| Codec.TileLineSkips | game/BoardGame.py:107-116 | a line without a colon, with a non-integer tile, or with only blank names leaves the event table unchanged |
| Codec.TileLineAppends | game/BoardGame.py:109-117 | tile lines accumulate: every tile keeps its earlier names as a prefix, and the only tile that is added or changed is the integer left of the line's first colon |
| Codec.SkippedLine | game/BoardGame.py:84-85 | blank and `#` lines change nothing |
| Codec.NoColonKeepsEvents | game/BoardGame.py:105-108 | a line without a colon never changes the event table, before or after `Events:` |
| Codec.ScanLine | game/BoardGame.py:84-117 | reading any line keeps every stored name in stored form |
| Codec.ScanFrom | game/BoardGame.py:83-117 | reading any sequence of lines keeps the event table well formed |
| Codec.Finish | game/BoardGame.py:120-127 | after reading, both positions are clamped to the track and the winner is derived from them, Player2 last |
| Codec.Parse | game/BoardGame.py:56-129 | any file, however malformed, gives a consistent state with a well-formed event table; a missing or empty file gives the default game |
| Codec.ParseGameFile | game/BoardGame.py:56-129 | the reading loop, with the invariant that the scan so far is the effect of the lines read, computes `Parse` |
| Codec.Render | game/BoardGame.py:136-145 | the written file has the five header lines plus one line per tile of the event table |
| Codec.WriteGameFile | game/BoardGame.py:132-146 | the writing loop, with the invariant that it has written the header and the lines of the first k sorted tiles, produces `Render` |
| Codec.LoadAfterSave | game/BoardGame.py:132-145 | writing a consistent state whose names are in stored form and then reading the file gives back the same state |
| Codec.ReloadIsStable | game/BoardGame.py:56-129 | a loaded game, saved and loaded again, is unchanged |
| Game.GameState.constructor | game/BoardGame.py:47-52 | a new game has Player1 to move, both players at 0, no events and no winner |
| Game.GameState.Load | game/BoardGame.py:151-157 | loading replaces every field with the parsed state and establishes the class invariant |
| Game.GameState.Save | game/BoardGame.py:160-161 | the saved lines are the rendering of the fields, and they load back to the same fields when the invariant holds |
| Keys.SortedKeys | game/BoardGame.py:143 | the tiles are listed each exactly once, in strictly ascending order |
| Strings.StripSpan | game/BoardGame.py:80 | stripping removes blanks and nothing else: the result is a contiguous slice of the line with only blanks cut off on either side |
| Strings.Strip | game/BoardGame.py:80 | stripping never lengthens a line, leaves no blank at either end, and leaves a line without surrounding blanks as it is |
| Strings.StripEmpty | game/BoardGame.py:84 | a stripped line is empty exactly when the raw line is all blanks |
| Strings.StripKeepsOut | game/BoardGame.py:107 | stripping cannot introduce a character, so a line without a colon keeps none |
| Strings.Lower | game/BoardGame.py:86 | lowering keeps the length of the text |
| Strings.LowerCases | game/BoardGame.py:86 | after lowering no upper-case letter is left: each one becomes the letter 32 code points above it, and every other character is unchanged |
| Strings.Capitalize | game/BoardGame.py:115 | capitalizing keeps the length, upper-cases the first character and lower-cases all the others |
| Strings.CapitalizedFixed | game/BoardGame.py:115 | a name is in capitalized form exactly when capitalizing leaves it unchanged |
| Strings.CapitalizeNormal | game/BoardGame.py:115 | capitalizing gives the capitalized form, is idempotent, and keeps a non-blank first or last character non-blank |
| Strings.IndexOf | game/BoardGame.py:109 | the index found holds the separator and no earlier character does |
| Strings.SplitFirstJoin | game/BoardGame.py:109 | the two sides of a split at the first separator, with the separator between them, give back the line |
| Strings.SplitFirstOf | game/BoardGame.py:109 | a text with no separator, then the separator, then anything, splits back into those two sides |
| Strings.Split | game/BoardGame.py:115 | the pieces of a split contain no separator and rejoin to the text |
| Strings.Join | game/BoardGame.py:144 | joining no pieces gives the empty text, and a join starts with its first piece, followed by the separator when there are more |
| Strings.SplitJoin | game/BoardGame.py:144 | splitting the join of separator-free pieces gives the pieces back |
| Strings.IntToString | game/BoardGame.py:138-139 | `str(n)` is digits without leading zeros, with a leading minus sign only for negative numbers |
| Strings.ParseInt | game/BoardGame.py:111 | `int()` succeeds exactly on an optional sign followed by at least one decimal digit, reads plain digits as their decimal value and signed digits as that value, negated after a minus sign (so `+5` is 5 and `-05` is -5), and gives a negative number only after a minus sign |
| Strings.ParseIntToString | game/BoardGame.py:145 | `int(str(n)) == n` for every integer |

## Left out

- The HTTP layer: the Flask app, the routes, `render_template`, `jsonify` and the status codes (game/BoardGame.py:39, 247-311). These only transport and render. `/reset` is `Game.GameState.Load`, and `/game_state` reads the fields.
- The installation of Flask through `pip` at start-up (game/BoardGame.py:23-37). It is environment set-up.
- File I/O:
  - `os.path.exists`, `open`, `readlines`, `"\n".join` and `write` are not modelled.
  - A file is its sequence of lines, and a missing file is `None`.
  - An existing file that cannot be opened or is not valid UTF-8 makes `open`/`readlines` raise (game/BoardGame.py:79-80), and the exception propagates out of the load. The model has no such failure: every file it is given is a readable sequence of lines.
  - The splitting of file text into lines is not modelled.
  - The `try`/`except` around the save after a roll (game/BoardGame.py:282-286) and around `/save` is not modelled: `Game.GameState.Roll` always returns the lines it would write.
- `random.randint` in `roll_die` (game/BoardGame.py:164-165): the die value is the parameter of `Game.GameState.Roll`, required to lie in 1..6.
- Strings.ParseInt: models `int()` on ASCII text only, as an optional sign and decimal digits. Underscores between digits and non-ASCII digits, which Python also accepts, are not modelled. Nor is the limit on the length of decimal numerals in recent Python versions (4300 digits by default): there `int()` raises on longer numerals, so such a `Player1:` line gives position 0 and such a tile line is skipped, while the model reads the number (a position then clamps to 100 and gives a winner).
- Strings.Strip, Strings.Lower, Strings.Capitalize: ASCII only. Unicode whitespace, case mapping and title-case characters are not modelled.
- Concurrency: the source has no locking, and the one global state is used sequentially.
