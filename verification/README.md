# Math trainer and voxel builder: a Dafny model of the game logic

The program is a Streamlit arithmetic trainer. It generates addition,
subtraction, multiplication and division questions. Each correct answer earns
a block from a weighted catalog. Earned blocks can then be placed in a Three.js
voxel builder that is embedded as JavaScript in the page. This project models
the program's sequential logic and proves properties about it:

- `questions.dfy` (module `Questions`): the four question generators and the
  question-list generator. The random draws (the operator picked from the
  enabled list, and the two integers drawn for it) are arguments. The
  `requires` clauses give the ranges that `randint` draws from.
- `game.dfy` (module `Game`): the session dictionary as an explicit `Session`
  value. It covers the reset action, awarding a block, and the counter of
  earned blocks.
- `blocks.dfy` (module `Blocks`): the block catalog's names and weights.
- `voxel_key.dfy` (module `VoxelKey`): the builder's string key
  `x|y|z`, together with a decoder. The decoder proves that distinct cells never share a
  key.
- `voxels.dfy` (module `Voxels`): the builder's ledger with the meshes
  stripped out. It holds a world map from cells to block names and an
  inventory map from names to counts. It models placing, removing and
  loading a world, the starting inventory, and the free-build switch.
- `outcomes.dfy` (module `Outcomes`): `Option` and `Result`.

Some arithmetic is written out because Dafny's operators differ from the
program's. For a positive divisor, Dafny's `/` and `%` agree with Python's
`//` and `%`. The generator's division questions always have a divisor of at
least 1. When a `randint` range is empty, or `random.choice` gets an empty
list, Python raises an exception. Here that case is "no valid draw exists".
`Questions.DrawAvailable` states exactly when a draw exists.

The JavaScript `removeVoxel` refunds a block only when `info.name` is truthy,
so a block named by the empty string is never refunded. The model keeps this
behaviour. The round-trip and conservation lemmas therefore exclude the empty
name, and `Voxels.EmptyNameIsNotRefunded` states what happens to it. Catalog
names are never empty (`Blocks.CatalogWellFormed`).

Other behaviours of the program:

- Reset always keeps an existing inventory. It creates an empty one only when
  none exists.
- The generator has no error result for bad settings. The random calls raise
  instead, and `Questions.DrawAvailable` states when. A count of zero or less
  yields an empty question list.
- Awarding a block when no inventory exists raises in the program. Here that
  is `Failure(NoInventory)`.
- Placing and removing report only `true` or `false`, with no reason.
- Loading a world neither checks the inventory nor charges it. Blocks that
  arrive in a document can be removed for a refund without ever being earned
  (`Voxels.LoadedBlockIsRefunded`).

## Model

| member | source | states |
|---|---|---|
| Blocks.Names | math_app.py:98 | the catalog's name list, with the same length as the catalog and name i being entry i's name |
| Blocks.CatalogWellFormed | math_app.py:14-30 | the catalog has fifteen entries, with no name repeated, no name empty and every weight positive |
| Questions.Dispatch | math_app.py:75-79 | `+`, `−` and `×` select addition, subtraction and multiplication; every other operator string falls through to division (each direction stated as an iff) |
| Questions.SymbolDispatches | math_app.py:55-79 | the symbol each generator stamps on its question dispatches back to that generator |
| Questions.GenAdd | math_app.py:53-55 | the operands are the two draws in draw order, both in [min, max], and the answer is their sum |
| Questions.GenSub | math_app.py:57-60 | the operands are the two draws with the larger first, so the answer `a - b` is never negative |
| Questions.GenMul | math_app.py:62-64 | the operands are the two draws in draw order, both in [min, max], and the answer is their product |
| Questions.ExactQuotient | math_app.py:69-70 | a product divided by a positive factor gives the other factor with remainder 0 |
| Questions.GenDiv | math_app.py:66-70 | the divisor is at least 1 and in [max(min, 1), max]; the dividend is divisor × answer, so dividing gives the answer exactly with no remainder |
| Questions.GenOne | math_app.py:75-80 | a question's operator is the one its choice dispatches to; its operands and answer are the draws as that generator uses them (in order for + and ×, larger first for −, divisor and quotient for ÷); it is correct for that operator and in range |
| Questions.DrawAvailable | math_app.py:53-75 | the random draws for a choice are possible exactly when the choice is enabled, min ≤ max and, for division, max ≥ 1; for an enabled choice with an empty range, the program raises |
| Questions.GenerateQuestions | math_app.py:72-81 | returns exactly n questions (none when n ≤ 0); question i comes from draw i, with the dispatched operator, and is correct and in range |
| Game.ResetGame | math_app.py:84-95 | sets index 0, 3 attempts, score 0, not finished, question not done, empty feedback and no answer; stores the generated questions, question i being the one built from draw i; keeps an existing inventory and otherwise creates an empty one; the session bounds hold |
| Game.DefaultFirstReset | math_app.py:84-95 | with every default (10 questions, range 0..12, all four operators), each operator the random choice can pick has a draw in range, so no random call raises; fitting draws exist, and every first reset of a new session on fitting draws yields ten questions and an empty inventory |
| Game.ResetsKeepInventory | math_app.py:84-95 | any sequence of resets, each with its own settings and fresh draws, leaves an existing inventory as it was; a missing one is created empty |
| Game.OccurrencesIsMultiplicity | math_app.py:104-105 | the occurrence count of a name equals its multiplicity in the inventory list |
| Game.InventoryCounts | math_app.py:104-105 | the counter has a key for exactly the names earned (none when there is no inventory), and each maps to how often it was earned |
| Game.AwardBlock | math_app.py:97-102 | fails exactly when there is no inventory; otherwise the list grows by one, ending in the chosen catalog name, which is returned; the game state is untouched |
| Game.AwardBumpsOneCount | math_app.py:97-105 | after an award, the awarded name's count is one higher and every other name's count is unchanged |
| VoxelKey.ParseIntInverts | math_app.py:284 | parsing a coordinate's decimal text gives the coordinate back |
| VoxelKey.SplitFindsFirstSep | math_app.py:284 | a key splits at its first `\|` into the coordinate before it and the rest |
| VoxelKey.Key | math_app.py:284 | the key of a cell decodes back to that cell's (x, y, z) |
| VoxelKey.KeyInjective | math_app.py:284-285 | distinct cells never share a key, so the voxel tables hold at most one block per cell |
| Voxels.PlaceVoxel | math_app.py:287-298 | succeeds exactly when the cell is free and, outside free-build, the name's stock is present and positive; a refusal changes nothing; success fills only that cell, and outside free-build lowers only that name's stock, by one; free-build never touches the inventory; counts stay non-negative |
| Voxels.RemoveVoxel | math_app.py:299-307 | succeeds exactly when the cell is occupied; a refusal changes nothing; success empties only that cell; outside free-build it raises the removed name's stock by one, starting from 0 when the name is absent, unless the name is empty; counts stay non-negative |
| Voxels.PlaceConserves | math_app.py:287-298 | outside free-build, for every name, stock plus blocks placed is unchanged by a placement |
| Voxels.RemoveConserves | math_app.py:299-307 | outside free-build, for every name, stock plus blocks placed is unchanged by a removal, except that an empty-named block is lost |
| Voxels.FreePlaceAddsOne | math_app.py:287-298 | in free-build, a placement adds exactly one placed block of that name |
| Voxels.PlaceThenRemove | math_app.py:287-307 | if a placement succeeds, in free-build or with a non-empty name, removing that cell again succeeds and restores both the world and the inventory exactly |
| Voxels.EmptyNameIsNotRefunded | math_app.py:305 | outside free-build, placing and then removing an empty-named block restores the world but leaves that stock one lower |
| Voxels.RemoveThenPlace | math_app.py:287-307 | removing a block and placing it back in the same cell succeeds, and restores the world and every stock; this holds in free-build, and outside it when the block's name is non-empty and no stock is negative |
| Voxels.Assemble | math_app.py:362-368 | the world built from a voxel list holds exactly the listed cells, each with the block of the last entry for that cell |
| Voxels.LoadWorld | math_app.py:356-369 | replaces the whole world with exactly the document's voxels, where the later entry wins; a missing document or voxel list gives an empty world; the inventory is untouched |
| Voxels.OpenBuilder | math_app.py:231-236 | the builder starts with the start inventory (all counts non-negative) and with the world of the given document, or no world when there is no document or it has no voxel list |
| Voxels.StartInventory | math_app.py:234-236 | an empty inventory becomes every catalog name, mapped to 9999 in free-build and 0 otherwise; a non-empty one is kept; all counts are non-negative |
| Voxels.StockIsEarned | math_app.py:131 | outside free-build, a builder opened on the counter of a non-empty session inventory has, for every name, the stock the player earned |
| Voxels.NothingEarnedNothingPlaced | math_app.py:234-236 | outside free-build, a builder opened with nothing earned refuses every placement |
| Voxels.RunKeepsLedger | math_app.py:384-409 | over any sequence of place and remove clicks outside free-build, starting from non-negative stocks: no stock goes negative, stock plus placed blocks never grows for any name, and it is preserved for every non-empty name |
| Voxels.PlacedWithinEarned | math_app.py:287-307 | outside free-build, a builder opened with no saved world on a session's earned blocks never holds more blocks of a name on the grid than the session earned, whatever clicks follow |
| Voxels.LoadedBlockIsRefunded | math_app.py:356-369 | loading charges nothing: with nothing earned, a document with one TNT block puts it on the grid, and removing it leaves one TNT in stock |

## Left out

- Streamlit page setup, caching and the session dictionary as global storage. The session is an explicit value that is passed in and returned.
- Image loading, base64 texture encoding, asset paths and local-library detection. These are file I/O and foreign libraries.
- The HTML/CSS template, its placeholder substitution and JSON embedding. The embedded JavaScript logic is modelled; the string plumbing is not.
- Script loading from CDNs, the Three.js scene, meshes, materials, lighting and the animation loop. These are rendering and network code.
- Pointer raycasting and the `Math.round(p / CELL) * CELL` snapping. This is floating-point geometry. Cells are given integers, and `Voxels.Run` takes the clicks as already resolved to place or remove actions.
- Dropdown, inventory list and message refresh. This is presentation.
- The weighted random choice of `award_block`, and all other randomness. The outcome of each draw is an argument; the distribution is not modelled.
- The question `text` string. Rendering integers into the text adds nothing to the arithmetic.
- `get_block_emoji` and the catalog's emoji, file and colour fields. These are presentation.
- Answer submission, retries and advancing to the next question. That code is not part of math_app.py.
- Saving a world to JSON. The save button has no handler in math_app.py, so there is no export to pair with `LoadWorld`.
- JavaScript numbers are doubles. Integers are exact only up to 2^53, so beyond that two cells that are distinct here can share a key in the program. For example, a loaded 9007199254740993 becomes 9007199254740992. Above 10^21, `String` also switches to exponent notation. Coordinates placed by clicking stay far below both bounds, but a loaded document can carry any coordinate.
- Voxels.PlaceVoxel: the JavaScript inventory is a plain object, and names that are inherited object properties (`toString`, `constructor`, ...) are not modelled. The model treats such a name as having no stock, but the program's stock test lets it through and its stock becomes NaN. Catalog names are never such names.
- Voxels.RemoveVoxel: removing a loaded block whose name is an inherited object property (`constructor`, ...) makes the program's refund concatenate strings; the model gives back 1. Only a loaded document can carry such a name.
- Voxels.NothingEarnedNothingPlaced: holds for every name except inherited object properties of the JavaScript inventory, for the reason above.
- Voxel documents with non-integer coordinates are not modelled. This covers fractional numbers such as `0.5`, which the program keys as `0.5|0|0`. It also covers malformed entries: missing or non-numeric coordinates, or a missing name. Entries are typed records with integer coordinates.
