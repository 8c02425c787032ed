# ShuffleMyriad card table, modelled in Dafny

ShuffleMyriad is a pair of Tkinter programs for playing a trading-card game
by hand. This project models the card-table logic that sits under their
widgets.

**The simulator** (`ShuffleMyriadApp`) keeps four lists:

- `deck`, `ex_deck` and `on_board` hold cards;
- `markers` holds text markers and coloured chips.

Each card carries a position, a size and three flags: `rotated`, `face_up`
and `revealed`. The board is a fixed 960x720 area. The user's callbacks
change these lists and the pieces in them:

- draw a card from the deck, or pick one out of it;
- put a card back on top of the deck or under it;
- bring a piece to the front or send it to the back;
- rotate a card, or stand every card upright;
- turn cards over, or turn them all face up or face down;
- gather the selected cards together;
- click, drag, release and right-click;
- load a deck file;
- save the board to a text file and load it back.

A second window shows the opponent the board turned half round. There, cards
in the owner's hand area and face-down cards show their backs.

**The deck editor** (`DeckEditorApp`) handles the decks themselves:

- it reads a card catalog (`CardList.csv`);
- it edits a main deck and an EX deck as lists of card ids;
- it saves them in the deck file the simulator reads, and reads that file
  back;
- it can generate a random ("gacha") deck.

The model is organised as follows:

| module | what it holds |
|---|---|
| `Common` | the list vocabulary: Python's `list.remove`, the filtering comprehension, sub-sequences, no-duplicate facts |
| `Text` | the Python string operations both programs rely on, with Python's semantics: `strip`, `split`, `int()`, `str()`, `lower`, `os.path.basename` and `os.path.join` |
| `Geometry` | the board geometry: clamping, hit tests, the rubber band, bounding boxes, rotation about the centre, the EX layout, marker sizing and the mirrored opponent view |
| `Pieces` | the `Card` and `Marker` classes (the dicts the callbacks change in place), plus the list operations on plain sequences with their laws |
| `BoardFile` | the board-save format: the writer as a function, and the reader's loop as a step function over a state |
| `DeckFormat` | the deck file: the editor's writer and its section-machine reader, and the simulator's reader |
| `Table` | the simulator's state as the class `Table.Table`, one method per callback |
| `Config` | the refresh-rate setting of `config.cfg` and the life-points input validator |
| `Catalog` | the catalog reader, the `"<id> - <name>"` list-box texts and the search filter |
| `Sorting` | Python's `list.sort()` on strings and on `(text, id)` pairs |
| `Editor` | the editor's state as the class `Editor.DeckEditor`, and the gacha partition |

Inputs that come from outside the model are passed in as parameters:

- mouse positions and dialog answers;
- the outcome of writing a file;
- text measurements;
- the results of `random` (the nudge offsets, the shuffled order, the pulled ids).

A file is the sequence of its lines, or `None` when it cannot be opened.

**Cards and markers are references.** Python compares card and marker
dicts by value in `in`, `remove` and `==`. The model assumes instead that
two distinct dicts never compare equal, and compares `Card` and `Marker`
objects by identity. The assumption usually holds for a face-up card,
which carries its own image objects. It fails for two cards or two
markers whose fields all agree; "## Left out" names what the model then
does not capture.

**Callbacks and redraws.** Each `Table` method covers one callback up to its
closing `draw_cards()` call. What `draw_cards()` does to the state is the
separate method `Table.Table.Redraw`: it clamps every card into the board,
resizes cards that have a picture to their orientation, and sizes markers
to their text.

## Model

| member | source | states |
|---|---|---|
| Common.RemoveFirst | ShuffleMyriad_Simulator.py:830-838 | `list.remove` drops exactly one occurrence of a present item (the multiset loses that one item) and leaves a list without it unchanged |
| Common.RemoveFirstNoDups | ShuffleMyriad_Simulator.py:868-893 | removing an item from a duplicate-free list leaves no copy of it, keeps every other item and adds nothing |
| Common.Without | ShuffleMyriad_Simulator.py:527-529 | the comprehension keeps exactly the items not in the excluded set |
| Common.WithoutThenAppendIsPermutation | ShuffleMyriad_Simulator.py:527-529 | the non-excluded items followed by the excluded ones are a permutation of the original list |
| Common.PermutationNoDups | ShuffleMyriad_Simulator.py:634-640 | reordering a duplicate-free list (a shuffle) cannot create duplicates |
| Common.FirstIndex | ShuffleMyriad_DeckEditor.py:396-402 | Python's `s.index(x)` is the position of the first occurrence of x |
| Text.Strip | ShuffleMyriad_Simulator.py:1032 | `str.strip()` yields a string with no whitespace at either end, leaves a stripped string alone, and is empty exactly when the input is all whitespace |
| Text.Split | ShuffleMyriad_Simulator.py:1053 | `str.split(sep)` yields separator-free pieces that join back to the input |
| Text.SplitJoin | ShuffleMyriad_Simulator.py:994-997 | splitting what was joined with a separator returns the pieces, when no piece holds the separator |
| Text.SplitAtMost2 | ShuffleMyriad_DeckEditor.py:88 | `split(',', 2)` yields at most three pieces that join back to the input, and only the third can hold a separator |
| Text.BeforeFirst | ShuffleMyriad_DeckEditor.py:228-230 | `s.split(pat, 1)[0]` is the longest prefix before the first occurrence of pat, or all of s |
| Text.ContainsFromMeansContains | ShuffleMyriad_DeckEditor.py:205 | the left-to-right substring test holds exactly when the pattern occurs somewhere |
| Text.Lower | ShuffleMyriad_DeckEditor.py:200-205 | lower-casing maps each character on its own and keeps the length |
| Text.IntToStringParses | ShuffleMyriad_Simulator.py:1055-1059 | `int(str(n)) == n` for every integer n |
| Text.NatToString | ShuffleMyriad_Simulator.py:995-996 | `str(n)` for n >= 0 is a non-empty string of decimal digits whose value is n |
| Text.Basename | ShuffleMyriad_Simulator.py:983-984 | `os.path.basename` is the slash-free suffix after the last '/' |
| Text.ResourcePath | ShuffleMyriad_Simulator.py:1081 | `os.path.join("resource", name)` puts a relative name under `resource/` and keeps an absolute one |
| Text.BasenameOfResourcePath | ShuffleMyriad_Simulator.py:983-984 | the writer's basename undoes the reader's join for a plain name |
| Geometry.HalfTrunc | ShuffleMyriad_Simulator.py:490-491 | `int(n / 2)` is n/2 truncated toward zero, for negative n as well |
| Geometry.Clamp | ShuffleMyriad_Simulator.py:323-324 | `max(0, min(v, hi))` is never negative, keeps values already in range, and maps values above the range to hi |
| Geometry.ClampIdempotent | ShuffleMyriad_Simulator.py:803-805 | clamping a clamped value changes nothing |
| Geometry.TopmostHit | ShuffleMyriad_Simulator.py:739-758 | the hit is the last rectangle in drawing order that contains the point (half-open edges); no hit means no rectangle contains it |
| Geometry.BandOf | ShuffleMyriad_Simulator.py:456-458 | the rubber band's corners are the drag's corners, sorted |
| Geometry.Bounds | ShuffleMyriad_Simulator.py:473-481 | no cards give no box; otherwise each side of the box is attained by some card and the box encloses every card |
| Geometry.Toggle | ShuffleMyriad_Simulator.py:482-492 | rotating flips the orientation, takes the size of the new orientation, and keeps the centre to within half a pixel |
| Geometry.ToggleTwice | ShuffleMyriad_Simulator.py:482-492 | rotating twice restores orientation and size, with the corner back to within one pixel |
| Geometry.ToggleTwiceDrifts | ShuffleMyriad_Simulator.py:482-492 | the one-pixel drift happens: an upright card at (100, 100) comes back at (99, 99) |
| Geometry.Unrotate | ShuffleMyriad_Simulator.py:894-904 | un-rotating leaves every card upright |
| Geometry.UnrotateIsToggle | ShuffleMyriad_Simulator.py:894-904 | un-rotating a rotated card is a centre-keeping rotation |
| Geometry.Centre | ShuffleMyriad_Simulator.py:519-521 | the gathering centre is the middle of the bounding box, truncated |
| Geometry.GatherSpotOnBoard | ShuffleMyriad_Simulator.py:522-526 | every gathered card no larger than the board ends inside the board |
| Geometry.GatherSpotCentred | ShuffleMyriad_Simulator.py:522-526 | a gathered card that needs no clamping is centred on the centre to within half a pixel |
| Geometry.ExSlot | ShuffleMyriad_Simulator.py:605-610 | EX cards are laid out with x between 20 and 890 and y from 600 down |
| Geometry.ExSlotStep | ShuffleMyriad_Simulator.py:605-610 | the closed form agrees with the loop's step of 15 px, starting a row 10 px lower once x passes 900 |
| Geometry.MarkerSize | ShuffleMyriad_Simulator.py:421-424 | a marker is at least 120x50 and at least its text plus a 20x10 margin, and equals one of the two |
| Geometry.Mirror | ShuffleMyriad_Simulator.py:1348-1349 | the opponent's rectangle keeps the size and is the half-turn image `(960 - (x + w), 720 - (y + h))` |
| Geometry.MirrorInvolution | ShuffleMyriad_Simulator.py:1348-1349 | the half turn is its own inverse, and a rectangle is on the board exactly when its image is |
| Geometry.OpponentSprite | ShuffleMyriad_Simulator.py:1302-1314 | the opponent sees a card's back exactly when its top edge is below 440 or it is face down |
| Geometry.HandLineHides | ShuffleMyriad_Simulator.py:1351 | moving a face-up card below the hand line is what hides it from the opponent |
| Pieces.Card.constructor | ShuffleMyriad_Simulator.py:618-633 | a new card takes the given id, position and flags, at the upright size 78x111 |
| Pieces.Marker.constructor | ShuffleMyriad_Simulator.py:1071-1078 | a new marker takes the given fields |
| Pieces.IdsSnoc | ShuffleMyriad_Simulator.py:989 | the deck ids of a deck with one more card end with that card's id |
| Pieces.CardRowsSnoc | ShuffleMyriad_Simulator.py:992-997 | the saved rows of a board with one more card end with that card's row |
| Pieces.MarkerRowsSnoc | ShuffleMyriad_Simulator.py:1000-1007 | the saved rows of the markers with one more marker end with its row |
| Pieces.CardAreasAt | ShuffleMyriad_Simulator.py:750-752 | entry i of the hit-test rectangles is card i's rectangle |
| Pieces.MarkerAreasAt | ShuffleMyriad_Simulator.py:739-741 | entry i of the hit-test rectangles is marker i's rectangle |
| Pieces.TouchingExactly | ShuffleMyriad_Simulator.py:452-472 | the rubber-band selection is a sub-sequence of the board holding exactly the cards whose closed rectangle meets the band, without duplicates |
| Pieces.OpponentViewRule | ShuffleMyriad_Simulator.py:1344-1356 | every board card is drawn for the opponent at its mirrored rectangle, showing its back exactly when below the hand line or face down |
| Pieces.ReverseKeepsRevealed | ShuffleMyriad_Simulator.py:839-847 | turning a card over flips its side, never clears `revealed`, and reveals a card that ends face up |
| Pieces.ReverseTwice | ShuffleMyriad_Simulator.py:839-847 | turning a card over twice restores its side and leaves it revealed |
| Pieces.ReverseIsNotFaceDown | ShuffleMyriad_Simulator.py:498-509 | turning a shown card over differs from turning it face down: only the latter clears `revealed` |
| Pieces.DrawIsPickOfTop | ShuffleMyriad_Simulator.py:905-920 | drawing from the deck is picking its first row |
| Pieces.PickKeepsCards | ShuffleMyriad_Simulator.py:1555-1580 | picking a card moves it from the deck to the end of the board, losing and duplicating nothing |
| Pieces.ReturnKeepsCards | ShuffleMyriad_Simulator.py:868-893 | putting a card back in the deck loses and duplicates nothing |
| Pieces.DrawThenReturnTop | ShuffleMyriad_Simulator.py:868-920 | a card drawn and put back on top restores the deck and the board exactly |
| Pieces.DrawThenReturnBottom | ShuffleMyriad_Simulator.py:881-920 | a card drawn and put back at the bottom moves from the top of the deck to its bottom, and the board is restored |
| Pieces.ZOrderPermutes | ShuffleMyriad_Simulator.py:848-867 | bring-to-front and send-to-back only reorder the list, and put the item last or first |
| Pieces.ZOrderKeepsOthers | ShuffleMyriad_Simulator.py:848-867 | the other items keep their relative order, and no duplicate appears |
| Pieces.ZOrderIdempotent | ShuffleMyriad_Simulator.py:848-867 | repeating a z-order move changes nothing, and of two moves the last one wins |
| Pieces.GatheredDistinct | ShuffleMyriad_Simulator.py:527-529 | gathering with shuffling duplicates no card and brings in nothing new |
| Pieces.GatheredReorders | ShuffleMyriad_Simulator.py:527-529 | gathering board cards with shuffling permutes the board: the others keep their order underneath and the gathered cards end on top |
| BoardFile.Escape | ShuffleMyriad_Simulator.py:1001 | escaped marker text holds no newline and keeps every other character apart from the backslash and 'n' |
| BoardFile.UnescapeEscape | ShuffleMyriad_Simulator.py:1001-1073 | un-escaping undoes escaping, unless the text held a literal backslash-n |
| BoardFile.EscapeSequenceIsLost | ShuffleMyriad_Simulator.py:1001-1073 | a literal backslash-n in marker text comes back as a newline |
| BoardFile.CardLines | ShuffleMyriad_Simulator.py:992-997 | one `[Board]` line is written per board card |
| BoardFile.MarkerLines | ShuffleMyriad_Simulator.py:1000-1007 | one `[Markers]` line is written per marker |
| BoardFile.RunAppend | ShuffleMyriad_Simulator.py:1041-1078 | reading a file in two parts is reading the second part from the state the first part left |
| BoardFile.FailureStops | ShuffleMyriad_Simulator.py:1041-1078 | once `int()` has raised, nothing more of the file is read |
| BoardFile.PartialLoad | ShuffleMyriad_Simulator.py:1034-1059 | a board row with a bad number ends the load: what was read before stays loaded and nothing after it is read, so the load is not atomic |
| BoardFile.BadRowFails | ShuffleMyriad_Simulator.py:1053-1059 | a board row whose numbers `int()` rejects aborts the reader |
| BoardFile.BoardRowWrongWidthSkipped | ShuffleMyriad_Simulator.py:1053-1054 | a board row without exactly six fields is skipped |
| BoardFile.LegacyMarkerRow | ShuffleMyriad_Simulator.py:1064-1067 | a five-field marker row reads as a plain marker without a chip colour |
| BoardFile.WideMarkerRow | ShuffleMyriad_Simulator.py:1062-1063 | a marker row of seven or more fields reads its first seven |
| BoardFile.MarkerFieldsParse | ShuffleMyriad_Simulator.py:1071-1078 | a marker row whose numbers parse gives a marker with its text un-escaped, and an empty type becomes "marker" |
| BoardFile.CardLineParses | ShuffleMyriad_Simulator.py:994-1059 | the line written for a card row reads back as the same row, flags included |
| BoardFile.CardLineReads | ShuffleMyriad_Simulator.py:1052-1059 | in the `[Board]` section a written card line appends exactly its row |
| BoardFile.MarkerLineParses | ShuffleMyriad_Simulator.py:1004-1078 | the line written for a marker row reads back as the same row |
| BoardFile.MarkerLineReads | ShuffleMyriad_Simulator.py:1060-1078 | in the `[Markers]` section a written marker line appends exactly its marker |
| BoardFile.DeckLinesRead | ShuffleMyriad_Simulator.py:1050-1051 | in the `[Deck]` section plain id lines append exactly those ids, in order |
| BoardFile.CardLinesRead | ShuffleMyriad_Simulator.py:992-1059 | the written `[Board]` block reads back as exactly the board's rows, in order |
| BoardFile.MarkerLinesRead | ShuffleMyriad_Simulator.py:1000-1078 | the written `[Markers]` block reads back as exactly the markers, in order |
| BoardFile.HeadRead | ShuffleMyriad_Simulator.py:982-1049 | the written `[Resource]` block and `[Deck]` header read back as the two image names |
| BoardFile.UpToBoard | ShuffleMyriad_Simulator.py:982-1051 | the file up to `[Board]` reads back as the image names and the deck ids |
| BoardFile.UpToMarkers | ShuffleMyriad_Simulator.py:982-1059 | the file up to `[Markers]` reads back as the image names, the deck ids and the board rows |
| BoardFile.SaveLoadRoundTrip | ShuffleMyriad_Simulator.py:982-1078 | loading a saved board gives back the two image names, the deck ids in order, every card row and every marker, when ids and texts avoid what the format cannot carry |
| BoardFile.StepAddsAtMostOne | ShuffleMyriad_Simulator.py:1041-1078 | one line adds at most one entry, to exactly one of the deck, the board rows and the markers, and removes nothing |
| BoardFile.RunStopped | ShuffleMyriad_Simulator.py:1041-1078 | stopping the loop at the first failure reads the same as reading the whole file |
| BoardFile.HeaderStep | ShuffleMyriad_Simulator.py:1044-1046 | `[Deck]`, `[Board]` and `[Markers]` only switch the section |
| BoardFile.ResourceHeaderStep | ShuffleMyriad_Simulator.py:1043 | `[Resource]` switches the section and restarts the resource list |
| DeckFormat.OrDefault | ShuffleMyriad_DeckEditor.py:474-475 | an empty image name is replaced by the (non-empty) default; a given name is kept |
| DeckFormat.OpenResult | ShuffleMyriad_DeckEditor.py:453-455 | the decks are the section machine's lists, and the image names are the first two resource lines or the defaults |
| DeckFormat.OpenRunAppend | ShuffleMyriad_DeckEditor.py:440-452 | reading a deck file in two parts is reading the second from where the first left off |
| DeckFormat.OpenKeepsCatalogIds | ShuffleMyriad_DeckEditor.py:440-452 | ids missing from the catalog never reach either deck |
| DeckFormat.OpenStepKeepsCatalogIds | ShuffleMyriad_DeckEditor.py:441-452 | one line of the section machine keeps both decks within the catalog |
| DeckFormat.OpenLinesRead | ShuffleMyriad_DeckEditor.py:441-452 | catalog ids outside any header land, in order, in the current section's list |
| DeckFormat.OpenCardsRead | ShuffleMyriad_DeckEditor.py:440-452 | the id lines of a saved file read back as the two decks |
| DeckFormat.SaveOpenRoundTrip | ShuffleMyriad_DeckEditor.py:439-475 | opening what the editor saved gives back both decks and both image names (empty names as the defaults), when ids are catalog ids and no id or name is blank, padded, multi-line or a header |
| DeckFormat.Cleaned | ShuffleMyriad_Simulator.py:552 | the simulator's cleaned lines are non-blank and stripped |
| DeckFormat.CleanedKeepsStripped | ShuffleMyriad_Simulator.py:552 | cleaning keeps lines that are already stripped and non-blank |
| DeckFormat.CutAt | ShuffleMyriad_Simulator.py:555-598 | cutting at a header gives what comes before its first occurrence and what comes after it, or everything and nothing |
| DeckFormat.CutAtFirst | ShuffleMyriad_Simulator.py:555-558 | the cut falls at the first occurrence of the header |
| DeckFormat.SplitDeckFile | ShuffleMyriad_Simulator.py:552-603 | the simulator's main deck holds neither header, its EX deck holds no `[Resource]`, and it takes no more ids than the file has lines |
| DeckFormat.SimulatorReadsSavedDeck | ShuffleMyriad_Simulator.py:552-603 | the simulator reads a file the editor saved as the same two decks, with the image names placed under `resource/` |
| DeckFormat.SavedLinesClean | ShuffleMyriad_DeckEditor.py:468-475 | a saved deck file has no blank or padded line |
| DeckFormat.ResourceCut | ShuffleMyriad_Simulator.py:555-558 | the simulator's cut at `[Resource]` separates a saved file's ids from its image names |
| DeckFormat.ExCut | ShuffleMyriad_Simulator.py:595-598 | the simulator's cut at `[EX]` separates a saved file's main ids from its EX ids |
| Config.RefreshRate | ShuffleMyriad_Simulator.py:11-24 | a missing file, or a file with no setting line, gives the default of 120 ms |
| Config.RefreshRateReadsSetting | ShuffleMyriad_Simulator.py:11-24 | a file whose first setting line is `opponent_refresh_rate=<n>` gives n, whatever follows |
| Config.SettingLine | ShuffleMyriad_Simulator.py:18-19 | the setting line starts with the key |
| Config.LifeInputAcceptsRange | ShuffleMyriad_Simulator.py:233-239 | a typed number passes the life-points validator exactly when it is between 0 and 999999 |
| Catalog.IdOfDisplay | ShuffleMyriad_DeckEditor.py:296-298 | the id read from a list-box text is a prefix of the text |
| Catalog.DisplayRecoversId | ShuffleMyriad_DeckEditor.py:296-298 | the id comes back from `"<id> - <name>"` exactly when `" - "` does not occur in the id followed by `" -"` |
| Catalog.DisplayLosesTrailingDash | ShuffleMyriad_DeckEditor.py:296-298 | an id ending in `" -"` such as `"a -"` does not come back from its text |
| Catalog.Filtered | ShuffleMyriad_DeckEditor.py:194-213 | the filtered list is never longer than the catalog list |
| Catalog.FilteredExactly | ShuffleMyriad_DeckEditor.py:203-205 | the list box shows every text that matches the filter, ignoring case, and nothing else |
| Catalog.EmptyFilterShowsAll | ShuffleMyriad_DeckEditor.py:200-205 | an empty filter shows the whole catalog |
| Catalog.FilteredStep | ShuffleMyriad_DeckEditor.py:203-208 | one more catalog row adds its text at the end of the list when it matches, and nothing otherwise |
| Catalog.LastIndex | ShuffleMyriad_DeckEditor.py:203-208 | the last position of a text in the list, or -1 when it is absent |
| Catalog.FilterAvailable | ShuffleMyriad_DeckEditor.py:194-213 | the shown texts are the filtered list; the row to reselect holds the previously selected text with no later row holding it, and it is -1 only when no shown row holds that text |
| Catalog.CatalogLineReads | ShuffleMyriad_DeckEditor.py:85-97 | a well-formed catalog line reads back as its id, name and EX flag |
| Catalog.CatalogEntryOf | ShuffleMyriad_DeckEditor.py:85-99 | a stripped, non-comment line reads as the entry of its comma fields |
| Catalog.Entries | ShuffleMyriad_DeckEditor.py:84-99 | every line of the file gives its own entry, in order |
| Catalog.LastDuplicateWins | ShuffleMyriad_DeckEditor.py:97 | for an id defined on several lines, the last definition wins |
| Catalog.DefinedIffSomeLine | ShuffleMyriad_DeckEditor.py:84-99 | an id is in the catalog exactly when some line defines it |
| Catalog.RowsMatchDefs | ShuffleMyriad_DeckEditor.py:97-98 | every list-box row names a catalog id, and every catalog id has a row |
| Catalog.SortedRows | ShuffleMyriad_DeckEditor.py:101 | the list-box rows are sorted by text and then id, and are a permutation of the rows read |
| Sorting.StrLeIsLinear | ShuffleMyriad_DeckEditor.py:392 | Python's string order is a linear order |
| Sorting.PairLeIsLinear | ShuffleMyriad_DeckEditor.py:101 | Python's order on `(text, id)` pairs is a linear order |
| Sorting.Insert | ShuffleMyriad_DeckEditor.py:392 | inserting into a sorted list keeps it sorted and adds exactly the item |
| Sorting.Sort | ShuffleMyriad_DeckEditor.py:392 | `list.sort()` yields a sorted permutation of the list |
| Sorting.SortedPermutationUnique | ShuffleMyriad_DeckEditor.py:392 | under a linear order a list has only one sorted permutation, so every sorting algorithm gives the same list |
| Sorting.SortIdempotent | ShuffleMyriad_DeckEditor.py:392 | sorting a sorted list changes nothing |
| Editor.PullsPartition | ShuffleMyriad_DeckEditor.py:518-522 | the main and EX parts of a gacha pull together hold exactly the pulled ids |
| Editor.PullsRouted | ShuffleMyriad_DeckEditor.py:519-522 | a pulled id lands in the EX part exactly when the catalog marks it EX, and in the main part otherwise |
| Editor.PartitionPull | ShuffleMyriad_DeckEditor.py:517-522 | the gacha loop sends each pulled id to EX or main by its flag, keeping pull order |
| Editor.ReselectAfterRemove | ShuffleMyriad_DeckEditor.py:371-373 | the row reselected after a removal is `min(index, len - 1)`, and none when the list became empty |
| Editor.DeckEditor.constructor | ShuffleMyriad_DeckEditor.py:19-44 | a new editor has empty decks, no file, the default image names and no unsaved changes |
| Editor.DeckEditor.SetUnsavedChanges | ShuffleMyriad_DeckEditor.py:52-56 | the flag takes the given value, and the title is redrawn exactly when the flag changes |
| Editor.DeckEditor.LoadCardDefinitions | ShuffleMyriad_DeckEditor.py:79-105 | the catalog is what the file's lines define, the last definition of an id winning, and the list-box rows are the sorted rows; a missing file leaves both empty |
| Editor.DeckEditor.AddAuto | ShuffleMyriad_DeckEditor.py:302-317 | the selected id is appended to the EX deck when the catalog marks it EX and to the main deck otherwise, the other deck unchanged; no selection changes nothing |
| Editor.DeckEditor.AddTo | ShuffleMyriad_DeckEditor.py:319-336 | the selected id is appended to the chosen deck whatever its flag |
| Editor.DeckEditor.RemoveFromDeck | ShuffleMyriad_DeckEditor.py:338-378 | a main-deck selection takes precedence; an index outside its list warns and changes nothing; otherwise exactly that element is deleted and `min(index, len - 1)` reselected |
| Editor.DeckEditor.SortDeck | ShuffleMyriad_DeckEditor.py:380-410 | an empty deck and the flag stay as they were; otherwise the deck becomes its sorted permutation, the flag is set, and the reselected row is the first one for the previously selected id, or row 0 |
| Editor.DeckEditor.NewDeck | ShuffleMyriad_DeckEditor.py:413-424 | unless the user keeps unsaved changes, both decks, the file and the names are reset and the deck counts as saved |
| Editor.DeckEditor.OpenDeck | ShuffleMyriad_DeckEditor.py:426-463 | a readable chosen file replaces both decks and both names with what the section machine reads, becomes the current file, and clears the flag; otherwise nothing changes |
| Editor.DeckEditor.PerformSave | ShuffleMyriad_DeckEditor.py:465-483 | a successful save writes the decks' file lines, makes the file current and clears the flag; no path or a failed write changes nothing |
| Editor.DeckEditor.GenerateGachaDeck | ShuffleMyriad_DeckEditor.py:503-531 | the pull is split by the EX flag into two sorted decks, the file and names are reset, and the deck counts as unsaved; an empty catalog, or unsaved changes the user keeps, changes nothing |
| Editor.GachaDeckShape | ShuffleMyriad_DeckEditor.py:517-524 | the gacha decks together hold every pulled card exactly once |
| Table.SpotsExactly | ShuffleMyriad_Simulator.py:668-672 | the taken spots are exactly the positions of the other board cards |
| Table.Settle | ShuffleMyriad_Simulator.py:662-699 | the nudge search stops within 100 attempts; success means a free spot; a free start is kept; a spot reached by a plain nudge lies on the board |
| Table.NewCards | ShuffleMyriad_Simulator.py:591-603 | new distinct cards with exactly the given ids, face up, revealed and upright at the card size |
| Table.GatherAround | ShuffleMyriad_Simulator.py:522-526 | each gathered card is centred on the common centre and clamped, with size, rotation and flags kept |
| Table.Table.constructor | ShuffleMyriad_Simulator.py:61-96 | a new table has empty lists, no selection and the default card back and playmat |
| Table.Table.ToggleRotation | ShuffleMyriad_Simulator.py:482-492 | a card's pose becomes its centre-keeping rotation, and its flags are kept |
| Table.Table.RotateSelected | ShuffleMyriad_Simulator.py:493-497 | every card of the rubber-band selection is rotated once |
| Table.Table.UnrotateAll | ShuffleMyriad_Simulator.py:894-904 | every rotated board card stands upright about its centre, and upright ones stay put |
| Table.StandUp | ShuffleMyriad_Simulator.py:896-902 | the loop stands each card of the list upright |
| Table.Upright | ShuffleMyriad_Simulator.py:897-902 | one card is stood upright about its centre |
| Table.Table.TurnSelected | ShuffleMyriad_Simulator.py:498-509 | both flags of every selected card become true (face up) or false (face down), and their poses are kept |
| Table.Table.Reverse | ShuffleMyriad_Simulator.py:839-847 | the selected card is turned over under the `revealed` rule; with no card selected nothing happens |
| Table.Table.AdjustCardPosition | ShuffleMyriad_Simulator.py:662-699 | success leaves the card on no other board card's exact position, and a card already free stays where it is |
| Table.Table.Draw | ShuffleMyriad_Simulator.py:905-920 | an empty deck changes nothing; otherwise the top card moves to the end of the board, upright with both flags as asked, and selected; it stays at the asked spot when that is free, and is on no other card's position when the nudge succeeded |
| Table.Table.PickFromDeck | ShuffleMyriad_Simulator.py:1555-1580 | the chosen row's card moves from the deck to the end of the board, shown and upright and selected; it stays at (600, 500) when no board card is there, and once the nudge settles no other board card shares its position; no row or a row past the deck changes nothing |
| Table.Table.MoveToDeck | ShuffleMyriad_Simulator.py:868-893 | the selected board card goes to the top or bottom of the deck, shown and upright with its position kept, and the selection is cleared; otherwise nothing changes |
| Table.Table.Restack | ShuffleMyriad_Simulator.py:848-867 | the selected card or marker moves to the end or the start of its list, and the other list is unchanged |
| Table.Table.Delete | ShuffleMyriad_Simulator.py:830-838 | the selected card leaves the board, or the selected marker leaves the markers, and the selection is cleared |
| Table.Table.ShuffleDeck | ShuffleMyriad_Simulator.py:634-640 | a non-empty deck takes the shuffled order; an empty deck only warns |
| Table.Table.AddCardById | ShuffleMyriad_Simulator.py:647-661 | a typed id with a picture adds a new selected face-up card at the end of the board; it stays at (600, 500) when no board card is there, and once the nudge settles no other board card shares its position; no id, or an id without a picture, changes nothing |
| Table.Table.AddMarker | ShuffleMyriad_Simulator.py:700-712 | a new selected 120x50 empty marker is added at the end of the markers |
| Table.Table.AddChip | ShuffleMyriad_Simulator.py:713-729 | a new selected 18x18 chip of the colour is added at the end of the markers |
| Table.Table.Gather | ShuffleMyriad_Simulator.py:510-531 | the selected cards are centred on their common centre and clamped; with shuffling the board becomes the other cards followed by the gathered ones in shuffled order; no selection changes nothing |
| Table.Table.GatherShuffled | ShuffleMyriad_Simulator.py:513-529 | with shuffling the board becomes the other cards followed by the gathered ones in shuffled order, each centred and clamped |
| Table.Table.ItemAt | ShuffleMyriad_Simulator.py:739-758 | a click selects the topmost marker under the point, else the topmost card under it, else nothing |
| Table.Table.Click | ShuffleMyriad_Simulator.py:730-777 | the item under the point becomes selected and starts a drag from where it was grabbed, or a rubber band starts on empty board; the band selection is cleared |
| Table.Table.Drag | ShuffleMyriad_Simulator.py:778-791 | while dragging, the held item follows the pointer keeping the grab offset; otherwise nothing moves |
| Table.Table.Release | ShuffleMyriad_Simulator.py:792-807 | a rubber band selects exactly the cards it touches; otherwise the drag ends with the held item clamped into the board |
| Table.Table.RightClick | ShuffleMyriad_Simulator.py:808-825 | the topmost card under the point is selected and rotated, and no other card changes; empty board changes nothing |
| Table.Table.Redraw | ShuffleMyriad_Simulator.py:316-446 | every card is clamped into the board; a face-down card, or a face-up one with a picture, is sized to its orientation, and a face-up card without one keeps its size; plain markers are sized to their text and chips keep their size |
| Table.RedrawCards | ShuffleMyriad_Simulator.py:321-351 | each card is clamped with the size it had, then takes the size of its orientation, unless it is face up with neither its own picture nor the placeholder |
| Table.ResizeMarkers | ShuffleMyriad_Simulator.py:384-424 | each plain marker takes the size that fits its text, chips keep theirs, and nothing else changes |
| Table.Table.LoadDeck | ShuffleMyriad_Simulator.py:532-617 | the file replaces both decks with new face-up cards; the EX cards are laid out from (20, 600) and also added to the board, which is not cleared; a cancelled dialog changes nothing |
| Table.Table.NewDecks | ShuffleMyriad_Simulator.py:591-610 | new cards with the file's ids form both decks, and the EX cards are appended to the board at their layout slots |
| Table.Table.LayOutEx | ShuffleMyriad_Simulator.py:605-610 | the EX cards go to their layout slots in order and are appended to the board |
| Table.Table.LoadBoard | ShuffleMyriad_Simulator.py:1012-1107 | a read file replaces the deck, board and markers with what the reader reads, clearing the EX deck and the selection; the images change only when the whole file was read; no file changes nothing |
| Table.Table.ReplaceBoard | ShuffleMyriad_Simulator.py:1032-1101 | the lists are emptied and refilled with new cards and markers matching the reader's result |
| Table.Table.ReadBoard | ShuffleMyriad_Simulator.py:1038-1079 | the loop builds distinct new cards and markers whose ids and rows are exactly what the reader reads, and stops at the first failure |
| Table.Table.ReadBoardLine | ShuffleMyriad_Simulator.py:1041-1078 | one line read in place keeps the lists in step with the reader and adds at most one new piece |
| Table.Table.TakeImages | ShuffleMyriad_Simulator.py:1080-1101 | the first resource line names the card back and the second the playmat, both under `resource/` |
| Table.Table.AppendDeckCard | ShuffleMyriad_Simulator.py:1050-1051 | a new card with the id is appended to the deck |
| Table.Table.AppendBoardCard | ShuffleMyriad_Simulator.py:1052-1059 | a new card made from the row is appended to the board |
| Table.Table.AppendMarker | ShuffleMyriad_Simulator.py:1071-1078 | a new marker made from the row is appended to the markers |
| Table.BoardSaveThenLoad | ShuffleMyriad_Simulator.py:967-1107 | loading a saved board gives the same deck ids, board rows, markers and image paths, for a board the format can carry |

## Left out

- Widgets, layout, menus and dialogs are not modelled. Dialog answers and the chosen file are parameters.
- Images, fonts and text measurement are not modelled; the measured size of a marker's text is a parameter of `Redraw`.
  - This covers the opponent's image cache, the opponent's marker drawing and its LP and deck-count text.
  - It also covers the translucent rectangles and the outlined text.
- Timers are not modelled: the opponent window's periodic refresh, and the dice and coin animations with their results.
- Process control is not modelled: restarting the program and copying to the clipboard.
- The windows `InfoWindow` and `MarkerEditWindow` are not part of this model.
  - `DeckContentsWindow` is modelled only through the pick from the deck (`_select_card_from_deck`).
  - Its list of names and its image preview are left out.
- Randomness is a parameter.
  - `random.shuffle` becomes a given permutation (`ShuffleDeck`, `Gather`).
  - `random.randint` in the nudge becomes a given offset per attempt.
  - `random.choices` becomes the given pulled ids.
- File I/O is a parameter: a file is its sequence of lines, or `None` when it cannot be opened.
  - Creating folders and time-stamped file names are not modelled.
  - A read error part-way through the catalog is not modelled; only a missing catalog is.
- The live canvas size is fixed at 960x720.
- Table.Table.AddCardById: whether the id has a picture (its own image or the placeholder) is a parameter, since image files are outside the model.
- Table.Table.Redraw: the picture a card is drawn with, and the skipped `type == "marker"` entries on the board, are not modelled; no card dict carries a `type`. Which cards have a picture (their own image, or the placeholder when it exists) is the parameter `pictured`, as image files are outside the model.
- Pieces.Card.constructor: card equality is object identity, not Python's dict comparison (see above).
  - Two face-down cards never get an image, so two face-down copies of one id at one spot with the same flags compare equal in Python.
  - Such copies arise from a board file with two identical rows, or from dragging two copies past the top-left corner, where the drop clamps both to (0, 0).
  - For such copies, `bring_to_front`, `send_to_back` and the Delete key act on the first equal dict on the board, not on the selected one; the model acts on the selected card.
- Pieces.Marker.constructor: marker equality is object identity, not Python's dict comparison.
  - Clicking "add marker" twice makes two equal dicts, and so does adding two chips of one colour without moving either.
- Table.Table.Restack: for a selected marker equal by value to an earlier one, the program's `markers.remove` drops the earlier marker and re-adds the selected one, so the list then holds the selected marker twice and the earlier one is lost.
  - A later drag then moves both entries, and saving writes the row twice.
  - The model compares markers by identity: for `[M1, M2]` with M2 selected, it yields `[M1, M2]` for the front and `[M2, M1]` for the back, where the program yields `[M2, M2]` both times.
- Text.Basename: `os.path` is modelled as on POSIX, with '/' as the only separator.
  - On Windows, the platform the program targets, `basename` also splits at '\\'.
- Text.ResourcePath: `os.path.join` is modelled as on POSIX; on Windows it writes '\\', and a name counts as absolute when it starts with a drive letter or a backslash.
- Editor.DeckEditor.GenerateGachaDeck: the pull may have any length; the program always pulls 100 ids, so both decks then hold 100 cards together (Editor.GachaDeckShape).
- Text.Lower: only ASCII letters are lower-cased, whereas Python's `str.lower()` also folds other alphabets; the search filter inherits this.
- Text.ParseInt: only an optional sign and ASCII digits are accepted, whereas Python's `int()` also takes underscores between digits and non-ASCII digits.
- Text.IsSpace: the whitespace set is the one `str.strip()` removes, restricted to the characters listed.
- Sorting.Sort: strings are ordered by code point, as Python does; locale-aware ordering is not involved.
- Table.Settle: a spot reached on an attempt that also adds the random offset (every tenth) is not claimed to lie on the board, because the program does not clamp it there.
