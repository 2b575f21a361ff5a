# LeelaWatcher Go engine, modelled in Dafny

This project models the Go board and rules engine of LeelaWatcher, plus the
small pure functions around it. LeelaWatcher is a viewer for the self-play
games of Leela Zero.

**Points and positions**
- `Points`: the point-of-play value type.
- `Positions`: the 19×19 bitboard position. Its rows are `bv32` words, as
  Java `int`s.
- `Rows` and `RowSums`: the bit-level lemmas underneath.

**Groups and rules**
- `Markable`: the mark overlay and the group flood fill.
- `Rules`: the liberty counter and the legality tests (empty point,
  self-capture, single-stone ko).

**Game and board**
- `MoveTree`: the move tree, an arena of nodes addressed by index. It covers
  both the legacy all-in-one node class and the split `move/` package.
- `Games`: the game record, which moves a cursor through the tree.
- `Boards`: the board. It holds the line of positions, the cursor, the
  prisoner counts, captures, undo, resign and setup.

**Text around the engine**
- `Sgf`: the SGF tree printer and the file framing.
- `Parsers`: the two decoders of the engine's move text.
- `FileFilters`: the `.sgf` file-name filter.

**How the Java constructs are modelled**
- Exceptions become `Result` and `Outcome` values that carry a `Fault`.
- Objects that the source updates in place become classes: `Position`,
  `MarkablePosition`, `GameTree`, `Game` and `Board`.
- Stateful operations are methods. Each is proved against a specification
  function, and lemmas state what the source promises about that function.
- Node identity is the arena index. A child's index is always greater than
  its parent's, which stands in for the shared instance counter.

`Board.setUp` is modelled as written. When no new setup node is made, it
removes the current position and then reads at the same index, which is out
of range.

## Model

| member | source | states |
|---|---|---|
| Points.Wrap32 | src/main/java/tsb/goboard/PointOfPlay.java:105-110 | Java int arithmetic: the result is a 32-bit value congruent to the input, and a value already in range is unchanged |
| Points.NewPoint | src/main/java/tsb/goboard/PointOfPlay.java:59-69 | the constructor never throws, because the negative-coordinate guard reads the fields before they are assigned; the point holds exactly the arguments |
| Points.Equals | src/main/java/tsb/goboard/PointOfPlay.java:82-90 | equals holds iff both coordinates agree |
| Points.HashCode | src/main/java/tsb/goboard/PointOfPlay.java:105-110 | hashCode is a 32-bit int |
| Points.HashCodeOnBoard | src/main/java/tsb/goboard/PointOfPlay.java:105-110 | on the board the hash is 37*(37*17+x)+y = 23273+37x+y, and two points hash alike iff they are equal |
| Points.NatTextRoundTrip | src/main/java/tsb/goboard/PointOfPlay.java:126-128 | the decimal text of a natural number reads back as that number |
| Points.IntTextRoundTrip | src/main/java/tsb/goboard/PointOfPlay.java:126-128 | the decimal text of any int, with its minus sign, reads back as that int |
| Points.ToString | src/main/java/tsb/goboard/PointOfPlay.java:126-128 | toString is "(" x "," y ")": at least five characters, opening and closing with parentheses |
| Points.SplitAtFirst | src/main/java/tsb/goboard/PointOfPlay.java:126-128 | two texts split at the first comma agree on both halves when they are equal |
| Points.ToStringInjective | src/main/java/tsb/goboard/PointOfPlay.java:126-128 | distinct points have distinct toString texts |
| Positions.EmptyVal | src/main/java/tsb/goboard/Position.java:119-121 | the empty position holds no stone, is well formed, and has blackToMove false and number 0 |
| Positions.CheckValidIff | src/main/java/tsb/goboard/Position.java:255-262 | the accumulated row overlap is zero iff no point is set in both colours |
| Positions.XorsZero | src/main/java/tsb/goboard/Position.java:210-240 | the sum of the row differences is zero iff all rows agree |
| Positions.EqualsIff | src/main/java/tsb/goboard/Position.java:210-240 | equals holds iff the side to move and all 19 rows of both colours agree; the move number is ignored |
| Positions.HashConsistent | src/main/java/tsb/goboard/Position.java:243-248 | equal positions have equal hashCode |
| Positions.ColorAt | src/main/java/tsb/goboard/Position.java:268-275 | throws unless checkValid passes; 'B' iff the black bit is set, 'W' iff only the white bit is set, 'E' otherwise; off the board it throws |
| Positions.StoneAtXY | src/main/java/tsb/goboard/Position.java:281-285 | stoneAt succeeds exactly where colorAt does, and is true iff colorAt is not 'E' |
| Positions.BlackAtXY | src/main/java/tsb/goboard/Position.java:293-295 | blackAt reads the black bit without checkValid; it fails only off the board |
| Positions.WhiteAtXY | src/main/java/tsb/goboard/Position.java:308-310 | whiteAt reads the white bit without checkValid; it fails only off the board |
| Positions.RemoveEffect | src/main/java/tsb/goboard/Position.java:316-319 | removeStoneAt empties the point in both colours and changes no other point, nor the side to move or the number |
| Positions.SameStonesEqual | src/main/java/tsb/goboard/Position.java:210-240 | two well-formed positions with the same stones, side and number are the same value |
| Positions.WithoutEffect | src/main/java/tsb/goboard/Position.java:316-319 | removing a set of points empties exactly those points |
| Positions.PlayEffect | src/main/java/tsb/goboard/Position.java:155-177 | a play on an empty point copies both arrays and sets only bit x of row y in the mover's colour; the side to move becomes the other colour |
| Positions.PlayOnOwnStoneCarries | src/main/java/tsb/goboard/Position.java:165-177 | because the play uses `+=`, playing on an own stone carries into the next column: the point empties and its east neighbour fills |
| Positions.ClearAllEffect | src/main/java/tsb/goboard/Position.java:178-193 | the addEmpty loop succeeds iff every point is on the board, and then clears exactly those points in both colours |
| Positions.OrAllEffect | src/main/java/tsb/goboard/Position.java:178-193 | the addBlack/addWhite loop succeeds iff every point is on the board, and then sets exactly those points |
| Positions.SetupEffect | src/main/java/tsb/goboard/Position.java:178-193 | a setup node clears addEmpty, ORs in addBlack and addWhite, and sets blackToMove from colorMoveNext; it fails iff some listed point is off the board |
| Positions.SetupLeavesDoublySet | src/main/java/tsb/goboard/Position.java:189-191 | adding one colour over the other leaves a doubly set point, so the result fails checkValid |
| Positions.PassEffect | src/main/java/tsb/goboard/Position.java:165-177 | a pass keeps both arrays and sets blackToMove to true after a white pass and false after a black one |
| Positions.RootEffect | src/main/java/tsb/goboard/Position.java:165-193 | a root node ignores its setup lists: the stones are kept and blackToMove keeps its default, false |
| Positions.DeriveChecksPrev | src/main/java/tsb/goboard/Position.java:155-164 | deriving throws InvalidPosition exactly when the previous position fails checkValid |
| Positions.Position.Empty | src/main/java/tsb/goboard/Position.java:119-121 | `new Position()` is the empty position, with fresh arrays |
| Positions.Position.Copy | src/main/java/tsb/goboard/Position.java:133-139 | the copy constructor gives the same value in fresh arrays |
| Positions.Position.Clone | src/main/java/tsb/goboard/Position.java:250-252 | clone is shallow: the row arrays are shared with the original |
| Positions.Position.GetArrayBlack | src/main/java/tsb/goboard/Position.java:325-329 | returns a fresh array with the black rows |
| Positions.Position.GetArrayWhite | src/main/java/tsb/goboard/Position.java:331-335 | returns a fresh array with the white rows |
| Positions.Position.CheckValid | src/main/java/tsb/goboard/Position.java:255-262 | throws InvalidPosition iff some point is set in both colours |
| Positions.Position.RemoveStoneAt | src/main/java/tsb/goboard/Position.java:316-319 | in place: the new value is the position without the point; off the board it throws and changes nothing |
| Positions.PlantAt | src/main/java/tsb/goboard/Position.java:165-177 | the in-place `+=` on one row agrees with the value function, including its out-of-range fault |
| Positions.ClearAllAt | src/main/java/tsb/goboard/Position.java:180-187 | the in-place addEmpty loop agrees with the value function, faults included |
| Positions.OrAllAt | src/main/java/tsb/goboard/Position.java:188-191 | the in-place addBlack/addWhite loop agrees with the value function, faults included |
| Positions.NewFromMove | src/main/java/tsb/goboard/Position.java:155-194 | `new Position(prev, move)` yields the derived value in fresh arrays, or the fault it throws |
| Markable.GroupHasStart | src/main/java/leelawatcher/goboard/MarkablePosition.java:155-158 | p is in its own group iff it is an on-board stone; an empty or off-board p has the empty group |
| Markable.GroupSameColour | src/main/java/leelawatcher/goboard/MarkablePosition.java:155-185 | every member of the group is an on-board stone of p's colour |
| Markable.GroupClosed | src/main/java/leelawatcher/goboard/MarkablePosition.java:160-185 | a same-coloured neighbour of a member is itself a member |
| Markable.LoneStone | src/main/java/leelawatcher/goboard/MarkablePosition.java:149-189 | a stone with no same-coloured neighbour is a group of one |
| Markable.BlackTrio | src/main/java/leelawatcher/goboard/MarkablePosition.java:149-189 | when black holds exactly (2,2), (2,3) and (3,3), the group of (2,2) is exactly those three stones |
| Markable.Group3Example | src/test/java/leelawatcher/goboard/MarkablePositionTest.java:77-90 | the position the five test plays build is well formed, and the group of (2,2) in it has three members |
| Markable.LibertyFillCountsLiberties | src/main/java/leelawatcher/scorer/AbstractRules.java:76-131 | the empty points the liberty fill reaches are exactly the empty neighbours of the group |
| Markable.MarkablePosition.constructor | src/main/java/leelawatcher/goboard/MarkablePosition.java:49-52 | copies the stones and side of p and starts with no marks |
| Markable.MarkablePosition.ClearMarks | src/main/java/leelawatcher/goboard/MarkablePosition.java:59-63 | no mark remains, and the stones are untouched |
| Markable.MarkablePosition.IsMarked | src/main/java/leelawatcher/goboard/MarkablePosition.java:74-76 | true iff p is marked; off the board it throws |
| Markable.MarkablePosition.SetMark | src/main/java/leelawatcher/goboard/MarkablePosition.java:86-90 | adds p to the marks and changes nothing else, so setting twice is idempotent; off the board it throws |
| Markable.MarkablePosition.ClearMark | src/main/java/leelawatcher/goboard/MarkablePosition.java:100-104 | removes only p's mark; off the board it throws |
| Markable.MarkablePosition.GetGroupSet | src/main/java/leelawatcher/goboard/MarkablePosition.java:149-189 | on a valid position: exactly the same-colour 4-connected group of p, which stays marked; off the board the empty set; on an invalid position it throws |
| Rules.IsEmpty | src/main/java/leelawatcher/scorer/AbstractRules.java:39-41 | true iff there is no stone at p; throws on an invalid position or off the board |
| Rules.FillLibsMeaning | src/main/java/leelawatcher/scorer/AbstractRules.java:76-131 | the liberty count of a stone is the number of distinct empty neighbours of its group; an empty point counts 1 |
| Rules.AroundSize | src/main/java/leelawatcher/scorer/AbstractRules.java:88-121 | a point has four on-board neighbours, one fewer for each board edge it lies on |
| Rules.LoneStoneLiberties | src/main/java/leelawatcher/scorer/AbstractRules.java:46-121 | a stone with no stone next to it has one liberty per on-board neighbour: 4 in the interior, 3 on an edge, 2 in a corner |
| Rules.DoCountLibs | src/main/java/leelawatcher/scorer/AbstractRules.java:76-131 | off the board it throws IllegalArgument; otherwise it returns the count so far plus the fill count, marking what it reached |
| Rules.CountLibs | src/main/java/leelawatcher/scorer/AbstractRules.java:64-71 | the same count, with every mark cleared on return |
| Rules.CountLiberties | src/main/java/leelawatcher/scorer/AbstractRules.java:64-81 | on a fresh copy of the current position: the liberty count, or the fault |
| Rules.CountUnmarked | src/main/java/leelawatcher/scorer/AbstractRules.java:76-81 | with nothing marked and a count from zero: the fault off the board or on an invalid position, otherwise the liberties the fill from p reaches |
| Rules.TestMove | src/main/java/leelawatcher/scorer/QuickRules.java:38-42 | the test node is a play of the mover's colour at p |
| Rules.TestPosition | src/main/java/leelawatcher/scorer/QuickRules.java:38-42 | the test position holds the mover's stone at p, agrees elsewhere, and is well formed |
| Rules.SelfCaptureMeaning | src/main/java/leelawatcher/scorer/QuickRules.java:34-77 | isSelfCapture is true iff p's group then has no liberty and no neighbour of another colour is left without liberty |
| Rules.IsSelfCapture | src/main/java/leelawatcher/scorer/QuickRules.java:34-77 | the method computes that test on a copy and leaves the board alone |
| Rules.KoStepsMeaning | src/main/java/leelawatcher/scorer/QuickRules.java:105-145 | the four neighbour steps remove each lone stone left without liberty and count the removals |
| Rules.KoMeaning | src/main/java/leelawatcher/scorer/QuickRules.java:84-156 | isKo is true iff exactly one stone is removed and the resulting board occurred earlier in the game |
| Rules.OccursIn | src/main/java/leelawatcher/scorer/QuickRules.java:148-154 | the loop over the history finds the position iff some earlier position equals it |
| Rules.IsKo | src/main/java/leelawatcher/scorer/QuickRules.java:84-156 | the method computes that test on a copy |
| Rules.LegalMoveMeaning | src/main/java/leelawatcher/scorer/QuickRules.java:29-32 | a pass (only x is compared) is legal; a play on a stone is not; a play on an empty point is legal iff it is neither self-capture nor a retaking of ko |
| Rules.IsLegalMove | src/main/java/leelawatcher/scorer/QuickRules.java:29-32 | the method computes that test, with the faults of the tests it runs |
| MoveTree.KindsPartition | src/main/java/leelawatcher/goboard/move/AbstractMoveNode.java:74-100 | exactly one of root, setup and play holds; white and black hold only for plays and exclude each other |
| MoveTree.RootNode | src/main/java/leelawatcher/goboard/move/RootNode.java:30-51 | colour R, coordinates PASS (so it is a pass), number 0, its own parent, nothing in its lists |
| MoveTree.SetupNode | src/main/java/leelawatcher/goboard/move/SetupNode.java:41-66 | colour S, not a pass, the parent's number and colorMoveNext, empty lists and comment |
| MoveTree.PlayNode | src/main/java/leelawatcher/goboard/move/MoveNode.java:45-79 | accepted iff the colour is B or W and differs from a play parent's; then number = parent's + 1, no children, empty comment; otherwise IllegalArgument |
| MoveTree.PlayAfterNonPlay | src/main/java/leelawatcher/goboard/move/MoveNode.java:58-61 | a root or setup parent accepts either colour |
| MoveTree.RemoveFirst | src/main/java/leelawatcher/goboard/Move.java:476-483 | List.remove(Object) removes one occurrence of p, or nothing when p is absent |
| MoveTree.RemoveFirstKeepsOrder | src/main/java/leelawatcher/goboard/move/AbstractMoveNode.java:140-142 | the first occurrence is removed and the rest keep their order |
| MoveTree.RemoveFirstNoDup | src/main/java/leelawatcher/goboard/Move.java:476-483 | on a list without duplicates p no longer occurs afterwards |
| MoveTree.RemoveChildSpec | src/main/java/leelawatcher/goboard/Move.java:408-410 | removeChild drops one occurrence of the child |
| MoveTree.RemoveLastAdded | src/main/java/leelawatcher/goboard/Move.java:408-427 | removing a child just added restores the child list |
| MoveTree.RemDup | src/main/java/leelawatcher/goboard/Move.java:476-483 | remDup changes only addWhite, whichever list it is given |
| MoveTree.SetupIgnoredOnPlay | src/main/java/leelawatcher/goboard/Move.java:456-474 | the setup and undo operations leave a play node unchanged |
| MoveTree.SetupFilesPoint | src/main/java/leelawatcher/goboard/Move.java:456-474 | on a root or setup node a point not yet in the target list is appended to it, and no list but the target and addWhite changes; a point already there changes nothing |
| MoveTree.SetupClearsWhite | src/main/java/leelawatcher/goboard/move/AbstractMoveNode.java:152-187 | after setupEmpty or setupBlack the point is not white, so exclusivity holds for white |
| MoveTree.LastDesignationDoesNotWin | src/main/java/leelawatcher/goboard/move/Move.java:171-188 | against the interface's promise: black then white leaves the point in both lists, and black then empty stays black |
| MoveTree.UndoSetupLists | src/main/java/leelawatcher/goboard/Move.java:555-617 | undoSetupBlack removes from addBlack; undoSetupEmpty and undoSetupWhite remove from addWhite |
| MoveTree.SetupInfo | src/main/java/leelawatcher/goboard/Move.java:926-935 | getSetupInfo gives the lists in the order empty, black, white |
| MoveTree.XEnglishSkipsJ | src/main/java/leelawatcher/goboard/Move.java:651-660 | as written, the 19 columns get distinct letters 'a'..'t' without 'j'; column 8 is 'i' |
| MoveTree.XEnglishBookSkipsI | src/main/java/leelawatcher/goboard/Move.java:651-660 | the intended book convention: distinct letters 'a'..'t' without 'i'; column 8 is 'j' |
| MoveTree.SgfOnBoard | src/main/java/leelawatcher/goboard/Move.java:675-695 | the SGF letters of an on-board point lie in 'a'..'s', determine the point, and "aa" is the upper-left corner |
| MoveTree.DocumentedSgfExample | src/main/java/leelawatcher/goboard/Move.java:693-717 | (3, 4) gives "do", not the documented "dp" |
| MoveTree.PlayTextNamesMove | src/main/java/leelawatcher/goboard/Move.java:721-757 | a play without comment prints as colour[xy], and the text determines the play |
| MoveTree.SetupTextOrder | src/main/java/leelawatcher/goboard/Move.java:721-757 | a setup node prints AE, AW and AB groups in that order, each only when non-empty |
| MoveTree.Next | src/main/java/leelawatcher/goboard/Move.java:770-774 | the first child, or the node itself for a leaf |
| MoveTree.NextVariationAgrees | src/main/java/leelawatcher/goboard/Move.java:789-796 | next(v) is children[v] for an existing v and next() outside [0, size]; because of the `<=` bound, v == size fails |
| MoveTree.GameTree.constructor | src/main/java/leelawatcher/goboard/Move.java:129-151 | a new tree is a lone root |
| MoveTree.GameTree.AddChild | src/main/java/leelawatcher/goboard/Move.java:425-427 | appends the child at the end of the list |
| MoveTree.GameTree.RemoveChild | src/main/java/leelawatcher/goboard/Move.java:408-410 | removes the first equal child and changes nothing else |
| MoveTree.GameTree.NewSetup | src/main/java/leelawatcher/goboard/Move.java:170-196 | a new setup node becomes the parent's last child, at an index after every existing node |
| MoveTree.GameTree.NewPlay | src/main/java/leelawatcher/goboard/Move.java:219-254 | a new play node becomes the parent's last child; a rejected colour throws and adds nothing |
| MoveTree.GameTree.SetupAt | src/main/java/leelawatcher/goboard/Move.java:456-474 | in place: only node n changes, to its setup value |
| MoveTree.GameTree.SetupEmptyAt | src/main/java/leelawatcher/goboard/Move.java:452-454 | only node n changes, by setupEmpty |
| MoveTree.GameTree.SetupWhiteAt | src/main/java/leelawatcher/goboard/Move.java:509-511 | only node n changes, by setupWhite |
| MoveTree.GameTree.SetupBlackAt | src/main/java/leelawatcher/goboard/Move.java:537-539 | only node n changes, by setupBlack |
| MoveTree.GameTree.UndoSetupEmptyAt | src/main/java/leelawatcher/goboard/Move.java:555-562 | only node n changes, by undoSetupEmpty |
| MoveTree.GameTree.UndoSetupWhiteAt | src/main/java/leelawatcher/goboard/Move.java:578-585 | only node n changes, by undoSetupWhite |
| MoveTree.GameTree.UndoSetupBlackAt | src/main/java/leelawatcher/goboard/Move.java:602-617 | only node n changes, by undoSetupBlack |
| MoveTree.GameTree.SetColorMoveNext | src/main/java/leelawatcher/goboard/Move.java:823-830 | succeeds iff the node is a setup or root node, setting only colorMoveNext; on a play it throws Unsupported and changes nothing |
| MoveTree.GameTree.SetComment | src/main/java/leelawatcher/goboard/Move.java:866-868 | only the node's comment changes |
| MoveTree.GameTree.NodeToText | src/main/java/leelawatcher/goboard/Move.java:721-757 | the StringBuilder loops produce the node's text |
| Games.StoneColor | src/main/java/leelawatcher/goboard/Game.java:187-197 | the stone is always B or W, and never the colour of a play it follows |
| Games.PlayBelowAccepted | src/main/java/leelawatcher/goboard/Game.java:187-199 | the play constructor always accepts the colour doMove picks |
| Games.FirstStoneAgrees | src/main/java/leelawatcher/goboard/Game.java:187-197 | a new game's first stone matches isWMove iff there is no handicap |
| Games.UndoFirstStoneDisagrees | src/main/java/leelawatcher/goboard/Game.java:235-242 | undoMove keeps whiteLast, so after black's first stone is taken back isWMove says white while the next stone is black |
| Games.Filed | src/main/java/leelawatcher/goboard/Game.java:213-217 | doSetup's switch changes only the setup lists, and an unknown type files nothing |
| Games.HandiValue | src/main/java/leelawatcher/goboard/Game.java:603-613 | values of at most 1 become 0; a traditional handicap is capped at 9; other values are kept |
| Games.SizeTextMeaning | src/main/java/leelawatcher/goboard/Game.java:578-583 | the text has no colon iff the board is square, and then reads back as the size |
| Games.SizeTextInjective | src/main/java/leelawatcher/goboard/Game.java:578-583 | different sizes give different texts |
| Games.Game.constructor | src/main/java/leelawatcher/goboard/Game.java:111-146 | a lone root that is both currMove and prevMove; black to move; game not over; remUndo and markUndos on; 19×19; result "?" |
| Games.Game.DoMove | src/main/java/leelawatcher/goboard/Game.java:166-205 | an off-board non-pass is ignored; a free handicap stone goes onto the root; otherwise a new last child of currMove becomes current, with prevMove the old current and whiteLast flipped |
| Games.Game.DoSetup | src/main/java/leelawatcher/goboard/Game.java:207-218 | reuses a setup currMove or hangs a new setup node under prevMove, files the point, and sets colorMoveNext and whiteLast from blackToMove |
| Games.Game.FileAt | src/main/java/leelawatcher/goboard/Game.java:213-217 | files the point in the current node only |
| Games.Game.DelCurrMove | src/main/java/leelawatcher/goboard/Game.java:224-228 | steps to the parent and detaches the old node from the parent's children |
| Games.Game.UndoMove | src/main/java/leelawatcher/goboard/Game.java:235-242 | prefixes "UNDO " when markUndos, then steps to the parent (remUndo) or detaches the node; whiteLast is unchanged |
| Games.Game.MarkUndo | src/main/java/leelawatcher/goboard/Game.java:236-237 | only the current node's comment changes, and only when markUndos |
| Games.Game.StepUp | src/main/java/leelawatcher/goboard/Game.java:238-239 | the parent becomes current; the tree and every other field are kept |
| Games.Game.SetHandi | src/main/java/leelawatcher/goboard/Game.java:603-613 | both the handicap and the stones left take the adjusted value |
| Games.Game.IsWMoveMeaning | src/main/java/leelawatcher/goboard/Game.java:780-785 | while the turn agrees, isWMove is true iff doMove would play white |
| Games.Game.SetGameOver | src/main/java/leelawatcher/goboard/Game.java:770-772 | only the game-over flag changes |
| Games.Game.SetGameResult | src/main/java/leelawatcher/goboard/Game.java:760-762 | only the result text changes |
| Games.Game.SetBoardSize | src/main/java/leelawatcher/goboard/Game.java:562-565 | both dimensions take the given size |
| Games.Game.GetBoardSize | src/main/java/leelawatcher/goboard/Game.java:578-583 | one number for a square board, which reads back as the size |
| Boards.CaptureGroupEffect | src/main/java/leelawatcher/goboard/Board.java:346-392 | capturing an opponent group removes only opponent stones and adds the group's size to the mover's prisoners |
| Boards.CaptureStepEffect | src/main/java/leelawatcher/goboard/Board.java:262-267 | one neighbour test never throws on a well-formed position and removes only opponent stones, each counted once |
| Boards.AfterCapturesEffect | src/main/java/leelawatcher/goboard/Board.java:262-285 | the four neighbour tests keep the position well formed, never remove the mover's stones, and count every removed stone for the mover |
| Boards.LegalPlay | src/main/java/leelawatcher/goboard/Board.java:249-254 | a legal play other than a pass is on the board, on an empty point of a checked position |
| Boards.DerivedWellFormed | src/main/java/leelawatcher/goboard/Board.java:256-259 | the position appended after a legal move is well formed whenever it is derived |
| Boards.SessionKeepsNode | src/main/java/leelawatcher/goboard/Board.java:436-444 | setUp keeps the current node iff it had nothing to file or the node was already a setup node |
| Boards.Board.constructor | src/main/java/leelawatcher/goboard/Board.java:60-68 | one empty position at cursor 0, no prisoners, and a new game without handicap |
| Boards.Board.NewGame | src/main/java/leelawatcher/goboard/Board.java:79-87 | the same start, with the given handicap |
| Boards.Board.GetCurrPos | src/main/java/leelawatcher/goboard/Board.java:308-321 | a position holding the current value |
| Boards.Board.GetBoardSize | src/main/java/leelawatcher/goboard/Board.java:139-154 | the board size is 19 |
| Boards.Board.IsOnBoard | src/main/java/leelawatcher/goboard/Board.java:163-166 | true iff both coordinates lie in 0..18 |
| Boards.Board.CountLiberties | src/main/java/leelawatcher/goboard/Board.java:337-339 | the liberty count of p on the current position, or the fault |
| Boards.Board.GroupSet | src/main/java/leelawatcher/goboard/Board.java:407-424 | p's group on the current position; the empty set off the board; InvalidPosition when the position fails checkValid |
| Boards.Board.CountGroup | src/main/java/leelawatcher/goboard/Board.java:367-369 | the size of p's group |
| Boards.Board.CaptureStone | src/main/java/leelawatcher/goboard/Board.java:346-357 | a stone at p is removed and counted for the other colour; an empty point changes nothing |
| Boards.Board.CaptureMembers | src/main/java/leelawatcher/goboard/Board.java:387-389 | the loop removes every member and counts each black one for white and each other one for black |
| Boards.Board.CaptureNext | src/main/java/leelawatcher/goboard/Board.java:387-389 | one more member is removed and counted, and no earlier position changes |
| Boards.Board.CaptureGroup | src/main/java/leelawatcher/goboard/Board.java:383-392 | removes p's whole group, adds its size to the prisoners, and returns that size |
| Boards.Board.CaptureFound | src/main/java/leelawatcher/goboard/Board.java:384-389 | on a valid position the group of an on-board p is taken off and its stones are counted as prisoners by colour |
| Boards.Board.CaptureIfDead | src/main/java/leelawatcher/goboard/Board.java:262-267 | one neighbour test of doMove, as the capture-step function |
| Boards.Board.AppendDerived | src/main/java/leelawatcher/goboard/Board.java:258-285 | a derivation that throws leaves the list as it was; otherwise the derived position, after its captures, is appended and the prisoners are counted |
| Boards.Board.PushAndCapture | src/main/java/leelawatcher/goboard/Board.java:258-285 | the new position is appended and then replaced by its captured form, which is always defined on a well-formed position |
| Boards.Board.CaptureNeighbours | src/main/java/leelawatcher/goboard/Board.java:262-285 | the four neighbour tests in N, E, S, W order |
| Boards.Board.DoMove | src/main/java/leelawatcher/goboard/Board.java:249-296 | an illegal point throws and changes nothing; legality is tested before game over; a finished game ignores the move; otherwise the move is recorded, one derived position is appended and neighbour groups without liberties are captured |
| Boards.Board.Advance | src/main/java/leelawatcher/goboard/Board.java:256-285 | the cursor advances and the derived, captured position is appended |
| Boards.Board.RecordMove | src/main/java/leelawatcher/goboard/Board.java:258-259 | the cursor advances and the game records the play: a new node at x, y in the colour to move, or the free handicap on the root |
| Boards.Board.SetUp | src/main/java/leelawatcher/goboard/Board.java:436-449 | a new setup node appends its derived position and advances the cursor; reusing the node removes the current position and throws out of range |
| Boards.Board.SetupAll | src/main/java/leelawatcher/goboard/Board.java:438-440 | the three loops file the white, then the black, then the empty points, in list order, in one setup session |
| Boards.Board.SetupEach | src/main/java/leelawatcher/goboard/Board.java:438-440 | one loop files each point of its list in order; the turn follows blackToMove once a point is filed |
| Boards.Board.SetupOne | src/main/java/leelawatcher/goboard/Board.java:438-440 | one doSetup extends the setup session by one request |
| Boards.Board.UndoMove | src/main/java/leelawatcher/goboard/Board.java:213-219 | past the start: the game steps back, the last position is dropped and the cursor drops by one; the prisoner counts stay; at the start nothing changes |
| Boards.Board.DoResign | src/main/java/leelawatcher/goboard/Board.java:227-234 | "B+R" when white is to move, "W+R" otherwise, and the game is over |
| Boards.Board.MoveThenUndo | src/main/java/leelawatcher/goboard/Board.java:213-296 | a legal move followed by undo restores the positions and the cursor |
| Sgf.MovesWithChildren | src/main/java/leelawatcher/sgf/SGFbuilder.java:34-59 | a node with children prints its own text once before its children (the root prints nothing), then each child's text in order |
| Sgf.OneChild | src/main/java/leelawatcher/sgf/SGFbuilder.java:44-51 | with one child there are no parentheses |
| Sgf.TwoChildren | src/main/java/leelawatcher/sgf/SGFbuilder.java:44-51 | with two children each child's text is wrapped in parentheses, in child order |
| Sgf.SingleLineText | src/main/java/leelawatcher/sgf/SGFbuilder.java:34-59 | a tree without variations prints ";" and the text of each node, in depth order |
| Sgf.RootSilent | src/main/java/leelawatcher/sgf/SGFbuilder.java:39-55 | a root with a child prints nothing of its own |
| Sgf.PrintMoves | src/main/java/leelawatcher/sgf/SGFbuilder.java:34-59 | the recursive walk with its loop over the children yields the printed tree |
| Sgf.BuildSgf | src/main/java/leelawatcher/sgf/SGFbuilder.java:62-90 | the file starts with "(;FF[4]GM[1]" and ends with the tree's text and ")\n" |
| Parsers.ParseMove | src/main/java/leelawatcher/parser/AutoGtpOutputParser.java:137-154 | a failed match throws NoMatch |
| Parsers.ParseMoveOutcomes | src/main/java/leelawatcher/parser/AutoGtpOutputParser.java:137-154 | a point iff the text is one character plus digits; no point iff it is "pass" or "resign"; an error otherwise |
| Parsers.ParsersAgreeButResign | src/main/java/leelawatcher/leela/AutoGtpOutputParser.java:120-137 | the older parser agrees with the newer on every text but "resign", which it rejects |
| Parsers.ColumnLetters | src/main/java/leelawatcher/parser/AutoGtpOutputParser.java:147-151 | the column letter is read case-insensitively, and 'i' and 'j' both give column 8 |
| Parsers.ColumnOfBookLetter | src/main/java/leelawatcher/parser/AutoGtpOutputParser.java:147-151 | the column read from a book letter is that column, for both lettering conventions |
| Parsers.ParseMoveText | src/main/java/leelawatcher/parser/AutoGtpOutputParser.java:137-154 | both parsers read back every on-board point from its letter and row text |
| Parsers.Examples | src/test/java/leelawatcher/parser/AutoGtpOutputParserTest.java:13-39 | "D3" is (3, 2); "pass" and "resign" give no point; "resign!" fails |
| FileFilters.IndexOf | src/main/java/tsb/gui/SGFFileFilter.java:36-43 | String.indexOf: the first occurrence, or -1 iff there is none |
| FileFilters.AcceptMeaning | src/main/java/tsb/gui/SGFFileFilter.java:34-48 | a 3-character name is always accepted; any other name is accepted iff it ends with a spelling of ".sgf" that occurs nowhere earlier |
| FileFilters.AllCaseSpellings | src/main/java/tsb/gui/SGFFileFilter.java:36-43 | every case mix of ".sgf" is among the spellings tried |
| FileFilters.AcceptedExamples | src/test/java/leelawatcher/gui/SGFFileFilterTest.java:22-27 | "fff.sgF", "fff.SGF" and "xyz123.SGf" are accepted |
| FileFilters.OtherExtension | src/test/java/leelawatcher/gui/SGFFileFilterTest.java:17-20 | "fff.txt" is rejected |
| FileFilters.DoubledExtension | src/main/java/tsb/gui/SGFFileFilter.java:36 | "a.sgf.sgf" is rejected, because its first ".sgf" is not at the end |

## Left out

- The Swing user interface (board view, image maker) is not part of this model.
- Parser plumbing is not modelled: the thread, the stream reads, the streaming buffer and the listeners. Only `parseMove` is.
- Parsers.ParseMove: the row number is unbounded; the overflow of `Integer.valueOf` on very long digit strings is not modelled.
- Parsers.ParseMove: the column comes from the first character's code point, where Java takes the first UTF-16 code unit (`charAt(0)`). A first character outside the Basic Multilingual Plane therefore gives a different x: "😀3" gives 128414 in the model and 55259 (its high surrogate, less 'a', less one) in Java. The same holds for Parsers.ParseMoveOld.
- Parsers.Lower: lower-cases ASCII letters only; `toLowerCase` on other characters is not modelled.
- `Board.saveGame` is file I/O.
- The `System.exit` paths of `Board.getBoardSize` are not modelled: the board size is fixed at 19.
- Game metadata is left out, because it is floating point, wall-clock time or console output: names, ranks, komi, date, `dPrint`, `dPrintMoves`.
- Sgf.BuildSgf: the header's descriptive fields (names, event, date, ranks, komi, rule set) arrive as already formatted text, since their float formatting is not modelled.
- `Position.toString` and `dPrint` are debugging output.
- The static instance counters are not modelled: node identity is the arena index, which grows as the counter did.
- `IllegalMoveException` carries only its fault kind, not the point and position.
- The self-capture branch of `Board.doMove` is not modelled. The self-capture-allowed setting is false, so the branch is unreachable.
- Null arguments (a null mark overlay, a null member set, a null list) are not modelled; each method takes the non-null case.
- `SGFFileFilter.getDescription` is the constant `FileFilters.Description`.
- Markable.MarkablePosition.GetGroupSet: the `boardSize` argument is fixed at 19, the size every caller in the program passes. The tests pass 9; Markable.Group3Example uses 19, which gives the same group there, because every stone and neighbour involved lies inside the 9x9 corner.
- FileFilters.Accept: lengths and indices count Dafny characters (Unicode scalar values), while Java's `length` and `indexOf` count UTF-16 code units. Names with a character outside the Basic Multilingual Plane are judged differently: Java accepts "😀x" (length 3) and rejects "😀ab" (length 4), and the model does the reverse.
- FileFilters.AcceptMeaning: states the filter on characters, not UTF-16 code units, so its "every 3-character name is accepted" clause does not hold in Java for names with a character outside the Basic Multilingual Plane.
- MoveTree.JChar: a Dafny `char` cannot hold a lone surrogate, so a Java `(char)` cast that lands in U+D800..U+DFFF gives U+FFFD in the model. The column letters of on-board points never reach that range.
- The legacy and split node classes are modelled as one node datatype, because their behaviour is the same. The split play node initialises all three setup lists, like the legacy one.
- Boards.Board.GetCurrPos: returns a fresh copy of the current value. The shallow clone's sharing of row arrays with the board is modelled by `Positions.Position.Clone` alone.

## Findings

| source | as written | input that shows it | evidently intended | confidence | as-written member | corrected member |
|---|---|---|---|---|---|---|
| src/main/java/leelawatcher/goboard/Move.java:651-660 | the book column letter is 'a'+x below 9 and 'a'+x+1 from 9 on, so column 8 is 'i' and 'j' is skipped | x = 8 gives 'i'; x = 9 gives 'k' | the book convention the comment describes, which skips 'i': column 8 is 'j' | high, not executed | MoveTree.XEnglishSkipsJ | MoveTree.XEnglishBookSkipsI |
