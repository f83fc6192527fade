# Deal or No Deal game engine, in Dafny

This project models the core of a small Java engine for the "Deal or No Deal"
game. The engine has three layers, and each is one Dafny module:

- `Boxes` (`box.dfy`) models `Box`. A box is one sealed container. It holds a
  monetary value of at least `DELTA` (0.01) and an open flag that only moves
  from closed to open. Two boxes are equal when their open flags match and
  their values differ by less than `DELTA`.
- `BoxLists` (`box_list.dfy`) models `BoxList`. It is a fixed-length array of
  distinct boxes with bounds-checked access and opening. It also computes the
  average value of the unopened boxes, shuffles the boxes by pairwise swaps,
  and compares two lists box by box.
- `Deal` (`deal_game.dfy`) models `DealGame`, the round state machine. It holds
  the value table, the round quota table, the player's chosen box, the round
  and opened-box counters, the banker's offer and the high score.
- `Outcomes` (`outcomes.dfy`) holds the error kinds. Each Java exception is a
  `Result` or `Outcome` value, with one `Error` per exception message.

Monetary values are Dafny `real`, so averages, offers and the `DELTA`
comparisons are exact. The state that Java updates in place is modelled as
classes. `Box.isOpen` is a mutable field. `BoxList.boxes` is an `array<Box>`
that `Open` and `Shuffle` change in place. `DealGame` keeps its counters as
fields. Each class has a `Valid()` invariant. `BoxList` also has a ghost
`Contents` (the state of every box, in array order) that its methods keep up
to date. The loop methods (the average, the shuffle, the constructor and
`Equals`) are proved against the specification functions `AverageUnopened`,
`ApplySwaps`, `Closed` and `SameBoxes`. The lemmas beside those functions
state what the source promises.

The Java getters `DealGame.hasPlayerChosenBox()`,
`getBoxesOpenedThisRound()`, `getRound()` and `getHighScore()` only read a
field. The model reads those fields directly.

Two behaviours of the code are worth stating, and the model follows them:
- `getPlayerBoxValue` has no guard for the case before a box is chosen. The
  code reads box `playerBoxIndex`, which is still Java's default 0, so it
  returns the value of box 0. The `DealGame` invariant keeps
  `playerBoxIndex == 0` until the first choice.
- Nothing keeps the count of boxes opened this round within the round's
  quota: `selectBox` counts every opening. It also counts a box that is already open, and the player's own
  box. So the invariant proved here is weaker: the number of open boxes never
  exceeds `boxesOpenedTotal`, and nothing is open before the player chooses.

## Model

| member | source | states |
|---|---|---|
| `Boxes.Box.Create` | Box.java:25-32 | A value below DELTA is refused with InvalidValue, and DELTA itself is accepted. A new box is closed and holds exactly the given value. |
| `Boxes.Box.constructor` | Box.java:30-31 | After the guard, the new box is valid, closed and holds the given value. |
| `Boxes.Box.GetValue` | Box.java:39-41 | Returns the stored value whatever the open state. The value is never below DELTA. |
| `Boxes.Box.IsOpen` | Box.java:48-50 | Returns the open flag of the box. |
| `Boxes.Box.Open` | Box.java:55-57 | Afterwards the box is open and its value is unchanged. The new state does not depend on the old flag, so opening twice is a no-op, and it is never an error. |
| `Boxes.Box.Equals` | Box.java:65-81 | True iff the other object is a Box with the same open flag and a value less than DELTA away. False for null and for non-boxes. A box equals itself. |
| `Boxes.EqualsSymmetric` | Box.java:72 | `a.Equals(b) == b.Equals(a)` for any two boxes. |
| `Boxes.MatchesReflexiveSymmetric` | Box.java:72 | Tolerance equality of box states is reflexive and symmetric. |
| `Boxes.MatchesNotTransitive` | Box.java:72 | Tolerance equality is not transitive: some a, b, c have a~b and b~c but not a~c. |
| `BoxLists.BoxList.Create` | BoxList.java:20-32 | A null array gives NullAmounts. Fewer than 2 amounts gives InvalidAmounts. A value below DELTA gives InvalidValue, raised by the box constructor. Otherwise the list is valid and fresh, and holds one closed box per amount, in input order (`Contents == Closed(amounts)`). |
| `BoxLists.BoxList.constructor` | BoxList.java:28-31 | The array holds the given boxes in order. They are distinct and closed, and `Contents == Closed(amounts)`. |
| `BoxLists.BoxList.ValuesAtLeastDelta` | BoxList.java:28-31 | Every value in a valid list is at least DELTA. |
| `BoxLists.BoxList.GetValue` | BoxList.java:41-46 | Succeeds iff `0 <= index < length` and returns the value of box `index`, which is at least DELTA. Otherwise the error is InvalidIndex. |
| `BoxLists.BoxList.IsOpen` | BoxList.java:55-63 | Succeeds iff the index is in range and returns whether box `index` is open. Otherwise the error is InvalidIndex. |
| `BoxLists.BoxList.Open` | BoxList.java:71-76 | For an index in range, opens exactly box `index`. Every other box, every value and the array order stay as they were. An index out of range gives InvalidIndex and changes nothing. |
| `BoxLists.BoxList.AverageValueOfUnopenedBoxes` | BoxList.java:83-97 | The loop's result equals `AverageUnopened(Contents)`: the sum of the unopened values divided by their count, or 0 when every box is open. |
| `BoxLists.BoxList.Shuffle` | BoxList.java:105-123 | A negative count gives InvalidSwaps and changes nothing. Otherwise the array becomes `ApplySwaps(old array, picks)`, one swap of two distinct in-range indices per pick. Zero swaps leave it unchanged. The list stays valid and keeps the same boxes. |
| `BoxLists.BoxList.Exchange` | BoxList.java:119-121 | Boxes `index1` and `index2` trade places. Nothing else changes. |
| `BoxLists.BoxList.Equals` | BoxList.java:131-140 | True iff the other object is a BoxList of the same length whose boxes match position by position under box equality. This covers `this == o` and the deep comparison. |
| `BoxLists.Swap` | BoxList.java:119-121 | A swap exchanges positions i and j, keeps every other position, and keeps the multiset. |
| `BoxLists.ApplySwaps` | BoxList.java:111-122 | Any sequence of swaps keeps the length and the multiset: the result is a permutation. |
| `BoxLists.CountUnopened` | BoxList.java:84-92 | The count of unopened boxes never exceeds the number of boxes. |
| `BoxLists.AllClosedCount` | BoxList.java:28-31 | In a list with no open box, every box counts as unopened. |
| `BoxLists.NoneUnopened` | BoxList.java:93-95 | The unopened count is 0 iff every box is open. |
| `BoxLists.AllOpenAverageIsZero` | BoxList.java:93-95 | When every box is open, the average is 0. |
| `BoxLists.AverageZeroIffAllOpen` | BoxList.java:83-97 | For valid values, the average is 0 iff every box is open. Otherwise it is at least DELTA. |
| `BoxLists.AverageWithinBounds` | BoxList.java:83-97 | With an unopened box present, the average lies between any lower and any upper bound of the unopened values. |
| `BoxLists.AverageOfFreshList` | BoxList.java:83-97 | A fresh list of 1, 2, 3 averages 2. |
| `BoxLists.OpenedEffect` | BoxList.java:71-76 | Opening a closed box removes exactly its value from the sum and 1 from the count. Opening an open box changes nothing. |
| `BoxLists.UnopenedOrderIrrelevant` | BoxList.java:83-97 | Two lists with the same multiset of boxes have the same unopened sum, count and average. |
| `BoxLists.ShuffleKeepsAverage` | BoxList.java:105-123 | Shuffling never changes the average of the unopened boxes. |
| `BoxLists.SameBoxesReflexiveSymmetric` | BoxList.java:131-140 | List equality is reflexive and symmetric. |
| `Deal.ScheduleWellFormed` | DealGame.java:15-29 | There are 26 values and 11 quota entries. Every value is a valid box value. The values are strictly increasing, so they are distinct. Round 0 has quota 0 and every played round has quota at least 1. |
| `Deal.ScheduleOpensAllButOne` | DealGame.java:28-29 | The quotas add up to 25 = NUM_BOXES - 1. This is one fewer than the number of boxes. It does not say that a game opens every box but the player's: `SelectBox` also counts a box that is already open, and the player's own box. |
| `Deal.OfferRamp` | DealGame.java:216-218 | For a non-negative average and a round in [0, 10], the offer is between 0 and the average. It equals the average in round 10 and never drops from one round to the next. |
| `Deal.SetUpBoxes` | DealGame.java:69-72 | The game's list holds BOX_VALUES, all closed. In testing mode they are in exactly that order; otherwise they are in the order the 500 swaps give. |
| `Deal.DealGame.constructor` | DealGame.java:68-90 | Afterwards round is 1, both counters are 0 and no box is chosen. The high score is the saved one, or 0 when none was saved. The box order is as in SetUpBoxes. |
| `Deal.DealGame.SelectBox` | DealGame.java:107-120 | An index outside [0, 26) gives InvalidIndex and changes nothing. The first valid call records the index and sets the chosen flag, opens nothing and leaves the counters alone. Every later call opens that box and adds 1 to both counters, even for an open box or the player's own. The player's index never changes after that. |
| `Deal.DealGame.GetBoxesRemainingToOpenThisRound` | DealGame.java:127-129 | Returns the current round's quota minus the boxes opened this round. This is never more than the quota. |
| `Deal.DealGame.StartNextRound` | DealGame.java:152-155 | The round goes up by 1, the round counter goes back to 0, and the game total and everything else stay as they were. |
| `Deal.DealGame.IsEndOfRound` | DealGame.java:162-167 | True iff the boxes opened this round equal the round's quota, that is, iff none remain to open. |
| `Deal.DealGame.GetPlayerBoxValue` | DealGame.java:174-176 | Returns the value in the player's box, which is at least DELTA. Before any choice, it is the value of box 0. |
| `Deal.DealGame.IsBoxOpen` | DealGame.java:187-195 | Succeeds iff the index is in [0, 26) and returns whether that box is open. Otherwise the error is InvalidIndex. |
| `Deal.DealGame.GetValueInBox` | DealGame.java:204-209 | Succeeds iff the index is in [0, 26) and returns that box's value, which is at least DELTA. Otherwise the error is InvalidIndex. |
| `Deal.DealGame.GetCurrentOffer` | DealGame.java:216-218 | Returns `average * round / 10` for the average of the unopened boxes. It is never negative and never more than that average, and equals it in round 10. |
| `Deal.DealGame.IsNewHighScore` | DealGame.java:235-251 | Returns true iff the value is strictly greater than the high score, and only then does the value become the high score. Otherwise nothing changes. The high score never drops. |

## Left out

- Reading `highscore.txt` in the constructor (DealGame.java:74-86) is file I/O. The constructor takes the file's content as `Option<real>`, where None means the file is missing or unreadable and gives 0. Two cases make the Java constructor throw, because its `catch (IOException e)` does not catch them: an empty file makes `scan.nextLine()` throw `NoSuchElementException`, and a line that does not parse as a number throws `NumberFormatException`. Neither is modelled.
- Writing the new high score in `isNewHighScore` (`PrintWriter`, `printf("%.2f")` and `System.exit(1)` when the file cannot be opened) is file I/O. Only the update of the field is modelled.
- `java.util.Random` in `shuffle` is replaced by a caller-supplied sequence of index pairs, each pair distinct and in range. This stands for what the draw-and-redraw loop produces. Which permutation results, and how uniform it is, are not modelled.
- IEEE-754 `double` rounding is not modelled: values, sums, averages and offers are exact reals, and the `DELTA` comparisons are exact. NaN and infinities cannot occur. In Java, `new Box(Double.NaN)` succeeds because `NaN < DELTA` is false, and such a box is not equal to itself; `Double.parseDouble` also accepts "NaN" and "Infinity" from the high-score file. The model has none of these cases.
- `toString` of Box and BoxList is presentation only.
- Java identity and type details of `equals` go no further than null and "not a Box/BoxList gives false". For BoxList the other list is assumed to satisfy its invariant, as every constructed list does.
- Deal.DealGame.StartNextRound: requires `round < NUM_ROUNDS`. The Java method has no bound check, but the quota table has only 11 entries, so a later `getBoxesRemainingToOpenThisRound` or `isEndOfRound` would fail with an array index error. Keeping the caller within the schedule is the caller's duty, and the model states that duty as a precondition. Java's `getCurrentOffer` has no such failure: at round 11 it returns 1.1 times the average. The model's promise that the offer never exceeds the average rests on this precondition.
- Integer overflow of the `int` counters and of `round` is not modelled. They stay far below 2^31 in any game.
