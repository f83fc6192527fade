/** The round state machine of the game: the player first picks a box to
    keep, then opens the others round by round, a fixed number per round,
    and after each round the banker offers a fraction of the average value
    still in play. */
module Deal {
  import opened Outcomes
  import opened Boxes
  import opened BoxLists

  /** Number of boxes in the game. */
  const NUM_BOXES: int := 26

  /** The monetary values of the boxes, in the order of an unshuffled game. */
  const BOX_VALUES: seq<real> := [
    0.01, 1.0, 5.0, 10.0, 25.0, 50.0, 75.0,
    100.0, 200.0, 300.0, 400.0, 500.0,
    750.0, 1000.0, 5000.0, 10000.0,
    25000.0, 50000.0, 75000.0,
    100000.0, 200000.0, 300000.0,
    400000.0, 500000.0, 750000.0,
    1000000.0]

  /** How many boxes are opened in each round; round 0 is never played. */
  const BOXES_IN_ROUND: seq<int> := [0, 6, 5, 4, 3, 2, 1, 1, 1, 1, 1]

  /** Number of rounds in the game. */
  const NUM_ROUNDS: int := 10

  /** Number of swaps that shuffle the boxes when the game is set up. */
  const BOX_SWAPS: int := 500

  /** The banker's offer: the average unopened value scaled by round/10. */
  function Offer(average: real, round: int): (r: real) {
    average * round as real / 10.0
  }

  /** The sum of a list of quotas. */
  function Total(quotas: seq<int>): (r: int) {
    if quotas == [] then 0 else Total(quotas[..|quotas| - 1]) + quotas[|quotas| - 1]
  }

  /** The constant tables agree with each other: one value per box, every
      value a valid box value, all values distinct and increasing, and one
      quota per round plus the unused round 0. */
  lemma {:induction false} ScheduleWellFormed()
    ensures |BOX_VALUES| == NUM_BOXES && |BOXES_IN_ROUND| == NUM_ROUNDS + 1
    ensures forall i :: 0 <= i < |BOX_VALUES| ==> DELTA <= BOX_VALUES[i]
    ensures forall i, j :: 0 <= i < j < |BOX_VALUES| ==> BOX_VALUES[i] < BOX_VALUES[j]
    ensures BOXES_IN_ROUND[0] == 0 && forall r :: 1 <= r <= NUM_ROUNDS ==> 1 <= BOXES_IN_ROUND[r]
  {
    forall i | 0 <= i < |BOX_VALUES| - 1 ensures BOX_VALUES[i] < BOX_VALUES[i + 1] {
    }
    IncreasingFromSteps(BOX_VALUES);
  }

  /** A sequence that increases at every step is increasing. */
  lemma {:induction false} IncreasingFromSteps(s: seq<real>)
    requires forall i :: 0 <= i < |s| - 1 ==> s[i] < s[i + 1]
    ensures forall i, j :: 0 <= i < j < |s| ==> s[i] < s[j]
  {
    if 2 < |s| {
      var n := |s| - 1;
      var init := s[..n];
      assert forall i :: 0 <= i < |init| ==> init[i] == s[i];
      IncreasingFromSteps(init);
      forall i | 0 <= i < n ensures s[i] < s[n] {
        assert i < n - 1 ==> s[i] < s[n - 1];
      }
    }
  }

  /** The round quotas add up to one fewer than the number of boxes. */
  lemma {:induction false} ScheduleOpensAllButOne()
    ensures Total(BOXES_IN_ROUND) == NUM_BOXES - 1
  {
    var q := BOXES_IN_ROUND;
    forall k | 0 <= k < |q| ensures Total(q[..k + 1]) == Total(q[..k]) + q[k] {
      assert q[..k + 1][..k] == q[..k];
    }
    assert Total(q[..0]) == 0;
    assert Total(q[..1]) == 0;
    assert Total(q[..2]) == 6;
    assert Total(q[..3]) == 11;
    assert Total(q[..4]) == 15;
    assert Total(q[..5]) == 18;
    assert Total(q[..6]) == 20;
    assert Total(q[..7]) == 21;
    assert Total(q[..8]) == 22;
    assert Total(q[..9]) == 23;
    assert Total(q[..10]) == 24;
    assert Total(q[..11]) == 25;
    assert q[..11] == q;
  }

  /** Scaling a non-negative amount by a larger count gives no less. */
  lemma {:induction false} ScaleMonotone(a: real, k: nat, m: nat)
    requires 0.0 <= a && k <= m
    ensures a * k as real <= a * m as real
    decreases m - k
  {
    if k < m {
      ScaleMonotone(a, k, m - 1);
      assert a * m as real == a * (m - 1) as real + a;
    }
  }

  /** The offer never exceeds the average, reaches it in the last round,
      and grows from round to round. */
  lemma {:induction false} OfferRamp(average: real, round: int)
    requires 0.0 <= average && 0 <= round <= NUM_ROUNDS
    ensures 0.0 <= Offer(average, round) <= average
    ensures Offer(average, NUM_ROUNDS) == average
    ensures round < NUM_ROUNDS ==> Offer(average, round) <= Offer(average, round + 1)
  {
    var scaled, top := average * round as real, average * 10 as real;
    assert 0.0 <= scaled by {
      ScaleMonotone(average, 0, round);
    }
    assert scaled <= top by {
      ScaleMonotone(average, round, 10);
    }
    assert Offer(average, round) == scaled / 10.0;
    assert Offer(average, NUM_ROUNDS) == top / 10.0 == average;
    if round < NUM_ROUNDS {
      var next := average * (round + 1) as real;
      assert scaled <= next by {
        ScaleMonotone(average, round, round + 1);
      }
      assert Offer(average, round + 1) == next / 10.0;
    }
  }

  /** The box list of a new game: BOX_VALUES, all closed, shuffled unless
      in testing mode. */
  method SetUpBoxes(testing: bool, picks: seq<(int, int)>) returns (list: BoxList)
    requires !testing ==> |picks| == BOX_SWAPS && ValidPicks(NUM_BOXES, picks)
    ensures fresh(list.Repr) && list.Valid()
    ensures testing ==> list.Contents == Closed(BOX_VALUES)
    ensures !testing ==> list.Contents == ApplySwaps(Closed(BOX_VALUES), picks)
    ensures |list.Contents| == NUM_BOXES == CountUnopened(list.Contents)
  {
    ScheduleWellFormed();
    var amounts := new real[NUM_BOXES](i requires 0 <= i < NUM_BOXES => BOX_VALUES[i]);
    assert amounts[..] == BOX_VALUES;
    var created := BoxList.Create(amounts);
    list := created.value;
    AllClosedCount(list.Contents);
    if !testing {
      var _ := list.Shuffle(BOX_SWAPS, picks);
      UnopenedOrderIrrelevant(list.Contents, Closed(BOX_VALUES));
    }
  }

  class DealGame {
    var boxList: BoxList
    /** Meaningful once the player has chosen; Java's default 0 before. */
    var playerBoxIndex: int
    var hasPlayerChosenBox: bool
    var round: int
    var boxesOpenedThisRound: int
    var boxesOpenedTotal: int
    var highScore: real
    ghost var Repr: set<object>

    /** The game owns a valid list of NUM_BOXES boxes; the player's index
        is a box; the round is one of the schedule's; no box is open before
        the player has chosen; and every open box was opened by a counted
        selection (a box opened twice is counted twice). */
    ghost predicate Valid()
      reads this, Repr
    {
      this in Repr && boxList in Repr && boxList.Repr <= Repr && this !in boxList.Repr &&
      boxList.Valid() && |boxList.Contents| == NUM_BOXES &&
      0 <= playerBoxIndex < NUM_BOXES &&
      1 <= round <= NUM_ROUNDS &&
      0 <= boxesOpenedThisRound <= boxesOpenedTotal &&
      NUM_BOXES - CountUnopened(boxList.Contents) <= boxesOpenedTotal &&
      (!hasPlayerChosenBox ==> boxesOpenedTotal == 0 && playerBoxIndex == 0)
    }

    /** The Java constructor without its file read: `savedHighScore` is what
        the high-score file held, None when it is missing or unreadable. The
        list holds BOX_VALUES, in that order in testing mode and otherwise
        after BOX_SWAPS swaps; `picks` stands for the random draws. */
    constructor (testing: bool, picks: seq<(int, int)>, savedHighScore: Option<real>)
      requires !testing ==> |picks| == BOX_SWAPS && ValidPicks(NUM_BOXES, picks)
      ensures Valid() && fresh(Repr)
      ensures round == 1 && boxesOpenedThisRound == 0 && boxesOpenedTotal == 0
      ensures !hasPlayerChosenBox
      ensures highScore == (if savedHighScore.Some? then savedHighScore.value else 0.0)
      ensures testing ==> boxList.Contents == Closed(BOX_VALUES)
      ensures !testing ==> boxList.Contents == ApplySwaps(Closed(BOX_VALUES), picks)
    {
      var list := SetUpBoxes(testing, picks);
      boxList := list;
      highScore := if savedHighScore.Some? then savedHighScore.value else 0.0;
      playerBoxIndex := 0;
      hasPlayerChosenBox := false;
      round := 1;
      boxesOpenedThisRound := 0;
      boxesOpenedTotal := 0;
      Repr := {this} + list.Repr;
    }

    /** The first valid selection records the player's box and opens
        nothing; every later one opens the selected box, whether it is
        already open or is the player's own, and counts it in this round
        and in the game. The player's box never changes once chosen. An
        index that is not a box is refused and changes nothing. */
    method SelectBox(index: int) returns (r: Outcome)
      requires Valid()
      modifies Repr
      ensures Valid() && Repr == old(Repr) && boxList == old(boxList)
      ensures round == old(round) && highScore == old(highScore)
      ensures r.Pass? <==> 0 <= index < NUM_BOXES
      ensures r.Fail? ==> (r.error == InvalidIndex &&
        boxList.Contents == old(boxList.Contents) &&
        playerBoxIndex == old(playerBoxIndex) && hasPlayerChosenBox == old(hasPlayerChosenBox) &&
        boxesOpenedThisRound == old(boxesOpenedThisRound) && boxesOpenedTotal == old(boxesOpenedTotal))
      ensures r.Pass? && !old(hasPlayerChosenBox) ==> (
        playerBoxIndex == index && hasPlayerChosenBox &&
        boxList.Contents == old(boxList.Contents) &&
        boxesOpenedThisRound == old(boxesOpenedThisRound) && boxesOpenedTotal == old(boxesOpenedTotal))
      ensures r.Pass? && old(hasPlayerChosenBox) ==> (
        playerBoxIndex == old(playerBoxIndex) && hasPlayerChosenBox &&
        boxList.Contents == Opened(old(boxList.Contents), index) &&
        boxesOpenedThisRound == old(boxesOpenedThisRound) + 1 &&
        boxesOpenedTotal == old(boxesOpenedTotal) + 1)
    {
      if index < 0 || index >= |BOX_VALUES| {
        return Fail(InvalidIndex);
      }
      if !hasPlayerChosenBox {
        playerBoxIndex := index;
        hasPlayerChosenBox := true;
      } else {
        OpenedEffect(boxList.Contents, index);
        var _ := boxList.Open(index);
        boxesOpenedThisRound := boxesOpenedThisRound + 1;
        boxesOpenedTotal := boxesOpenedTotal + 1;
      }
      return Pass;
    }

    /** The quota of the current round less the boxes opened in it. */
    method GetBoxesRemainingToOpenThisRound() returns (remaining: int)
      requires Valid()
      ensures remaining == BOXES_IN_ROUND[round] - boxesOpenedThisRound
      ensures remaining <= BOXES_IN_ROUND[round]
    {
      return BOXES_IN_ROUND[round] - boxesOpenedThisRound;
    }

    /** Moves to the next round and resets the count of the round's opened
        boxes; the game total is kept. The caller must not go past the last
        round. */
    method StartNextRound()
      requires Valid() && round < NUM_ROUNDS
      modifies this
      ensures Valid() && Repr == old(Repr) && boxList == old(boxList)
      ensures round == old(round) + 1 && boxesOpenedThisRound == 0
      ensures boxesOpenedTotal == old(boxesOpenedTotal) && highScore == old(highScore)
      ensures playerBoxIndex == old(playerBoxIndex) && hasPlayerChosenBox == old(hasPlayerChosenBox)
    {
      round := round + 1;
      boxesOpenedThisRound := 0;
    }

    /** The round is over exactly when no box remains to open in it. */
    method IsEndOfRound() returns (end: bool)
      requires Valid()
      ensures end <==> boxesOpenedThisRound == BOXES_IN_ROUND[round]
      ensures end <==> BOXES_IN_ROUND[round] - boxesOpenedThisRound == 0
    {
      if boxesOpenedThisRound == BOXES_IN_ROUND[round] {
        return true;
      }
      return false;
    }

    /** The value in the player's box; before any choice, the value of
        box 0. */
    method GetPlayerBoxValue() returns (v: real)
      requires Valid()
      ensures v == boxList.Contents[playerBoxIndex].value && DELTA <= v
      ensures !hasPlayerChosenBox ==> v == boxList.Contents[0].value
    {
      var r := boxList.GetValue(playerBoxIndex);
      return r.value;
    }

    /** Whether box `index` is open; an index that is not a box is refused. */
    method IsBoxOpen(index: int) returns (r: Result<bool>)
      requires Valid()
      ensures r.Ok? <==> 0 <= index < NUM_BOXES
      ensures r.Ok? ==> r.value == boxList.Contents[index].open
      ensures r.Err? ==> r.error == InvalidIndex
    {
      if index < 0 || index >= |BOX_VALUES| {
        return Err(InvalidIndex);
      }
      var open := boxList.IsOpen(index);
      if open.value {
        return Ok(true);
      }
      return Ok(false);
    }

    /** The value in box `index`; an index that is not a box is refused. */
    method GetValueInBox(index: int) returns (r: Result<real>)
      requires Valid()
      ensures r.Ok? <==> 0 <= index < NUM_BOXES
      ensures r.Ok? ==> r.value == boxList.Contents[index].value && DELTA <= r.value
      ensures r.Err? ==> r.error == InvalidIndex
    {
      if index < 0 || index >= |BOX_VALUES| {
        return Err(InvalidIndex);
      }
      r := boxList.GetValue(index);
    }

    /** The banker's offer for the current round: never negative, never
        more than the average unopened value, and equal to it in the last
        round. */
    method GetCurrentOffer() returns (offer: real)
      requires Valid()
      ensures offer == Offer(AverageUnopened(boxList.Contents), round)
      ensures 0.0 <= offer <= AverageUnopened(boxList.Contents)
      ensures round == NUM_ROUNDS ==> offer == AverageUnopened(boxList.Contents)
    {
      var average := boxList.AverageValueOfUnopenedBoxes();
      boxList.ValuesAtLeastDelta();
      AverageZeroIffAllOpen(boxList.Contents);
      OfferRamp(average, round);
      return average * round as real / 10.0;
    }

    /** Whether `value` beats the high score; if it does it becomes the new
        high score, otherwise nothing changes. The high score never drops. */
    method IsNewHighScore(value: real) returns (isNew: bool)
      requires Valid()
      modifies this
      ensures Valid() && Repr == old(Repr) && boxList == old(boxList)
      ensures isNew <==> old(highScore) < value
      ensures highScore == (if isNew then value else old(highScore))
      ensures old(highScore) <= highScore
      ensures round == old(round) && playerBoxIndex == old(playerBoxIndex)
      ensures hasPlayerChosenBox == old(hasPlayerChosenBox)
      ensures boxesOpenedThisRound == old(boxesOpenedThisRound) && boxesOpenedTotal == old(boxesOpenedTotal)
    {
      if value > highScore {
        highScore := value;
        return true;
      }
      return false;
    }
  }
}
