/** A fixed-length list of boxes: bounds-checked access, opening one box,
    the average of the unopened values, shuffling by pairwise swaps, and
    element-wise tolerance equality. */
module BoxLists {
  import opened Outcomes
  import opened Boxes

  // ---------------------------------------------------------------------
  // Specification functions over the observable contents of a list
  // ---------------------------------------------------------------------

  /** The contents of a list just built from `amounts`: every box closed. */
  function Closed(amounts: seq<real>): (r: seq<BoxState>)
    ensures |r| == |amounts|
    ensures forall i :: 0 <= i < |r| ==> r[i] == BoxState(amounts[i], false)
  {
    seq(|amounts|, i requires 0 <= i < |amounts| => BoxState(amounts[i], false))
  }

  /** What one box adds to the sum of unopened values. */
  function Worth(b: BoxState): (r: real) {
    if b.open then 0.0 else b.value
  }

  /** What one box adds to the count of unopened boxes. */
  function Tally(b: BoxState): (r: nat) {
    if b.open then 0 else 1
  }

  /** The sum of the values of the unopened boxes. */
  function SumUnopened(s: seq<BoxState>): (r: real)
  {
    if s == [] then 0.0 else SumUnopened(s[..|s| - 1]) + Worth(s[|s| - 1])
  }

  /** How many boxes are still closed; never more than there are boxes. */
  function CountUnopened(s: seq<BoxState>): (c: nat)
    ensures c <= |s|
  {
    if s == [] then 0 else CountUnopened(s[..|s| - 1]) + Tally(s[|s| - 1])
  }

  /** The mean value of the unopened boxes, and 0 when every box is open. */
  function AverageUnopened(s: seq<BoxState>): (r: real)
  {
    if CountUnopened(s) == 0 then 0.0 else SumUnopened(s) / CountUnopened(s) as real
  }

  /** The contents after box `i` has been opened. */
  function Opened(s: seq<BoxState>, i: int): (r: seq<BoxState>)
    requires 0 <= i < |s|
  {
    s[i := s[i].(open := true)]
  }

  /** Tolerance equality of two whole lists, box by box. */
  predicate SameBoxes(a: seq<BoxState>, b: seq<BoxState>) {
    |a| == |b| && forall i :: 0 <= i < |a| ==> Matches(a[i], b[i])
  }

  /** Every swap names two distinct positions of a list of length `n`. */
  predicate ValidPicks(n: int, picks: seq<(int, int)>) {
    forall k :: 0 <= k < |picks| ==>
      0 <= picks[k].0 < n && 0 <= picks[k].1 < n && picks[k].0 != picks[k].1
  }

  /** Exchanges the elements at positions `i` and `j`. */
  function Swap<T>(s: seq<T>, i: int, j: int): (r: seq<T>)
    requires 0 <= i < |s| && 0 <= j < |s|
    ensures |r| == |s| && r[i] == s[j] && r[j] == s[i]
    ensures forall k :: 0 <= k < |s| && k != i && k != j ==> r[k] == s[k]
    ensures multiset(r) == multiset(s)
  {
    s[i := s[j]][j := s[i]]
  }

  /** The swaps in `picks`, performed in order; the result is a permutation
      of `s`. */
  function ApplySwaps<T>(s: seq<T>, picks: seq<(int, int)>): (r: seq<T>)
    requires ValidPicks(|s|, picks)
    ensures |r| == |s| && multiset(r) == multiset(s)
  {
    if picks == [] then s
    else
      var last := picks[|picks| - 1];
      Swap(ApplySwaps(s, picks[..|picks| - 1]), last.0, last.1)
  }

  /** Performing one more swap of `picks` swaps the result so far. */
  lemma {:induction false} ApplySwapsStep<T>(s: seq<T>, picks: seq<(int, int)>, k: int)
    requires ValidPicks(|s|, picks) && 0 <= k < |picks|
    ensures ValidPicks(|s|, picks[..k]) && ValidPicks(|s|, picks[..k + 1])
    ensures ApplySwaps(s, picks[..k + 1]) ==
      Swap(ApplySwaps(s, picks[..k]), picks[k].0, picks[k].1)
  {
    var pre := picks[..k + 1];
    assert pre[..k] == picks[..k];
    assert pre[k] == picks[k];
  }

  // ---------------------------------------------------------------------
  // Lemmas about the specification
  // ---------------------------------------------------------------------

  /** No box is closed exactly when the count of closed boxes is zero. */
  lemma {:induction false} NoneUnopened(s: seq<BoxState>)
    ensures CountUnopened(s) == 0 <==> forall i :: 0 <= i < |s| ==> s[i].open
  {
    if s != [] {
      var init := s[..|s| - 1];
      NoneUnopened(init);
      assert forall i :: 0 <= i < |init| ==> init[i] == s[i];
    }
  }

  /** When no box is open every box counts. */
  lemma {:induction false} AllClosedCount(s: seq<BoxState>)
    requires forall i :: 0 <= i < |s| ==> !s[i].open
    ensures CountUnopened(s) == |s|
  {
    if s != [] {
      var init := s[..|s| - 1];
      assert forall i :: 0 <= i < |init| ==> init[i] == s[i];
      AllClosedCount(init);
    }
  }

  /** When every box is open the average is 0. */
  lemma {:induction false} AllOpenAverageIsZero(s: seq<BoxState>)
    requires forall i :: 0 <= i < |s| ==> s[i].open
    ensures AverageUnopened(s) == 0.0
  {
    NoneUnopened(s);
  }

  /** A lower bound on every unopened value bounds the sum from below. */
  lemma {:induction false} SumAtLeast(s: seq<BoxState>, lo: real)
    requires forall i :: 0 <= i < |s| && !s[i].open ==> lo <= s[i].value
    ensures lo * CountUnopened(s) as real <= SumUnopened(s)
  {
    if s != [] {
      var init := s[..|s| - 1];
      assert forall i :: 0 <= i < |init| ==> init[i] == s[i];
      SumAtLeast(init, lo);
      var c := CountUnopened(init) as real;
      assert lo * (c + 1.0) == lo * c + lo;
    }
  }

  /** An upper bound on every unopened value bounds the sum from above. */
  lemma {:induction false} SumAtMost(s: seq<BoxState>, hi: real)
    requires forall i :: 0 <= i < |s| && !s[i].open ==> s[i].value <= hi
    ensures SumUnopened(s) <= hi * CountUnopened(s) as real
  {
    if s != [] {
      var init := s[..|s| - 1];
      assert forall i :: 0 <= i < |init| ==> init[i] == s[i];
      SumAtMost(init, hi);
      var c := CountUnopened(init) as real;
      assert hi * (c + 1.0) == hi * c + hi;
    }
  }

  /** Multiplying by a positive number keeps a strict order. */
  lemma ScaleKeepsOrder(x: real, y: real, c: real)
    requires 0.0 < c && x < y
    ensures x * c < y * c
  {
  }

  /** A lower bound on the sum, scaled by the count, bounds the average. */
  lemma {:induction false} AverageAtLeast(s: seq<BoxState>, lo: real)
    requires 0 < CountUnopened(s)
    requires lo * CountUnopened(s) as real <= SumUnopened(s)
    ensures lo <= AverageUnopened(s)
  {
    var q, c := AverageUnopened(s), CountUnopened(s) as real;
    assert q == SumUnopened(s) / c && q * c == SumUnopened(s);
    if q < lo {
      ScaleKeepsOrder(q, lo, c);
      assert false;
    }
  }

  /** An upper bound on the sum, scaled by the count, bounds the average. */
  lemma {:induction false} AverageAtMost(s: seq<BoxState>, hi: real)
    requires 0 < CountUnopened(s)
    requires SumUnopened(s) <= hi * CountUnopened(s) as real
    ensures AverageUnopened(s) <= hi
  {
    var q, c := AverageUnopened(s), CountUnopened(s) as real;
    assert q == SumUnopened(s) / c && q * c == SumUnopened(s);
    if hi < q {
      ScaleKeepsOrder(hi, q, c);
      assert false;
    }
  }

  /** The average lies between any lower and any upper bound of the
      unopened values. */
  lemma {:induction false} AverageWithinBounds(s: seq<BoxState>, lo: real, hi: real)
    requires 0 < CountUnopened(s)
    requires forall i :: 0 <= i < |s| && !s[i].open ==> lo <= s[i].value <= hi
    ensures lo <= AverageUnopened(s) <= hi
  {
    SumAtLeast(s, lo);
    SumAtMost(s, hi);
    AverageAtLeast(s, lo);
    AverageAtMost(s, hi);
  }

  /** For boxes holding at least DELTA, the average is 0 exactly when every
      box is open, and otherwise at least DELTA. */
  lemma {:induction false} AverageZeroIffAllOpen(s: seq<BoxState>)
    requires forall i :: 0 <= i < |s| ==> DELTA <= s[i].value
    ensures AverageUnopened(s) == 0.0 <==> forall i :: 0 <= i < |s| ==> s[i].open
    ensures 0 < CountUnopened(s) ==> DELTA <= AverageUnopened(s)
  {
    NoneUnopened(s);
    if CountUnopened(s) == 0 {
      assert AverageUnopened(s) == 0.0;
    } else {
      SumAtLeast(s, DELTA);
      AverageAtLeast(s, DELTA);
      assert AverageUnopened(s) != 0.0;
    }
  }

  /** A fresh list of the amounts 1, 2 and 3 averages 2. */
  lemma {:induction false} AverageOfFreshList()
    ensures AverageUnopened(Closed([1.0, 2.0, 3.0])) == 2.0
  {
    var s := Closed([1.0, 2.0, 3.0]);
    assert s[..2][..1][..0] == [];
    assert SumUnopened(s[..2][..1]) == 1.0 && CountUnopened(s[..2][..1]) == 1;
    assert SumUnopened(s[..2]) == 3.0 && CountUnopened(s[..2]) == 2;
    assert SumUnopened(s) == 6.0 && CountUnopened(s) == 3;
  }

  /** Opening a closed box removes exactly its value from the sum and one
      from the count; opening an open box changes nothing. */
  lemma {:induction false} OpenedEffect(s: seq<BoxState>, i: int)
    requires 0 <= i < |s|
    ensures s[i].open ==> Opened(s, i) == s
    ensures !s[i].open ==> SumUnopened(Opened(s, i)) == SumUnopened(s) - s[i].value
    ensures !s[i].open ==> CountUnopened(Opened(s, i)) == CountUnopened(s) - 1
  {
    var t := Opened(s, i);
    var n := |s|;
    if i == n - 1 {
      assert t[..n - 1] == s[..n - 1];
    } else {
      assert t[..n - 1] == Opened(s[..n - 1], i);
      OpenedEffect(s[..n - 1], i);
    }
  }

  /** Taking the box at position `j` out of a list takes its share out of
      the sum and the count. */
  lemma {:induction false} UnopenedRemove(t: seq<BoxState>, j: int)
    requires 0 <= j < |t|
    ensures SumUnopened(t) == SumUnopened(t[..j] + t[j + 1..]) + Worth(t[j])
    ensures CountUnopened(t) == CountUnopened(t[..j] + t[j + 1..]) + Tally(t[j])
  {
    var n := |t| - 1;
    var rest := t[..j] + t[j + 1..];
    if j == n {
      assert rest == t[..n];
    } else {
      var init := t[..n];
      assert rest[..|rest| - 1] == init[..j] + init[j + 1..];
      assert rest[|rest| - 1] == t[n];
      UnopenedRemove(init, j);
    }
  }

  /** Sum and count of unopened boxes do not depend on the order of the
      boxes: any two arrangements of the same boxes agree. */
  lemma {:induction false} UnopenedOrderIrrelevant(s: seq<BoxState>, t: seq<BoxState>)
    requires multiset(s) == multiset(t)
    ensures SumUnopened(s) == SumUnopened(t)
    ensures CountUnopened(s) == CountUnopened(t)
    ensures AverageUnopened(s) == AverageUnopened(t)
    decreases |s|
  {
    if s == [] {
      assert |t| == |multiset(t)| == 0;
    } else {
      var n := |s| - 1;
      var x := s[n];
      assert x in multiset(t);
      var j :| 0 <= j < |t| && t[j] == x;
      var rest := t[..j] + t[j + 1..];
      RemovedMultiset(s, n);
      RemovedMultiset(t, j);
      assert s[..n] + s[n + 1..] == s[..n];
      UnopenedOrderIrrelevant(s[..n], rest);
      UnopenedRemove(t, j);
    }
  }

  /** Taking one element out of a sequence takes it out of its multiset. */
  lemma {:induction false} RemovedMultiset<T>(t: seq<T>, j: int)
    requires 0 <= j < |t|
    ensures multiset(t[..j] + t[j + 1..]) == multiset(t) - multiset{t[j]}
  {
    assert t == t[..j] + [t[j]] + t[j + 1..];
    assert multiset(t) == multiset(t[..j]) + multiset{t[j]} + multiset(t[j + 1..]);
  }

  /** Shuffling never changes the average of the unopened boxes. */
  lemma {:induction false} ShuffleKeepsAverage(s: seq<BoxState>, picks: seq<(int, int)>)
    requires ValidPicks(|s|, picks)
    ensures AverageUnopened(ApplySwaps(s, picks)) == AverageUnopened(s)
  {
    UnopenedOrderIrrelevant(ApplySwaps(s, picks), s);
  }

  /** Tolerance equality of lists is reflexive and symmetric. */
  lemma {:induction false} SameBoxesReflexiveSymmetric(a: seq<BoxState>, b: seq<BoxState>)
    ensures SameBoxes(a, a)
    ensures SameBoxes(a, b) == SameBoxes(b, a)
  {
    forall i | 0 <= i < |a| && i < |b| {
      MatchesReflexiveSymmetric(a[i], b[i]);
    }
  }

  // ---------------------------------------------------------------------
  // The list itself
  // ---------------------------------------------------------------------

  class BoxList {
    var boxes: array<Box>
    /** The state of each box, in array order. */
    ghost var Contents: seq<BoxState>
    ghost var Repr: set<object>

    /** The array holds at least two distinct valid boxes, which the list
        owns, and Contents mirrors them. */
    ghost predicate Valid()
      reads this, Repr
    {
      this in Repr && boxes in Repr &&
      2 <= boxes.Length && |Contents| == boxes.Length &&
      (forall i :: 0 <= i < boxes.Length ==>
        boxes[i] in Repr && boxes[i].Valid() && boxes[i].State() == Contents[i]) &&
      (forall i, j :: 0 <= i < boxes.Length && 0 <= j < boxes.Length && i != j ==>
        boxes[i] != boxes[j])
    }

    /** The values of a valid list are never below DELTA. */
    lemma {:induction false} ValuesAtLeastDelta()
      requires Valid()
      ensures forall i :: 0 <= i < |Contents| ==> DELTA <= Contents[i].value
    {
      forall i | 0 <= i < |Contents| ensures DELTA <= Contents[i].value {
        assert boxes[i].Valid() && boxes[i].State() == Contents[i];
      }
    }

    /** Stores freshly built closed boxes, one per amount, in input order. */
    constructor (bs: seq<Box>, ghost amounts: seq<real>)
      requires 2 <= |bs| == |amounts|
      requires forall i :: 0 <= i < |bs| ==> bs[i].Valid() && bs[i].State() == BoxState(amounts[i], false)
      requires forall i, j :: 0 <= i < |bs| && 0 <= j < |bs| && i != j ==> bs[i] != bs[j]
      ensures Valid() && fresh(boxes) && Contents == Closed(amounts)
      ensures boxes[..] == bs
      ensures Repr == {this, boxes} + set b | b in bs
    {
      boxes := new Box[|bs|](i requires 0 <= i < |bs| => bs[i]);
      Contents := Closed(amounts);
      Repr := {this, boxes} + set b | b in bs;
    }

    /** The Java constructor: refuses a null array and one of fewer than two
        amounts, propagates a box's refusal of a value below DELTA, and
        otherwise holds one closed box per amount, in input order. */
    static method Create(amounts: array?<real>) returns (r: Result<BoxList>)
      ensures amounts == null ==> r == Err(NullAmounts)
      ensures amounts != null && amounts.Length < 2 ==> r == Err(InvalidAmounts)
      ensures amounts != null && 2 <= amounts.Length ==>
        (r.Ok? <==> forall i :: 0 <= i < amounts.Length ==> DELTA <= amounts[i]) &&
        (r.Err? ==> r.error == InvalidValue)
      ensures r.Ok? ==> (amounts != null && fresh(r.value.Repr) && r.value.Valid() &&
        r.value.Contents == Closed(amounts[..]))
    {
      if amounts == null {
        return Err(NullAmounts);
      }
      if amounts.Length < 2 {
        return Err(InvalidAmounts);
      }
      var bs: seq<Box> := [];
      for i := 0 to amounts.Length
        invariant |bs| == i
        invariant forall k :: 0 <= k < i ==> DELTA <= amounts[k]
        invariant forall k :: 0 <= k < i ==>
          fresh(bs[k]) && bs[k].Valid() && bs[k].State() == BoxState(amounts[k], false)
        invariant forall k, m :: 0 <= k < i && 0 <= m < i && k != m ==> bs[k] != bs[m]
      {
        var b := Box.Create(amounts[i]);
        if b.Err? {
          return Err(b.error);
        }
        bs := bs + [b.value];
      }
      var list := new BoxList(bs, amounts[..]);
      return Ok(list);
    }

    /** The value in box `index`, open or not; an index outside the list is
        refused. */
    method GetValue(index: int) returns (r: Result<real>)
      requires Valid()
      ensures r.Ok? <==> 0 <= index < |Contents|
      ensures r.Ok? ==> r.value == Contents[index].value && DELTA <= r.value
      ensures r.Err? ==> r.error == InvalidIndex
    {
      if index < 0 || index >= boxes.Length {
        return Err(InvalidIndex);
      }
      r := Ok(boxes[index].GetValue());
    }

    /** Whether box `index` is open; an index outside the list is refused. */
    method IsOpen(index: int) returns (r: Result<bool>)
      requires Valid()
      ensures r.Ok? <==> 0 <= index < |Contents|
      ensures r.Ok? ==> r.value == Contents[index].open
      ensures r.Err? ==> r.error == InvalidIndex
    {
      if index < 0 || index >= boxes.Length {
        return Err(InvalidIndex);
      }
      if boxes[index].IsOpen() {
        return Ok(true);
      }
      return Ok(false);
    }

    /** Opens box `index` and changes nothing else: no other box, no value,
        no position. An index outside the list is refused and changes
        nothing. */
    method Open(index: int) returns (r: Outcome)
      requires Valid()
      modifies Repr
      ensures Valid() && Repr == old(Repr) && boxes == old(boxes) && boxes[..] == old(boxes[..])
      ensures r.Pass? <==> 0 <= index < |old(Contents)|
      ensures r.Fail? ==> r.error == InvalidIndex && Contents == old(Contents)
      ensures r.Pass? ==> Contents == Opened(old(Contents), index)
    {
      if index < 0 || index >= boxes.Length {
        return Fail(InvalidIndex);
      }
      boxes[index].Open();
      Contents := Opened(Contents, index);
      return Pass;
    }

    /** The mean value of the unopened boxes, 0 when all are open. */
    method AverageValueOfUnopenedBoxes() returns (avg: real)
      requires Valid()
      ensures avg == AverageUnopened(Contents)
    {
      var sum := 0.0;
      var count := 0;
      for i := 0 to boxes.Length
        invariant sum == SumUnopened(Contents[..i])
        invariant count == CountUnopened(Contents[..i])
      {
        assert Contents[..i + 1][..i] == Contents[..i];
        var open := IsOpen(i);
        if !open.value {
          var v := GetValue(i);
          sum := sum + v.value;
          count := count + 1;
        }
      }
      assert Contents[..boxes.Length] == Contents;
      if count == 0 {
        return 0.0;
      }
      return sum / count as real;
    }

    /** Performs the swaps in `picks`, each of two distinct positions, in
        order; the pairs stand for the random draws of the Java code. A
        negative swap count is refused and changes nothing; zero swaps leave
        the order as it was. */
    method Shuffle(numberOfSwaps: int, picks: seq<(int, int)>) returns (r: Outcome)
      requires Valid()
      requires 0 <= numberOfSwaps ==> |picks| == numberOfSwaps && ValidPicks(|Contents|, picks)
      modifies this, boxes
      ensures Valid() && Repr == old(Repr) && boxes == old(boxes)
      ensures numberOfSwaps < 0 ==>
        r == Fail(InvalidSwaps) && Contents == old(Contents) && boxes[..] == old(boxes[..])
      ensures 0 <= numberOfSwaps ==> (r == Pass &&
        boxes[..] == ApplySwaps(old(boxes[..]), picks) &&
        Contents == ApplySwaps(old(Contents), picks))
    {
      if numberOfSwaps < 0 {
        return Fail(InvalidSwaps);
      }
      for k := 0 to numberOfSwaps
        invariant Valid() && Repr == old(Repr) && boxes == old(boxes)
        invariant boxes[..] == ApplySwaps(old(boxes[..]), picks[..k])
        invariant Contents == ApplySwaps(old(Contents), picks[..k])
      {
        var (index1, index2) := picks[k];
        ApplySwapsStep(old(boxes[..]), picks, k);
        ApplySwapsStep(old(Contents), picks, k);
        Exchange(index1, index2);
      }
      assert picks[..numberOfSwaps] == picks;
      return Pass;
    }

    /** One swap of the Java shuffle loop: the boxes at two distinct
        positions trade places. */
    method Exchange(index1: int, index2: int)
      requires Valid()
      requires 0 <= index1 < |Contents| && 0 <= index2 < |Contents| && index1 != index2
      modifies this, boxes
      ensures Valid() && Repr == old(Repr) && boxes == old(boxes)
      ensures boxes[..] == Swap(old(boxes[..]), index1, index2)
      ensures Contents == Swap(old(Contents), index1, index2)
    {
      var temp := boxes[index1];
      boxes[index1] := boxes[index2];
      boxes[index2] := temp;
      Contents := Swap(Contents, index1, index2);
    }

    /** Equality against any object: true for this very list, false for
        anything that is not a list, and otherwise true exactly when both
        lists have the same length and equal boxes position by position. */
    method Equals(o: object?) returns (r: bool)
      requires Valid()
      requires o is BoxList ==> (o as BoxList).Valid()
      ensures r <==> o is BoxList && SameBoxes(Contents, (o as BoxList).Contents)
    {
      if this == o {
        SameBoxesReflexiveSymmetric(Contents, Contents);
        return true;
      }
      if !(o is BoxList) || o == null {
        return false;
      }
      var other := o as BoxList;
      if boxes.Length != other.boxes.Length {
        return false;
      }
      for i := 0 to boxes.Length
        invariant forall k :: 0 <= k < i ==> Matches(Contents[k], other.Contents[k])
      {
        if !boxes[i].Equals(other.boxes[i]) {
          return false;
        }
      }
      return true;
    }
  }
}
