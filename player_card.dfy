/** How a player card classifies a player's numbers: the trend icons beside
    points and cost, the colour of each recent form score, and the signed
    change labels. Cost changes are integer tenths of a million, so the
    source's threshold of 0.1 is 1 here. */
module PlayerCard {
  import opened Options
  import opened Text

  datatype Trend = Up | Flat | Down

  /** Up ranks above Flat above Down. */
  function TrendRank(t: Trend): int
  {
    match t
    case Down => 0
    case Flat => 1
    case Up => 2
  }

  /** `costChangeIcon()`: up above 0.1, down below -0.1, flat between. */
  function CostTrend(costChange: int): (r: Trend)
    ensures r == Up <==> costChange > 1
    ensures r == Down <==> costChange < -1
    ensures r == Flat <==> -1 <= costChange <= 1
  {
    if costChange > 1 then Up
    else if costChange < -1 then Down
    else Flat
  }

  /** `pointsChangeIcon()`: up above 3, down below -3, flat from -3 to 3. */
  function PointsTrend(pointsChange: int): (r: Trend)
    ensures r == Up <==> pointsChange > 3
    ensures r == Down <==> pointsChange < -3
    ensures r == Flat <==> -3 <= pointsChange <= 3
  {
    if pointsChange > 3 then Up
    else if pointsChange < -3 then Down
    else Flat
  }

  /** A larger change never shows a lower trend. */
  lemma TrendsMonotone(a: int, b: int)
    requires a <= b
    ensures TrendRank(CostTrend(a)) <= TrendRank(CostTrend(b))
    ensures TrendRank(PointsTrend(a)) <= TrendRank(PointsTrend(b))
  {
  }

  /** Trends are symmetric about zero: negating a change swaps Up and Down. */
  lemma TrendsSymmetric(c: int)
    ensures TrendRank(CostTrend(-c)) == 2 - TrendRank(CostTrend(c))
    ensures TrendRank(PointsTrend(-c)) == 2 - TrendRank(PointsTrend(c))
  {
  }

  // ----------------------------------------------------------- form buckets

  datatype Bucket = Green | Primary | Red

  function BucketRank(b: Bucket): int
  {
    match b
    case Red => 0
    case Primary => 1
    case Green => 2
  }

  /** The colour of one form score: green above 15, primary above 8, red
      otherwise. */
  function FormBucket(point: int): (b: Bucket)
    ensures b == Green <==> point > 15
    ensures b == Primary <==> 8 < point <= 15
    ensures b == Red <==> point <= 8
  {
    if point > 15 then Green
    else if point > 8 then Primary
    else Red
  }

  /** The form strip: one coloured score per entry of `form`, in order. */
  function FormBuckets(form: seq<int>): (r: seq<Bucket>)
    ensures |r| == |form|
    ensures forall i :: 0 <= i < |form| ==> r[i] == FormBucket(form[i])
  {
    if form == [] then [] else [FormBucket(form[0])] + FormBuckets(form[1..])
  }

  /** A higher score never gets a lower colour. */
  lemma FormBucketMonotone(a: int, b: int)
    requires a <= b
    ensures BucketRank(FormBucket(a)) <= BucketRank(FormBucket(b))
  {
  }

  /** The strip of two runs of scores is the two strips side by side. */
  lemma {:induction false} FormBucketsAppend(a: seq<int>, b: seq<int>)
    ensures FormBuckets(a + b) == FormBuckets(a) + FormBuckets(b)
  {
    if a != [] {
      assert (a + b)[1..] == a[1..] + b;
      FormBucketsAppend(a[1..], b);
    }
  }

  // ---------------------------------------------------------- change labels

  /** A change label as rendered: its text, and whether it is green (else red). */
  datatype ChangeLabel = ChangeLabel(text: string, green: bool)

  /** The points change label: absent for no change, else green with a `+`
      for a rise and red with the minus sign of the number for a fall. */
  function PointsChangeLabel(pointsChange: int): (r: Option<ChangeLabel>)
    ensures r.None? <==> pointsChange == 0
    ensures r.Some? ==> |r.value.text| >= 2
    ensures r.Some? ==> (r.value.green <==> pointsChange > 0)
    ensures r.Some? ==> (r.value.text[0] == '+' <==> pointsChange > 0)
    ensures r.Some? ==> (r.value.text[0] == '-' <==> pointsChange < 0)
  {
    if pointsChange == 0 then None
    else Some(ChangeLabel((if pointsChange > 0 then "+" else "") + IntText(pointsChange), pointsChange > 0))
  }

  /** The cost change label: the same rule, with the number written to one
      decimal place. */
  function CostChangeLabel(costChange: int): (r: Option<ChangeLabel>)
    ensures r.None? <==> costChange == 0
    ensures r.Some? ==> |r.value.text| >= 4
    ensures r.Some? ==> (r.value.green <==> costChange > 0)
    ensures r.Some? ==> (r.value.text[0] == '+' <==> costChange > 0)
    ensures r.Some? ==> (r.value.text[0] == '-' <==> costChange < 0)
  {
    if costChange == 0 then None
    else Some(ChangeLabel((if costChange > 0 then "+" else "") + TenthsText(costChange), costChange > 0))
  }

  /** A points label reads back as the change it shows. */
  lemma PointsLabelRoundTrip(pointsChange: int)
    requires pointsChange != 0
    ensures var s := PointsChangeLabel(pointsChange).value.text;
      AllDigits(s[1..]) && ParseSigned(s) == pointsChange
  {
    IntTextRoundTrip(pointsChange);
    var s := PointsChangeLabel(pointsChange).value.text;
    if pointsChange > 0 {
      assert s == "+" + NatText(pointsChange);
      assert s[1..] == NatText(pointsChange);
      ParseNatText(pointsChange);
    } else {
      assert s == IntText(pointsChange);
    }
  }

  /** A cost label reads back as the change it shows, in tenths. */
  lemma CostLabelRoundTrip(costChange: int)
    requires costChange != 0
    ensures var s := CostChangeLabel(costChange).value.text;
      && (s[0] == '+' || s[0] == '-')
      && IsFixedOne(s[1..])
      && ParseSignedTenths(s) == costChange
  {
    TenthsTextRoundTrip(costChange);
    var s := CostChangeLabel(costChange).value.text;
    var body := TenthsText(costChange);
    if costChange > 0 {
      assert s == "+" + body;
      assert s[1..] == body;
      assert body[0] != '-';
      var m := ParseNat(body[..|body| - 2]) * 10 + DigitValue(body[|body| - 1]);
      assert ParseSignedTenths(body) == m;
      assert ParseSignedTenths(s) == m;
    } else {
      assert s == body;
    }
  }

  /** An up or down icon always sits beside a label of the same sign; a flat
      icon may sit beside a label too (a change of 0.1 or of 1 to 3 points). */
  lemma TrendsAgreeWithLabels(costChange: int, pointsChange: int)
    ensures CostTrend(costChange) != Flat ==>
      CostChangeLabel(costChange).Some? && (CostChangeLabel(costChange).value.green <==> CostTrend(costChange) == Up)
    ensures PointsTrend(pointsChange) != Flat ==>
      PointsChangeLabel(pointsChange).Some? && (PointsChangeLabel(pointsChange).value.green <==> PointsTrend(pointsChange) == Up)
  {
  }

  /** A flat icon sits beside a visible label exactly for a cost change of
      0.1 either way and a points change of 1 to 3 either way. */
  lemma FlatIconWithLabel(costChange: int, pointsChange: int)
    ensures CostTrend(costChange) == Flat && CostChangeLabel(costChange).Some? <==>
      costChange == 1 || costChange == -1
    ensures PointsTrend(pointsChange) == Flat && PointsChangeLabel(pointsChange).Some? <==>
      1 <= pointsChange <= 3 || -3 <= pointsChange <= -1
  {
  }
}
