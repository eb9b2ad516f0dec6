/** The click handler's interpretation of the classifier's output: the
    top-1 class chosen by `arr.indexOf(Math.max(...arr))` and the list of
    per-class percentages paired with the label table by position. */
module Prediction {
  import opened Optional
  import opened Labels

  /** Math.max over a non-empty list of scores. */
  function Max(arr: seq<real>): (m: real)
    requires |arr| > 0
    ensures m in arr
    ensures forall j :: 0 <= j < |arr| ==> arr[j] <= m
  {
    if |arr| == 1 then arr[0]
    else
      var rest := Max(arr[1..]);
      if arr[0] >= rest then arr[0] else rest
  }

  /** Array.prototype.indexOf: the first position holding v, or -1. */
  function IndexOf(arr: seq<real>, v: real): (r: int)
    ensures -1 <= r < |arr|
    ensures r == -1 <==> v !in arr
    ensures r != -1 ==> arr[r] == v && forall j :: 0 <= j < r ==> arr[j] != v
  {
    if |arr| == 0 then -1
    else if arr[0] == v then 0
    else
      var r := IndexOf(arr[1..], v);
      if r == -1 then -1 else r + 1
  }

  /** k is an arg-max of arr at which the first occurrence of the maximum
      sits: nothing is larger, and everything earlier is strictly smaller. */
  predicate IsFirstMax(arr: seq<real>, k: int) {
    0 <= k < |arr| &&
    (forall j :: 0 <= j < |arr| ==> arr[j] <= arr[k]) &&
    (forall j :: 0 <= j < k ==> arr[j] < arr[k])
  }

  /** The predicted class index; for an empty list Math.max yields
      -Infinity, which indexOf does not find, so the result is -1. */
  function Top1(arr: seq<real>): (k: int)
    ensures |arr| == 0 ==> k == -1
    ensures |arr| > 0 ==> IsFirstMax(arr, k)
  {
    if |arr| == 0 then -1 else IndexOf(arr, Max(arr))
  }

  /** The first-occurrence arg-max is unique, so Top1 is characterised by
      IsFirstMax in both directions. */
  lemma Top1Characterised(arr: seq<real>, k: int)
    ensures IsFirstMax(arr, k) <==> |arr| > 0 && k == Top1(arr)
  {
  }

  /** One line of the probability list. name is None where the browser
      would show `undefined`. */
  datatype Row = Row(index: nat, name: Option<string>, percent: real)

  /** What the handler leaves on screen: the prediction and the list, or a
      caught failure (LABELS[i] is undefined for i >= 10 and calling split
      on it throws). On Failed the status line shows the error, and the
      probability list is not reassigned, so it keeps whatever an earlier
      click put there. */
  datatype Outcome =
    | Shown(top: int, topLabel: Option<string>, rows: seq<Row>)
    | Failed

  /** The label text the prediction line shows for index k; None where
      `LABELS[k]` is undefined. A shown label starts with k's own digit. */
  function LabelAt(k: int): (r: Option<string>)
    ensures r.Some? <==> 0 <= k < |LABELS|
    ensures r.Some? ==> r.value == [DigitChar(k)] + SEP + NAMES[k]
  {
    LabelsWellFormed();
    if 0 <= k < |LABELS| then Some(LABELS[k]) else None
  }

  /** A score shown as a percentage: scaled, not renormalised, so the shown
      value converts back to the score, and a probability in [0, 1] shows
      within [0, 100]. */
  function Percent(p: real): (r: real)
    ensures r / 100.0 == p
    ensures 0.0 <= p <= 1.0 ==> 0.0 <= r <= 100.0
  {
    p * 100.0
  }

  /** The handler's processing of the output scores once inference returns. */
  function Predict(arr: seq<real>): (o: Outcome)
    ensures o.Shown? <==> |arr| <= |LABELS|
    ensures o.Shown? ==> |o.rows| == |arr|
    ensures o.Shown? ==> forall i :: 0 <= i < |arr| ==>
      o.rows[i] == Row(i, Some(NAMES[i]), arr[i] * 100.0)
    ensures o.Shown? && |arr| == 0 ==> o.top == -1 && o.topLabel == None
    ensures o.Shown? && |arr| > 0 ==>
      IsFirstMax(arr, o.top) && o.topLabel == Some(LABELS[o.top])
  {
    AllDisplayNames();
    if |arr| > |LABELS| then Failed
    else
      var k := Top1(arr);
      Shown(k, LabelAt(k),
            seq(|arr|, i requires 0 <= i < |arr| => Row(i, DisplayName(LABELS[i]), Percent(arr[i]))))
  }

  /** Sum of a list of reals. */
  function Sum(xs: seq<real>): real {
    if |xs| == 0 then 0.0 else xs[0] + Sum(xs[1..])
  }

  /** Sum of the percentages in the list. */
  function PercentTotal(rows: seq<Row>): real {
    if |rows| == 0 then 0.0 else rows[0].percent + PercentTotal(rows[1..])
  }

  /** Percentages that are the scores times 100, as `Predict` shows them,
      are not renormalised: they total 100 times the scores' sum, hence 100
      exactly when the scores sum to 1. */
  lemma {:induction false} PercentTotalScales(rows: seq<Row>, arr: seq<real>)
    requires |rows| == |arr|
    requires forall i :: 0 <= i < |arr| ==> rows[i].percent == arr[i] * 100.0
    ensures PercentTotal(rows) == 100.0 * Sum(arr)
    ensures PercentTotal(rows) == 100.0 <==> Sum(arr) == 1.0
  {
    if |arr| > 0 {
      PercentTotalScales(rows[1..], arr[1..]);
    }
  }

  /** Ties go to the lowest index. */
  lemma TieBreakExample()
    ensures Top1([0.5, 0.5, 0.0, 0.0, 0.0, 0.0, 0.0, 0.0, 0.0, 0.0]) == 0
  {
    Top1Characterised([0.5, 0.5, 0.0, 0.0, 0.0, 0.0, 0.0, 0.0, 0.0, 0.0], 0);
  }

  /** A distribution whose largest score is at index 4 selects "4: Coat"
      and shows that class at 50 percent. */
  lemma CoatExample()
    ensures var arr := [0.01, 0.02, 0.05, 0.1, 0.5, 0.02, 0.1, 0.1, 0.05, 0.05];
      Predict(arr).top == 4 && Predict(arr).topLabel == Some("4: Coat") &&
      Predict(arr).rows[4] == Row(4, Some("Coat"), 50.0)
  {
    var arr := [0.01, 0.02, 0.05, 0.1, 0.5, 0.02, 0.1, 0.1, 0.05, 0.05];
    var o := Predict(arr);
    assert IsFirstMax(arr, 4);
    Top1Characterised(arr, o.top);
    Top1Characterised(arr, 4);
    assert o.rows[4] == Row(4, Some(NAMES[4]), arr[4] * 100.0);
  }
}
