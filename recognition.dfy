/**
 * Interpretation of the ranked results returned by the inference engine:
 * the label table, the confidence threshold, and the first-match policy
 * that turns up to four (label index, raw score) pairs into the status text
 * shown on the overlay (fruit freshness) or reported (trash classifier).
 */
module Recognition {

  datatype Option<T> = None | Some(value: T)

  /** HI_SUCCESS of the vendor SDK. */
  const HiSuccess: int := 0

  /** A raw score is the confidence scaled by SCORE_MAX. */
  const ScoreMax: int := 4096
  /** Minimum confidence, in percent, for a result to be reported. */
  const ThreshMin: int := 30
  /** The inference engine is asked for at most RET_NUM_MAX ranked results. */
  const RetNumMax: int := 4

  const FruitTypes: seq<string> := [
    "fresh apple", "fresh banana", "fresh mango", "fresh orange", "fresh strawberry",
    "rotten apple", "rotten banana", "rotten mango", "rotten orange", "rotten strawberry"
  ]

  const NoFruit: string := "No fruit detected"

  /** One ranked result of the inference engine (RecogNumInfo). */
  datatype RecogNumInfo = RecogNumInfo(num: int, score: int)

  /**
   * The source tests `(float)score / 4096 * 100 < 30`. The division by 4096
   * is exact, and so is the product by 100, which is 25 * score / 1024 and
   * fits a float's 24-bit significand while 25 * score < 2^24 (every score
   * below 671089). Since 30 * 4096 / 100 = 1228.8 is not an integer, the
   * test is the integer comparison below.
   */
  predicate BelowThreshold(score: int) {
    score * 100 < ThreshMin * ScoreMax
  }

  /** A label index that names an entry of the label table. */
  predicate ValidLabel(num: int) {
    0 <= num <= 9
  }

  /** An item the interpretation may report: confident enough and with a known label. */
  predicate Qualifies(item: RecogNumInfo) {
    !BelowThreshold(item.score) && ValidLabel(item.num)
  }

  /** The position of the first qualifying item, if any. */
  function FirstMatch(items: seq<RecogNumInfo>): (r: Option<nat>)
    ensures r.Some? ==> r.value < |items| && Qualifies(items[r.value])
  {
    if items == [] then None
    else if Qualifies(items[0]) then Some(0)
    else match FirstMatch(items[1..])
      case None => None
      case Some(k) => Some(k + 1)
  }

  /** FirstMatch finds exactly the first qualifying item. */
  lemma {:induction false} FirstMatchIsFirst(items: seq<RecogNumInfo>, k: nat)
    ensures FirstMatch(items) == Some(k) <==>
      (k < |items| && Qualifies(items[k]) && forall j :: 0 <= j < k ==> !Qualifies(items[j]))
  {
    if items != [] && !Qualifies(items[0]) && k > 0 {
      FirstMatchIsFirst(items[1..], k - 1);
      if k < |items| && forall j :: 0 <= j < k ==> !Qualifies(items[j]) {
        assert forall j :: 0 <= j < k - 1 ==> !Qualifies(items[1..][j]) by {
          forall j | 0 <= j < k - 1 ensures !Qualifies(items[1..][j]) {
            assert items[1..][j] == items[j + 1];
          }
        }
      }
      if FirstMatch(items[1..]) == Some(k - 1) {
        forall j | 0 <= j < k ensures !Qualifies(items[j]) {
          if j > 0 { assert items[j] == items[1..][j - 1]; }
        }
      }
    }
  }

  /** FirstMatch finds nothing exactly when no item qualifies (in particular for []). */
  lemma {:induction false} FirstMatchNone(items: seq<RecogNumInfo>)
    ensures FirstMatch(items) == None <==> forall j :: 0 <= j < |items| ==> !Qualifies(items[j])
  {
    if items != [] && !Qualifies(items[0]) {
      FirstMatchNone(items[1..]);
      forall j | 0 < j < |items| ensures items[j] == items[1..][j - 1] { }
    }
  }

  /** Items after the first qualifying one are never examined. */
  lemma {:induction false} LaterItemsNotExamined(items: seq<RecogNumInfo>, k: nat, rest: seq<RecogNumInfo>)
    requires FirstMatch(items) == Some(k)
    ensures FirstMatch(items[..k + 1] + rest) == Some(k)
    ensures Status(items[..k + 1] + rest) == Status(items)
  {
    var s := items[..k + 1] + rest;
    FirstMatchIsFirst(items, k);
    assert forall j :: 0 <= j <= k ==> s[j] == items[j];
    FirstMatchIsFirst(s, k);
  }

  /**
   * An item that does not qualify (below the threshold, or above it with a
   * label index outside [0, 9]) is passed over and the scan goes on.
   */
  lemma NonQualifyingItemSkipped(item: RecogNumInfo, rest: seq<RecogNumInfo>)
    requires !Qualifies(item)
    ensures FirstMatch([item] + rest) ==
      (match FirstMatch(rest) case None => None case Some(k) => Some(k + 1))
    ensures Status([item] + rest) == Status(rest)
  {
  }

  /** The text written for a reported item: "<label> <confidence with two decimals>". */
  function Describe(item: RecogNumInfo): string
    requires Qualifies(item)
  {
    FruitTypes[item.num] + " " + ConfidenceText(item.score)
  }

  /**
   * Two labels differ in their first character ("fresh" or "rotten") or in
   * the first character of the fruit's name, at position 6 or 7.
   */
  lemma LabelsDiffer(m: int, n: int)
    requires ValidLabel(m) && ValidLabel(n) && m != n
    ensures |FruitTypes[m]| >= 11 && |FruitTypes[n]| >= 11
    ensures FruitTypes[m][0] != FruitTypes[n][0] || FruitTypes[m][6] != FruitTypes[n][6] ||
      FruitTypes[m][7] != FruitTypes[n][7]
  {
  }

  /** Items with different labels are never described by the same text. */
  lemma DescriptionsOfLabelsDiffer(a: RecogNumInfo, b: RecogNumInfo)
    requires Qualifies(a) && Qualifies(b) && a.num != b.num
    ensures Describe(a) != Describe(b)
  {
    LabelsDiffer(a.num, b.num);
    var da, db := Describe(a), Describe(b);
    assert da[0] == FruitTypes[a.num][0] && da[6] == FruitTypes[a.num][6] && da[7] == FruitTypes[a.num][7];
    assert db[0] == FruitTypes[b.num][0] && db[6] == FruitTypes[b.num][6] && db[7] == FruitTypes[b.num][7];
  }

  /**
   * A description identifies what it describes: two reported items give the
   * same text exactly when they have the same label and the same confidence
   * once rounded to hundredths.
   */
  lemma DescribeIdentifiesItem(a: RecogNumInfo, b: RecogNumInfo)
    requires Qualifies(a) && Qualifies(b)
    ensures Describe(a) == Describe(b) <==>
      a.num == b.num && Hundredths(a.score) == Hundredths(b.score)
  {
    var da, db := Describe(a), Describe(b);
    if a.num != b.num {
      DescriptionsOfLabelsDiffer(a, b);
    } else if da == db {
      var k := |FruitTypes[a.num]| + 1;
      assert da[k..] == ConfidenceText(a.score);
      assert db[k..] == ConfidenceText(b.score);
    }
  }

  /** The status text produced for a list of ranked results. */
  function Status(items: seq<RecogNumInfo>): (r: string)
    ensures r == NoFruit <==> forall j :: 0 <= j < |items| ==> !Qualifies(items[j])
  {
    FirstMatchNone(items);
    match FirstMatch(items)
    case None => NoFruit
    case Some(k) => DescribeIsNotNoFruit(items[k]); Describe(items[k])
  }

  /**
   * Two result lists give the same status exactly when neither has a
   * qualifying item, or both have one and the first qualifying items have the
   * same label and the same confidence rounded to hundredths.
   */
  lemma SameStatusIffSameFirstMatch(xs: seq<RecogNumInfo>, ys: seq<RecogNumInfo>)
    ensures Status(xs) == Status(ys) <==>
      (FirstMatch(xs).None? && FirstMatch(ys).None?) ||
      (FirstMatch(xs).Some? && FirstMatch(ys).Some? &&
       xs[FirstMatch(xs).value].num == ys[FirstMatch(ys).value].num &&
       Hundredths(xs[FirstMatch(xs).value].score) == Hundredths(ys[FirstMatch(ys).value].score))
  {
    if FirstMatch(xs).Some? && FirstMatch(ys).Some? {
      DescribeIdentifiesItem(xs[FirstMatch(xs).value], ys[FirstMatch(ys).value]);
    } else if FirstMatch(xs).Some? {
      DescribeIsNotNoFruit(xs[FirstMatch(xs).value]);
    } else if FirstMatch(ys).Some? {
      DescribeIsNotNoFruit(ys[FirstMatch(ys).value]);
    }
  }

  /**
   * When some item qualifies, the status is the description of the first
   * qualifying item in list order, whatever comes after it.
   */
  lemma StatusNamesFirstMatch(items: seq<RecogNumInfo>, k: nat)
    requires k < |items| && Qualifies(items[k])
    requires forall j :: 0 <= j < k ==> !Qualifies(items[j])
    ensures Status(items) == Describe(items[k])
    ensures Status(items) != NoFruit
  {
    FirstMatchIsFirst(items, k);
    DescribeIsNotNoFruit(items[k]);
  }

  /** A described item begins with a lower-case label, never with "No fruit detected". */
  lemma DescribeIsNotNoFruit(item: RecogNumInfo)
    requires Qualifies(item)
    ensures FruitTypes[item.num] + " " + ConfidenceText(item.score) != NoFruit
  {
    var n := item.num;
    assert FruitTypes[n][0] == 'f' || FruitTypes[n][0] == 'r' by {
      if n < 5 { assert FruitTypes[n][..6] == "fresh "; }
      else { assert FruitTypes[n][..7] == "rotten "; }
    }
    assert (FruitTypes[n] + " " + ConfidenceText(item.score))[0] == FruitTypes[n][0];
  }

  /**
   * The confidence score / 4096 in hundredths, rounded to nearest with ties
   * to even, as `%.2f` renders the exactly representable value.
   */
  function Hundredths(score: nat): (n: nat)
    ensures 1024 * n - 512 <= 25 * score <= 1024 * n + 512
    ensures 25 * score == 1024 * n + 512 || 25 * score == 1024 * n - 512 ==> n % 2 == 0
  {
    var m := 25 * score;
    var q := m / 1024;
    var r := m % 1024;
    assert m == 1024 * q + r && 0 <= r < 1024;
    if r < 512 then q
    else if r > 512 then q + 1
    else if q % 2 == 0 then q else q + 1
  }

  predicate IsDigit(c: char) {
    '0' <= c <= '9'
  }

  function DigitValue(c: char): int {
    c as int - '0' as int
  }

  function DigitChar(d: nat): (c: char)
    requires d < 10
    ensures IsDigit(c) && DigitValue(c) == d
  {
    ('0' as int + d) as char
  }

  /** The number a string of decimal digits denotes. */
  function DecimalValue(s: string): int {
    if s == [] then 0 else 10 * DecimalValue(s[..|s| - 1]) + DigitValue(s[|s| - 1])
  }

  /** A non-empty string of decimal digits without a leading zero, as `%d` prints. */
  predicate IsNumeral(s: string) {
    |s| >= 1 && (forall i :: 0 <= i < |s| ==> IsDigit(s[i])) && (|s| > 1 ==> s[0] != '0')
  }

  /** `%d` of a natural number: decimal digits, no leading zero, denoting `n`. */
  function NatText(n: nat): (s: string)
    ensures IsNumeral(s) && DecimalValue(s) == n
    decreases n
  {
    if n < 10 then [DigitChar(n)]
    else
      var s := NatText(n / 10) + [DigitChar(n % 10)];
      assert s[..|s| - 1] == NatText(n / 10);
      s
  }

  /**
   * `%.2f` of score / 4096: the integer part as a numeral, a point and two
   * digits, which together denote the rounded confidence in hundredths.
   */
  function ConfidenceText(score: int): (r: string)
    requires score >= 0
    ensures |r| >= 4 && IsNumeral(r[..|r| - 3]) && r[|r| - 3] == '.'
    ensures IsDigit(r[|r| - 2]) && IsDigit(r[|r| - 1])
    ensures 100 * DecimalValue(r[..|r| - 3]) + 10 * DigitValue(r[|r| - 2]) + DigitValue(r[|r| - 1])
      == Hundredths(score)
  {
    var n := Hundredths(score);
    var whole, cents := n / 100, n % 100;
    var tenths, hundredths := cents / 10, cents % 10;
    var r := NatText(whole) + "." + [DigitChar(tenths), DigitChar(hundredths)];
    assert r[..|r| - 3] == NatText(whole);
    assert n == 100 * whole + 10 * tenths + hundredths;
    r
  }

  /** Results [(0, 3500)] give "fresh apple 0.85"; [(5, 1000)] and [] give "No fruit detected". */
  lemma StatusExamples()
    ensures Status([RecogNumInfo(0, 3500)]) == "fresh apple 0.85"
    ensures Status([RecogNumInfo(5, 1000)]) == NoFruit
    ensures Status([]) == NoFruit
  {
    assert Hundredths(3500) == 85;
    assert NatText(0) == "0";
    assert ConfidenceText(3500) == "0.85";
    assert FirstMatch([RecogNumInfo(0, 3500)]) == Some(0);
    assert FirstMatch([RecogNumInfo(5, 1000)]) == None;
  }
}
