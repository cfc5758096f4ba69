/** HB <-> HRC hardness conversion for steel over one fixed reference table
    (Brinell with a 10 mm ball and 3000 kgf against Rockwell C). A conversion
    rejects a value that is NaN or not positive, returns the paired column
    unrounded on an exact table hit, rejects a value outside the table's
    range for the input unit, and otherwise interpolates linearly between the
    first pair of adjacent rows that brackets the value and rounds: to one
    decimal for HRC, to an integer for HB. */
module HardnessConversion {
  import opened Wrappers
  import opened JsNumbers

  /** One row of the reference table. Every value in the table is an integer. */
  datatype Entry = Entry(hb: int, hrc: int)

  /** Which unit is the input: Brinell in, Rockwell C out, or the reverse. */
  datatype Direction = HbToHrc | HrcToHb

  /** Why a conversion gave no value. `OutOfRange` names the input unit and
      the range it was checked against; `NoEquivalent` is the fallback after
      a bracket search that found nothing. */
  datatype ConversionError = InvalidValue | OutOfRange(unit: Direction, min: real, max: real) | NoEquivalent

  datatype ConversionResult = Converted(value: real) | Failed(error: ConversionError)

  datatype Range = Range(min: real, max: real)

  /** The reference table, from hardest to softest: the concatenation of five
      bands of at most ten rows (HRC 65-56, 55-46, 45-36, 35-26 and 25-20). */
  const Table: seq<Entry> := Band65 + Band55 + Band45 + Band35 + Band25

  const Band65: seq<Entry> := [
    Entry(739, 65), Entry(722, 64), Entry(705, 63), Entry(688, 62), Entry(670, 61),
    Entry(654, 60), Entry(634, 59), Entry(615, 58), Entry(595, 57), Entry(577, 56)
  ]
  const Band55: seq<Entry> := [
    Entry(560, 55), Entry(543, 54), Entry(525, 53), Entry(512, 52), Entry(496, 51),
    Entry(481, 50), Entry(469, 49), Entry(455, 48), Entry(443, 47), Entry(432, 46)
  ]
  const Band45: seq<Entry> := [
    Entry(421, 45), Entry(409, 44), Entry(400, 43), Entry(390, 42), Entry(381, 41),
    Entry(371, 40), Entry(362, 39), Entry(353, 38), Entry(344, 37), Entry(336, 36)
  ]
  const Band35: seq<Entry> := [
    Entry(327, 35), Entry(319, 34), Entry(311, 33), Entry(301, 32), Entry(294, 31),
    Entry(286, 30), Entry(279, 29), Entry(271, 28), Entry(264, 27), Entry(258, 26)
  ]
  const Band25: seq<Entry> := [
    Entry(253, 25), Entry(247, 24), Entry(243, 23), Entry(237, 22), Entry(231, 21),
    Entry(226, 20)
  ]

  /** The column a direction reads its input from. */
  function Source(e: Entry, dir: Direction): int {
    match dir
    case HbToHrc => e.hb
    case HrcToHb => e.hrc
  }

  /** The column a direction returns. */
  function Target(e: Entry, dir: Direction): int {
    match dir
    case HbToHrc => e.hrc
    case HrcToHb => e.hb
  }

  /** The other direction: its source column is this direction's target. */
  function Reverse(dir: Direction): Direction {
    match dir
    case HbToHrc => HrcToHb
    case HrcToHb => HbToHrc
  }

  // ---------------------------------------------------------------------------
  // The table invariant: strictly decreasing in both columns

  /** Each row is strictly below the previous one in both columns. */
  ghost predicate StrictlyDecreasing(t: seq<Entry>) {
    forall i :: 0 <= i < |t| - 1 ==> t[i].hb > t[i + 1].hb && t[i].hrc > t[i + 1].hrc
  }

  /** Two decreasing tables joined at a decreasing seam form one decreasing table. */
  lemma ConcatDecreasing(a: seq<Entry>, b: seq<Entry>)
    requires StrictlyDecreasing(a) && StrictlyDecreasing(b)
    requires |a| > 0 && |b| > 0
    requires a[|a| - 1].hb > b[0].hb && a[|a| - 1].hrc > b[0].hrc
    ensures StrictlyDecreasing(a + b)
  {
    var t := a + b;
    forall i | 0 <= i < |t| - 1
      ensures t[i].hb > t[i + 1].hb && t[i].hrc > t[i + 1].hrc
    {
      if i < |a| - 1 {
        assert t[i] == a[i] && t[i + 1] == a[i + 1];
      } else if i == |a| - 1 {
        assert t[i] == a[|a| - 1] && t[i + 1] == b[0];
      } else {
        assert t[i] == b[i - |a|] && t[i + 1] == b[i - |a| + 1];
      }
    }
  }

  /** Each band is decreasing on its own. */
  lemma BandsAreStrictlyDecreasing()
    ensures StrictlyDecreasing(Band65) && StrictlyDecreasing(Band55) && StrictlyDecreasing(Band45)
    ensures StrictlyDecreasing(Band35) && StrictlyDecreasing(Band25)
  {
    Band65Decreasing();
    Band55Decreasing();
    Band45Decreasing();
    Band35Decreasing();
    Band25Decreasing();
  }

  lemma Band65Decreasing() ensures StrictlyDecreasing(Band65) { assert DecreasingPairs(Band65); AdjacentRowsDecrease(Band65); }
  lemma Band55Decreasing() ensures StrictlyDecreasing(Band55) { assert DecreasingPairs(Band55); AdjacentRowsDecrease(Band55); }
  lemma Band45Decreasing() ensures StrictlyDecreasing(Band45) { assert DecreasingPairs(Band45); AdjacentRowsDecrease(Band45); }
  lemma Band35Decreasing() ensures StrictlyDecreasing(Band35) { assert DecreasingPairs(Band35); AdjacentRowsDecrease(Band35); }
  lemma Band25Decreasing() ensures StrictlyDecreasing(Band25) { assert DecreasingPairs(Band25); AdjacentRowsDecrease(Band25); }

  /** The row-by-row check of a table, one adjacent pair after the other. */
  predicate DecreasingPairs(t: seq<Entry>) {
    |t| < 2 || (t[0].hb > t[1].hb && t[0].hrc > t[1].hrc && DecreasingPairs(t[1..]))
  }

  lemma {:induction false} AdjacentRowsDecrease(t: seq<Entry>)
    requires DecreasingPairs(t)
    ensures StrictlyDecreasing(t)
  {
    if 2 <= |t| {
      AdjacentRowsDecrease(t[1..]);
      forall i | 0 <= i < |t| - 1
        ensures t[i].hb > t[i + 1].hb && t[i].hrc > t[i + 1].hrc
      {
        if 0 < i {
          assert t[i] == t[1..][i - 1] && t[i + 1] == t[1..][i];
        }
      }
    }
  }

  /** The reference table satisfies its invariant. */
  lemma TableIsStrictlyDecreasing()
    ensures StrictlyDecreasing(Table)
    ensures |Table| == 46
  {
    BandsAreStrictlyDecreasing();
    var t2 := Band65 + Band55;
    var t3 := t2 + Band45;
    var t4 := t3 + Band35;
    ConcatDecreasing(Band65, Band55);
    assert t2[|t2| - 1] == Band55[9];
    ConcatDecreasing(t2, Band45);
    assert t3[|t3| - 1] == Band45[9];
    ConcatDecreasing(t3, Band35);
    assert t4[|t4| - 1] == Band35[9];
    ConcatDecreasing(t4, Band25);
  }

  /** In a decreasing table every row is strictly below every earlier row, in
      both the source and the target column of either direction. */
  lemma {:induction false} DecreasingApart(t: seq<Entry>, dir: Direction, i: nat, j: nat)
    requires StrictlyDecreasing(t) && i < j < |t|
    ensures Source(t[i], dir) > Source(t[j], dir) && Target(t[i], dir) > Target(t[j], dir)
    decreases j - i
  {
    if i + 1 < j {
      DecreasingApart(t, dir, i + 1, j);
    }
  }

  /** In a decreasing table, row order and column order agree. */
  lemma RowOrder(t: seq<Entry>, dir: Direction, i: nat, j: nat)
    requires StrictlyDecreasing(t) && i < |t| && j < |t|
    ensures i <= j ==> Source(t[i], dir) >= Source(t[j], dir) && Target(t[i], dir) >= Target(t[j], dir)
    ensures Source(t[i], dir) >= Source(t[j], dir) ==> i <= j
  {
    if i < j {
      DecreasingApart(t, dir, i, j);
    } else if j < i {
      DecreasingApart(t, dir, j, i);
    }
  }

  // ---------------------------------------------------------------------------
  // Exact lookup: the first row whose source column equals the value

  /** The index of the first row at or after `from` whose source column is
      exactly `v` (JavaScript's `Array.prototype.find`). */
  function FindExact(t: seq<Entry>, dir: Direction, v: real, from: nat): (r: Option<nat>)
    decreases |t| - from
    ensures r.Some? ==> from <= r.value < |t| && Source(t[r.value], dir) as real == v
    ensures r.Some? ==> forall j :: from <= j < r.value ==> Source(t[j], dir) as real != v
    ensures r.None? ==> forall j :: from <= j < |t| ==> Source(t[j], dir) as real != v
  {
    if from >= |t| then None
    else if Source(t[from], dir) as real == v then Some(from)
    else FindExact(t, dir, v, from + 1)
  }

  /** In a decreasing table the exact lookup finds the one row holding the value. */
  lemma ExactLookupFindsRow(t: seq<Entry>, dir: Direction, k: nat)
    requires StrictlyDecreasing(t) && k < |t|
    ensures FindExact(t, dir, Source(t[k], dir) as real, 0) == Some(k)
  {
    var r := FindExact(t, dir, Source(t[k], dir) as real, 0);
    assert r.Some?;
    if r.value < k {
      DecreasingApart(t, dir, r.value, k);
    }
  }

  // ---------------------------------------------------------------------------
  // Bracket search: the first adjacent pair with t[i] >= v >= t[i + 1]

  /** Rows `i` and `i + 1` enclose `v` in the source column. */
  predicate IsBracket(t: seq<Entry>, dir: Direction, v: real, i: nat)
    requires i + 1 < |t|
  {
    Source(t[i], dir) as real >= v && Source(t[i + 1], dir) as real <= v
  }

  /** The first bracketing pair at or after `from`, by its upper index. */
  function FirstBracketFrom(t: seq<Entry>, dir: Direction, v: real, from: nat): (r: Option<nat>)
    decreases |t| - from
    ensures r.Some? ==> from <= r.value && r.value + 1 < |t| && IsBracket(t, dir, v, r.value)
    ensures r.Some? ==> forall j :: from <= j < r.value ==> !IsBracket(t, dir, v, j)
    ensures r.None? ==> forall j :: from <= j && j + 1 < |t| ==> !IsBracket(t, dir, v, j)
  {
    if from + 1 >= |t| then None
    else if IsBracket(t, dir, v, from) then Some(from)
    else FirstBracketFrom(t, dir, v, from + 1)
  }

  /** A value between the source column's first and last rows is always
      bracketed; no ordering of the table is needed for this. */
  lemma {:induction false} BracketExists(t: seq<Entry>, dir: Direction, v: real, from: nat)
    requires from + 1 < |t|
    requires Source(t[|t| - 1], dir) as real <= v <= Source(t[from], dir) as real
    ensures FirstBracketFrom(t, dir, v, from).Some?
    decreases |t| - from
  {
    if !IsBracket(t, dir, v, from) {
      BracketExists(t, dir, v, from + 1);
    }
  }

  /** In a decreasing table, a value strictly between rows `i` and `i + 1` is
      in no row, and `i` is the bracket the search returns. */
  lemma StrictlyBetweenRows(t: seq<Entry>, dir: Direction, v: real, i: nat)
    requires StrictlyDecreasing(t) && i + 1 < |t|
    requires Source(t[i + 1], dir) as real < v < Source(t[i], dir) as real
    ensures FindExact(t, dir, v, 0) == None
    ensures FirstBracketFrom(t, dir, v, 0) == Some(i)
  {
    forall j | 0 <= j < |t|
      ensures Source(t[j], dir) as real != v
    {
      if j < i {
        DecreasingApart(t, dir, j, i);
      } else if j > i + 1 {
        DecreasingApart(t, dir, i + 1, j);
      }
    }
    forall j | 0 <= j < i
      ensures !IsBracket(t, dir, v, j)
    {
      if j + 1 < i {
        DecreasingApart(t, dir, j + 1, i);
      }
    }
    assert IsBracket(t, dir, v, i);
  }

  /** The bracket loop of `convertHardness`: scans the table in order and
      stops at the first adjacent pair enclosing `v`. */
  method FindBracket(t: seq<Entry>, dir: Direction, v: real) returns (r: Option<nat>)
    ensures r == FirstBracketFrom(t, dir, v, 0)
  {
    var i := 0;
    while i + 1 < |t|
      invariant FirstBracketFrom(t, dir, v, 0) == FirstBracketFrom(t, dir, v, i)
    {
      if Source(t[i], dir) as real >= v && Source(t[i + 1], dir) as real <= v {
        return Some(i);
      }
      i := i + 1;
    }
    return None;
  }

  // ---------------------------------------------------------------------------
  // Interpolation and rounding

  /** Linear interpolation of the target column between row `lower` (the
      softer, later row) and row `upper` (the harder, earlier row). */
  function Interpolate(lower: Entry, upper: Entry, dir: Direction, v: real): (r: real)
    requires Source(lower, dir) < Source(upper, dir)
    ensures v == Source(lower, dir) as real ==> r == Target(lower, dir) as real
    ensures v == Source(upper, dir) as real ==> r == Target(upper, dir) as real
    ensures Target(lower, dir) <= Target(upper, dir) && Source(lower, dir) as real <= v <= Source(upper, dir) as real ==>
              Target(lower, dir) as real <= r <= Target(upper, dir) as real
  {
    var ls, us := Source(lower, dir) as real, Source(upper, dir) as real;
    var lt, ut := Target(lower, dir) as real, Target(upper, dir) as real;
    LinearStep(ls, us, lt, ut, v);
    lt + ((v - ls) / (us - ls)) * (ut - lt)
  }

  /** The straight line through (ls, lt) and (us, ut) passes through both
      points and, when it rises, stays between them over [ls, us]. */
  lemma LinearStep(ls: real, us: real, lt: real, ut: real, v: real)
    requires ls < us
    ensures v == ls ==> lt + ((v - ls) / (us - ls)) * (ut - lt) == lt
    ensures v == us ==> lt + ((v - ls) / (us - ls)) * (ut - lt) == ut
    ensures lt <= ut && ls <= v <= us ==> lt <= lt + ((v - ls) / (us - ls)) * (ut - lt) <= ut
  {
    var ratio := (v - ls) / (us - ls);
    RatioInUnitInterval(v - ls, us - ls);
    ScaledStepBetween(ratio, lt, ut);
    if v == ls {
      assert ratio == 0.0;
    }
    if v == us {
      assert ratio == 1.0;
    }
  }

  lemma RatioInUnitInterval(num: real, den: real)
    requires den > 0.0
    ensures 0.0 <= num <= den ==> 0.0 <= num / den <= 1.0
    ensures num == 0.0 ==> num / den == 0.0
    ensures num == den ==> num / den == 1.0
  {
  }

  lemma ScaledStepBetween(ratio: real, lo: real, hi: real)
    ensures 0.0 <= ratio <= 1.0 && lo <= hi ==> lo <= lo + ratio * (hi - lo) <= hi
  {
  }

  /** The rounding each direction applies to an interpolated value:
      `Math.round(x * 10) / 10` for HRC, `Math.round(x)` for HB. */
  function RoundFor(dir: Direction, x: real): (r: real)
    ensures dir == HbToHrc ==> r - 0.05 <= x < r + 0.05 && (r * 10.0).Floor as real == r * 10.0
    ensures dir == HrcToHb ==> r - 0.5 <= x < r + 0.5 && r == r.Floor as real
  {
    match dir
    case HbToHrc =>
      var tenths := JsRound(x * 10.0) as real;
      assert tenths - 0.5 <= x * 10.0 < tenths + 0.5;
      assert (tenths / 10.0) * 10.0 == tenths;
      tenths / 10.0
    case HrcToHb => JsRound(x) as real
  }

  /** Rounding in either direction never leaves an interval whose ends are
      integers, as the ends of every bracket are. */
  lemma RoundForStaysBetween(dir: Direction, x: real, lo: int, hi: int)
    requires lo as real <= x <= hi as real
    ensures lo as real <= RoundFor(dir, x) <= hi as real
  {
    match dir
    case HbToHrc =>
      var tenths := JsRound(x * 10.0);
      RoundStaysBetween(x * 10.0, 10 * lo, 10 * hi);
      assert (10 * lo) as real <= tenths as real <= (10 * hi) as real;
    case HrcToHb =>
      RoundStaysBetween(x, lo, hi);
  }

  // ---------------------------------------------------------------------------
  // Ranges

  /** The range of a direction's input unit: the last row (the minimum) to
      the first row (the maximum) of its source column. */
  function SourceRange(dir: Direction): (r: Range)
    ensures forall i :: 0 <= i < |Table| ==> r.min <= Source(Table[i], dir) as real <= r.max
    ensures r.min == Source(Table[|Table| - 1], dir) as real && r.max == Source(Table[0], dir) as real
  {
    TableIsStrictlyDecreasing();
    forall i | 0 <= i < |Table|
      ensures Source(Table[|Table| - 1], dir) <= Source(Table[i], dir) <= Source(Table[0], dir)
    {
      if 0 < i {
        DecreasingApart(Table, dir, 0, i);
      }
      if i < |Table| - 1 {
        DecreasingApart(Table, dir, i, |Table| - 1);
      }
    }
    Range(Source(Table[|Table| - 1], dir) as real, Source(Table[0], dir) as real)
  }

  /** `getHbRange`: the Brinell range the HB -> HRC conversion accepts. */
  function GetHbRange(): (r: Range)
    ensures r == SourceRange(HbToHrc)
    ensures r == Range(226.0, 739.0)
  {
    SourceRange(HbToHrc)
  }

  /** `getHrcRange`: the Rockwell C range the HRC -> HB conversion accepts. */
  function GetHrcRange(): (r: Range)
    ensures r == SourceRange(HrcToHb)
    ensures r == Range(20.0, 65.0)
  {
    SourceRange(HrcToHb)
  }

  // ---------------------------------------------------------------------------
  // The conversion

  /** What `convertHardness` returns for a parsed input (`None` is NaN). */
  function Conversion(input: Option<real>, dir: Direction): (r: ConversionResult)
    ensures r == Failed(InvalidValue) <==> input.None? || input.value <= 0.0
    ensures r != Failed(NoEquivalent)
    ensures r.Converted? ==> SourceRange(Reverse(dir)).min <= r.value <= SourceRange(Reverse(dir)).max
  {
    if input.None? || input.value <= 0.0 then Failed(InvalidValue)
    else
      var v := input.value;
      match FindExact(Table, dir, v, 0)
      case Some(k) =>
        assert Target(Table[k], dir) == Source(Table[k], Reverse(dir));
        Converted(Target(Table[k], dir) as real)
      case None =>
        var range := SourceRange(dir);
        if v < range.min || v > range.max then Failed(OutOfRange(dir, range.min, range.max))
        else
          TableIsStrictlyDecreasing();
          BracketExists(Table, dir, v, 0);
          var i := FirstBracketFrom(Table, dir, v, 0).value;
          DecreasingApart(Table, dir, i, i + 1);
          var x := Interpolate(Table[i + 1], Table[i], dir, v);
          RoundForStaysBetween(dir, x, Target(Table[i + 1], dir), Target(Table[i], dir));
          assert Target(Table[i], dir) == Source(Table[i], Reverse(dir));
          assert Target(Table[i + 1], dir) == Source(Table[i + 1], Reverse(dir));
          Converted(RoundFor(dir, x))
  }

  /** `convertHardness`, step by step in the order it runs: validation,
      the exact lookup, the range check against the first and last rows,
      the bracket loop, then interpolation and rounding. */
  method ConvertHardness(input: Option<real>, dir: Direction) returns (r: ConversionResult)
    ensures r == Conversion(input, dir)
  {
    if input.None? || input.value <= 0.0 {
      return Failed(InvalidValue);
    }
    var v := input.value;
    var exact := FindExact(Table, dir, v, 0);
    if exact.Some? {
      return Converted(Target(Table[exact.value], dir) as real);
    }
    var min := Source(Table[|Table| - 1], dir) as real;
    var max := Source(Table[0], dir) as real;
    if v < min || v > max {
      return Failed(OutOfRange(dir, min, max));
    }
    TableIsStrictlyDecreasing();
    // A bracket always exists here, so convertHardness's trailing 'no equivalent'
    // failure after the loop is never reached.
    BracketExists(Table, dir, v, 0);
    var bracket := FindBracket(Table, dir, v);
    var i := bracket.value;
    DecreasingApart(Table, dir, i, i + 1);
    var interpolated := Interpolate(Table[i + 1], Table[i], dir, v);
    return Converted(RoundFor(dir, interpolated));
  }

  // ---------------------------------------------------------------------------
  // Properties of the conversion

  /** A value that is in the table converts to its row's paired value, unrounded. */
  lemma ExactHitIsUnrounded(dir: Direction, k: nat)
    requires k < |Table|
    ensures Conversion(Some(Source(Table[k], dir) as real), dir) == Converted(Target(Table[k], dir) as real)
  {
    TableIsStrictlyDecreasing();
    ExactLookupFindsRow(Table, dir, k);
    assert Source(Table[k], dir) >= Source(Table[|Table| - 1], dir) > 0 by {
      if k < |Table| - 1 {
        DecreasingApart(Table, dir, k, |Table| - 1);
      }
    }
  }

  /** Converting a table row's value and converting the result back returns
      the value: the two directions agree on every row. */
  lemma RowRoundTrip(dir: Direction, k: nat)
    requires k < |Table|
    ensures Conversion(Some(Source(Table[k], dir) as real), dir) == Converted(Source(Table[k], Reverse(dir)) as real)
    ensures Conversion(Some(Source(Table[k], Reverse(dir)) as real), Reverse(dir)) == Converted(Source(Table[k], dir) as real)
  {
    ExactHitIsUnrounded(dir, k);
    ExactHitIsUnrounded(Reverse(dir), k);
  }

  /** A positive value fails exactly when it lies outside the input unit's
      range, and the failure cites that range. */
  lemma FailsExactlyOutsideRange(dir: Direction, v: real)
    requires v > 0.0
    ensures Conversion(Some(v), dir).Failed? <==> v < SourceRange(dir).min || v > SourceRange(dir).max
    ensures Conversion(Some(v), dir).Failed? ==>
              Conversion(Some(v), dir) == Failed(OutOfRange(dir, SourceRange(dir).min, SourceRange(dir).max))
  {
  }

  /** A value strictly between two adjacent rows is interpolated between
      exactly those rows, and the rounded result stays between their paired
      values. */
  lemma InterpolatesBetweenAdjacentRows(dir: Direction, v: real, i: nat)
    requires i + 1 < |Table|
    requires Source(Table[i + 1], dir) as real < v < Source(Table[i], dir) as real
    ensures Source(Table[i + 1], dir) < Source(Table[i], dir)
    ensures Conversion(Some(v), dir) == Converted(RoundFor(dir, Interpolate(Table[i + 1], Table[i], dir, v)))
    ensures Target(Table[i + 1], dir) as real <= Conversion(Some(v), dir).value <= Target(Table[i], dir) as real
  {
    TableIsStrictlyDecreasing();
    StrictlyBetweenRows(Table, dir, v, i);
    DecreasingApart(Table, dir, i, i + 1);
    assert v > 0.0 by {
      assert SourceRange(dir).min <= Source(Table[i + 1], dir) as real;
    }
    var x := Interpolate(Table[i + 1], Table[i], dir, v);
    RoundForStaysBetween(dir, x, Target(Table[i + 1], dir), Target(Table[i], dir));
  }

  // ---------------------------------------------------------------------------
  // Order: a harder input never converts to a softer output

  /** Rounding in either direction preserves order. */
  lemma RoundForMonotone(dir: Direction, x: real, y: real)
    requires x <= y
    ensures RoundFor(dir, x) <= RoundFor(dir, y)
  {
    RoundMonotone(x * 10.0, y * 10.0);
    RoundMonotone(x, y);
  }

  /** Rounding in either direction leaves an integer as it is. */
  lemma RoundForInteger(dir: Direction, k: int)
    ensures RoundFor(dir, k as real) == k as real
  {
    RoundOfInteger(10 * k);
    RoundOfInteger(k);
  }

  /** Between one pair of rows, interpolation preserves order. */
  lemma InterpolateMonotone(lower: Entry, upper: Entry, dir: Direction, v1: real, v2: real)
    requires Source(lower, dir) < Source(upper, dir) && Target(lower, dir) <= Target(upper, dir)
    requires v1 <= v2
    ensures Interpolate(lower, upper, dir, v1) <= Interpolate(lower, upper, dir, v2)
  {
    var ls, us := Source(lower, dir) as real, Source(upper, dir) as real;
    var lt, ut := Target(lower, dir) as real, Target(upper, dir) as real;
    LinearStepMonotone(ls, us, lt, ut, v1, v2);
  }

  lemma LinearStepMonotone(ls: real, us: real, lt: real, ut: real, v1: real, v2: real)
    requires ls < us && lt <= ut && v1 <= v2
    ensures lt + ((v1 - ls) / (us - ls)) * (ut - lt) <= lt + ((v2 - ls) / (us - ls)) * (ut - lt)
  {
    DivMonotone(v1 - ls, v2 - ls, us - ls);
    MulMonotone((v1 - ls) / (us - ls), (v2 - ls) / (us - ls), ut - lt);
  }

  /** A value that is in the table is an end of its first bracket, so
      interpolating there gives the row's paired value, which rounding leaves
      as it is. */
  lemma ExactHitIsBracketEnd(dir: Direction, v: real, i: nat, k: nat)
    requires StrictlyDecreasing(Table)
    requires FirstBracketFrom(Table, dir, v, 0) == Some(i)
    requires k < |Table| && Source(Table[k], dir) as real == v
    ensures Source(Table[i + 1], dir) < Source(Table[i], dir)
    ensures Interpolate(Table[i + 1], Table[i], dir, v) == Target(Table[k], dir) as real
    ensures RoundFor(dir, Interpolate(Table[i + 1], Table[i], dir, v)) == Target(Table[k], dir) as real
  {
    DecreasingApart(Table, dir, i, i + 1);
    RowOrder(Table, dir, i, k);
    RowOrder(Table, dir, k, i + 1);
    RoundForInteger(dir, Target(Table[k], dir));
  }

  /** Every value in range, a table value included, converts to the rounded
      interpolation within the first bracket that encloses it. */
  lemma InRangeIsInterpolated(dir: Direction, v: real)
    requires SourceRange(dir).min <= v <= SourceRange(dir).max
    ensures FirstBracketFrom(Table, dir, v, 0).Some?
    ensures var i := FirstBracketFrom(Table, dir, v, 0).value;
            && Source(Table[i + 1], dir) < Source(Table[i], dir)
            && Conversion(Some(v), dir) == Converted(RoundFor(dir, Interpolate(Table[i + 1], Table[i], dir, v)))
  {
    TableIsStrictlyDecreasing();
    assert SourceRange(dir).min > 0.0 by {
      assert GetHbRange() == SourceRange(HbToHrc) && GetHrcRange() == SourceRange(HrcToHb);
    }
    BracketExists(Table, dir, v, 0);
    var i := FirstBracketFrom(Table, dir, v, 0).value;
    var exact := FindExact(Table, dir, v, 0);
    if exact.Some? {
      ExactHitIsBracketEnd(dir, v, i, exact.value);
    }
  }

  /** For two values in range, the interpolation for the smaller one is
      not above the interpolation for the larger one, each taken within its
      own first bracket. */
  lemma BracketedInterpolationMonotone(dir: Direction, v1: real, v2: real, i1: nat, i2: nat)
    requires StrictlyDecreasing(Table)
    requires v1 <= v2
    requires FirstBracketFrom(Table, dir, v1, 0) == Some(i1) && FirstBracketFrom(Table, dir, v2, 0) == Some(i2)
    ensures Source(Table[i1 + 1], dir) < Source(Table[i1], dir) && Source(Table[i2 + 1], dir) < Source(Table[i2], dir)
    ensures Interpolate(Table[i1 + 1], Table[i1], dir, v1) <= Interpolate(Table[i2 + 1], Table[i2], dir, v2)
  {
    DecreasingApart(Table, dir, i1, i1 + 1);
    DecreasingApart(Table, dir, i2, i2 + 1);
    if v1 < v2 {
      // A bracket further down the table would put v2 at or below v1.
      RowOrder(Table, dir, i1 + 1, i2);
      assert i2 <= i1;
      if i1 == i2 {
        InterpolateMonotone(Table[i1 + 1], Table[i1], dir, v1, v2);
      } else {
        RowOrder(Table, dir, i2 + 1, i1);
      }
    }
  }

  /** Over the input unit's range the conversion preserves order: a harder
      input never converts to a softer output. */
  lemma ConversionIsMonotone(dir: Direction, v1: real, v2: real)
    requires SourceRange(dir).min <= v1 <= v2 <= SourceRange(dir).max
    ensures Conversion(Some(v1), dir).Converted? && Conversion(Some(v2), dir).Converted?
    ensures Conversion(Some(v1), dir).value <= Conversion(Some(v2), dir).value
  {
    TableIsStrictlyDecreasing();
    InRangeIsInterpolated(dir, v1);
    InRangeIsInterpolated(dir, v2);
    var i1 := FirstBracketFrom(Table, dir, v1, 0).value;
    var i2 := FirstBracketFrom(Table, dir, v2, 0).value;
    BracketedInterpolationMonotone(dir, v1, v2, i1, i2);
    RoundForMonotone(dir, Interpolate(Table[i1 + 1], Table[i1], dir, v1), Interpolate(Table[i2 + 1], Table[i2], dir, v2));
  }

  /** The rows the worked examples below use. */
  lemma ExampleRows()
    ensures Table[13] == Entry(512, 52) && Table[14] == Entry(496, 51) && Table[22] == Entry(400, 43)
  {
    var head := Band65 + Band55;
    assert Table == head + (Band45 + Band35 + Band25);
    assert head[13] == Band55[3] && head[14] == Band55[4];
    assert Table[22] == (Band45 + Band35 + Band25)[2] == Band45[2];
  }

  /** HB 400 is a table row: it converts to HRC 43, and HRC 43 back to HB 400. */
  lemma Hb400IsHrc43()
    ensures Conversion(Some(400.0), HbToHrc) == Converted(43.0)
    ensures Conversion(Some(43.0), HrcToHb) == Converted(400.0)
  {
    ExampleRows();
    RowRoundTrip(HbToHrc, 22);
  }

  /** HB 500 lies between HB 512 (HRC 52) and HB 496 (HRC 51): the ratio is
      0.25, the interpolated HRC 51.25, shown rounded as 51.3. */
  lemma Hb500IsHrc51Point3()
    ensures Conversion(Some(500.0), HbToHrc) == Converted(51.3)
  {
    ExampleRows();
    InterpolatesBetweenAdjacentRows(HbToHrc, 500.0, 13);
    Hb500Steps();
  }

  /** The arithmetic of the example above: interpolation, then rounding. */
  lemma Hb500Steps()
    ensures Interpolate(Entry(496, 51), Entry(512, 52), HbToHrc, 500.0) == 51.25
    ensures RoundFor(HbToHrc, 51.25) == 51.3
  {
    assert JsRound(512.5) == 513;
  }

  /** HB 1000 is above the table and fails citing the HB range 226-739. */
  lemma Hb1000IsOutOfRange()
    ensures Conversion(Some(1000.0), HbToHrc) == Failed(OutOfRange(HbToHrc, 226.0, 739.0))
  {
    FailsExactlyOutsideRange(HbToHrc, 1000.0);
  }

  /** A negative HRC value is rejected as invalid before anything else. */
  lemma NegativeHrcIsInvalid()
    ensures Conversion(Some(-5.0), HrcToHb) == Failed(InvalidValue)
  {
  }
}
