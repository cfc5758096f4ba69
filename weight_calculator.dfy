/** The stock-weight calculator: the volume of a rod, tube or flat bar from
    its dimensions in millimetres (giving cm³), times the density of the
    selected material, times the number of pieces. The form's fields are
    held as their parsed values; a field whose text is not a number (an
    empty one included) holds `None`. */
module WeightCalculator {
  import opened Wrappers
  import opened JsNumbers

  datatype Shape = Rod | Tube | Flat

  /** A stock material: density in g/cm³ and a short description. */
  datatype Material = Material(density: real, description: string)

  /** The material table, keyed by the name shown in the material selector. */
  const Materials: map<string, Material> := map[
    "S235/S355" := Material(7.85, "Stal konstrukcyjna"),
    "40H/40HM" := Material(7.85, "Stal konstrukcyjna węglowa"),
    "C45" := Material(7.85, "Stal węglowa"),
    "NC11LV" := Material(7.85, "Stal nierdzewna martenzytyczna"),
    "AISI 304" := Material(8.00, "Stal nierdzewna austenityczna"),
    "AISI 316" := Material(8.00, "Stal nierdzewna austenityczna"),
    "4H13" := Material(7.75, "Stal nierdzewna martenzytyczna"),
    "Aluminium PA4" := Material(2.70, "Stop aluminium"),
    "Aluminium PA13" := Material(2.70, "Stop aluminium"),
    "POM-C" := Material(1.41, "Polioxymetan kopolimer")
  ]

  /** Everything the weight depends on: the selected shape, the selected
      material name ("" when none is selected), and the parsed fields. */
  datatype WeightForm = WeightForm(
    shape: Shape, materialType: string, quantity: Option<real>,
    rodDiameter: Option<real>, rodLength: Option<real>,
    tubeOuterDia: Option<real>, tubeInnerDia: Option<real>, tubeLength: Option<real>,
    flatA: Option<real>, flatB: Option<real>, flatLength: Option<real>)

  /** What the calculator shows. Weights and volume are exact here; the
      calculator formats them with `toFixed` for display. */
  datatype WeightResult = WeightResult(
    weightKg: real, weightG: real, volume: real, density: real, quantity: real, material: string)

  /** The material selector only offers "" (nothing selected) and the keys of
      the material table. */
  predicate Selectable(materialType: string) {
    materialType == "" || materialType in Materials
  }

  /** `x > 0` on a parsed number: false for NaN. */
  predicate Positive(x: Option<real>) {
    x.Some? && x.value > 0.0
  }

  /** The guard each shape puts on its dimensions before computing a volume. */
  predicate DimensionsAccepted(f: WeightForm) {
    match f.shape
    case Rod => Positive(f.rodDiameter) && Positive(f.rodLength)
    case Tube =>
      && Positive(f.tubeOuterDia) && f.tubeInnerDia.Some? && f.tubeInnerDia.value >= 0.0
      && Positive(f.tubeLength) && f.tubeOuterDia.value > f.tubeInnerDia.value
    case Flat => Positive(f.flatA) && Positive(f.flatB) && Positive(f.flatLength)
  }

  /** Volume in cm³ of a solid round bar of diameter `d` and length `len` (mm). */
  function RodVolume(d: real, len: real): real {
    PI * Pow2(d / 2.0) * len / 1000.0
  }

  /** Volume in cm³ of a tube, as `calculateWeight` computes it: the ring
      between the outer and the inner circle times the length. */
  function TubeVolume(outer: real, inner: real, len: real): real {
    PI * (Pow2(outer / 2.0) - Pow2(inner / 2.0)) * len / 1000.0
  }

  /** A rod with a positive diameter and length has a positive volume. */
  lemma RodVolumePositive(d: real, len: real)
    requires d > 0.0 && len > 0.0
    ensures RodVolume(d, len) > 0.0
  {
    Pow2Increasing(0.0, d / 2.0);
    MulPositive(PI, Pow2(d / 2.0));
    MulPositive(PI * Pow2(d / 2.0), len);
  }

  /** A tube whose outer diameter exceeds a non-negative inner one, with a
      positive length, has a positive volume. */
  lemma TubeVolumePositive(outer: real, inner: real, len: real)
    requires outer > inner >= 0.0 && len > 0.0
    ensures TubeVolume(outer, inner, len) > 0.0
  {
    Pow2Increasing(inner / 2.0, outer / 2.0);
    MulPositive(PI, Pow2(outer / 2.0) - Pow2(inner / 2.0));
    MulPositive(PI * (Pow2(outer / 2.0) - Pow2(inner / 2.0)), len);
  }

  /** The volume the calculator computes for the selected shape; it stays 0
      when the shape's guard rejects the dimensions. */
  function Volume(f: WeightForm): (v: real)
    ensures v >= 0.0
    ensures v > 0.0 <==> DimensionsAccepted(f)
  {
    if !DimensionsAccepted(f) then 0.0
    else match f.shape
      case Rod =>
        RodVolumePositive(f.rodDiameter.value, f.rodLength.value);
        RodVolume(f.rodDiameter.value, f.rodLength.value)
      case Tube =>
        TubeVolumePositive(f.tubeOuterDia.value, f.tubeInnerDia.value, f.tubeLength.value);
        TubeVolume(f.tubeOuterDia.value, f.tubeInnerDia.value, f.tubeLength.value)
      case Flat =>
        var a, b, len := f.flatA.value, f.flatB.value, f.flatLength.value;
        MulPositive(a, b);
        MulPositive(a * b, len);
        a * b * len / 1000.0
  }

  /** `calculateWeight`: nothing without a material; otherwise the weight of
      the volume, in grams and kilograms, for the given number of pieces. */
  function CalculateWeight(f: WeightForm): (r: Option<WeightResult>)
    requires Selectable(f.materialType)
    ensures r.Some? <==> f.materialType != "" && DimensionsAccepted(f)
    ensures r.Some? ==>
              && r.value.volume == Volume(f) > 0.0
              && r.value.density == Materials[f.materialType].density
              && r.value.quantity == OrElse(f.quantity, 1.0)
              && r.value.material == f.materialType
    ensures r.Some? ==>
              && r.value.weightG == r.value.volume * r.value.density * r.value.quantity
              && r.value.weightKg * 1000.0 == r.value.weightG
  {
    if f.materialType == "" then None
    else
      var density := Materials[f.materialType].density;
      var qty := OrElse(f.quantity, 1.0);
      var volume := Volume(f);
      if volume > 0.0 then
        var totalWeight := volume * density * qty;
        Some(WeightResult(totalWeight / 1000.0, totalWeight, volume, density, qty, f.materialType))
      else None
  }

  // ---------------------------------------------------------------------------
  // Properties

  /** Every material in the table has a positive density: the structural,
      carbon and martensitic steels weigh 7.85 g/cm³ (4H13 7.75), the
      austenitic stainless steels 8.00, the aluminium alloys 2.70 and POM-C
      1.41. */
  lemma MaterialDensities()
    ensures forall name :: name in Materials ==> Materials[name].density > 0.0
    ensures Materials["S235/S355"].density == 7.85 && Materials["40H/40HM"].density == 7.85
    ensures Materials["C45"].density == 7.85 && Materials["NC11LV"].density == 7.85
    ensures Materials["4H13"].density == 7.75
    ensures Materials["AISI 304"].density == 8.00 && Materials["AISI 316"].density == 8.00
    ensures Materials["Aluminium PA4"].density == 2.70 && Materials["Aluminium PA13"].density == 2.70
    ensures Materials["POM-C"].density == 1.41
  {
  }

  /** The tube formula is the outer bar's volume less the bore's. */
  lemma TubeIsRodLessBore(outer: real, inner: real, len: real)
    ensures TubeVolume(outer, inner, len) == RodVolume(outer, len) - RodVolume(inner, len)
  {
    var o, i := Pow2(outer / 2.0), Pow2(inner / 2.0);
    calc {
      PI * (o - i) * len / 1000.0;
    ==
      PI * o * len / 1000.0 - PI * i * len / 1000.0;
    }
  }

  /** A tube whose inner diameter exceeds its outer one (10 mm outside,
      15 mm inside) has no weight, whatever the material and length. */
  lemma TubeWithWiderBoreHasNoWeight(f: WeightForm)
    requires Selectable(f.materialType)
    requires f.shape == Tube && f.tubeOuterDia == Some(10.0) && f.tubeInnerDia == Some(15.0)
    ensures CalculateWeight(f) == None
  {
  }

  /** The piece count falls back to 1 when the field is empty, not a number
      or 0; any other value, a negative one included, is used as typed. */
  lemma QuantityDefaultsToOne(f: WeightForm)
    requires Selectable(f.materialType) && CalculateWeight(f).Some?
    ensures f.quantity.None? || f.quantity == Some(0.0) ==> CalculateWeight(f).value.quantity == 1.0
    ensures f.quantity.Some? && f.quantity.value != 0.0 ==> CalculateWeight(f).value.quantity == f.quantity.value
    ensures f.quantity.Some? && f.quantity.value < 0.0 ==> CalculateWeight(f).value.weightG < 0.0
  {
    var r := CalculateWeight(f).value;
    assert r.volume * r.density > 0.0 by {
      MaterialDensities();
    }
  }

  // ---------------------------------------------------------------------------
  // The calculator's form state

  /** The component's state: the selected shape and material and the parsed
      value of each text field ('' parses to `None`, '1' to `Some(1.0)`). */
  class WeightCalculatorState {
    var shapeType: Shape
    var materialType: string
    var quantity: Option<real>
    var rodDiameter: Option<real>
    var rodLength: Option<real>
    var tubeOuterDia: Option<real>
    var tubeInnerDia: Option<real>
    var tubeLength: Option<real>
    var flatA: Option<real>
    var flatB: Option<real>
    var flatLength: Option<real>

    /** The material selector can only hold "" or a key of the material table. */
    predicate Valid()
      reads this
    {
      Selectable(materialType)
    }

    function Form(): WeightForm
      reads this
    {
      WeightForm(shapeType, materialType, quantity, rodDiameter, rodLength,
                 tubeOuterDia, tubeInnerDia, tubeLength, flatA, flatB, flatLength)
    }

    /** What the result panel shows for the current state. */
    function Result(): Option<WeightResult>
      reads this
      requires Valid()
    {
      CalculateWeight(Form())
    }

    /** The state the component starts in. */
    constructor ()
      ensures Valid() && Cleared() && Result() == None
    {
      shapeType, materialType, quantity := Rod, "", Some(1.0);
      rodDiameter, rodLength := None, None;
      tubeOuterDia, tubeInnerDia, tubeLength := None, None, None;
      flatA, flatB, flatLength := None, None, None;
    }

    /** Shape 'rod', no material, quantity '1' and every dimension field empty. */
    predicate Cleared()
      reads this
    {
      && shapeType == Rod && materialType == "" && quantity == Some(1.0)
      && rodDiameter == None && rodLength == None
      && tubeOuterDia == None && tubeInnerDia == None && tubeLength == None
      && flatA == None && flatB == None && flatLength == None
    }

    /** `handleClear`: back to the starting state, in which nothing is shown. */
    method HandleClear()
      modifies this
      ensures Valid() && Cleared() && Result() == None
    {
      shapeType := Rod;
      materialType := "";
      quantity := Some(1.0);
      rodDiameter := None;
      rodLength := None;
      tubeOuterDia := None;
      tubeInnerDia := None;
      tubeLength := None;
      flatA := None;
      flatB := None;
      flatLength := None;
    }
  }
}
