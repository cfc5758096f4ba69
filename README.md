# CNC shop-floor calculator: the calculation core

This project models the calculation core of a small browser-based calculator
for CNC machining. It has four parts, and it proves properties of each.

- **Hardness conversion** (`HardnessConversion`). This converts Brinell (HB, 10 mm ball, 3000 kgf) to Rockwell C (HRC) and back, over one embedded reference table for steel. The table has 46 rows, from HB 739 / HRC 65 down to HB 226 / HRC 20. A conversion goes through these steps in order:
  1. It rejects a value that is NaN or not positive.
  2. On an exact table hit, it returns the paired value unrounded.
  3. It rejects a value outside the table's range for the input unit.
  4. It scans for the first adjacent pair of rows that encloses the value.
  5. It interpolates linearly between that pair and rounds: to one decimal for HRC, to an integer for HB.
- **Stock weight** (`WeightCalculator`). This computes the volume of a rod, tube or flat bar from millimetre dimensions, in cm³. It multiplies the volume by the density of the selected material, from a table of ten materials, and by the number of pieces. The piece count falls back to 1.
- **Cutting parameters** (`ParametersCalculator`). This is a chain of three steps:
  - spindle speed n = Vc·1000/(π·D);
  - feed rate F = fz·z·n;
  - thread-milling centre feed Fc = F·(d2 − d1)/d2.

  Every input passes by JavaScript truthiness (present and non-zero), not by sign. The three steps are recomputed in sequence after every input change.
- **Drill-cone height** (`DrillConeCalculator`). This computes the height of a drill's conical point, (D/2)/tan(α/2), for a positive diameter and an apex angle strictly between 0° and 180°.

Conventions:
- Numbers are `real`.
- A text field is held as its parsed value, an `Option<real>` (`Wrappers`). `None` stands for the NaN that `parseFloat` returns for an empty or non-numeric field.
- `JsNumbers` holds what the core borrows from JavaScript:
  - truthiness;
  - the `x || fallback` idiom;
  - `Math.round`, as `(x + 0.5).Floor`;
  - `Math.pow(x, 2)`;
  - `Math.PI`, as its decimal value, for the speed and weight formulas.
- In the drill-cone model both π and `Math.tan` are parameters, `pi` and `tan`. The model assumes only what the real π and the real tangent satisfy: π > 0, the tangent is positive on (0, π/2), and it is 1 at π/4.
- Each component's React state is a class. Its fields are the parsed form fields and, for the parameters calculator, the three stored results. Its methods are the component's handlers.

The source writes the hardness conversion out twice, once per direction, with the columns swapped. The model writes it once, parameterised by a `Direction` that picks the source and target columns.

## Model

| member | source | states |
|---|---|---|
| `HardnessConversion.TableIsStrictlyDecreasing` | src/utils/isoHardnessConversion.ts:12-59 | The reference table has 46 rows, and each row is strictly below the previous one in both HB and HRC. |
| `HardnessConversion.DecreasingApart` | src/utils/isoHardnessConversion.ts:12-59 | In a strictly decreasing table, every row is strictly below every earlier row, in both columns of either direction. |
| `HardnessConversion.FindExact` | src/utils/isoHardnessConversion.ts:82-85 | `find` by the source column: a found index holds the value and no earlier index does. `None` means no row holds it. |
| `HardnessConversion.ExactLookupFindsRow` | src/utils/isoHardnessConversion.ts:123-126 | In a strictly decreasing table, the exact lookup of a row's value finds that very row. |
| `HardnessConversion.FirstBracketFrom` | src/utils/isoHardnessConversion.ts:99-108 | Returns the first index i with t[i] ≥ v ≥ t[i+1] in the source column, or `None` exactly when no such adjacent pair exists. |
| `HardnessConversion.FindBracket` | src/utils/isoHardnessConversion.ts:140-149 | The `for` loop with its early `break` returns exactly the first bracketing pair. |
| `HardnessConversion.BracketExists` | src/utils/isoHardnessConversion.ts:117-120 | A value between the last and the first row's source value is always bracketed, so the trailing "no equivalent" failure is unreachable. |
| `HardnessConversion.StrictlyBetweenRows` | src/utils/isoHardnessConversion.ts:102-108 | A value strictly between rows i+1 and i is in no row, and the search returns the pair (i, i+1). |
| `HardnessConversion.Interpolate` | src/utils/isoHardnessConversion.ts:110-114 | Linear interpolation returns the lower row's target at the lower source and the upper row's target at the upper source. Between them, the result lies between the two targets. |
| `HardnessConversion.InterpolateMonotone` | src/utils/isoHardnessConversion.ts:151-155 | Within one pair of rows, interpolation preserves order. |
| `HardnessConversion.RoundFor` | src/utils/isoHardnessConversion.ts:114 | HRC output is a multiple of 0.1 within 0.05 of the interpolated value. HB output is an integer within 0.5 of it. Either pair of facts fixes the result uniquely. |
| `HardnessConversion.RoundForStaysBetween` | src/utils/isoHardnessConversion.ts:155 | Rounding in either direction never leaves an interval whose ends are integers, as the ends of every bracket are. |
| `HardnessConversion.SourceRange` | src/utils/isoHardnessConversion.ts:88-89 | The range check's min is the last row and its max the first row, and every row lies within [min, max]. |
| `HardnessConversion.GetHbRange` | src/utils/isoHardnessConversion.ts:165-170 | Returns HB 226–739, the same bounds the HB→HRC range check uses. |
| `HardnessConversion.GetHrcRange` | src/utils/isoHardnessConversion.ts:172-177 | Returns HRC 20–65, the same bounds the HRC→HB range check uses. |
| `HardnessConversion.Conversion` | src/utils/isoHardnessConversion.ts:69-163 | The input is invalid exactly when it is NaN or ≤ 0. The no-equivalent failure never occurs. Every converted value lies within the output unit's table range. |
| `HardnessConversion.ConvertHardness` | src/utils/isoHardnessConversion.ts:80-120 | The step-by-step conversion returns what `Conversion` specifies: validate, look up exactly, check the range, search for the bracket, interpolate, round. |
| `HardnessConversion.ExactHitIsUnrounded` | src/utils/isoHardnessConversion.ts:82-85 | Every table value converts to its row's paired value, unrounded. |
| `HardnessConversion.RowRoundTrip` | src/utils/isoHardnessConversion.ts:123-126 | Converting a row's value and converting the result back returns the value, in both directions. |
| `HardnessConversion.FailsExactlyOutsideRange` | src/utils/isoHardnessConversion.ts:129-137 | A positive value fails if and only if it is outside the input unit's range, and the failure cites that range. |
| `HardnessConversion.InterpolatesBetweenAdjacentRows` | src/utils/isoHardnessConversion.ts:98-115 | A value strictly between adjacent rows converts to the rounded interpolation between exactly those rows, and the result lies between their targets. |
| `HardnessConversion.ExactHitIsBracketEnd` | src/utils/isoHardnessConversion.ts:82-85 | A table value is an end of its first bracket, so interpolating and rounding there give the same value as the exact lookup. |
| `HardnessConversion.InRangeIsInterpolated` | src/utils/isoHardnessConversion.ts:121-156 | Every in-range value, table values included, converts to the rounded interpolation within its first bracket. |
| `HardnessConversion.ConversionIsMonotone` | src/utils/isoHardnessConversion.ts:80-162 | Over the input unit's range every value converts, and the conversion preserves order: a harder input never gives a softer output. |
| `HardnessConversion.Hb400IsHrc43` | src/utils/isoHardnessConversion.ts:35 | HB 400 converts to HRC 43, and HRC 43 converts to HB 400. |
| `HardnessConversion.Hb500IsHrc51Point3` | src/utils/isoHardnessConversion.ts:112-114 | HB 500 interpolates to 51.25 between HB 512 and HB 496 and is shown as HRC 51.3. |
| `HardnessConversion.Hb1000IsOutOfRange` | src/utils/isoHardnessConversion.ts:91-96 | HB 1000 fails with the HB range 226–739. |
| `HardnessConversion.NegativeHrcIsInvalid` | src/utils/isoHardnessConversion.ts:73-78 | HRC −5 is rejected as invalid. |
| `JsNumbers.OrElse` | src/components/WeightCalculator.tsx:60 | JavaScript's logical-or fallback keeps a present non-zero number and otherwise takes the fallback. |
| `JsNumbers.JsRound` | src/utils/isoHardnessConversion.ts:155 | `Math.round` gives the integer within half a unit, with halves rounded up. |
| `WeightCalculator.MaterialDensities` | src/components/WeightCalculator.tsx:13-24 | Every material has a positive density, and each of the ten densities is stated: S235/S355, 40H/40HM, C45 and NC11LV 7.85; 4H13 7.75; AISI 304/316 8.00; Aluminium PA4/PA13 2.70; POM-C 1.41. |
| `WeightCalculator.RodVolumePositive` | src/components/WeightCalculator.tsx:64-69 | The rod volume π·(d/2)²·L/1000 is positive for a positive diameter and length. |
| `WeightCalculator.TubeVolumePositive` | src/components/WeightCalculator.tsx:70-76 | The ring volume is positive when outer > inner ≥ 0 and the length is positive. |
| `WeightCalculator.TubeIsRodLessBore` | src/components/WeightCalculator.tsx:75 | The tube formula equals the outer rod's volume less the bore's. |
| `WeightCalculator.Volume` | src/components/WeightCalculator.tsx:61-86 | Each shape's guard selects its formula (`RodVolume`, line 68; `TubeVolume`, line 75; a·b·L/1000, line 82), and otherwise the volume stays 0. The volume is never negative, and it is positive exactly when the selected shape's guard accepts the dimensions. |
| `WeightCalculator.CalculateWeight` | src/components/WeightCalculator.tsx:56-103 | The result exists if and only if a material is selected and the dimensions pass the guard. When it exists: weightG = volume·density·qty and weightKg·1000 = weightG, and it echoes the density, quantity and material name. |
| `WeightCalculator.TubeWithWiderBoreHasNoWeight` | src/components/WeightCalculator.tsx:74 | A tube 10 mm outside and 15 mm inside gives no result. |
| `WeightCalculator.QuantityDefaultsToOne` | src/components/WeightCalculator.tsx:60 | An empty, non-numeric or zero quantity counts as 1. Any other value is used as typed, and a negative one gives a negative weight. |
| `WeightCalculator.WeightCalculatorState.constructor` | src/components/WeightCalculator.tsx:27-43 | The form starts as a rod with no material, quantity 1 and every dimension empty, and shows nothing. |
| `WeightCalculator.WeightCalculatorState.HandleClear` | src/components/WeightCalculator.tsx:105-117 | Restores that starting state, in which no result is shown. |
| `ParametersCalculator.Rpm` | src/components/ParametersCalculator.tsx:16-27 | There is a speed if and only if Vc and D are both truthy, and then n·(π·D) = Vc·1000. |
| `ParametersCalculator.Feed` | src/components/ParametersCalculator.tsx:29-40 | There is a feed if and only if fz, z and the speed are all truthy, and then F = fz·z·n. |
| `ParametersCalculator.CenterFeed` | src/components/ParametersCalculator.tsx:42-52 | There is a centre feed if and only if F, d1 and d2 are truthy and d2 > d1, and then Fc·d2 = F·(d2 − d1). |
| `ParametersCalculator.FeedFromCuttingSpeed` | src/components/ParametersCalculator.tsx:54-56 | Through the chain, the feed rate satisfies F·(π·D) = fz·z·Vc·1000 whenever all four inputs are non-zero. |
| `ParametersCalculator.RpmHasSignOfCuttingSpeed` | src/components/ParametersCalculator.tsx:20-21 | With a positive diameter, a non-zero cutting speed of either sign gives a speed, and the speed has the sign of Vc. |
| `ParametersCalculator.CenterFeedBelowFeed` | src/components/ParametersCalculator.tsx:46-47 | With d2 > d1 > 0 and F > 0, the centre feed lies strictly between 0 and F. |
| `ParametersCalculator.NoRpmClearsChain` | src/components/ParametersCalculator.tsx:54-58 | Without a speed there is neither a feed nor a centre feed, whatever else is entered. |
| `ParametersCalculator.ParametersCalculatorState.constructor` | src/components/ParametersCalculator.tsx:6-14 | Every field starts empty and every result null, which is consistent with the formulas. |
| `ParametersCalculator.ParametersCalculatorState.CalculateRpm` | src/components/ParametersCalculator.tsx:16-27 | Stores and returns the speed for the current fields, and changes nothing else. |
| `ParametersCalculator.ParametersCalculatorState.CalculateFeed` | src/components/ParametersCalculator.tsx:29-40 | Stores and returns the feed for the given speed, and changes nothing else. |
| `ParametersCalculator.ParametersCalculatorState.CalculateCenterFeed` | src/components/ParametersCalculator.tsx:42-52 | Stores the centre feed for the given feed, using the same tool-diameter field as the speed. |
| `ParametersCalculator.ParametersCalculatorState.Recompute` | src/components/ParametersCalculator.tsx:54-58 | After the effect, the three results are the chain of formulas over the current inputs. A missing speed nulls all three. |
| `ParametersCalculator.ParametersCalculatorState.HandleClear` | src/components/ParametersCalculator.tsx:60-69 | Empties all five inputs and nulls all three results. |
| `DrillConeCalculator.HalfAngle` | src/components/DrillConeCalculator.tsx:14 | Half the apex angle in radians, h·360 = α·π. |
| `DrillConeCalculator.HalfAngleBelowRightAngle` | src/components/DrillConeCalculator.tsx:13-14 | For every accepted angle (0 < α < 180) the half angle lies strictly between 0 and π/2. |
| `DrillConeCalculator.ConeHeight` | src/components/DrillConeCalculator.tsx:9-18 | There is a height if and only if D > 0 and 0 < α < 180, with both ends rejected. The height is positive and satisfies h·tan(α/2) = D/2. |
| `DrillConeCalculator.RightAnglePointIsHalfDiameter` | src/components/DrillConeCalculator.tsx:13-15 | At α = 90° the height is D/2, so D = 10 gives 5. |
| `DrillConeCalculator.DrillConeCalculatorState.constructor` | src/components/DrillConeCalculator.tsx:6-7 | Both fields start empty. |
| `DrillConeCalculator.DrillConeCalculatorState.HandleClear` | src/components/DrillConeCalculator.tsx:22-25 | Empties both fields, so no height is shown. |

## Left out

- The user interface is not modelled:
  - JSX rendering and CSS;
  - the option lists;
  - the input and select `onChange` setters;
  - hook scheduling (`useMemo`/`useCallback`/`useEffect` re-run timing, which `Recompute` replaces with one explicit call after an input change);
  - `src/main.tsx` (service worker, DOM mounting);
  - the navigation, page and field components.
- `src/components/HardnessConverter.tsx` is not part of this model. It only wraps `convertHardness` with a NaN check and builds label strings.
- `parseFloat` is not modelled. Every text field is held as its parsed value, with `None` for NaN.
- IEEE-754 arithmetic is not modelled; all arithmetic is exact over the reals:
  - infinities (for example a huge input, or tan near 90°);
  - NaN produced inside arithmetic;
  - float rounding.
- The `toFixed` display formatting of the weight result (3, 1 and 2 decimals) is left out. `WeightResult` holds the exact numbers the source formats.
- In the speed and weight formulas `Math.PI` is its 16-digit decimal value, not the real π. Statements that depend on π's digits, such as the 31.42 cm³ of a 20 × 100 mm rod, are not proved.
- `DrillConeCalculator.RightAnglePointIsHalfDiameter` holds for the real tangent at the real π, which the model takes as parameters. In floating point `Math.tan(Math.PI / 4)` is 0.9999999999999999, so the value `calculateConeHeight` returns differs from D/2 in its last binary digits; the three-decimal display hides it.
- The failure messages (Polish text, the ranges printed with an en dash) become tagged errors. `OutOfRange` carries the direction and the range the message cites.
- `HardnessConversion.ConvertHardness` omits the trailing "no equivalent" return after the bracket loop. `BracketExists` proves that no input reaches it, and `Conversion` states that the failure never occurs.
- `WeightCalculator.CalculateWeight` requires the selected material to be "" or a key of the material table, the only values the selector offers. An unknown key would make the source throw when it reads `.density` outside its `try`. `WeightCalculatorState.Valid` carries the same fact.
- `DrillConeCalculator.ConeHeight` requires π > 0 and the tangent parameter to be positive on (0, π/2). These are properties of π and the tangent, not demands on callers' inputs.
