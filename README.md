# Open Food Facts normaliser and goal formulas, in Dafny

This project models two pure service modules of a nutrition-tracking backend:

- `core/services/off.py` turns the JSON of the Open Food Facts v0 product API into a canonical food record `{name, brand, nutrients}`, or into "not found" (`None`). It has three parts:
  - `_num`, a defensive number coercer that accepts decimal commas;
  - `_first`, a first-present lookup over an ordered list of fallback keys;
  - `normalize_off_payload`, which detects "not found", picks the product part, resolves the name and brand, resolves the seven nutrient values through their fallback chains, converts kJ to kcal and sodium from grams to whole milligrams, and returns "not found" when there is no truthy name and every candidate value is `None`, the raw kcal value included.
- `core/services/goals.py` holds the Mifflin-St Jeor resting-energy equation, scaled by an activity factor, and the Acceptable Macronutrient Distribution Ranges as gram ranges.

Files:

- `json.dfy` (module `Json`): the JSON value as Python's `json` module delivers it. `JNull` stands for both `None` and JSON `null`. The module also defines the Python semantics the code relies on: truthiness, `== 0` (true for `False`, too), `dict.get` and `or`.
- `pytext.dfy` (module `PyText`): `str.strip()` with Python's full `str.isspace()` set, `split(",")[0]` and `replace(",", ".")`.
- `pyfloat.dfy` (module `PyFloat`): `float(s)` on a decimal grammar over exact reals, and Python 3's `round` (ties go to the even integer).
- `off.dfy` (module `Off`): `_num`, `_first` and `normalize_off_payload`, with their properties.
- `off_examples.dfy` (module `OffExamples`): worked payloads.
- `goals.dfy` (module `Goals`): `mifflin_st_jeor` and `amdr`, with their properties.

Numbers are exact reals. Name and brand are kept as the JSON values the payload held, because the code never checks that they are strings. The record is `Option<Record>`. The nutrient part is a datatype with exactly the seven fields `calories`, `protein`, `carbs`, `fat`, `fiber`, `sugar` and `sodium`.

The product part is found as line 44 of `off.py` writes it: for any dict it is `off_raw.get("product")`. A dict without a `"product"` entry therefore gives `None`, which is not a dict, and line 46 returns "not found" (`Off.FlatPayloadNotFound`). The `"nutrients"` fallback of line 48 is read from the outer dict, not from the product.

## Model

| member | source | states |
|---|---|---|
| PyText.Strip | core/services/off.py:58 | `str.strip()`; no ensures of its own, properties in the StripBounds row |
| PyText.LeadingSpace | core/services/off.py:58 | the leading run that `strip` removes is all white space, and the character after it is not white space |
| PyText.TrailingSpace | core/services/off.py:58 | the trailing run that `strip` removes is all white space, and the character before it is not white space |
| PyText.StripBounds | core/services/off.py:58 | `strip()` yields a slice `s[i..j]` with only white space outside it and no white space at either end |
| PyText.BeforeFirstComma | core/services/off.py:58 | `split(",")[0]` is the longest comma-free prefix: it is followed by a comma, or it is the whole string |
| PyText.ReplaceCommas | core/services/off.py:17 | `replace(",", ".")` keeps the length and changes exactly the commas, into dots |
| PyText.ReplaceCommasAppend | core/services/off.py:17 | the replacement distributes over concatenation |
| PyText.ReplaceCommasNoComma | core/services/off.py:17 | a string without a comma is left unchanged |
| PyFloat.ParseFloat | core/services/off.py:17 | `float()` on the decimal grammar, `None` where Python raises; no ensures of its own, properties in the ParseFloat* rows |
| PyFloat.IndexOfDot | core/services/off.py:17 | the first dot position, with no dot before it |
| PyFloat.ParseFloatDefined | core/services/off.py:16-19 | `float` succeeds exactly on the strings of the grammar (optional sign, digits, at most one dot, some digit) |
| PyFloat.ParseFloatDecimal | core/services/off.py:17 | digits, a dot and digits read as integer part plus fraction |
| PyFloat.ParseFloatInteger | core/services/off.py:17 | a string of digits reads as its integer value |
| PyFloat.ParseFloatNegative | core/services/off.py:17 | a leading minus negates the value and does not change success |
| PyFloat.NatToDigits | core/services/off.py:17 | `str(n)` for a natural: non-empty decimal digits with value `n` and no leading zero |
| PyFloat.ParseFloatNat | core/services/off.py:17 | `float(str(n)) == n` for every natural `n` |
| Off.NumNatString | core/services/off.py:17 | `_num(str(n)) == _num(n)` for every natural `n` |
| PyFloat.RoundHalfEven | core/services/off.py:77 | `round(x)` is within 0.5 of `x`, and an exact tie goes to the even integer |
| PyFloat.RoundHalfEvenUnique | core/services/off.py:77 | these two properties determine `round(x)` uniquely |
| Off.IsSentinel | core/services/off.py:14 | the three absent values `None`, `""` and `"null"`; a predicate, stated by the Num and First rows |
| Off.Num | core/services/off.py:12-19 | `_num` gives `None` for `None`, `""` and `"null"`, a number's own value for a number, and `None` for booleans, dicts and lists |
| Off.NumStringDefined | core/services/off.py:14-19 | `_num` of a string is a number exactly when the string is a numeral: optional sign, digits, at most one `,` or `.` in all, and some digit |
| Off.OffNumeralReplaced | core/services/off.py:17 | the comma replacement maps the numerals `_num` accepts onto exactly the numerals `float` accepts |
| Off.NumDecimalSeparator | core/services/off.py:17 | a decimal comma reads like a decimal point |
| Off.NumThreeComma5 | core/services/off.py:13-17 | `_num("3,5") == 3.5` |
| Off.Qualifies | core/services/off.py:25 | a dict holding the key with a non-sentinel value; a predicate, stated by the FirstSpec row |
| Off.First | core/services/off.py:22-27 | `_first` never returns `""` or `"null"` |
| Off.FirstSpec | core/services/off.py:22-27 | `_first` returns `None` exactly when no key qualifies (and so always for a non-dict); otherwise it returns the value of the earliest qualifying key in argument order |
| Off.FirstAppend | core/services/off.py:24-27 | fallback chains compose: the keys after the first qualifying one are never consulted |
| Off.FirstSingle | core/services/off.py:22-27 | `_first` on a one-entry dict |
| Off.FirstMiss | core/services/off.py:22-27 | `_first` finds nothing when none of the keys is present |
| Off.FirstAt | core/services/off.py:22-27 | `_first` returns the value of the earliest qualifying key |
| Off.CleanBrand | core/services/off.py:56-58 | a comma-holding brand string becomes its first segment, stripped; no ensures of its own, properties in the CleanBrand* rows |
| Off.CleanBrandUntouched | core/services/off.py:57 | a brand that is not a string holding a comma is kept as it is, not even stripped |
| Off.CleanBrandSegment | core/services/off.py:56-58 | a brand string with a comma becomes the slice of the text before its first comma that is left once the white space at both ends is removed |
| Off.CleanBrandFirstEntry | core/services/off.py:56-58 | a brand list whose first entry carries no outer white space cleans to that entry |
| Off.CleanBrandIdempotent | core/services/off.py:56-58 | cleaning a cleaned brand changes nothing |
| Off.ProductPart | core/services/off.py:44 | `off_raw.get("product")` for a dict, the input itself otherwise; no ensures of its own, stated by the FlatPayloadNotFound and NotFoundEarly rows |
| Off.NutrimentsPart | core/services/off.py:48 | `product.get("nutriments") or off_raw.get("nutrients") or {}`; no ensures of its own, used by the FoundRecord and NotFoundExactly rows |
| Off.Kcal | core/services/off.py:61-66 | the kcal chain with the kJ fallback; no ensures of its own, properties in the CaloriesRule and UnparseableKcalCounts rows |
| Off.SodiumMg | core/services/off.py:76-77 | sodium in mg is absent exactly when the amount in grams is absent; otherwise it is within 0.5 of 1000 times it, and an exact tie goes to the even integer (`round`) |
| Off.Extract | core/services/off.py:48-77 | the candidate name, brand and nutrient values; no ensures of its own, properties in the FoundRecord and NotFoundExactly rows |
| Off.NothingUseful | core/services/off.py:80 | no truthy name and every candidate value `None`, the raw kcal value included; a predicate, stated by the NotFoundExactly row |
| Off.Assemble | core/services/off.py:83-95 | the returned record, with `"Unknown"` for a falsy name; no ensures of its own, properties in the FoundRecord row |
| Off.NormalizeOffPayload | core/services/off.py:30-95 | a found record comes only from a truthy dict whose status is not 0 and whose `"product"` is a dict, and its name is truthy |
| Off.NotFoundEarly | core/services/off.py:36-46 | "not found" for a falsy input, for `status == 0` (including `False`), and for a product part that is not a dict |
| Off.FlatPayloadNotFound | core/services/off.py:43-46 | as written, a dict without a `"product"` entry is "not found" |
| Off.NotFoundExactly | core/services/off.py:48-81 | a wrapped payload is "not found" exactly when the name is falsy, no kcal key qualifies, no kJ value parses, and the five macro chains and the sodium chain yield no number |
| Off.UnparseableKcalCounts | core/services/off.py:61-87 | a qualifying kcal value that does not parse still makes the payload found, with calories `None` |
| Off.FoundRecord | core/services/off.py:50-95 | the found record holds the name (or `"Unknown"`), the cleaned brand, each macro from its own chain, and sodium converted by `SodiumMg` to whole mg, ties to even |
| Off.CaloriesRule | core/services/off.py:61-66 | a qualifying kcal key wins and the kJ keys are then ignored; otherwise calories are the parsed kJ value divided by 4.184, or `None` |
| OffExamples.OnlyKeyMiss | core/services/off.py:22-27 | `_first` misses on a dict whose only key is not among the keys looked up |
| OffExamples.KilojouleExample | core/services/off.py:61-66 | 418.4 kJ and no kcal key give exactly 100 kcal over exact reals (see the Off.Num line under "Left out"), with the name `"Unknown"` |
| OffExamples.KilojouleCandidates | core/services/off.py:48-77 | the candidate values of the kJ payload |
| OffExamples.KilojouleChains | core/services/off.py:61-76 | the nutrient chains of the kJ payload |
| OffExamples.StatusZeroExample | core/services/off.py:40-41 | `{"status": 0}` is "not found" |
| OffExamples.StatusFalseExample | core/services/off.py:40-41 | `status: False` is "not found" too |
| OffExamples.BrandUntouchedExample | core/services/off.py:56-58 | `" Acme "` and a non-string brand pass through unchanged |
| OffExamples.SodiumRoundingExample | core/services/off.py:76-77 | 0.0025 g gives 2 mg and 0.0035 g gives 4 mg (ties to even); no sodium stays `None` |
| OffExamples.TestBarExample | core/services/off.py:30-95 | the "Test Bar" payload with `status: 1` gives that name, calories 111, protein 2.2, carbs 33.3, fat 4.4 and nothing else |
| OffExamples.TestBarCandidates | core/services/off.py:48-77 | the candidate values of the "Test Bar" payload |
| OffExamples.TestBarChains | core/services/off.py:61-76 | the nutrient chains of the "Test Bar" payload |
| Goals.MifflinStJeor | core/services/goals.py:1-6 | the equation as written, +5 for `"male"` and -161 otherwise, times the factor (default 1.2); no ensures of its own, properties in the SexGap, DefaultFactor and Monotone rows |
| Goals.MifflinStJeorSexGap | core/services/goals.py:2-6 | with the same other inputs, the male result exceeds any non-male result by `166 * af` |
| Goals.MifflinStJeorDefaultFactor | core/services/goals.py:1 | the activity factor defaults to 1.2 |
| Goals.MifflinStJeorMonotone | core/services/goals.py:1-6 | with a positive activity factor the result rises with weight and height and falls with age |
| Goals.Amdr | core/services/goals.py:8-13 | the result has exactly the keys protein, fat and carbs |
| Goals.AmdrEnergyShares | core/services/goals.py:9-13 | converted back at 4 kcal/g (protein, carbs) and 9 kcal/g (fat), the bounds are 10/35 %, 20/35 % and 45/65 % of the calories |
| Goals.AmdrBracketsTarget | core/services/goals.py:9-13 | for non-negative calories, the low bounds add up to 75 % and the high bounds to 135 % of the energy, which lies between them |
| Goals.AmdrOrdered | core/services/goals.py:10-12 | every low bound is at most its high bound exactly when the calories are non-negative |
| Goals.AmdrZero | core/services/goals.py:10-12 | `amdr(0)` is all zeros |
| Goals.AmdrLinear | core/services/goals.py:10-12 | scaling the calories by `f` scales every bound by `f` |

## Left out

- `lookup_barcode` (off.py:4-9) is an HTTP request to the Open Food Facts server. The network is not modelled, so the normaliser takes the decoded JSON as its input.
- `float()` is modelled on a restricted grammar: an optional sign, digits with at most one `.`, and at least one digit. Python also accepts the strings below; `_num` returns a number for them, while the model returns `None`:
  - exponents (`"1e3"`);
  - `inf` and `nan`;
  - surrounding white space;
  - `_` digit separators;
  - non-ASCII digits.
- Off.Num: on a number it returns the exact value. The `float(str(v))` round trip through binary floating point is not modelled, and neither are IEEE-754 rounding in `vkj / 4.184` (off.py:66) or `sodium_g * 1000` (off.py:77), nor `round`'s `OverflowError` on an infinite value.
- Off.SodiumMg: NaN is not modelled. Python's `json` accepts `NaN`, and `_num` of `NaN` or `"nan"` is a float NaN rather than `None`. A NaN sodium value makes `round` at off.py:77 raise `ValueError` out of `normalize_off_payload`, while the model has no NaN and gives sodium `None`.
- Off.Num: a JSON number stands for both Python ints and floats. `str` of a huge int and the bool/int identity beyond `False == 0` are not modelled.
- `sex` in `mifflin_st_jeor` is modelled as a string. A Python caller could pass a value of another type, which would also not equal `'male'`, so it gets the -161 constant as every non-`"male"` string does.
- Goals.Amdr: the bounds are exact reals, so the decimal shares 0.10-0.65 carry no binary rounding error.
- Off.NormalizeOffPayload: the Python result is a dict. The model returns `Option<Record>` with a seven-field nutrient datatype, which is the same information.
- `core/services/fdc.py` only wraps two HTTP requests to FoodData Central (`search_foods`, `get_food_details`) and reads an environment variable; it is not part of this model. The repository has no FoodData Central normaliser and no barcode clean-up.
- Django views, URLs, serializers and models are persistence and routing code and are not part of this model. The seven optional nutrient fields of `core/models.py` are mirrored by `Off.Nutrients`.
- `_utc_window_for_local_day` (imported at core/tests/test_day_window.py:2) and the totals endpoints used at core/tests/test_summary_vs_list.py:33-55 do not exist in `core/views.py`, so there is nothing of them to model.
