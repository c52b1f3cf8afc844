/**
 The Open Food Facts payload normaliser of `core/services/off.py`: the number
 coercer `_num`, the fallback lookup `_first` and `normalize_off_payload`,
 which turns the JSON of the Open Food Facts v0 product API into a canonical
 record `{name, brand, nutrients}` or `None` ("not found").
 */
module Off {
  import opened Json
  import opened PyText
  import opened PyFloat

  /** The three values `_num` and `_first` treat as absent: `None`, `""` and `"null"`. */
  predicate IsSentinel(v: JSON)
  {
    v == JNull || v == JStr("") || v == JStr("null")
  }

  // ---------------------------------------------------------------------------
  // _num

  /**
   `_num(v)`: `None` for the sentinels; otherwise `float(str(v).replace(",", "."))`,
   and `None` where that raises. A number is its own value; `str` of a boolean,
   a dict or a list never parses as a float.
   */
  function Num(v: JSON): (r: Option<real>)
    ensures IsSentinel(v) ==> r == None
    ensures v.JNum? ==> r == Some(v.n)
    ensures v.JBool? || v.JObj? || v.JArr? ==> r == None
  {
    if IsSentinel(v) then None
    else
      match v
      case JNum(n) => Some(n)
      case JStr(s) => ParseFloat(ReplaceCommas(s))
      case _ => None
  }

  /**
   The strings `_num` accepts, stated on the raw string: after an optional sign
   only digits and separators (`,` or `.`), at most one separator in all, and
   at least one digit.
   */
  predicate IsOffNumeral(s: string)
  {
    var t := Unsigned(s);
    (forall i :: 0 <= i < |t| ==> IsDigit(t[i]) || t[i] == ',' || t[i] == '.')
    && multiset(t)[','] + multiset(t)['.'] <= 1
    && exists i :: 0 <= i < |t| && IsDigit(t[i])
  }

  lemma {:induction false} SeparatorCount(t: string)
    ensures multiset(ReplaceCommas(t))['.'] == multiset(t)['.'] + multiset(t)[',']
  {
    if t != [] {
      assert t == [t[0]] + t[1..];
      assert multiset(t) == multiset{t[0]} + multiset(t[1..]);
      var c := if t[0] == ',' then '.' else t[0];
      assert ReplaceCommas(t) == [c] + ReplaceCommas(t[1..]);
      assert multiset(ReplaceCommas(t)) == multiset{c} + multiset(ReplaceCommas(t[1..]));
      SeparatorCount(t[1..]);
    }
  }

  lemma UnsignedReplaceCommas(s: string)
    ensures Unsigned(ReplaceCommas(s)) == ReplaceCommas(Unsigned(s))
  {
    if s != [] {
      assert ReplaceCommas(s)[0] == (if s[0] == ',' then '.' else s[0]);
      assert ReplaceCommas(s)[1..] == ReplaceCommas(s[1..]);
    }
  }

  /** The comma replacement turns the numerals `_num` accepts into those `float` accepts. */
  lemma OffNumeralReplaced(s: string)
    ensures IsOffNumeral(s) <==> IsNumeral(ReplaceCommas(s))
  {
    UnsignedReplaceCommas(s);
    var t := Unsigned(s);
    SeparatorCount(t);
    ReplacedChars(t);
    ReplacedDigit(t);
  }

  lemma ReplacedChars(t: string)
    ensures var u := ReplaceCommas(t);
      (forall i :: 0 <= i < |u| ==> IsDigit(u[i]) || u[i] == '.')
      <==> (forall i :: 0 <= i < |t| ==> IsDigit(t[i]) || t[i] == ',' || t[i] == '.')
  {
    var u := ReplaceCommas(t);
    if forall i :: 0 <= i < |u| ==> IsDigit(u[i]) || u[i] == '.' {
      forall i | 0 <= i < |t|
        ensures IsDigit(t[i]) || t[i] == ',' || t[i] == '.'
      {
        assert IsDigit(u[i]) || u[i] == '.';
      }
    }
    if forall i :: 0 <= i < |t| ==> IsDigit(t[i]) || t[i] == ',' || t[i] == '.' {
      forall i | 0 <= i < |u|
        ensures IsDigit(u[i]) || u[i] == '.'
      {
        assert IsDigit(t[i]) || t[i] == ',' || t[i] == '.';
      }
    }
  }

  lemma ReplacedDigit(t: string)
    ensures (exists i :: 0 <= i < |ReplaceCommas(t)| && IsDigit(ReplaceCommas(t)[i]))
      <==> (exists i :: 0 <= i < |t| && IsDigit(t[i]))
  {
    if exists i :: 0 <= i < |ReplaceCommas(t)| && IsDigit(ReplaceCommas(t)[i]) {
      var i :| 0 <= i < |ReplaceCommas(t)| && IsDigit(ReplaceCommas(t)[i]);
      assert IsDigit(t[i]);
    }
    if exists i :: 0 <= i < |t| && IsDigit(t[i]) {
      var i :| 0 <= i < |t| && IsDigit(t[i]);
      assert IsDigit(ReplaceCommas(t)[i]);
    }
  }

  /** `_num` accepts a string exactly when it is a numeral with a `,` or `.` separator. */
  lemma NumStringDefined(s: string)
    ensures Num(JStr(s)) != None <==> IsOffNumeral(s)
  {
    if s == "null" {
      assert Unsigned(s) == s;
      assert !(IsDigit(s[0]) || s[0] == ',' || s[0] == '.');
    } else if s != "" {
      NumOfString(s);
      ParseFloatDefined(ReplaceCommas(s));
      OffNumeralReplaced(s);
    }
  }

  /** `_num` on a string other than `""` and `"null"` is `float` after the comma replacement. */
  lemma NumOfString(s: string)
    requires s != "" && s != "null"
    ensures Num(JStr(s)) == ParseFloat(ReplaceCommas(s))
  {
  }

  /** `_num(n) == _num(str(n))` for a natural number `n`: its decimal text reads back as the number. */
  lemma NumNatString(n: nat)
    ensures Num(JStr(NatToDigits(n))) == Num(JNum(n as real))
  {
    var s := NatToDigits(n);
    assert ',' !in s by {
      assert forall c :: c in s ==> IsDigit(c);
    }
    ReplaceCommasNoComma(s);
    ParseFloatNat(n);
    assert s != "null" by {
      assert IsDigit(s[0]);
    }
    NumOfString(s);
  }

  /** A decimal comma reads like a decimal point: `"3,5"` and `"3.5"` both give 3.5. */
  lemma NumDecimalSeparator(a: string, sep: char, b: string)
    requires AllDigits(a) && AllDigits(b) && |a| + |b| > 0
    requires sep == ',' || sep == '.'
    ensures Num(JStr(a + [sep] + b)) == Some(DecimalValue(a, b))
  {
    var s := a + [sep] + b;
    ParseFloatDecimal(a, b);
    assert ',' !in a && ',' !in b by {
      assert forall c :: c in a ==> IsDigit(c);
      assert forall c :: c in b ==> IsDigit(c);
    }
    ReplaceCommasNoComma(a);
    ReplaceCommasNoComma(b);
    ReplaceCommasAppend(a + [sep], b);
    ReplaceCommasAppend(a, [sep]);
    assert ReplaceCommas([sep]) == ".";
    assert ReplaceCommas(s) == a + "." + b;
    assert |s| != 4 || s[|a|] == sep;
    assert s != "" && s != "null";
    NumOfString(s);
  }

  /** The decimal-comma example of the `_num` docstring: `_num("3,5") == 3.5`. */
  lemma NumThreeComma5()
    ensures Num(JStr("3,5")) == Some(3.5)
  {
    NumDecimalSeparator("3", ',', "5");
    assert "3" + "," + "5" == "3,5";
  }

  // ---------------------------------------------------------------------------
  // _first

  /** Key `k` of `d` counts for `_first`: `d` is a dict holding `k` with a non-sentinel value. */
  predicate Qualifies(d: JSON, k: string)
  {
    d.JObj? && k in d.obj && !IsSentinel(d.obj[k])
  }

  /**
   `_first(d, *keys)`: the value of the earliest key, in argument order, that
   qualifies; `None` when no key does, in particular when `d` is not a dict.
   `FirstSpec` states this in full.
   */
  function First(d: JSON, keys: seq<string>): (r: JSON)
    ensures r != JStr("") && r != JStr("null")
  {
    if keys == [] then JNull
    else if Qualifies(d, keys[0]) then d.obj[keys[0]]
    else First(d, keys[1..])
  }

  /**
   `_first` finds nothing exactly when no key qualifies, and otherwise returns
   the value under the earliest qualifying key.
   */
  lemma {:induction false} FirstSpec(d: JSON, keys: seq<string>)
    ensures First(d, keys) == JNull <==> forall i :: 0 <= i < |keys| ==> !Qualifies(d, keys[i])
    ensures First(d, keys) != JNull ==>
      exists i :: 0 <= i < |keys| && Qualifies(d, keys[i]) && First(d, keys) == d.obj[keys[i]]
        && forall j :: 0 <= j < i ==> !Qualifies(d, keys[j])
  {
    if keys != [] && !Qualifies(d, keys[0]) {
      FirstSpec(d, keys[1..]);
      var r := First(d, keys[1..]);
      assert forall i :: 1 <= i < |keys| ==> keys[i] == keys[1..][i - 1];
      if r != JNull {
        var i :| 0 <= i < |keys| - 1 && Qualifies(d, keys[1..][i]) && r == d.obj[keys[1..][i]]
          && forall j :: 0 <= j < i ==> !Qualifies(d, keys[1..][j]);
        assert keys[i + 1] == keys[1..][i];
        assert forall j :: 0 <= j < i + 1 ==> !Qualifies(d, keys[j]) by {
          forall j | 0 <= j < i + 1 ensures !Qualifies(d, keys[j]) {
            if j > 0 { assert keys[j] == keys[1..][j - 1]; }
          }
        }
      }
    }
  }

  /** Fallback chains compose: the keys after the first qualifying one are never consulted. */
  lemma {:induction false} FirstAppend(d: JSON, a: seq<string>, b: seq<string>)
    ensures First(d, a + b) == if First(d, a) != JNull then First(d, a) else First(d, b)
  {
    if a == [] {
      assert a + b == b;
    } else {
      assert (a + b)[0] == a[0];
      assert (a + b)[1..] == a[1..] + b;
      FirstAppend(d, a[1..], b);
    }
  }

  // ---------------------------------------------------------------------------
  // normalize_off_payload

  const NameKeys: seq<string> := ["name", "product_name", "product_name_en", "generic_name", "generic_name_en", "title"]
  const BrandKeys: seq<string> := ["brand", "brands"]
  const KcalKeys: seq<string> := ["energy-kcal_100g", "energy-kcal_serving", "calories_100g", "calories"]
  const KjKeys: seq<string> := ["energy-kj_100g", "energy-kj_serving", "energy_100g", "energy_serving"]
  const ProteinKeys: seq<string> := ["proteins_100g", "protein_100g", "proteins_serving", "protein_serving", "protein"]
  const CarbsKeys: seq<string> := ["carbohydrates_100g", "carbs_100g", "carbohydrates_serving", "carbs_serving", "carbs"]
  const FatKeys: seq<string> := ["fat_100g", "fat_serving", "fat"]
  const FiberKeys: seq<string> := ["fiber_100g", "fiber_serving", "fiber"]
  const SugarKeys: seq<string> := ["sugars_100g", "sugar_100g", "sugars_serving", "sugar_serving", "sugars", "sugar"]
  const SodiumKeys: seq<string> := ["sodium_100g", "sodium_serving", "sodium"]

  /** kJ per kcal, the fixed conversion constant. */
  const KjPerKcal: real := 4.184

  /** The seven per-100g nutrient values of the output; sodium is whole milligrams. */
  datatype Nutrients = Nutrients(
    calories: Option<real>,
    protein: Option<real>,
    carbs: Option<real>,
    fat: Option<real>,
    fiber: Option<real>,
    sugar: Option<real>,
    sodium: Option<int>)

  /** The canonical record. `name` and `brand` are whatever JSON values the payload held; `JNull` is a missing brand. */
  datatype Record = Record(name: JSON, brand: JSON, nutrients: Nutrients)

  /** The locals of `normalize_off_payload` just before its final test. */
  datatype Candidates = Candidates(
    name: JSON,
    brand: JSON,
    kcal: JSON,
    protein: Option<real>,
    carbs: Option<real>,
    fat: Option<real>,
    fiber: Option<real>,
    sugar: Option<real>,
    sodiumMg: Option<int>)

  /** The product part: `off_raw.get("product")` for a dict, the input itself otherwise. */
  function ProductPart(raw: JSON): JSON
  {
    if raw.JObj? then Get(raw.obj, "product") else raw
  }

  /** `product.get("nutriments") or off_raw.get("nutrients") or {}`. */
  function NutrimentsPart(raw: map<string, JSON>, product: map<string, JSON>): JSON
  {
    Or(Or(Get(product, "nutriments"), Get(raw, "nutrients")), JObj(map[]))
  }

  /**
   The brand clean-up: a string holding a comma becomes its first
   comma-separated segment, stripped; any other value is kept as it is.
   */
  function CleanBrand(brand: JSON): JSON
  {
    if brand.JStr? && ',' in brand.s then JStr(Strip(BeforeFirstComma(brand.s))) else brand
  }

  /** A brand that is not a string holding a comma is kept as it is; in particular it is not stripped. */
  lemma CleanBrandUntouched(brand: JSON)
    requires !(brand.JStr? && ',' in brand.s)
    ensures CleanBrand(brand) == brand
  {
  }

  /**
   What the brand clean-up yields on a string `s` with a comma, stated
   without `split` and `strip`: the slice `s[i..j]` of the text before the
   first comma (at `p`) that is left once the white space `s[..i]` and
   `s[j..p]` is removed; the slice neither starts nor ends with white space.
   */
  lemma CleanBrandSegment(s: string) returns (i: nat, j: nat, p: nat)
    requires ',' in s
    ensures i <= j <= p < |s| && s[p] == ',' && (forall k :: 0 <= k < p ==> s[k] != ',')
    ensures CleanBrand(JStr(s)) == JStr(s[i..j])
    ensures forall k :: 0 <= k < i ==> IsSpace(s[k])
    ensures forall k :: j <= k < p ==> IsSpace(s[k])
    ensures i < j ==> !IsSpace(s[i]) && !IsSpace(s[j - 1])
  {
    i, j, p := SegmentBounds(s);
  }

  lemma SegmentBounds(s: string) returns (i: nat, j: nat, p: nat)
    requires ',' in s
    ensures i <= j <= p < |s| && s[p] == ',' && (forall k :: 0 <= k < p ==> s[k] != ',')
    ensures Strip(BeforeFirstComma(s)) == s[i..j]
    ensures forall k :: 0 <= k < i ==> IsSpace(s[k])
    ensures forall k :: j <= k < p ==> IsSpace(s[k])
    ensures i < j ==> !IsSpace(s[i]) && !IsSpace(s[j - 1])
  {
    var seg := BeforeFirstComma(s);
    p := |seg|;
    assert p < |s|;
    i, j := StripBounds(seg);
    PrefixSpace(s, seg, i, j);
  }

  /** White space facts about a prefix `seg` of `s` are facts about `s`. */
  lemma PrefixSpace(s: string, seg: string, i: nat, j: nat)
    requires |seg| <= |s| && seg == s[..|seg|] && i <= j <= |seg|
    requires forall k :: 0 <= k < i ==> IsSpace(seg[k])
    requires forall k :: j <= k < |seg| ==> IsSpace(seg[k])
    requires i < j ==> !IsSpace(seg[i]) && !IsSpace(seg[j - 1])
    ensures seg[i..j] == s[i..j]
    ensures forall k :: 0 <= k < i ==> IsSpace(s[k])
    ensures forall k :: j <= k < |seg| ==> IsSpace(s[k])
    ensures i < j ==> !IsSpace(s[i]) && !IsSpace(s[j - 1])
  {
    assert forall k :: 0 <= k < |seg| ==> s[k] == seg[k];
    if i < j {
      assert s[i] == seg[i] && s[j - 1] == seg[j - 1];
    }
  }

  /**
   A brand list `a + b` whose first entry `a` has no comma and no white space
   at either end, followed by a comma, cleans to `a`.
   */
  lemma CleanBrandFirstEntry(a: string, b: string)
    requires |a| > 0 && ',' !in a && !IsSpace(a[0]) && !IsSpace(a[|a| - 1])
    requires |b| > 0 && b[0] == ','
    ensures CleanBrand(JStr(a + b)) == JStr(a)
  {
    var s := a + b;
    assert s[|a|] == ',';
    var i, j, p := CleanBrandSegment(s);
    assert s[0] == a[0] && s[|a| - 1] == a[|a| - 1];
    assert i == 0 && j == |a|;
    assert s[..|a|] == a;
  }

  /** Cleaning a brand twice changes nothing more: a cleaned brand has no comma left. */
  lemma CleanBrandIdempotent(brand: JSON)
    ensures CleanBrand(CleanBrand(brand)) == CleanBrand(brand)
  {
    if brand.JStr? && ',' in brand.s {
      var i, j, p := CleanBrandSegment(brand.s);
      var r := CleanBrand(brand).s;
      assert forall k :: 0 <= k < |r| ==> r[k] == brand.s[i + k];
      assert ',' !in r;
    }
  }

  /**
   `kcal` after lines 61-66: the raw value of the first qualifying kcal key;
   failing that, the parsed kJ value divided by 4.184; failing that, `None`.
   */
  function Kcal(nutr: JSON): JSON
  {
    var direct := First(nutr, KcalKeys);
    if direct != JNull then direct
    else
      match Num(First(nutr, KjKeys))
      case Some(kj) => JNum(kj / KjPerKcal)
      case None => JNull
  }

  /** `int(round(g * 1000))` for a sodium amount in grams; an absent amount stays absent. */
  function SodiumMg(grams: Option<real>): (mg: Option<int>)
    ensures grams.None? <==> mg.None?
    ensures grams.Some? ==> -0.5 <= mg.value as real - grams.value * 1000.0 <= 0.5
    ensures grams.Some? && (mg.value as real - grams.value * 1000.0 == 0.5 || grams.value * 1000.0 - mg.value as real == 0.5)
      ==> mg.value % 2 == 0
  {
    match grams
    case Some(g) => Some(RoundHalfEven(g * 1000.0))
    case None => None
  }

  /** Lines 48-77: the candidate name, brand and nutrient values of a product dict. */
  function Extract(raw: map<string, JSON>, product: map<string, JSON>): Candidates
  {
    var nutr := NutrimentsPart(raw, product);
    Candidates(
      First(JObj(product), NameKeys),
      CleanBrand(First(JObj(product), BrandKeys)),
      Kcal(nutr),
      Num(First(nutr, ProteinKeys)),
      Num(First(nutr, CarbsKeys)),
      Num(First(nutr, FatKeys)),
      Num(First(nutr, FiberKeys)),
      Num(First(nutr, SugarKeys)),
      SodiumMg(Num(First(nutr, SodiumKeys))))
  }

  /** Line 80: no truthy name and every candidate value is `None` (the raw `kcal` included). */
  predicate NothingUseful(c: Candidates)
  {
    !Truthy(c.name) && c.kcal == JNull && c.protein == None && c.carbs == None
    && c.fat == None && c.fiber == None && c.sugar == None && c.sodiumMg == None
  }

  /** Lines 83-95: the returned dict. */
  function Assemble(c: Candidates): Record
  {
    Record(
      if Truthy(c.name) then c.name else JStr("Unknown"),
      c.brand,
      Nutrients(Num(c.kcal), c.protein, c.carbs, c.fat, c.fiber, c.sugar, c.sodiumMg))
  }

  /**
   `normalize_off_payload(off_raw)`. As written, the product part of a dict
   is its `"product"` entry, so a flat dict without one is "not found".
   */
  function NormalizeOffPayload(raw: JSON): (r: Option<Record>)
    ensures r.Some? ==> Truthy(raw) && raw.JObj? && !EqualsZero(Get(raw.obj, "status"))
    ensures r.Some? ==> "product" in raw.obj && raw.obj["product"].JObj?
    ensures r.Some? ==> Truthy(r.value.name)
  {
    if !Truthy(raw) then None
    else if raw.JObj? && EqualsZero(Get(raw.obj, "status")) then None
    else
      var product := ProductPart(raw);
      if !product.JObj? then None
      else
        var c := Extract(raw.obj, product.obj);
        if NothingUseful(c) then None else Some(Assemble(c))
  }

  // ---------------------------------------------------------------------------
  // Properties of normalize_off_payload

  /** The three early "not found" answers: a falsy input, `status == 0`, a product part that is not a dict. */
  lemma NotFoundEarly(raw: JSON)
    ensures !Truthy(raw) ==> NormalizeOffPayload(raw) == None
    ensures raw.JObj? && EqualsZero(Get(raw.obj, "status")) ==> NormalizeOffPayload(raw) == None
    ensures !ProductPart(raw).JObj? ==> NormalizeOffPayload(raw) == None
  {
  }

  /** A wrapped payload as the v0 API returns it: a non-empty dict, status not 0, a dict under `"product"`. */
  predicate Wrapped(raw: JSON)
  {
    raw.JObj? && |raw.obj| > 0 && !EqualsZero(Get(raw.obj, "status"))
    && "product" in raw.obj && raw.obj["product"].JObj?
  }

  /**
   As written, a flat payload (a dict holding the product fields itself,
   without a `"product"` entry) is "not found": `off_raw.get("product")` is
   `None`, which is not a dict.
   */
  lemma FlatPayloadNotFound(raw: JSON)
    requires raw.JObj? && "product" !in raw.obj
    ensures NormalizeOffPayload(raw) == None
  {
  }

  /**
   A kcal value that does not parse still counts as something: the payload
   is found, and its calories are `None`.
   */
  lemma UnparseableKcalCounts(raw: JSON)
    requires Wrapped(raw)
    requires var nutr := NutrimentsPart(raw.obj, raw.obj["product"].obj);
      First(nutr, KcalKeys) != JNull && Num(First(nutr, KcalKeys)) == None
    ensures NormalizeOffPayload(raw).Some?
    ensures NormalizeOffPayload(raw).value.nutrients.calories == None
  {
    assert Truthy(raw);
  }

  /**
   For a wrapped payload, "not found" happens exactly when no name key holds
   a truthy value and every nutrient chain comes up empty: no kcal key
   qualifies (so a kcal string that does not parse still counts as
   something), no kJ value parses, and none of the five macro chains nor the
   sodium chain yields a number.
   */
  lemma NotFoundExactly(raw: JSON)
    requires Wrapped(raw)
    ensures
      var product := raw.obj["product"];
      var nutr := NutrimentsPart(raw.obj, product.obj);
      NormalizeOffPayload(raw).None? <==>
        (!Truthy(First(product, NameKeys))
         && First(nutr, KcalKeys) == JNull && Num(First(nutr, KjKeys)) == None
         && Num(First(nutr, ProteinKeys)) == None && Num(First(nutr, CarbsKeys)) == None
         && Num(First(nutr, FatKeys)) == None && Num(First(nutr, FiberKeys)) == None
         && Num(First(nutr, SugarKeys)) == None && Num(First(nutr, SodiumKeys)) == None)
  {
    assert Truthy(raw);
  }

  /**
   The record of a wrapped payload that is found: the name (or `"Unknown"`),
   the cleaned brand, and each nutrient from its own fallback chain, sodium
   rounded to whole milligrams (`SodiumMg`, ties to even).
   */
  lemma FoundRecord(raw: JSON)
    requires Wrapped(raw)
    ensures NormalizeOffPayload(raw).Some? ==>
      var product := raw.obj["product"];
      var nutr := NutrimentsPart(raw.obj, product.obj);
      var rec := NormalizeOffPayload(raw).value;
      var name := First(product, NameKeys);
      && rec.name == (if Truthy(name) then name else JStr("Unknown"))
      && rec.brand == CleanBrand(First(product, BrandKeys))
      && rec.nutrients.protein == Num(First(nutr, ProteinKeys))
      && rec.nutrients.carbs == Num(First(nutr, CarbsKeys))
      && rec.nutrients.fat == Num(First(nutr, FatKeys))
      && rec.nutrients.fiber == Num(First(nutr, FiberKeys))
      && rec.nutrients.sugar == Num(First(nutr, SugarKeys))
      && rec.nutrients.sodium == SodiumMg(Num(First(nutr, SodiumKeys)))
  {
    assert Truthy(raw);
  }

  /**
   Calories: a qualifying kcal key wins and the kJ keys are then ignored;
   only when no kcal key qualifies does a parsed kJ value count, divided by 4.184.
   */
  lemma CaloriesRule(raw: JSON)
    requires Wrapped(raw)
    ensures NormalizeOffPayload(raw).Some? ==>
      var product := raw.obj["product"];
      var nutr := NutrimentsPart(raw.obj, product.obj);
      var cal := NormalizeOffPayload(raw).value.nutrients.calories;
      && (First(nutr, KcalKeys) != JNull ==> cal == Num(First(nutr, KcalKeys)))
      && (First(nutr, KcalKeys) == JNull ==>
            cal == match Num(First(nutr, KjKeys)) case Some(kj) => Some(kj / KjPerKcal) case None => None)
  {
    assert Truthy(raw);
  }

  /** `_first` on a dict with a single entry `k: v`. */
  lemma FirstSingle(k: string, v: JSON, keys: seq<string>)
    ensures First(JObj(map[k := v]), keys) == if k in keys && !IsSentinel(v) then v else JNull
  {
    var d := JObj(map[k := v]);
    FirstSpec(d, keys);
    if k in keys && !IsSentinel(v) {
      var i :| 0 <= i < |keys| && keys[i] == k;
      assert Qualifies(d, keys[i]);
    }
  }

  /** `_first` on a dict none of whose keys is one of `keys`. */
  lemma FirstMiss(m: map<string, JSON>, keys: seq<string>)
    requires forall i :: 0 <= i < |keys| ==> keys[i] !in m
    ensures First(JObj(m), keys) == JNull
  {
    FirstSpec(JObj(m), keys);
  }

  /** `_first` when `keys[i]` is the earliest qualifying key. */
  lemma FirstAt(d: JSON, keys: seq<string>, i: nat)
    requires i < |keys| && Qualifies(d, keys[i])
    requires forall j :: 0 <= j < i ==> !Qualifies(d, keys[j])
    ensures First(d, keys) == d.obj[keys[i]]
  {
    FirstSpec(d, keys);
  }

  /** How a wrapped payload normalises, in terms of its candidate values. */
  lemma NormalizeWrappedWith(raw: map<string, JSON>, product: map<string, JSON>)
    requires "product" in raw && raw["product"] == JObj(product)
    requires !EqualsZero(Get(raw, "status"))
    ensures var c := Extract(raw, product);
      NormalizeOffPayload(JObj(raw)) == if NothingUseful(c) then None else Some(Assemble(c))
  {
    assert Truthy(JObj(raw)) by { assert "product" in raw.Keys; }
  }
}
