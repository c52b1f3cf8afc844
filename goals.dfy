/**
 The goal formulas of `core/services/goals.py`, over exact reals: the
 Mifflin-St Jeor resting energy equation scaled by an activity factor, and
 the Acceptable Macronutrient Distribution Ranges (protein 10-35 %, fat
 20-35 %, carbohydrates 45-65 % of the energy) as gram ranges.
 */
module Goals {

  /**
   `mifflin_st_jeor(weight_kg, height_cm, age, sex, activity_factor=1.2)`:
   the male constant +5 is used only for the exact string `"male"`; every
   other value of `sex` gets -161.
   */
  function MifflinStJeor(weightKg: real, heightCm: real, age: real, sex: string, activityFactor: real := 1.2): real
  {
    var bmr :=
      if sex == "male" then 10.0 * weightKg + 6.25 * heightCm - 5.0 * age + 5.0
      else 10.0 * weightKg + 6.25 * heightCm - 5.0 * age - 161.0;
    bmr * activityFactor
  }

  /**
   The equation as an affine function of weight, height and age: 10 kcal per
   kg, 6.25 per cm and -5 per year, each scaled by the activity factor, on top
   of the sex constant (+5 for `"male"`, -161 otherwise) scaled the same way.
   */
  lemma MifflinStJeorAffine(weightKg: real, heightCm: real, age: real, sex: string, activityFactor: real)
    ensures MifflinStJeor(weightKg, heightCm, age, sex, activityFactor)
      == (if sex == "male" then 5.0 else -161.0) * activityFactor
         + 10.0 * activityFactor * weightKg + 6.25 * activityFactor * heightCm - 5.0 * activityFactor * age
  {
    var x := 10.0 * weightKg + 6.25 * heightCm - 5.0 * age;
    var c := if sex == "male" then 5.0 else -161.0;
    calc {
      MifflinStJeor(weightKg, heightCm, age, sex, activityFactor);
      (x + c) * activityFactor;
      c * activityFactor + 10.0 * activityFactor * weightKg + 6.25 * activityFactor * heightCm - 5.0 * activityFactor * age;
    }
  }

  /** Same other inputs: the male result exceeds any non-male result by 166 times the activity factor. */
  lemma MifflinStJeorSexGap(weightKg: real, heightCm: real, age: real, sex: string, activityFactor: real)
    requires sex != "male"
    ensures MifflinStJeor(weightKg, heightCm, age, "male", activityFactor)
      - MifflinStJeor(weightKg, heightCm, age, sex, activityFactor) == 166.0 * activityFactor
  {
    MifflinStJeorAffine(weightKg, heightCm, age, "male", activityFactor);
    MifflinStJeorAffine(weightKg, heightCm, age, sex, activityFactor);
  }

  /** Leaving the activity factor out is the same as passing 1.2. */
  lemma MifflinStJeorDefaultFactor(weightKg: real, heightCm: real, age: real, sex: string)
    ensures MifflinStJeor(weightKg, heightCm, age, sex) == MifflinStJeor(weightKg, heightCm, age, sex, 1.2)
    ensures sex == "male" ==>
      MifflinStJeor(weightKg, heightCm, age, sex) == 12.0 * weightKg + 7.5 * heightCm - 6.0 * age + 6.0
  {
    MifflinStJeorAffine(weightKg, heightCm, age, sex, 1.2);
  }

  /** With a positive activity factor the result grows with weight and height and falls with age. */
  lemma MifflinStJeorMonotone(w1: real, w2: real, h1: real, h2: real, a1: real, a2: real, sex: string, activityFactor: real)
    requires activityFactor > 0.0
    requires w1 <= w2 && h1 <= h2 && a1 >= a2
    ensures MifflinStJeor(w1, h1, a1, sex, activityFactor) <= MifflinStJeor(w2, h2, a2, sex, activityFactor)
  {
    MifflinStJeorAffine(w1, h1, a1, sex, activityFactor);
    MifflinStJeorAffine(w2, h2, a2, sex, activityFactor);
    assert activityFactor * w1 <= activityFactor * w2;
    assert activityFactor * h1 <= activityFactor * h2;
    assert activityFactor * a1 >= activityFactor * a2;
  }

  /**
   `amdr(calories)`: for each of protein, fat and carbs, the (low, high) gram
   range whose energy is the low and high share of `calories`, at 4 kcal per
   gram of protein or carbohydrate and 9 kcal per gram of fat.
   */
  function Amdr(calories: real): (r: map<string, (real, real)>)
    ensures r.Keys == {"protein", "fat", "carbs"}
  {
    map[
      "protein" := (0.10 * calories / 4.0, 0.35 * calories / 4.0),
      "fat" := (0.20 * calories / 9.0, 0.35 * calories / 9.0),
      "carbs" := (0.45 * calories / 4.0, 0.65 * calories / 4.0)]
  }

  /**
   Converted back to energy, the ranges are the distribution percentages of
   `calories`: protein 10-35 %, fat 20-35 %, carbs 45-65 %.
   */
  lemma AmdrEnergyShares(calories: real)
    ensures var r := Amdr(calories);
      && r["protein"].0 * 4.0 == 0.10 * calories
      && r["protein"].1 * 4.0 == 0.35 * calories
      && r["fat"].0 * 9.0 == 0.20 * calories
      && r["fat"].1 * 9.0 == 0.35 * calories
      && r["carbs"].0 * 4.0 == 0.45 * calories
      && r["carbs"].1 * 4.0 == 0.65 * calories
  {
  }

  /**
   The ranges are consistent with the target: the low ends together give 75 %
   of the energy and the high ends 135 %, so for a non-negative target the
   energy lies between them.
   */
  lemma AmdrBracketsTarget(calories: real)
    requires calories >= 0.0
    ensures var r := Amdr(calories);
      && r["protein"].0 * 4.0 + r["fat"].0 * 9.0 + r["carbs"].0 * 4.0 == 0.75 * calories
      && r["protein"].1 * 4.0 + r["fat"].1 * 9.0 + r["carbs"].1 * 4.0 == 1.35 * calories
      && r["protein"].0 * 4.0 + r["fat"].0 * 9.0 + r["carbs"].0 * 4.0 <= calories
      && calories <= r["protein"].1 * 4.0 + r["fat"].1 * 9.0 + r["carbs"].1 * 4.0
  {
    AmdrEnergyShares(calories);
  }

  /** Every low bound is at most its high bound exactly when the target is non-negative. */
  lemma AmdrOrdered(calories: real)
    ensures (forall k :: k in Amdr(calories) ==> Amdr(calories)[k].0 <= Amdr(calories)[k].1) <==> calories >= 0.0
  {
    var r := Amdr(calories);
    assert r["protein"].0 <= r["protein"].1 <==> calories >= 0.0;
  }

  /** A zero target gives all-zero ranges. */
  lemma AmdrZero()
    ensures forall k :: k in Amdr(0.0) ==> Amdr(0.0)[k] == (0.0, 0.0)
  {
  }

  /** The ranges are linear in the target: scaling the target by `f` scales every bound by `f`. */
  lemma AmdrLinear(calories: real, f: real)
    ensures var r, s := Amdr(calories), Amdr(f * calories);
      && s["protein"].0 == f * r["protein"].0 && s["protein"].1 == f * r["protein"].1
      && s["fat"].0 == f * r["fat"].0 && s["fat"].1 == f * r["fat"].1
      && s["carbs"].0 == f * r["carbs"].0 && s["carbs"].1 == f * r["carbs"].1
  {
    ScaleRange(calories, f, "protein", 0.10, 0.35, 4.0);
    ScaleRange(calories, f, "fat", 0.20, 0.35, 9.0);
    ScaleRange(calories, f, "carbs", 0.45, 0.65, 4.0);
  }

  lemma ScaleRange(calories: real, f: real, k: string, p: real, q: real, d: real)
    requires d > 0.0 && k in Amdr(calories)
    requires Amdr(calories)[k].0 == p * calories / d && Amdr(calories)[k].1 == q * calories / d
    requires Amdr(f * calories)[k].0 == p * (f * calories) / d && Amdr(f * calories)[k].1 == q * (f * calories) / d
    ensures Amdr(f * calories)[k].0 == f * Amdr(calories)[k].0 && Amdr(f * calories)[k].1 == f * Amdr(calories)[k].1
  {
    ScaleShare(p, d, calories, f, Amdr(calories)[k].0, Amdr(f * calories)[k].0);
    ScaleShare(q, d, calories, f, Amdr(calories)[k].1, Amdr(f * calories)[k].1);
  }

  /** A share of a scaled target is the scaled share of the target. */
  lemma ScaleShare(p: real, d: real, c: real, f: real, x: real, y: real)
    requires d > 0.0 && x == p * c / d && y == p * (f * c) / d
    ensures y == f * x
  {
    assert x * d == p * c;
    assert (f * x) * d == f * (x * d);
    assert (f * x) * d == p * (f * c);
  }
}
