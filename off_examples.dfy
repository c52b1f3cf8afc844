/**
 Worked payloads for `normalize_off_payload` and its helpers, in the shapes
 the Open Food Facts v0 product API returns.
 */
module OffExamples {
  import opened Json
  import opened PyText
  import opened PyFloat
  import opened Off

  /** `_first` on a dict whose only key `k` is none of `keys`. */
  lemma OnlyKeyMiss(m: map<string, JSON>, k: string, keys: seq<string>)
    requires m.Keys == {k}
    requires forall i :: 0 <= i < |keys| ==> keys[i] != k
    ensures First(JObj(m), keys) == JNull
  {
    FirstMiss(m, keys);
  }

  /**
   The kJ example: 418.4 kJ and no kcal key give exactly 100 kcal over exact
   reals (binary floating point gives 99.99999999999999).
   */
  lemma KilojouleExample()
    ensures
      var raw := JObj(map["product" := JObj(map["nutriments" := JObj(map["energy-kj_100g" := JNum(418.4)])])]);
      NormalizeOffPayload(raw) == Some(Record(JStr("Unknown"), JNull, Nutrients(Some(100.0), None, None, None, None, None, None)))
  {
    var nutr := map["energy-kj_100g" := JNum(418.4)];
    var product := map["nutriments" := JObj(nutr)];
    var raw := map["product" := JObj(product)];
    KilojouleCandidates(raw, product, nutr);
    NormalizeWrappedWith(raw, product);
  }

  lemma KilojouleCandidates(raw: map<string, JSON>, product: map<string, JSON>, nutr: map<string, JSON>)
    requires nutr.Keys == {"energy-kj_100g"} && nutr["energy-kj_100g"] == JNum(418.4)
    requires product.Keys == {"nutriments"} && product["nutriments"] == JObj(nutr)
    requires raw.Keys == {"product"}
    ensures Extract(raw, product) == Candidates(JNull, JNull, JNum(100.0), None, None, None, None, None, None)
  {
    assert NutrimentsPart(raw, product) == JObj(nutr) by {
      assert Truthy(JObj(nutr)) by { assert "energy-kj_100g" in nutr; }
    }
    KilojouleChains(nutr);
    OnlyKeyMiss(product, "nutriments", NameKeys);
    OnlyKeyMiss(product, "nutriments", BrandKeys);
  }

  lemma KilojouleChains(nutr: map<string, JSON>)
    requires nutr.Keys == {"energy-kj_100g"} && nutr["energy-kj_100g"] == JNum(418.4)
    ensures Kcal(JObj(nutr)) == JNum(100.0)
    ensures First(JObj(nutr), ProteinKeys) == JNull && First(JObj(nutr), CarbsKeys) == JNull
    ensures First(JObj(nutr), FatKeys) == JNull && First(JObj(nutr), FiberKeys) == JNull
    ensures First(JObj(nutr), SugarKeys) == JNull && First(JObj(nutr), SodiumKeys) == JNull
  {
    var k := "energy-kj_100g";
    OnlyKeyMiss(nutr, k, KcalKeys);
    FirstAt(JObj(nutr), KjKeys, 0);
    OnlyKeyMiss(nutr, k, ProteinKeys);
    OnlyKeyMiss(nutr, k, CarbsKeys);
    OnlyKeyMiss(nutr, k, FatKeys);
    OnlyKeyMiss(nutr, k, FiberKeys);
    OnlyKeyMiss(nutr, k, SugarKeys);
    OnlyKeyMiss(nutr, k, SodiumKeys);
    assert 418.4 / KjPerKcal == 100.0;
  }

  /** `{"status": 0}` is "not found". */
  lemma StatusZeroExample()
    ensures NormalizeOffPayload(JObj(map["status" := JNum(0.0)])) == None
  {
  }

  /** `{"status": False}` is "not found" too, since `False == 0` in Python. */
  lemma StatusFalseExample()
    ensures NormalizeOffPayload(JObj(map["status" := JBool(false), "product" := JObj(map["name" := JStr("X")])])) == None
  {
  }

  /** A brand without a comma passes through unstripped; a non-string brand is kept. */
  lemma BrandUntouchedExample()
    ensures CleanBrand(JStr(" Acme ")) == JStr(" Acme ")
    ensures CleanBrand(JNum(7.0)) == JNum(7.0)
  {
    assert ',' !in " Acme ";
  }

  /** Sodium in grams to whole milligrams, ties to even: 2.5 mg gives 2, 3.5 mg gives 4, 1.2004 mg gives 1. */
  lemma SodiumRoundingExample()
    ensures SodiumMg(Some(0.0025)) == Some(2)
    ensures SodiumMg(Some(0.0035)) == Some(4)
    ensures SodiumMg(Some(0.0012004)) == Some(1)
    ensures SodiumMg(None) == None
  {
  }

  /**
   The "Test Bar" payload as the v0 API answers it, `{"status": 1, "product":
   {"product_name": "Test Bar", "nutriments": {...}}}`, with the four main
   per-100g values; fiber, sugar, sodium and the brand are absent. The maps
   are parameters pinned down by their keys and values, which keeps the
   solver from unfolding three nested map literals.
   */
  lemma TestBarExample(raw: map<string, JSON>, product: map<string, JSON>, nutr: map<string, JSON>)
    requires nutr.Keys == {"energy-kcal_100g", "proteins_100g", "carbohydrates_100g", "fat_100g"}
    requires nutr["energy-kcal_100g"] == JNum(111.0) && nutr["proteins_100g"] == JNum(2.2)
    requires nutr["carbohydrates_100g"] == JNum(33.3) && nutr["fat_100g"] == JNum(4.4)
    requires product.Keys == {"product_name", "nutriments"}
    requires product["product_name"] == JStr("Test Bar") && product["nutriments"] == JObj(nutr)
    requires raw.Keys == {"status", "product"} && raw["status"] == JNum(1.0) && raw["product"] == JObj(product)
    ensures NormalizeOffPayload(JObj(raw))
      == Some(Record(JStr("Test Bar"), JNull, Nutrients(Some(111.0), Some(2.2), Some(33.3), Some(4.4), None, None, None)))
  {
    TestBarCandidates(raw, product, nutr);
    NormalizeWrappedWith(raw, product);
  }

  lemma TestBarCandidates(raw: map<string, JSON>, product: map<string, JSON>, nutr: map<string, JSON>)
    requires nutr.Keys == {"energy-kcal_100g", "proteins_100g", "carbohydrates_100g", "fat_100g"}
    requires nutr["energy-kcal_100g"] == JNum(111.0) && nutr["proteins_100g"] == JNum(2.2)
    requires nutr["carbohydrates_100g"] == JNum(33.3) && nutr["fat_100g"] == JNum(4.4)
    requires product.Keys == {"product_name", "nutriments"}
    requires product["product_name"] == JStr("Test Bar") && product["nutriments"] == JObj(nutr)
    ensures Extract(raw, product)
      == Candidates(JStr("Test Bar"), JNull, JNum(111.0), Some(2.2), Some(33.3), Some(4.4), None, None, None)
  {
    assert NutrimentsPart(raw, product) == JObj(nutr) by {
      assert Truthy(JObj(nutr)) by { assert "fat_100g" in nutr; }
    }
    FirstAt(JObj(product), NameKeys, 1);
    FirstMiss(product, BrandKeys);
    TestBarChains(nutr);
  }

  lemma TestBarChains(nutr: map<string, JSON>)
    requires nutr.Keys == {"energy-kcal_100g", "proteins_100g", "carbohydrates_100g", "fat_100g"}
    requires nutr["energy-kcal_100g"] == JNum(111.0) && nutr["proteins_100g"] == JNum(2.2)
    requires nutr["carbohydrates_100g"] == JNum(33.3) && nutr["fat_100g"] == JNum(4.4)
    ensures Kcal(JObj(nutr)) == JNum(111.0)
    ensures First(JObj(nutr), ProteinKeys) == JNum(2.2) && First(JObj(nutr), CarbsKeys) == JNum(33.3)
    ensures First(JObj(nutr), FatKeys) == JNum(4.4) && First(JObj(nutr), FiberKeys) == JNull
    ensures First(JObj(nutr), SugarKeys) == JNull && First(JObj(nutr), SodiumKeys) == JNull
  {
    FirstAt(JObj(nutr), KcalKeys, 0);
    FirstAt(JObj(nutr), ProteinKeys, 0);
    FirstAt(JObj(nutr), CarbsKeys, 0);
    FirstAt(JObj(nutr), FatKeys, 0);
    FirstMiss(nutr, FiberKeys);
    FirstMiss(nutr, SugarKeys);
    FirstMiss(nutr, SodiumKeys);
  }
}
