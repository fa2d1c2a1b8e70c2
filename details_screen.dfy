/** The two pieces of logic on the product details screen (DetailsScreen.kt):
    the nutrient warnings and the colour band of a nutrient row. */
module Details {
  import opened Wrappers
  import opened Products

  const SugarWarning := "High sugar content \U{2013} may not be suitable for diabetics."
  const FatWarning := "High fat content \U{2013} consume in moderation."
  const SaltWarning := "High salt content \U{2013} limit intake."
  const SaturatedFatWarning := "High saturated fat content detected."

  /** A missing value counts as 0. */
  function OrZero(v: Option<real>): (r: real) {
    v.GetOr(0.0)
  }

  /** The position of a warning in the fixed order sugar, fat, salt,
      saturated fat; 4 for any other text. */
  function Rank(w: string): (r: nat) {
    if w == SugarWarning then 0
    else if w == FatWarning then 1
    else if w == SaltWarning then 2
    else if w == SaturatedFatWarning then 3
    else 4
  }

  /** The four warnings are distinct texts (their lengths differ), ranked
      in their fixed order. */
  lemma WarningRanks()
    ensures Rank(SugarWarning) == 0 && Rank(FatWarning) == 1
    ensures Rank(SaltWarning) == 2 && Rank(SaturatedFatWarning) == 3
    ensures SugarWarning != FatWarning && SugarWarning != SaltWarning && SugarWarning != SaturatedFatWarning
    ensures FatWarning != SaltWarning && FatWarning != SaturatedFatWarning && SaltWarning != SaturatedFatWarning
  {
    assert |SugarWarning| == 55 && |FatWarning| == 41;
    assert |SaltWarning| == 33 && |SaturatedFatWarning| == 36;
  }

  /** The warnings of `ws` are in strictly increasing rank, each below `bound`. */
  ghost predicate RankedBelow(ws: seq<string>, bound: nat) {
    && (forall i :: 0 <= i < |ws| ==> Rank(ws[i]) < bound)
    && (forall i, j :: 0 <= i < j < |ws| ==> Rank(ws[i]) < Rank(ws[j]))
  }

  /** The warning `w` when its threshold is exceeded (`c`), nothing otherwise. */
  function Flag(c: bool, w: string): (r: seq<string>)
    ensures |r| <= 1
    ensures forall x :: x in r <==> c && x == w
  {
    if c then [w] else []
  }

  /** Appending a warning ranked above all present keeps the ranks increasing. */
  lemma AppendFlag(ws: seq<string>, bound: nat, c: bool, w: string)
    requires RankedBelow(ws, bound) && bound <= Rank(w)
    ensures RankedBelow(ws + Flag(c, w), Rank(w) + 1)
  {
    if c {
      var r := ws + [w];
      forall i, j | 0 <= i < j < |r| ensures Rank(r[i]) < Rank(r[j]) {
        assert r[i] == ws[i];
      }
    } else {
      assert ws + Flag(c, w) == ws;
    }
  }

  /** The four flags in the fixed order hold each warning exactly when its
      flag is set, and at most four warnings. */
  lemma FlaggedWarningsPresent(sugar: bool, fat: bool, salt: bool, saturatedFat: bool)
    ensures var ws := Flag(sugar, SugarWarning) + Flag(fat, FatWarning)
                      + Flag(salt, SaltWarning) + Flag(saturatedFat, SaturatedFatWarning);
      && (SugarWarning in ws <==> sugar)
      && (FatWarning in ws <==> fat)
      && (SaltWarning in ws <==> salt)
      && (SaturatedFatWarning in ws <==> saturatedFat)
      && |ws| <= 4
  {
    WarningRanks();
  }

  /** The four flags in the fixed order are in strictly increasing rank. */
  lemma FlaggedWarningsRanked(sugar: bool, fat: bool, salt: bool, saturatedFat: bool)
    ensures RankedBelow(Flag(sugar, SugarWarning) + Flag(fat, FatWarning)
                        + Flag(salt, SaltWarning) + Flag(saturatedFat, SaturatedFatWarning), 4)
  {
    WarningRanks();
    var w1 := Flag(sugar, SugarWarning);
    var w2 := w1 + Flag(fat, FatWarning);
    var w3 := w2 + Flag(salt, SaltWarning);
    assert RankedBelow(w1, 1) by {
      AppendFlag([], 0, sugar, SugarWarning);
      assert [] + w1 == w1;
    }
    assert RankedBelow(w2, 2) by {
      AppendFlag(w1, 1, fat, FatWarning);
    }
    assert RankedBelow(w3, 3) by {
      AppendFlag(w2, 2, salt, SaltWarning);
    }
    AppendFlag(w3, 3, saturatedFat, SaturatedFatWarning);
  }

  /** `generateWarnings`: one warning per exceeded threshold, strictly
      above, in the fixed order, none for a product without nutriments. */
  method GenerateWarnings(n: Option<Nutriments>) returns (warnings: seq<string>)
    ensures n.None? ==> warnings == []
    ensures SugarWarning in warnings <==> n.Some? && OrZero(n.value.sugars100g) > 15.0
    ensures FatWarning in warnings <==> n.Some? && OrZero(n.value.fat100g) > 20.0
    ensures SaltWarning in warnings <==> n.Some? && OrZero(n.value.salt100g) > 1.5
    ensures SaturatedFatWarning in warnings <==> n.Some? && OrZero(n.value.saturatedFat100g) > 5.0
    ensures forall i :: 0 <= i < |warnings| ==> Rank(warnings[i]) < 4
    ensures forall i, j :: 0 <= i < j < |warnings| ==> Rank(warnings[i]) < Rank(warnings[j])
    ensures |warnings| <= 4
  {
    warnings := [];
    if n.None? {
      return;
    }
    var v := n.value;
    ghost var sugar, fat := OrZero(v.sugars100g) > 15.0, OrZero(v.fat100g) > 20.0;
    ghost var salt, saturatedFat := OrZero(v.salt100g) > 1.5, OrZero(v.saturatedFat100g) > 5.0;
    if OrZero(v.sugars100g) > 15.0 {
      warnings := warnings + [SugarWarning];
    }
    assert warnings == Flag(sugar, SugarWarning);
    if OrZero(v.fat100g) > 20.0 {
      warnings := warnings + [FatWarning];
    }
    assert warnings == Flag(sugar, SugarWarning) + Flag(fat, FatWarning);
    if OrZero(v.salt100g) > 1.5 {
      warnings := warnings + [SaltWarning];
    }
    assert warnings == Flag(sugar, SugarWarning) + Flag(fat, FatWarning) + Flag(salt, SaltWarning);
    if OrZero(v.saturatedFat100g) > 5.0 {
      warnings := warnings + [SaturatedFatWarning];
    }
    assert warnings == Flag(sugar, SugarWarning) + Flag(fat, FatWarning) + Flag(salt, SaltWarning)
                       + Flag(saturatedFat, SaturatedFatWarning);
    FlaggedWarningsPresent(sugar, fat, salt, saturatedFat);
    FlaggedWarningsRanked(sugar, fat, salt, saturatedFat);
  }

  datatype Band = Green | Orange | Red

  function Severity(b: Band): (r: nat) {
    match b
    case Green => 0
    case Orange => 1
    case Red => 2
  }

  /** The colour of a nutrient row for `value` against `recommended`: red
      above 80 % of the recommendation, orange above 50 % up to 80 %, green
      otherwise, each bound strict. For a negative recommendation the orange
      band is empty. */
  function NutrientBand(value: real, recommended: real): (band: Band)
    ensures band == Red <==> value > 0.8 * recommended
    ensures band == Orange <==> 0.5 * recommended < value <= 0.8 * recommended
    ensures band == Green <==> value <= 0.5 * recommended && value <= 0.8 * recommended
  {
    if value > recommended * 0.8 then Red
    else if value > recommended * 0.5 then Orange
    else Green
  }

  /** More of a nutrient never gives a milder band. */
  lemma NutrientBandMonotone(v1: real, v2: real, recommended: real)
    requires v1 <= v2
    ensures Severity(NutrientBand(v1, recommended)) <= Severity(NutrientBand(v2, recommended))
  {
  }
}
