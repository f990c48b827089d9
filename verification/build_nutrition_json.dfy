/**
 * The offline build of the nutrition table (backend/app/data/build_nutrition_json.py):
 * each class's Korean name is matched against the rows of a food-composition
 * table, and every class gets either a resolved record or an all-null
 * "unresolved" record; the unresolved classes are also listed in `missing`.
 *
 * The CSV is given as a sequence of rows in table order. pandas'
 * `str.contains` is read as a literal substring test (`PyStr.Contains`).
 */
module BuildNutritionJson {
  import opened Wrappers
  import opened PyStr
  import opened Nutrition

  /** One CSV row, restricted to the columns the build reads; a missing number is `None`. */
  datatype Row = Row(
    foodName: string,
    servingBasis: string,
    energyKcal: Option<real>,
    carbsG: Option<real>,
    proteinG: Option<real>,
    fatG: Option<real>)

  /** Dish-type endings tried, in this order, when the full name matches no row. */
  const Suffixes: seq<string> :=
    ["무침", "볶음", "구이", "조림", "국", "탕", "찜", "덮밥",
     "죽", "전골", "전", "튀김", "볶음밥", "김밥", "나물"]

  /** Classes whose CSV food name is fixed by hand: English class name to exact food name. */
  const ManualFoodName: map<string, string> := map[
    "Dried_Pollack_Soup" := "북어국",
    "Fried_Chicken" := "닭튀김_황금올리브 치킨",
    "Gochujang_Stir_Fried_Dried_Pollack" := "오징어채볶음",
    "Ricecake_Dumpling_Soup" := "떡만두국",
    "Stir_Fried_Potato" := "감자볶음_채소",
    "Young_Radish_Cold_Noodles" := "국수_열무김치",
    "Bossam" := "제육(돼지고기 수육)",
    "Bulgogi" := "돼지불고기_간장",
    "Dumplings" := "고기만두",
    "Fish_Pancake" := "생선전_동태",
    "Kimchi_Fried_Rice" := "볶음밥_김치_돼지고기",
    "Seasoned_Chicken" := "닭튀김_양념 치킨",
    "Stir_Fried_Zucchini" := "애호박 볶음"]

  // ---------------------------------------------------------------------------
  // Row filters
  // ---------------------------------------------------------------------------

  /** The mask `df["식품명"].str.contains(needle, na=False)`. */
  function NameContains(needle: string): Row -> bool {
    (row: Row) => Contains(row.foodName, needle)
  }

  /** The mask `df["식품명"] == name`. */
  function NameIs(name: string): Row -> bool {
    (row: Row) => row.foodName == name
  }

  /** `rows[i]` is the first row, in table order, that satisfies `p`. */
  ghost predicate IsFirstAt(rows: seq<Row>, p: Row -> bool, i: int) {
    0 <= i < |rows| && p(rows[i]) && forall j :: 0 <= j < i ==> !p(rows[j])
  }

  /** `x` is the first row, in table order, that satisfies `p`. */
  ghost predicate IsFirstWhere(rows: seq<Row>, p: Row -> bool, x: Row) {
    exists i :: IsFirstAt(rows, p, i) && rows[i] == x
  }

  /** `df[mask]`: the rows that satisfy `p`, in table order. */
  function Where(rows: seq<Row>, p: Row -> bool): (r: seq<Row>)
    ensures |r| <= |rows|
    ensures forall x :: x in r <==> x in rows && p(x)
    ensures r == [] <==> forall x :: x in rows ==> !p(x)
    ensures r != [] ==> IsFirstWhere(rows, p, r[0])
    decreases |rows|
  {
    if rows == [] then []
    else
      var rest := Where(rows[1..], p);
      if p(rows[0]) then
        assert IsFirstAt(rows, p, 0);
        [rows[0]] + rest
      else
        assert rest != [] ==> IsFirstWhere(rows, p, rest[0]) by {
          if rest != [] {
            var i :| IsFirstAt(rows[1..], p, i) && rows[1..][i] == rest[0];
            assert IsFirstAt(rows, p, i + 1);
          }
        }
        rest
  }

  /** Filtering by a weaker mask first does not change a filter by a stronger one. */
  lemma {:induction false} WhereNarrow(rows: seq<Row>, p: Row -> bool, q: Row -> bool)
    requires forall x :: q(x) ==> p(x)
    ensures Where(Where(rows, p), q) == Where(rows, q)
    decreases |rows|
  {
    if rows != [] {
      WhereNarrow(rows[1..], p, q);
      if p(rows[0]) {
        assert ([rows[0]] + Where(rows[1..], p))[1..] == Where(rows[1..], p);
      }
    }
  }

  // ---------------------------------------------------------------------------
  // Suffix stripping
  // ---------------------------------------------------------------------------

  /**
   * No suffix is empty. Python's `base[:-len(suf)]` keeps the name only while
   * `len(suf) > 0`; an empty suffix would cut the whole name away.
   */
  predicate NonEmptySuffixes(suffixes: seq<string>) {
    forall k :: 0 <= k < |suffixes| ==> suffixes[k] != []
  }

  /** The position of the first entry of `suffixes` that `name` ends with, or `|suffixes|`. */
  function FirstSuffixIndex(name: string, suffixes: seq<string>): (k: nat)
    requires NonEmptySuffixes(suffixes)
    ensures k <= |suffixes|
    ensures forall j :: 0 <= j < k ==> !EndsWith(name, suffixes[j])
    ensures k < |suffixes| ==> EndsWith(name, suffixes[k])
    decreases |suffixes|
  {
    if suffixes == [] then 0
    else if EndsWith(name, suffixes[0]) then 0
    else
      assert forall j :: 0 <= j < |suffixes[1..]| ==> suffixes[1..][j] == suffixes[j + 1];
      1 + FirstSuffixIndex(name, suffixes[1..])
  }

  /**
   * The search base of the fallback: `name` without the first of `suffixes`
   * (in list order) that it ends with; `name` itself when it ends with none.
   * At most one suffix is removed.
   */
  function StripBase(name: string, suffixes: seq<string>): (base: string)
    requires NonEmptySuffixes(suffixes)
    ensures base <= name
    ensures var k := FirstSuffixIndex(name, suffixes);
      if k < |suffixes| then base + suffixes[k] == name else base == name
  {
    var k := FirstSuffixIndex(name, suffixes);
    if k < |suffixes| then name[..|name| - |suffixes[k]|] else name
  }

  /** The `for suf in SUFFIXES` loop of `choose_row_for`, with its `break`. */
  method StripSuffix(name: string, suffixes: seq<string>) returns (base: string)
    requires NonEmptySuffixes(suffixes)
    ensures base == StripBase(name, suffixes)
  {
    base := name;
    for i := 0 to |suffixes|
      invariant base == name
      invariant forall j :: 0 <= j < i ==> !EndsWith(name, suffixes[j])
    {
      if EndsWith(base, suffixes[i]) {
        assert FirstSuffixIndex(name, suffixes) == i;
        base := base[..|base| - |suffixes[i]|];
        break;
      }
    }
  }

  // ---------------------------------------------------------------------------
  // Choosing a row for one Korean name
  // ---------------------------------------------------------------------------

  /**
   * The row `choose_row_for` picks, stated over the whole table: if some row
   * name contains the full name, the first row named exactly so, or else the
   * first containing row; otherwise, if the stripped base has at least two
   * characters, the first row whose name contains the base; otherwise none.
   * A missing or empty name picks nothing.
   */
  function ChooseRow(rows: seq<Row>, foodKo: Option<string>): (r: Option<Row>)
    ensures r.Some? ==> foodKo.Some? && foodKo.value != "" && r.value in rows
    ensures r.Some? ==>
      Contains(r.value.foodName, foodKo.value) || Contains(r.value.foodName, StripBase(foodKo.value, Suffixes))
  {
    if foodKo.None? || foodKo.value == "" then None
    else
      var food := foodKo.value;
      var full := Where(rows, NameContains(food));
      if full != [] then
        var exact := Where(rows, NameIs(food));
        if exact != [] then Some(exact[0]) else Some(full[0])
      else
        var base := StripBase(food, Suffixes);
        var partial := Where(rows, NameContains(base));
        if |base| >= 2 && partial != [] then Some(partial[0]) else None
  }

  /** `choose_row_for`, step by step as the source does it (the exact filter runs on the subset). */
  method ChooseRowFor(rows: seq<Row>, foodKo: Option<string>) returns (row: Option<Row>)
    ensures row == ChooseRow(rows, foodKo)
  {
    if foodKo.None? || foodKo.value == "" {
      return None;
    }
    var food := foodKo.value;
    var subset := Where(rows, NameContains(food));
    var searchedFull := subset != [];
    if subset == [] {
      var base := StripSuffix(food, Suffixes);
      if |base| >= 2 {
        subset := Where(rows, NameContains(base));
      }
    }
    if subset == [] {
      return None;
    }
    var exact := Where(subset, NameIs(food));
    if searchedFull {
      forall x | NameIs(food)(x) ensures NameContains(food)(x) {
        ContainsSelf(food);
      }
      WhereNarrow(rows, NameContains(food), NameIs(food));
    } else {
      ContainsSelf(food);
      assert exact == [];
    }
    if exact != [] {
      return Some(exact[0]);
    }
    return Some(subset[0]);
  }

  /** The fallback search runs only when no row contains the full name. */
  lemma ChooseRowFullNameFirst(rows: seq<Row>, food: string)
    requires food != ""
    requires exists x :: x in rows && Contains(x.foodName, food)
    ensures var r := ChooseRow(rows, Some(food));
      && r.Some?
      && Contains(r.value.foodName, food)
      && ((exists x :: x in rows && x.foodName == food) ==> IsFirstWhere(rows, NameIs(food), r.value))
      && ((forall x :: x in rows ==> x.foodName != food) ==> IsFirstWhere(rows, NameContains(food), r.value))
  {
    var x :| x in rows && Contains(x.foodName, food);
    assert x in Where(rows, NameContains(food));
    if exists y :: y in rows && y.foodName == food {
      var y :| y in rows && y.foodName == food;
      assert y in Where(rows, NameIs(food));
      ContainsSelf(food);
    }
  }

  /**
   * When no row contains the full name, a row is chosen exactly when the
   * stripped base has at least two characters and some row contains it, and
   * it is the first such row.
   */
  lemma ChooseRowFallback(rows: seq<Row>, food: string)
    requires food != ""
    requires forall x :: x in rows ==> !Contains(x.foodName, food)
    ensures var base := StripBase(food, Suffixes);
      var r := ChooseRow(rows, Some(food));
      && (r.Some? <==> |base| >= 2 && exists x :: x in rows && Contains(x.foodName, base))
      && (r.Some? ==> IsFirstWhere(rows, NameContains(base), r.value))
  {
    var base := StripBase(food, Suffixes);
    if exists x :: x in rows && Contains(x.foodName, base) {
      var x :| x in rows && Contains(x.foodName, base);
      assert x in Where(rows, NameContains(base));
    }
  }

  // ---------------------------------------------------------------------------
  // One class's record
  // ---------------------------------------------------------------------------

  /** `_num`: a missing (NaN) cell becomes JSON null, a number stays a number. */
  function NumField(cell: Option<real>): (f: Field)
    ensures f == Null <==> cell.None?
    ensures cell.Some? ==> f == Number(cell.value)
  {
    match cell
    case None => Null
    case Some(x) => Number(x)
  }

  /** The `ko_name` value: the Korean name, or null when the class has none. */
  function KoField(koName: Option<string>): (f: Field)
    ensures f == Null <==> koName.None?
    ensures koName.Some? ==> f == Text(koName.value)
  {
    match koName
    case None => Null
    case Some(ko) => Text(ko)
  }

  /** The record written for a class no row was found for. */
  function UnresolvedEntry(koName: Option<string>): (e: Record)
    ensures HasEntryKeys(e)
    ensures forall key :: key in e && key != "ko_name" && key != "allergens" ==> e[key] == Null
  {
    map[
      "ko_name" := KoField(koName),
      "source_food_name" := Null,
      "unit" := Null,
      "calories_kcal" := Null,
      "carbs_g" := Null,
      "protein_g" := Null,
      "fat_g" := Null,
      "allergens" := TextList([])]
  }

  /** The record written for a class matched to `row`. */
  function ResolvedEntry(koName: Option<string>, row: Row): (e: Record)
    ensures HasEntryKeys(e)
    ensures e["source_food_name"] != Null && e["unit"] != Null
  {
    map[
      "ko_name" := KoField(koName),
      "source_food_name" := Text(row.foodName),
      "unit" := Text(row.servingBasis),
      "calories_kcal" := NumField(row.energyKcal),
      "carbs_g" := NumField(row.carbsG),
      "protein_g" := NumField(row.proteinG),
      "fat_g" := NumField(row.fatG),
      "allergens" := TextList([])]
  }

  /** `class_names_ko.get(en_name)`. */
  function KoOf(classNamesKo: map<string, string>, enName: string): (ko: Option<string>)
    ensures ko.Some? <==> enName in classNamesKo
    ensures ko.Some? ==> ko.value == classNamesKo[enName]
  {
    if enName in classNamesKo then Some(classNamesKo[enName]) else None
  }

  /** The row a class is resolved to: automatic matching, then the manual override. */
  function ResolveRow(rows: seq<Row>, enName: string, koName: Option<string>): (r: Option<Row>)
    ensures r.Some? ==> r.value in rows
  {
    match ChooseRow(rows, koName)
    case Some(row) => Some(row)
    case None =>
      if enName in ManualFoodName then
        var cand := Where(rows, NameIs(ManualFoodName[enName]));
        if cand != [] then Some(cand[0]) else None
      else None
  }

  /** Lines 96-104 of the build: automatic matching, then the manual override by exact name. */
  method ResolveClassRow(rows: seq<Row>, enName: string, koName: Option<string>) returns (row: Option<Row>)
    ensures row == ResolveRow(rows, enName, koName)
  {
    row := ChooseRowFor(rows, koName);
    if row.None? && enName in ManualFoodName {
      var manualName := ManualFoodName[enName];
      var cand := Where(rows, NameIs(manualName));
      if cand != [] {
        row := Some(cand[0]);
      }
    }
  }

  /**
   * The manual map is consulted only when automatic matching failed and the
   * class is listed in it, and then only by exact name equality.
   */
  lemma ManualOnlyAfterAutomaticFailure(rows: seq<Row>, enName: string, koName: Option<string>)
    ensures ChooseRow(rows, koName).Some? ==> ResolveRow(rows, enName, koName) == ChooseRow(rows, koName)
    ensures ChooseRow(rows, koName).None? && enName !in ManualFoodName ==>
      ResolveRow(rows, enName, koName).None?
    ensures ChooseRow(rows, koName).None? && enName in ManualFoodName ==>
      && (ResolveRow(rows, enName, koName).Some? <==>
          exists x :: x in rows && x.foodName == ManualFoodName[enName])
      && (ResolveRow(rows, enName, koName).Some? ==>
          IsFirstWhere(rows, NameIs(ManualFoodName[enName]), ResolveRow(rows, enName, koName).value))
  {
    if ChooseRow(rows, koName).None? && enName in ManualFoodName {
      var manualName := ManualFoodName[enName];
      if exists x :: x in rows && x.foodName == manualName {
        var x :| x in rows && x.foodName == manualName;
        assert x in Where(rows, NameIs(manualName));
      }
    }
  }

  /** The `nutrition_map` entry the build writes for one class. */
  function ClassEntry(rows: seq<Row>, enName: string, koName: Option<string>): (e: Record)
    ensures HasEntryKeys(e)
    ensures "source_food_name" in e && (e["source_food_name"] == Null <==> ResolveRow(rows, enName, koName).None?)
  {
    match ResolveRow(rows, enName, koName)
    case None => UnresolvedEntry(koName)
    case Some(row) => ResolvedEntry(koName, row)
  }

  /** The fields every entry has, resolved or not. */
  ghost predicate HasEntryKeys(e: Record) {
    e.Keys == {"ko_name", "source_food_name", "unit", "calories_kcal",
               "carbs_g", "protein_g", "fat_g", "allergens"}
  }

  /** An unresolved entry: source name, unit and the four nutrients null, no allergens. */
  lemma UnresolvedEntryShape(koName: Option<string>)
    ensures var e := UnresolvedEntry(koName);
      && HasEntryKeys(e)
      && e["ko_name"] == KoField(koName) && e["allergens"] == TextList([])
      && e["source_food_name"] == Null && e["unit"] == Null
      && e["calories_kcal"] == Null && e["carbs_g"] == Null
      && e["protein_g"] == Null && e["fat_g"] == Null
  {
  }

  /**
   * A resolved entry names its row and unit, carries the row's four nutrient
   * cells (null where a cell is missing) and no allergens.
   */
  lemma ResolvedEntryShape(koName: Option<string>, row: Row)
    ensures var e := ResolvedEntry(koName, row);
      && HasEntryKeys(e)
      && e["ko_name"] == KoField(koName) && e["allergens"] == TextList([])
      && e["source_food_name"] == Text(row.foodName) && e["unit"] == Text(row.servingBasis)
      && e["calories_kcal"] == NumField(row.energyKcal) && e["carbs_g"] == NumField(row.carbsG)
      && e["protein_g"] == NumField(row.proteinG) && e["fat_g"] == NumField(row.fatG)
  {
  }

  /**
   * Every entry has the same eight fields and an empty allergen list; it is
   * unresolved (null source name) exactly when no row was found, and then its
   * unit and four nutrient fields are null too.
   */
  lemma ClassEntryShape(rows: seq<Row>, enName: string, koName: Option<string>)
    ensures var e := ClassEntry(rows, enName, koName);
      && HasEntryKeys(e)
      && e["ko_name"] == KoField(koName)
      && e["allergens"] == TextList([])
      && (e["source_food_name"] == Null <==> ResolveRow(rows, enName, koName).None?)
      && (e["source_food_name"] == Null ==>
            e["unit"] == Null && e["calories_kcal"] == Null && e["carbs_g"] == Null
            && e["protein_g"] == Null && e["fat_g"] == Null)
      && (ResolveRow(rows, enName, koName).Some? ==>
            var row := ResolveRow(rows, enName, koName).value;
            && e["source_food_name"] == Text(row.foodName) && e["unit"] == Text(row.servingBasis)
            && e["calories_kcal"] == NumField(row.energyKcal) && e["carbs_g"] == NumField(row.carbsG)
            && e["protein_g"] == NumField(row.proteinG) && e["fat_g"] == NumField(row.fatG))
  {
    match ResolveRow(rows, enName, koName)
    case None => UnresolvedEntryShape(koName);
    case Some(row) => ResolvedEntryShape(koName, row);
  }

  // ---------------------------------------------------------------------------
  // The per-class loop
  // ---------------------------------------------------------------------------

  /** `nutrition_map` after processing `classes` in order. */
  function NutritionMapOf(rows: seq<Row>, classes: seq<string>, classNamesKo: map<string, string>)
    : map<string, Record>
    decreases |classes|
  {
    if classes == [] then map[]
    else
      var n := |classes| - 1;
      NutritionMapOf(rows, classes[..n], classNamesKo)[classes[n] :=
        ClassEntry(rows, classes[n], KoOf(classNamesKo, classes[n]))]
  }

  /** `missing` after processing `classes` in order. */
  function MissingOf(rows: seq<Row>, classes: seq<string>, classNamesKo: map<string, string>)
    : seq<(string, Option<string>)>
    decreases |classes|
  {
    if classes == [] then []
    else
      var n := |classes| - 1;
      var ko := KoOf(classNamesKo, classes[n]);
      MissingOf(rows, classes[..n], classNamesKo) +
        (if ResolveRow(rows, classes[n], ko).None? then [(classes[n], ko)] else [])
  }

  /** Processing one more class extends the map by its entry and `missing` by it if unresolved. */
  lemma PrefixStep(rows: seq<Row>, classes: seq<string>, classNamesKo: map<string, string>, i: nat)
    requires i < |classes|
    ensures var ko := KoOf(classNamesKo, classes[i]);
      && NutritionMapOf(rows, classes[..i + 1], classNamesKo) ==
         NutritionMapOf(rows, classes[..i], classNamesKo)[classes[i] := ClassEntry(rows, classes[i], ko)]
      && MissingOf(rows, classes[..i + 1], classNamesKo) ==
         MissingOf(rows, classes[..i], classNamesKo) +
         (if ResolveRow(rows, classes[i], ko).None? then [(classes[i], ko)] else [])
  {
    assert classes[..i + 1][..i] == classes[..i];
  }

  /** The top-level `for en_name in class_names_en` loop of the build. */
  method BuildNutritionMap(rows: seq<Row>, classNamesEn: seq<string>, classNamesKo: map<string, string>)
    returns (nutritionMap: map<string, Record>, missing: seq<(string, Option<string>)>)
    ensures nutritionMap == NutritionMapOf(rows, classNamesEn, classNamesKo)
    ensures missing == MissingOf(rows, classNamesEn, classNamesKo)
  {
    nutritionMap := map[];
    missing := [];
    for i := 0 to |classNamesEn|
      invariant nutritionMap == NutritionMapOf(rows, classNamesEn[..i], classNamesKo)
      invariant missing == MissingOf(rows, classNamesEn[..i], classNamesKo)
    {
      var enName := classNamesEn[i];
      var koName := KoOf(classNamesKo, enName);
      PrefixStep(rows, classNamesEn, classNamesKo, i);
      var row := ResolveClassRow(rows, enName, koName);
      if row.None? {
        missing := missing + [(enName, koName)];
        nutritionMap := nutritionMap[enName := UnresolvedEntry(koName)];
        continue;
      }
      nutritionMap := nutritionMap[enName := ResolvedEntry(koName, row.value)];
    }
    assert classNamesEn[..|classNamesEn|] == classNamesEn;
  }

  /** Every class gets an entry, and nothing else does; each entry is that class's ClassEntry. */
  lemma {:induction false} NutritionMapCoversClasses(
    rows: seq<Row>, classes: seq<string>, classNamesKo: map<string, string>)
    ensures forall c :: c in NutritionMapOf(rows, classes, classNamesKo) <==> c in classes
    ensures forall c :: c in NutritionMapOf(rows, classes, classNamesKo) ==>
      NutritionMapOf(rows, classes, classNamesKo)[c] == ClassEntry(rows, c, KoOf(classNamesKo, c))
    decreases |classes|
  {
    if classes != [] {
      var n := |classes| - 1;
      NutritionMapCoversClasses(rows, classes[..n], classNamesKo);
      assert classes == classes[..n] + [classes[n]];
    }
  }

  /** `missing` holds exactly the unresolved classes, each with its Korean name. */
  lemma {:induction false} MissingIsUnresolved(
    rows: seq<Row>, classes: seq<string>, classNamesKo: map<string, string>)
    ensures |MissingOf(rows, classes, classNamesKo)| <= |classes|
    ensures forall en, ko :: (en, ko) in MissingOf(rows, classes, classNamesKo) <==>
      en in classes && ko == KoOf(classNamesKo, en) && ResolveRow(rows, en, ko).None?
    decreases |classes|
  {
    if classes != [] {
      var n := |classes| - 1;
      MissingIsUnresolved(rows, classes[..n], classNamesKo);
      assert classes == classes[..n] + [classes[n]];
    }
  }

  /**
   * `missing` follows the class list: processing two lists one after the other
   * lists the unresolved classes of the first before those of the second.
   */
  lemma {:induction false} MissingInClassOrder(
    rows: seq<Row>, first: seq<string>, second: seq<string>, classNamesKo: map<string, string>)
    ensures MissingOf(rows, first + second, classNamesKo) ==
      MissingOf(rows, first, classNamesKo) + MissingOf(rows, second, classNamesKo)
    decreases |second|
  {
    if second == [] {
      assert first + second == first;
    } else {
      var n := |second| - 1;
      var both := first + second;
      var ko := KoOf(classNamesKo, second[n]);
      var last := if ResolveRow(rows, second[n], ko).None? then [(second[n], ko)] else [];
      assert both[..|both| - 1] == first + second[..n];
      assert both[|both| - 1] == second[n];
      assert MissingOf(rows, both, classNamesKo) == MissingOf(rows, first + second[..n], classNamesKo) + last;
      assert MissingOf(rows, second, classNamesKo) == MissingOf(rows, second[..n], classNamesKo) + last;
      MissingInClassOrder(rows, first, second[..n], classNamesKo);
    }
  }

  /**
   * A class's entry is unresolved (null source name) exactly when the class
   * is listed in `missing`.
   */
  lemma MissingMatchesNullEntries(
    rows: seq<Row>, classes: seq<string>, classNamesKo: map<string, string>, en: string)
    requires en in classes
    ensures var m := NutritionMapOf(rows, classes, classNamesKo);
      en in m && "source_food_name" in m[en] &&
      (m[en]["source_food_name"] == Null <==>
        (en, KoOf(classNamesKo, en)) in MissingOf(rows, classes, classNamesKo))
  {
    NutritionMapCoversClasses(rows, classes, classNamesKo);
    MissingIsUnresolved(rows, classes, classNamesKo);
    ClassEntryShape(rows, en, KoOf(classNamesKo, en));
  }

  /**
   * Serving from the built table: a lookup of any catalog class returns its
   * full eight-field entry, never the empty record used for absent keys.
   */
  lemma LookupOfBuiltTable(
    rows: seq<Row>, classes: seq<string>, classNamesKo: map<string, string>, en: string)
    requires en in classes
    ensures var r := GetNutritionByEnName(NutritionMapOf(rows, classes, classNamesKo), en);
      r == ClassEntry(rows, en, KoOf(classNamesKo, en)) && "source_food_name" in r && r != map[]
  {
    NutritionMapCoversClasses(rows, classes, classNamesKo);
    ClassEntryShape(rows, en, KoOf(classNamesKo, en));
  }
}
