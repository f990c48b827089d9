/**
 * Nutrition lookup (`get_nutrition_by_en_name` in backend/app/nutrition.py).
 *
 * The nutrition table is the JSON object written by the offline build
 * (module BuildNutritionJson): English class name to a record, itself a
 * JSON object from field names to values.
 */
module Nutrition {

  /** A JSON value as it occurs in a nutrition record. */
  datatype Field = Null | Text(text: string) | Number(x: real) | TextList(items: seq<string>)

  /** A nutrition record: a JSON object (Python `dict`) keyed by field name. */
  type Record = map<string, Field>

  /**
   * `_nutrition_db.get(en_name, {})`: total over every key; a stored record is
   * returned exactly, an absent key gives the empty record instead of an error.
   */
  function GetNutritionByEnName(db: map<string, Record>, enName: string): (r: Record)
    ensures enName in db ==> r == db[enName]
    ensures enName !in db ==> r == map[]
  {
    if enName in db then db[enName] else map[]
  }
}
