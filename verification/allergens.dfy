/**
 * Allergen lookup (`get_allergens_by_en_name` in backend/app/allergens.py).
 *
 * The allergen table maps an English class name to whatever the JSON file
 * holds for it; the lookup normalises that value to a list of strings.
 */
module Allergens {
  import opened PyStr

  /** A value stored in the allergen table, by its Python type. */
  datatype Stored =
    | ListValue(items: seq<string>)
    | StrValue(text: string)
    | NullValue
    /** A number, a boolean or an object, with its Python truthiness. */
    | OtherValue(truthy: bool)

  /** Python's `bool(value)`. */
  predicate Truthy(v: Stored) {
    match v
    case ListValue(items) => items != []
    case StrValue(text) => text != ""
    case NullValue => false
    case OtherValue(truthy) => truthy
  }

  /** What the string path promises of each allergen it returns. */
  predicate WellFormedAllergen(a: string) {
    a != [] && IsStripped(a) && ';' !in a
  }

  /**
   * `[s.strip() for s in pieces if s.strip()]`: the stripped pieces, in order,
   * without those that strip to nothing.
   */
  function CleanPieces(pieces: seq<string>): (r: seq<string>)
    ensures |r| <= |pieces|
    ensures forall x :: x in r ==> x != [] && IsStripped(x)
    decreases |pieces|
  {
    if pieces == [] then []
    else
      var piece := Strip(pieces[0]);
      var rest := CleanPieces(pieces[1..]);
      if piece == [] then rest
      else
        assert IsStripped(piece);
        [piece] + rest
  }

  /** The outputs are exactly the non-blank stripped pieces. */
  lemma CleanPiecesMembers(pieces: seq<string>)
    ensures forall x :: x in CleanPieces(pieces) <==>
      x != [] && exists k :: 0 <= k < |pieces| && Strip(pieces[k]) == x
  {
    forall x | x in CleanPieces(pieces)
      ensures exists k :: 0 <= k < |pieces| && Strip(pieces[k]) == x
    {
      CleanPiecesSound(pieces, x);
    }
    forall k | 0 <= k < |pieces| && Strip(pieces[k]) != []
      ensures Strip(pieces[k]) in CleanPieces(pieces)
    {
      CleanPiecesComplete(pieces, k);
    }
  }

  /** Every output is the stripped form of some piece. */
  lemma {:induction false} CleanPiecesSound(pieces: seq<string>, x: string)
    requires x in CleanPieces(pieces)
    ensures exists k :: 0 <= k < |pieces| && Strip(pieces[k]) == x
    decreases |pieces|
  {
    if x != Strip(pieces[0]) {
      CleanPiecesSound(pieces[1..], x);
      var k :| 0 <= k < |pieces[1..]| && Strip(pieces[1..][k]) == x;
      assert pieces[1..][k] == pieces[k + 1];
    }
  }

  /** Every piece that does not strip to nothing is in the output, stripped. */
  lemma {:induction false} CleanPiecesComplete(pieces: seq<string>, k: nat)
    requires k < |pieces| && Strip(pieces[k]) != []
    ensures Strip(pieces[k]) in CleanPieces(pieces)
    decreases k
  {
    var x := Strip(pieces[k]);
    var tail := pieces[1..];
    var rest := CleanPieces(tail);
    assert CleanPieces(pieces) == rest || CleanPieces(pieces) == [Strip(pieces[0])] + rest;
    if k > 0 {
      assert tail[k - 1] == pieces[k];
      CleanPiecesComplete(tail, k - 1);
      assert x in rest;
    }
  }

  /** Cleaning up respects order: the pieces of `a` come out before those of `b`. */
  lemma {:induction false} CleanPiecesAppend(a: seq<string>, b: seq<string>)
    ensures CleanPieces(a + b) == CleanPieces(a) + CleanPieces(b)
    decreases |a|
  {
    if a == [] {
      assert a + b == b;
    } else {
      assert (a + b)[0] == a[0];
      assert (a + b)[1..] == a[1..] + b;
      CleanPiecesAppend(a[1..], b);
    }
  }

  /** Cleaning up `;`-free pieces cannot introduce a `;`. */
  lemma {:induction false} CleanPiecesSemicolonFree(pieces: seq<string>)
    requires forall k :: 0 <= k < |pieces| ==> ';' !in pieces[k]
    ensures forall a :: a in CleanPieces(pieces) ==> WellFormedAllergen(a)
    decreases |pieces|
  {
    if pieces != [] {
      StripSubset(pieces[0]);
      assert ';' !in Strip(pieces[0]);
      assert forall k :: 0 <= k < |pieces[1..]| ==> ';' !in pieces[1..][k] by {
        forall k | 0 <= k < |pieces[1..]| ensures ';' !in pieces[1..][k] {
          assert pieces[1..][k] == pieces[k + 1];
        }
      }
      CleanPiecesSemicolonFree(pieces[1..]);
    }
  }

  /** How `get_allergens_by_en_name` turns a stored value into a list. */
  function Normalize(v: Stored): (r: seq<string>)
    ensures !Truthy(v) ==> r == []
    ensures v.ListValue? ==> r == v.items
    ensures v.OtherValue? ==> r == []
    ensures v.StrValue? ==> forall a :: a in r ==> WellFormedAllergen(a)
    ensures v.StrValue? && v.text != "" ==> r == CleanPieces(Split(v.text, ';'))
  {
    if !Truthy(v) then []
    else
      match v
      case ListValue(items) => items
      case StrValue(text) =>
        CleanPiecesSemicolonFree(Split(text, ';'));
        CleanPieces(Split(text, ';'))
      case _ => []
  }

  /** `get_allergens_by_en_name`: a missing key is an empty list, not an error. */
  function GetAllergensByEnName(db: map<string, Stored>, enName: string): (r: seq<string>)
    ensures enName !in db ==> r == []
    ensures enName in db ==> r == Normalize(db[enName])
  {
    if enName in db then Normalize(db[enName]) else []
  }

  /** Well-formed pieces pass through the clean-up unchanged. */
  lemma {:induction false} CleanPiecesKeepsWellFormed(pieces: seq<string>)
    requires forall k :: 0 <= k < |pieces| ==> WellFormedAllergen(pieces[k])
    ensures CleanPieces(pieces) == pieces
    decreases |pieces|
  {
    if pieces != [] {
      StripTrimmed(pieces[0]);
      CleanPiecesKeepsWellFormed(pieces[1..]);
      assert [pieces[0]] + pieces[1..] == pieces;
    }
  }

  /**
   * Storing a list of well-formed allergens as a `;`-joined string loses
   * nothing: the lookup returns exactly the original list.
   */
  lemma JoinedListRoundTrip(xs: seq<string>)
    requires forall k :: 0 <= k < |xs| ==> WellFormedAllergen(xs[k])
    ensures Normalize(StrValue(Join(xs, ';'))) == xs
  {
    if xs != [] {
      assert Join(xs, ';') != [] by {
        assert |xs| == 1 || Join(xs, ';') == xs[0] + [';'] + Join(xs[1..], ';');
      }
      SplitJoin(xs, ';');
      CleanPiecesKeepsWellFormed(xs);
    }
  }
}
