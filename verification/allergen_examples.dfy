/**
 * Worked examples of the allergen lookup on concrete stored strings.
 */
module AllergenExamples {
  import opened PyStr
  import opened Allergens

  /** The stored string "대두;밀" yields ["대두", "밀"]. */
  lemma SemicolonStringExample()
    ensures GetAllergensByEnName(map["Bulgogi" := StrValue("대두;밀")], "Bulgogi") == ["대두", "밀"]
  {
    ExampleSpaces();
    assert WellFormedAllergen("대두") && WellFormedAllergen("밀");
    assert Join(["대두", "밀"], ';') == "대두;밀";
    JoinedListRoundTrip(["대두", "밀"]);
  }

  /**
   * Blank pieces are dropped and the others trimmed: the stored string
   * " 대두 ; ;밀" yields ["대두", "밀"].
   */
  lemma UntidyStringExample()
    ensures GetAllergensByEnName(map["Bulgogi" := StrValue(" 대두 ; ;밀")], "Bulgogi") == ["대두", "밀"]
  {
    UntidySplit();
    UntidyClean();
  }

  /** The pieces of the untidy example, blank one included. */
  lemma UntidySplit()
    ensures Split(" 대두 ; ;밀", ';') == [" 대두 ", " ", "밀"]
  {
    var pieces := [" 대두 ", " ", "밀"];
    assert Join(pieces[2..], ';') == "밀";
    assert Join(pieces[1..], ';') == " ;밀";
    assert Join(pieces, ';') == " 대두 ; ;밀";
    assert forall k :: 0 <= k < |pieces| ==> ';' !in pieces[k];
    SplitJoin(pieces, ';');
  }

  /** The clean-up of the untidy example's pieces. */
  lemma UntidyClean()
    ensures CleanPieces([" 대두 ", " ", "밀"]) == ["대두", "밀"]
  {
    UntidyPieces();
    UntidyHead();
    UntidyTail();
  }

  /** The three pieces, as the padded one followed by the other two. */
  lemma UntidyPieces()
    ensures [" 대두 "] + [" ", "밀"] == [" 대두 ", " ", "밀"]
  {
  }

  /** The padded first piece comes out trimmed, ahead of the rest. */
  lemma UntidyHead()
    ensures CleanPieces([" 대두 "] + [" ", "밀"]) == ["대두"] + CleanPieces([" ", "밀"])
  {
    StripPadded();
    CleanKeepFirst(" 대두 ", [" ", "밀"]);
  }

  /** The blank piece is dropped and "밀" kept. */
  lemma UntidyTail()
    ensures CleanPieces([" ", "밀"]) == ["밀"]
  {
    StripExamples();
    CleanDropKeep(" ", "밀");
  }

  /** A first piece that does not strip to nothing comes out first, stripped. */
  lemma CleanKeepFirst(a: string, rest: seq<string>)
    requires Strip(a) != []
    ensures CleanPieces([a] + rest) == [Strip(a)] + CleanPieces(rest)
  {
    assert ([a] + rest)[1..] == rest;
  }

  /** Of two pieces, the first is blank and the second is kept, stripped. */
  lemma CleanDropKeep(b: string, c: string)
    requires Strip(b) == [] && Strip(c) != []
    ensures CleanPieces([b, c]) == [Strip(c)]
  {
    CleanPair(b, c);
    CleanDropThenKeep(b, c);
  }

  /** The two single clean-ups of a blank and a kept piece. */
  lemma CleanDropThenKeep(b: string, c: string)
    requires Strip(b) == [] && Strip(c) != []
    ensures CleanPieces([b]) + CleanPieces([c]) == [Strip(c)]
  {
    CleanDrop(b);
    CleanKeep(c);
  }

  /** Two pieces are cleaned up one after the other. */
  lemma CleanPair(b: string, c: string)
    ensures CleanPieces([b, c]) == CleanPieces([b]) + CleanPieces([c])
  {
    CleanPiecesAppend([b], [c]);
    assert [b] + [c] == [b, c];
  }

  /** A single piece that strips to nothing is dropped. */
  lemma CleanDrop(b: string)
    requires Strip(b) == []
    ensures CleanPieces([b]) == []
  {
    assert [b][1..] == [];
  }

  /** A single piece that does not strip to nothing is kept, stripped. */
  lemma CleanKeep(a: string)
    requires Strip(a) != []
    ensures CleanPieces([a]) == [Strip(a)]
  {
    assert [a][1..] == [];
  }

  /** How `strip()` treats the pieces of the untidy example. */
  lemma StripExamples()
    ensures Strip(" 대두 ") == "대두"
    ensures Strip(" ") == ""
    ensures Strip("밀") == "밀"
  {
    StripPadded();
    ExampleSpaces();
    StripTrimmed("밀");
  }

  /** `strip()` removes the single spaces around "대두". */
  lemma StripPadded()
    ensures Strip(" 대두 ") == "대두"
  {
    ExampleSpaces();
    var s := " 대두 ";
    assert s[1..] == "대두 ";
    assert LStrip("대두 ") == "대두 ";
    assert LStrip(s) == "대두 ";
    assert "대두 "[..2] == "대두";
    assert RStrip("대두") == "대두";
    assert RStrip("대두 ") == "대두";
  }

  /** Which characters of the example are whitespace. */
  lemma ExampleSpaces()
    ensures !IsSpace('대') && !IsSpace('두') && !IsSpace('밀')
  {
  }
}
