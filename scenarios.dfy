/** Worked cases of the text and visual rules on concrete spans and pages. */
module Scenarios {
  import opened Wrappers
  import opened PyStr
  import opened Spans
  import opened Results
  import opened TextRules
  import opened VisualRules
  import opened Seqs

  /** A bold "Ingredientes: ..." heading in sentence case passes. */
  lemma {:induction false} BoldSentenceCaseHeadingPasses()
    ensures IngredientsVerdict([Span("Ingredientes: harina, agua", true)]).0
  {
    var s := Span("Ingredientes: harina, agua", true);
    assert Lower(s.text)[..12] == "ingredientes";
    assert IsIngredientsHeading(s);
    assert FirstHeading([s]) == 0;
    assert IsLowerChar(s.text[1]);
  }

  /** A heading written all in capitals fails, even in bold. */
  lemma {:induction false} CapitalHeadingFails()
    ensures !IngredientsVerdict([Span("INGREDIENTES: HARINA", true)]).0
  {
    var s := Span("INGREDIENTES: HARINA", true);
    assert Lower(s.text)[..12] == "ingredientes";
    assert IsIngredientsHeading(s);
    assert FirstHeading([s]) == 0;
    assert IsCased(s.text[0]);
    assert IsUpper(s.text);
  }

  /** "GLUTEN" in capitals and not bold is a correctly marked allergen. */
  lemma {:induction false} CapitalAllergenPasses()
    ensures AllergensVerdict([Span("GLUTEN", false)], Some(["GLUTEN"])).0
  {
    var s := Span("GLUTEN", false);
    assert IsCased(s.text[0]);
    assert IsUpper(s.text);
    IsUpperFixedByUpper(s.text);
    assert StartsWith(Upper(s.text), Upper("GLUTEN"));
    assert Mentions(s, "GLUTEN") && WellMarked(s);
    AllergensPasses([s], Some(["GLUTEN"]));
  }

  /** "gluten" in lower case mentions the allergen but marks it badly: it is listed as incorrect and the rule fails. */
  lemma {:induction false} LowerCaseAllergenFails()
    ensures AllergensVerdict([Span("gluten", false)], Some(["GLUTEN"])) == (false, AllergenLists([], ["GLUTEN"]))
  {
    var s := Span("gluten", false);
    var items := [s];
    assert IsLowerChar(s.text[0]);
    assert !WellMarked(s);
    assert Upper(s.text) == Upper("GLUTEN");
    assert Mentions(s, "GLUTEN") by {
      assert StartsWith(Upper(s.text), Upper("GLUTEN"));
    }
    assert Classify(items, "GLUTEN") == Incorrect by {
      ClassifyIncorrect(items, "GLUTEN");
    }
    FilterSingle(ClassTest(items, Correct), "GLUTEN");
    FilterSingle(ClassTest(items, Incorrect), "GLUTEN");
  }


  /** A prohibited template found at similarity 0.45 on one page fails the rule. */
  lemma ForbiddenAtPointFortyFiveFails(v: Vision, pages: seq<string>, t: string, i: nat)
    requires i < |pages| && v.assetExists(t) && v.score(pages[i], t) == Score(0.45)
    ensures !VisualVerdict(v, pages, TemplateForbidden(t, None)).0
  {
    ProhibitedFoundFails(v, pages, t, i);
  }

  /** A prohibited template scoring under 0.3 on every page passes, with the last page's similarity as evidence. */
  lemma ForbiddenAbsentPasses(v: Vision, pages: seq<string>, t: string)
    requires |pages| > 0 && v.assetExists(t)
    requires forall i :: 0 <= i < |pages| ==> v.score(pages[i], t).Score? && v.score(pages[i], t).maxVal < DefaultThreshold
    ensures VisualVerdict(v, pages, TemplateForbidden(t, None)).0
    ensures VisualVerdict(v, pages, TemplateForbidden(t, None)).1
      == Similarity(v.score(pages[|pages| - 1], t).maxVal, DefaultThreshold, true)
  {
    ProhibitedPasses(v, pages, t);
    ProhibitedPassLastPage(v, pages, t);
  }
}
