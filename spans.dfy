/**
 * The text-span extractor: each span the PDF renderer reports, in reading
 * order, becomes a styled span `{text, bold}` once its text is stripped;
 * spans whose stripped text is empty are dropped. Boldness is guessed from
 * the font name.
 */
module Spans {
  import opened PyStr
  import opened Seqs

  /** A span as the renderer reports it: its raw text and its font name ("" when absent). */
  datatype RawSpan = RawSpan(text: string, font: string)

  /** A styled span as the rule evaluators see it. */
  datatype Span = Span(text: string, bold: bool)

  /** The bold heuristic: the lower-cased font name mentions "bold", "black" or "negrita". */
  predicate IsBoldFont(font: string) {
    var f := Lower(font);
    Contains(f, "bold") || Contains(f, "black") || Contains(f, "negrita")
  }

  /** What one raw span contributes: nothing, or its stripped text and boldness. */
  function Kept(r: RawSpan): seq<Span> {
    var text := Strip(r.text);
    if text == [] then [] else [Span(text, IsBoldFont(r.font))]
  }

  /** The span list the extractor produces from the raw spans. */
  function Extracted(raw: seq<RawSpan>): seq<Span> {
    FlatMap(Kept, raw)
  }

  /** The extraction loop: walk the raw spans in order and append each kept one. */
  method ExtractSpans(raw: seq<RawSpan>) returns (items: seq<Span>)
    ensures items == Extracted(raw)
  {
    items := [];
    var i := 0;
    while i < |raw|
      invariant 0 <= i <= |raw|
      invariant items == Extracted(raw[..i])
    {
      ExtractedStep(raw, i);
      var text := Strip(raw[i].text);
      if text != [] {
        var bold := IsBoldFont(raw[i].font);
        items := items + [Span(text, bold)];
      }
      i := i + 1;
    }
    assert raw[..i] == raw;
  }

  /** Extraction handles the raw spans one after the other. */
  lemma ExtractedStep(raw: seq<RawSpan>, i: nat)
    requires i < |raw|
    ensures Extracted(raw[..i + 1]) == Extracted(raw[..i]) + Kept(raw[i])
  {
    FlatMapStep(Kept, raw, i);
  }

  // ---------------------------------------------------------------------
  // Properties

  /**
   * A span is produced iff some raw span strips to its text, that text is
   * non-empty, and its boldness is the font heuristic's verdict.
   */
  lemma ExtractedMembers(raw: seq<RawSpan>, s: Span)
    ensures s in Extracted(raw) <==>
      exists j :: 0 <= j < |raw| && Strip(raw[j].text) != [] &&
        s == Span(Strip(raw[j].text), IsBoldFont(raw[j].font))
  {
    FlatMapMembers(Kept, raw, s);
  }

  /**
   * Every produced span carries non-empty text with no whitespace at either end.
   */
  lemma ExtractedClean(raw: seq<RawSpan>, s: Span)
    requires s in Extracted(raw)
    ensures s.text != [] && !IsSpace(s.text[0]) && !IsSpace(s.text[|s.text| - 1])
  {
    ExtractedMembers(raw, s);
    var j :| 0 <= j < |raw| && Strip(raw[j].text) != [] &&
      s == Span(Strip(raw[j].text), IsBoldFont(raw[j].font));
    StripEdges(raw[j].text);
  }

  /** A raw span whose text is all whitespace contributes nothing. */
  lemma BlankSpanDropped(raw: seq<RawSpan>, r: RawSpan)
    requires forall i :: 0 <= i < |r.text| ==> IsSpace(r.text[i])
    ensures Extracted(raw + [r]) == Extracted(raw)
  {
    StripEmptyIff(r.text);
    FlatMapSnoc(Kept, raw, r);
  }
}
