/**
 * The visual-rule evaluator: every rule of the `visual` list walks the
 * rendered pages in order, stops at the first page that settles it, and
 * yields one result in category "Visual".
 */
module VisualRules {
  import opened Wrappers
  import opened PyStr
  import opened Results
  import opened Seqs

  /** The matcher's default similarity threshold, and the fixed one for prohibited templates. */
  const DefaultThreshold: real := 0.3

  /** What matching a template inside a page image gives: an image that will not load, a matcher fault, or the best similarity. */
  datatype MatchScore = Unreadable | MatcherFault(msg: string) | Score(maxVal: real)

  /** What the OCR service returns for one page: the recognised text and an error message (None when there is none). */
  datatype OcrReply = OcrReply(txt: string, err: Option<string>)

  /**
   * The visual signals: whether a template asset exists (by its path
   * relative to the assets folder), the matcher's outcome for a page image
   * and a template, and the OCR service's reply for a page image.
   */
  datatype Vision = Vision(
    assetExists: string -> bool,
    score: (string, string) -> MatchScore,
    ocr: string -> OcrReply)

  /**
   * The rule kinds, by their `tipo` tag. In `TemplateMatch`, `templates` is
   * `None` when the rule has no `templates` key and `template`/`umbral` are
   * `None` when those keys are absent.
   */
  datatype VisualKind =
    | TemplateMatch(templates: Option<seq<Option<string>>>, template: Option<string>, umbral: Option<real>)  // "template_match"
    | TemplateForbidden(forbidden: string, umbral: Option<real>)  // "template_prohibido", `forbidden` is its `template` key
    | OcrText(patrones: seq<string>)                             // "ocr_text"
    | UnknownVisual(tipo: string)

  datatype VisualRule = VisualRule(nombre: string, kind: VisualKind)

  // ---------------------------------------------------------------------
  // The template decision

  /**
   * Looks for a template in a page image. A missing asset, an unreadable
   * image or a matcher fault fails whatever `prohibido` says; otherwise the
   * template is found when the similarity reaches `umbral`, and the check
   * passes when it is found (or, for a prohibition, when it is not).
   */
  function DetectTemplate(v: Vision, img: string, t: string, umbral: real, prohibido: bool): (bool, Evidence) {
    if !v.assetExists(t) then (false, TemplateMissing(t))
    else
      match v.score(img, t)
      case Unreadable => (false, ImagesUnreadable)
      case MatcherFault(msg) => (false, MatcherError(msg))
      case Score(x) =>
        var encontrado := x >= umbral;
        (if prohibido then !encontrado else encontrado, Similarity(x, umbral, prohibido))
  }

  /** `if t:` — a template entry that is absent or empty is skipped. */
  predicate Usable(t: Option<string>) {
    t.Some? && t.value != ""
  }

  /** `r.get("templates", [r.get("template")])` */
  function TemplateList(templates: Option<seq<Option<string>>>, template: Option<string>): seq<Option<string>> {
    match templates
    case Some(ts) => ts
    case None => [template]
  }

  /** `r.get("umbral", 0.3)` */
  function Threshold(umbral: Option<real>): real {
    match umbral
    case Some(u) => u
    case None => DefaultThreshold
  }

  // ---------------------------------------------------------------------
  // template_match

  /** A usable template that is found on the page. */
  predicate Hit(v: Vision, img: string, t: Option<string>, umbral: real) {
    Usable(t) && DetectTemplate(v, img, t.value, umbral, false).0
  }

  /** Index of the first template found on the page (`|tmpls|` if none). */
  function FirstHit(v: Vision, img: string, tmpls: seq<Option<string>>, umbral: real): (k: nat)
    ensures k <= |tmpls|
    ensures forall j :: 0 <= j < k ==> !Hit(v, img, tmpls[j], umbral)
    ensures k < |tmpls| ==> Hit(v, img, tmpls[k], umbral)
  {
    if tmpls == [] then 0
    else if Hit(v, img, tmpls[0], umbral) then 0
    else 1 + FirstHit(v, img, tmpls[1..], umbral)
  }

  /** The first page with a found template decides, with the first such template on it. */
  function TemplateMatchVerdict(v: Vision, pages: seq<string>, tmpls: seq<Option<string>>, umbral: real): (bool, Evidence)
    decreases |pages|
  {
    if pages == [] then (false, NotEvaluated)
    else
      var k := FirstHit(v, pages[0], tmpls, umbral);
      if k < |tmpls| then
        (true, Logo(tmpls[k].value, DetectTemplate(v, pages[0], tmpls[k].value, umbral, false).1))
      else
        TemplateMatchVerdict(v, pages[1..], tmpls, umbral)
  }

  /** The page loop with the template loop inside it, both left at the first template found. */
  method EvaluateTemplateMatch(v: Vision, pages: seq<string>, tmpls: seq<Option<string>>, umbral: real)
    returns (ok: bool, evidencia: Evidence)
    ensures (ok, evidencia) == TemplateMatchVerdict(v, pages, tmpls, umbral)
  {
    ok, evidencia := false, NotEvaluated;
    var i := 0;
    while i < |pages|
      invariant 0 <= i <= |pages|
      invariant !ok && evidencia == NotEvaluated
      invariant TemplateMatchVerdict(v, pages, tmpls, umbral) == TemplateMatchVerdict(v, pages[i..], tmpls, umbral)
    {
      var img := pages[i];
      var j := 0;
      while j < |tmpls|
        invariant 0 <= j <= |tmpls|
        invariant !ok && evidencia == NotEvaluated
        invariant forall q :: 0 <= q < j ==> !Hit(v, img, tmpls[q], umbral)
      {
        var t := tmpls[j];
        if t.Some? && t.value != "" {
          var d := DetectTemplate(v, img, t.value, umbral, false);
          if d.0 {
            ok, evidencia := true, Logo(t.value, d.1);
            assert FirstHit(v, img, tmpls, umbral) == j;
            break;
          }
        }
        j := j + 1;
      }
      if ok {
        break;
      }
      assert FirstHit(v, img, tmpls, umbral) == |tmpls|;
      assert pages[i..][1..] == pages[i + 1..];
      i := i + 1;
    }
  }

  // ---------------------------------------------------------------------
  // template_prohibido

  /** A prohibited template is looked for with the default threshold, whatever the rule says. */
  function ProhibitedPage(v: Vision, img: string, t: string): (bool, Evidence) {
    DetectTemplate(v, img, t, DefaultThreshold, true)
  }

  /** Every page must be free of the template; the first page that is not decides, else the last page's check stands. */
  function ProhibitedVerdict(v: Vision, pages: seq<string>, t: string): (bool, Evidence)
    decreases |pages|
  {
    if pages == [] then (false, NotEvaluated)
    else
      var d := ProhibitedPage(v, pages[0], t);
      if !d.0 || |pages| == 1 then d else ProhibitedVerdict(v, pages[1..], t)
  }

  /** The page loop for a prohibited template, left at the first page that fails. */
  method EvaluateProhibited(v: Vision, pages: seq<string>, t: string) returns (ok: bool, evidencia: Evidence)
    ensures (ok, evidencia) == ProhibitedVerdict(v, pages, t)
  {
    ok, evidencia := false, NotEvaluated;
    var i := 0;
    while i < |pages|
      invariant 0 <= i <= |pages|
      invariant i == 0 ==> !ok && evidencia == NotEvaluated
      invariant 0 < i ==> ok
      invariant i < |pages| ==> ProhibitedVerdict(v, pages, t) == ProhibitedVerdict(v, pages[i..], t)
      invariant 0 < i == |pages| ==> (ok, evidencia) == ProhibitedVerdict(v, pages, t)
    {
      var d := DetectTemplate(v, pages[i], t, DefaultThreshold, true);
      ok, evidencia := d.0, d.1;
      if !ok {
        break;
      }
      assert pages[i..][1..] == pages[i + 1..];
      i := i + 1;
    }
  }

  // ---------------------------------------------------------------------
  // ocr_text

  /** `re.sub(r'\s+', ' ', txt.upper()).strip()` */
  function Normalise(txt: string): string {
    Strip(CollapseSpaces(Upper(txt)))
  }

  /** `any(p.upper() in norm for p in patrones)` */
  predicate AnyPattern(patrones: seq<string>, norm: string) {
    exists j :: 0 <= j < |patrones| && Contains(norm, Upper(patrones[j]))
  }

  /** `if err:` — only a present, non-empty error message counts as an error. */
  predicate ErrorReported(err: Option<string>) {
    err.Some? && err.value != ""
  }

  /** The check of one page: an OCR error fails it, otherwise some pattern must occur in the normalised text. */
  function OcrPage(v: Vision, img: string, patrones: seq<string>): (bool, Evidence) {
    var reply := v.ocr(img);
    if ErrorReported(reply.err) then (false, OcrError(reply.err.value))
    else
      var norm := Normalise(reply.txt);
      var ok := AnyPattern(patrones, norm);
      (ok, if ok then OcrOk else OcrRead(Prefix(norm, 50)))
  }

  /** The per-page OCR check of a rule, as a function of the page image. */
  function OcrCheck(v: Vision, patrones: seq<string>): string -> (bool, Evidence) {
    img => OcrPage(v, img, patrones)
  }

  /** The first page that passes decides; otherwise the last page's check stands. */
  function OcrVerdict(v: Vision, pages: seq<string>, patrones: seq<string>): (bool, Evidence) {
    UntilPass(OcrCheck(v, patrones), pages, NotEvaluated)
  }


  /** The page loop for an OCR rule, left at the first page that passes. */
  method EvaluateOcr(v: Vision, pages: seq<string>, patrones: seq<string>) returns (ok: bool, evidencia: Evidence)
    ensures (ok, evidencia) == OcrVerdict(v, pages, patrones)
  {
    ok, evidencia := false, NotEvaluated;
    var i := 0;
    while i < |pages|
      invariant 0 <= i <= |pages|
      invariant i == 0 ==> !ok && evidencia == NotEvaluated
      invariant 0 < i ==> !ok
      invariant i < |pages| ==> OcrVerdict(v, pages, patrones) == OcrVerdict(v, pages[i..], patrones)
      invariant 0 < i == |pages| ==> (ok, evidencia) == OcrVerdict(v, pages, patrones)
    {
      var page := OcrPage(v, pages[i], patrones);
      ok, evidencia := page.0, page.1;
      if ok {
        break;
      }
      assert pages[i..][1..] == pages[i + 1..];
      i := i + 1;
    }
  }

  // ---------------------------------------------------------------------
  // Dispatch

  /** The verdict and evidence of one visual rule; an unknown tag is never evaluated and fails. */
  function VisualVerdict(v: Vision, pages: seq<string>, kind: VisualKind): (bool, Evidence) {
    match kind
    case TemplateMatch(templates, template, umbral) =>
      TemplateMatchVerdict(v, pages, TemplateList(templates, template), Threshold(umbral))
    case TemplateForbidden(t, _) => ProhibitedVerdict(v, pages, t)
    case OcrText(patrones) => OcrVerdict(v, pages, patrones)
    case UnknownVisual(_) => (false, NotEvaluated)
  }

  function VisualResult(v: Vision, pages: seq<string>, r: VisualRule): RuleResult {
    var d := VisualVerdict(v, pages, r.kind);
    RuleResult(Visual, r.nombre, d.0, d.1)
  }

  /** The results of the visual rules, one per rule, in rule order. */
  function VisualResults(v: Vision, pages: seq<string>, reglas: seq<VisualRule>): (res: seq<RuleResult>)
    ensures |res| == |reglas|
    ensures forall i :: 0 <= i < |reglas| ==> res[i].categoria == Visual && res[i].regla == reglas[i].nombre
  {
    seq(|reglas|, i requires 0 <= i < |reglas| => VisualResult(v, pages, reglas[i]))
  }

  /**
   * Evaluates one rule. The rule's tag does not change from page to page,
   * so the dispatch on it is done once, before the page loop.
   */
  method EvaluateVisualRule(v: Vision, pages: seq<string>, r: VisualRule) returns (res: RuleResult)
    ensures res == VisualResult(v, pages, r)
  {
    var ok, evidencia := false, NotEvaluated;
    match r.kind {
      case TemplateMatch(templates, template, umbral) =>
        ok, evidencia := EvaluateTemplateMatch(v, pages, TemplateList(templates, template), Threshold(umbral));
      case TemplateForbidden(t, _) =>
        ok, evidencia := EvaluateProhibited(v, pages, t);
      case OcrText(patrones) =>
        ok, evidencia := EvaluateOcr(v, pages, patrones);
      case UnknownVisual(_) =>
    }
    res := RuleResult(Visual, r.nombre, ok, evidencia);
  }

  /** The visual-rule loop: one result per rule, appended in rule order. */
  method ValidateVisual(pages: seq<string>, reglas: seq<VisualRule>, v: Vision) returns (resultados: seq<RuleResult>)
    ensures resultados == VisualResults(v, pages, reglas)
    ensures |resultados| == |reglas|
    ensures forall i :: 0 <= i < |reglas| ==>
      resultados[i].categoria == Visual && resultados[i].regla == reglas[i].nombre
  {
    resultados := [];
    if |reglas| == 0 {
      return;
    }
    var i := 0;
    while i < |reglas|
      invariant 0 <= i <= |reglas|
      invariant resultados == VisualResults(v, pages, reglas[..i])
    {
      var res := EvaluateVisualRule(v, pages, reglas[i]);
      resultados := resultados + [res];
      i := i + 1;
    }
    assert reglas[..i] == reglas;
  }

  // ---------------------------------------------------------------------
  // Properties

  /**
   * The template decision: the check passes iff the asset exists, the
   * matcher gives a similarity, and that similarity reaches the threshold
   * (stays under it, for a prohibition). A missing asset fails either way.
   */
  lemma TemplateDecision(v: Vision, img: string, t: string, umbral: real, prohibido: bool)
    ensures DetectTemplate(v, img, t, umbral, prohibido).0 <==>
      v.assetExists(t) && v.score(img, t).Score? &&
      (if prohibido then v.score(img, t).maxVal < umbral else v.score(img, t).maxVal >= umbral)
    ensures !v.assetExists(t) ==> DetectTemplate(v, img, t, umbral, prohibido) == (false, TemplateMissing(t))
  {
  }

  /**
   * `template_match` passes iff some page and some usable template match;
   * when it fails its evidence is always "No evaluado".
   */
  lemma {:induction false} TemplateMatchPasses(v: Vision, pages: seq<string>, tmpls: seq<Option<string>>, umbral: real)
    ensures TemplateMatchVerdict(v, pages, tmpls, umbral).0 <==>
      exists i, j :: 0 <= i < |pages| && 0 <= j < |tmpls| && Hit(v, pages[i], tmpls[j], umbral)
    ensures !TemplateMatchVerdict(v, pages, tmpls, umbral).0 ==>
      TemplateMatchVerdict(v, pages, tmpls, umbral).1 == NotEvaluated
    decreases |pages|
  {
    if pages != [] {
      TemplateMatchPasses(v, pages[1..], tmpls, umbral);
      var k := FirstHit(v, pages[0], tmpls, umbral);
      if exists i, j :: 0 <= i < |pages| && 0 <= j < |tmpls| && Hit(v, pages[i], tmpls[j], umbral) {
        var i, j :| 0 <= i < |pages| && 0 <= j < |tmpls| && Hit(v, pages[i], tmpls[j], umbral);
        if i > 0 && k == |tmpls| {
          assert pages[1..][i - 1] == pages[i];
        }
      }
      if k == |tmpls| && TemplateMatchVerdict(v, pages[1..], tmpls, umbral).0 {
        var i, j :| 0 <= i < |pages[1..]| && 0 <= j < |tmpls| && Hit(v, pages[1..][i], tmpls[j], umbral);
        assert pages[i + 1] == pages[1..][i];
      }
    }
  }

  /** Once a `template_match` passes on some pages, later pages are never consulted. */
  lemma {:induction false} TemplateMatchStops(v: Vision, pages: seq<string>, more: seq<string>, tmpls: seq<Option<string>>, umbral: real)
    requires TemplateMatchVerdict(v, pages, tmpls, umbral).0
    ensures TemplateMatchVerdict(v, pages + more, tmpls, umbral) == TemplateMatchVerdict(v, pages, tmpls, umbral)
    decreases |pages|
  {
    assert (pages + more)[0] == pages[0];
    if FirstHit(v, pages[0], tmpls, umbral) == |tmpls| {
      assert (pages + more)[1..] == pages[1..] + more;
      TemplateMatchStops(v, pages[1..], more, tmpls, umbral);
    }
  }

  /**
   * `template_prohibido` passes iff there is at least one page and the
   * template is cleanly absent (asset present, similarity under 0.3) on
   * every page.
   */
  lemma {:induction false} ProhibitedPasses(v: Vision, pages: seq<string>, t: string)
    ensures ProhibitedVerdict(v, pages, t).0 <==>
      |pages| > 0 && forall i :: 0 <= i < |pages| ==> ProhibitedPage(v, pages[i], t).0
    decreases |pages|
  {
    if |pages| > 1 {
      ProhibitedPasses(v, pages[1..], t);
      if ProhibitedPage(v, pages[0], t).0 && ProhibitedVerdict(v, pages[1..], t).0 {
        forall i | 0 <= i < |pages| ensures ProhibitedPage(v, pages[i], t).0 {
          if i > 0 {
            assert pages[1..][i - 1] == pages[i];
          }
        }
      }
      if forall i :: 0 <= i < |pages| ==> ProhibitedPage(v, pages[i], t).0 {
        assert forall i :: 0 <= i < |pages[1..]| ==> pages[1..][i] == pages[i + 1];
      }
    }
  }

  /** When `template_prohibido` passes, its evidence is the last page's check. */
  lemma {:induction false} ProhibitedPassLastPage(v: Vision, pages: seq<string>, t: string)
    requires ProhibitedVerdict(v, pages, t).0
    ensures |pages| > 0 && ProhibitedVerdict(v, pages, t) == ProhibitedPage(v, pages[|pages| - 1], t)
    decreases |pages|
  {
    if |pages| > 1 {
      ProhibitedPassLastPage(v, pages[1..], t);
      assert pages[1..][|pages| - 2] == pages[|pages| - 1];
    }
  }

  /** A page on which the prohibited template is found, or its asset is missing, fails the rule. */
  lemma ProhibitedFoundFails(v: Vision, pages: seq<string>, t: string, i: nat)
    requires i < |pages|
    requires !v.assetExists(t) || (v.score(pages[i], t).Score? && v.score(pages[i], t).maxVal >= DefaultThreshold)
    ensures !ProhibitedVerdict(v, pages, t).0
  {
    ProhibitedPasses(v, pages, t);
  }

  /** Once a `template_prohibido` fails on some page, later pages are never consulted. */
  lemma {:induction false} ProhibitedStops(v: Vision, pages: seq<string>, more: seq<string>, t: string)
    requires pages != [] && !ProhibitedVerdict(v, pages, t).0
    ensures ProhibitedVerdict(v, pages + more, t) == ProhibitedVerdict(v, pages, t)
    decreases |pages|
  {
    assert (pages + more)[0] == pages[0];
    if ProhibitedPage(v, pages[0], t).0 {
      assert (pages + more)[1..] == pages[1..] + more;
      ProhibitedStops(v, pages[1..], more, t);
    }
  }

  /** The threshold written in a `template_prohibido` rule has no effect. */
  lemma ProhibitedIgnoresThreshold(v: Vision, pages: seq<string>, t: string, u1: Option<real>, u2: Option<real>)
    ensures VisualVerdict(v, pages, TemplateForbidden(t, u1)) == VisualVerdict(v, pages, TemplateForbidden(t, u2))
    ensures VisualVerdict(v, pages, TemplateForbidden(t, u1)) == ProhibitedVerdict(v, pages, t)
  {
  }

  /**
   * An OCR page passes iff the service reported no error and some
   * upper-cased pattern occurs in the normalised text.
   */
  lemma OcrPagePasses(v: Vision, img: string, patrones: seq<string>)
    ensures OcrPage(v, img, patrones).0 <==>
      !ErrorReported(v.ocr(img).err) &&
      exists j :: 0 <= j < |patrones| && Contains(Normalise(v.ocr(img).txt), Upper(patrones[j]))
  {
  }

  /** `ocr_text` passes iff some page passes. */
  lemma OcrPasses(v: Vision, pages: seq<string>, patrones: seq<string>)
    ensures OcrVerdict(v, pages, patrones).0 <==>
      exists i :: 0 <= i < |pages| && OcrPage(v, pages[i], patrones).0
  {
    UntilPassIff(OcrCheck(v, patrones), pages, NotEvaluated);
  }

  /** Once an `ocr_text` rule passes on some page, later pages are never sent to the service. */
  lemma OcrStops(v: Vision, pages: seq<string>, more: seq<string>, patrones: seq<string>)
    requires OcrVerdict(v, pages, patrones).0
    ensures OcrVerdict(v, pages + more, patrones) == OcrVerdict(v, pages, patrones)
  {
    UntilPassStops(OcrCheck(v, patrones), pages, more, NotEvaluated);
  }


  /** With no pages, every visual rule fails with "No evaluado". */
  lemma NoPagesNotEvaluated(v: Vision, kind: VisualKind)
    ensures VisualVerdict(v, [], kind) == (false, NotEvaluated)
  {
  }
}
