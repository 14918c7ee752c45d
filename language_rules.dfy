/**
 * The language-rule evaluator: the languages of the full text are detected
 * once, and every rule of the `idiomas` list asks for a minimum number of
 * them.
 */
module LanguageRules {
  import opened Wrappers
  import opened PyStr
  import opened Results

  /**
   * The language detector: for a text, each language it finds as the
   * detector prints it ("es:0.857..."), or None when it raises.
   */
  type Detector = string -> Option<seq<string>>

  /** A language rule; `minIdiomas` is None when the rule has no `min_idiomas` key. */
  datatype LanguageRule = LanguageRule(nombre: string, minIdiomas: Option<int>)

  /** The texts shorter than this many characters, plus one, are not given to the detector. */
  const MinDetectLength: nat := 10

  /** `str(l).split(':')[0]`: the language code of one detection. */
  function CodeOf(l: string): string {
    Before(l, ':')
  }

  /** The set of detected language codes; empty for a short text or a detector failure. */
  function Detected(detect: Detector, texto: string): set<string> {
    if |texto| > MinDetectLength then
      match detect(texto)
      case Some(langs) => set l | l in langs :: CodeOf(l)
      case None => {}
    else {}
  }

  /** `r.get("min_idiomas", 1)` */
  function MinLanguages(r: LanguageRule): int {
    match r.minIdiomas
    case Some(m) => m
    case None => 1
  }

  function LanguageResult(detectados: set<string>, r: LanguageRule): RuleResult {
    RuleResult(Idiomas, r.nombre, |detectados| >= MinLanguages(r), Languages(detectados))
  }

  /** The results of the language rules, one per rule, in rule order. */
  function LanguageResults(detect: Detector, texto: string, reglas: seq<LanguageRule>): (res: seq<RuleResult>)
    ensures |res| == |reglas|
    ensures forall i :: 0 <= i < |reglas| ==> res[i].categoria == Idiomas && res[i].regla == reglas[i].nombre
  {
    var detectados := Detected(detect, texto);
    seq(|reglas|, i requires 0 <= i < |reglas| => LanguageResult(detectados, reglas[i]))
  }

  /** The language-rule loop; with no rules the detector is not run at all. */
  method ValidateLanguages(texto: string, reglas: seq<LanguageRule>, detect: Detector) returns (res: seq<RuleResult>)
    ensures res == LanguageResults(detect, texto, reglas)
    ensures |res| == |reglas|
    ensures forall i :: 0 <= i < |reglas| ==> res[i].categoria == Idiomas && res[i].regla == reglas[i].nombre
  {
    res := [];
    if |reglas| == 0 {
      return;
    }
    var detectados: set<string> := {};
    if |texto| > MinDetectLength {
      var langs := detect(texto);
      if langs.Some? {
        detectados := set l | l in langs.value :: CodeOf(l);
      }
    }
    var i := 0;
    while i < |reglas|
      invariant 0 <= i <= |reglas|
      invariant detectados == Detected(detect, texto)
      invariant res == LanguageResults(detect, texto, reglas[..i])
    {
      var r := reglas[i];
      var ok := |detectados| >= MinLanguages(r);
      res := res + [RuleResult(Idiomas, r.nombre, ok, Languages(detectados))];
      i := i + 1;
    }
    assert reglas[..i] == reglas;
  }

  // ---------------------------------------------------------------------
  // Properties

  /**
   * Every language rule passes iff at least `min_idiomas` (default 1)
   * distinct codes were detected, and its evidence is the detected codes.
   */
  lemma LanguagePasses(detect: Detector, texto: string, reglas: seq<LanguageRule>, i: nat)
    requires i < |reglas|
    ensures var res := LanguageResults(detect, texto, reglas);
      |res| == |reglas| &&
      (res[i].cumple <==> |Detected(detect, texto)| >= MinLanguages(reglas[i])) &&
      res[i].evidencia == Languages(Detected(detect, texto))
  {
  }

  /** A text of at most 10 characters is never given to the detector: nothing is detected. */
  lemma ShortTextDetectsNothing(detect: Detector, texto: string)
    requires |texto| <= 10
    ensures Detected(detect, texto) == {}
  {
  }

  /** The detected codes are the parts before ':' of what the detector printed, all distinct. */
  lemma DetectedCodes(detect: Detector, texto: string, code: string)
    requires |texto| > 10 && detect(texto).Some?
    ensures code in Detected(detect, texto) <==>
      exists l :: l in detect(texto).value && Before(l, ':') == code
    ensures ':' !in code || code !in Detected(detect, texto)
  {
  }

  /** With no language rules there are no language results. */
  lemma NoLanguageRules(detect: Detector, texto: string)
    ensures LanguageResults(detect, texto, []) == []
  {
  }
}
