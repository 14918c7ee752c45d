/**
 * The text-rule evaluator: every rule of the `texto` list is checked
 * against the extracted spans and against their concatenation, and yields
 * one result in category "Texto".
 */
module TextRules {
  import opened Wrappers
  import opened PyStr
  import opened Seqs
  import opened Spans
  import opened Results

  /**
   * The regular-expression engine, always called with `re.IGNORECASE`:
   * `search(pattern, text)` says whether `re.search` finds a match and
   * `findall(pattern, text)` is what `re.findall` returns.
   */
  datatype Regex = Regex(search: (string, string) -> bool, findall: (string, string) -> seq<string>)

  /** A real regex engine finds some match exactly when `findall` is non-empty. */
  ghost predicate Coherent(rx: Regex) {
    forall p, t :: rx.search(p, t) <==> rx.findall(p, t) != []
  }

  /** One entry of a `texto_condicional` rule's `condiciones`. */
  datatype Condition = Condition(marca: string, patron: string)

  /**
   * The rule kinds, by their `tipo` tag. `Allergens.lista` is `None` when the
   * rule has no `lista` key; `UnknownText` is any other tag.
   */
  datatype TextKind =
    | IngredientsTitle                        // "ingredientes_titulo"
    | Allergens(lista: Option<seq<string>>)   // "alergenos"
    | RegexValid(patron: string)              // "regex_valido"
    | RegexInvalid(patron: string)            // "regex_invalido"
    | TextPresence(patron: string)            // "texto"
    | ConditionalText(condiciones: seq<Condition>)  // "texto_condicional"
    | UnknownText(tipo: string)

  datatype TextRule = TextRule(nombre: string, kind: TextKind)

  /** The texts of the spans, in order. */
  function Texts(items: seq<Span>): (ts: seq<string>)
    ensures |ts| == |items| && forall i :: 0 <= i < |items| ==> ts[i] == items[i].text
  {
    seq(|items|, i requires 0 <= i < |items| => items[i].text)
  }

  /** The full text: the span texts joined with single spaces. */
  function FullText(items: seq<Span>): string {
    Join(Texts(items))
  }

  // ---------------------------------------------------------------------
  // ingredientes_titulo

  predicate IsIngredientsHeading(s: Span) {
    StartsWith(Lower(s.text), "ingredientes")
  }

  /** Index of the first span whose lower-cased text starts with "ingredientes" (`|items|` if none). */
  function FirstHeading(items: seq<Span>): (k: nat)
    ensures k <= |items|
    ensures forall j :: 0 <= j < k ==> !IsIngredientsHeading(items[j])
    ensures k < |items| ==> IsIngredientsHeading(items[k])
  {
    if items == [] then 0
    else if IsIngredientsHeading(items[0]) then 0
    else 1 + FirstHeading(items[1..])
  }

  /** The heading must be bold and not entirely upper case; no heading fails. */
  function IngredientsVerdict(items: seq<Span>): (bool, Evidence) {
    var k := FirstHeading(items);
    if k < |items| then
      (items[k].bold && !IsUpper(items[k].text), IngredientsFound(items[k].text, items[k].bold))
    else
      (false, IngredientsNotFound)
  }

  // ---------------------------------------------------------------------
  // alergenos

  /** The span mentions the allergen, comparing both upper-cased. */
  predicate Mentions(s: Span, al: string) {
    Contains(Upper(s.text), Upper(al))
  }

  /** An allergen is correctly marked in a span written in capitals and not in bold. */
  predicate WellMarked(s: Span) {
    IsUpper(s.text) && !s.bold
  }

  function MentionTest(al: string): Span -> bool {
    s => Mentions(s, al)
  }

  /** The spans that mention the allergen, in order. */
  function Matches(items: seq<Span>, al: string): seq<Span> {
    Filter(MentionTest(al), items)
  }

  /** Some span mentions the allergen and marks it well. */
  predicate MarkedWell(items: seq<Span>, al: string) {
    exists i :: 0 <= i < |items| && Mentions(items[i], al) && WellMarked(items[i])
  }

  /** `any(m.isupper() and not m.bold for m in matches)` */
  predicate AnyWellMarked(matches: seq<Span>) {
    exists m :: m in matches && WellMarked(m)
  }

  datatype AllergenClass = Correct | Incorrect | Absent

  /** Correct if some mention is well marked, otherwise Incorrect if there is any mention. */
  function Classify(items: seq<Span>, al: string): AllergenClass {
    var matches := Matches(items, al);
    if AnyWellMarked(matches) then Correct
    else if matches != [] then Incorrect
    else Absent
  }

  function ClassTest(items: seq<Span>, c: AllergenClass): string -> bool {
    al => Classify(items, al) == c
  }

  /** `buenos`: the listed allergens that are correctly marked, in list order. */
  function Good(items: seq<Span>, lista: seq<string>): seq<string> {
    Filter(ClassTest(items, Correct), lista)
  }

  /** `malos`: the listed allergens mentioned only in badly marked spans, in list order. */
  function Bad(items: seq<Span>, lista: seq<string>): seq<string> {
    Filter(ClassTest(items, Incorrect), lista)
  }

  /** Sorting one more allergen appends it to at most one of the two lists. */
  lemma SortStep(items: seq<Span>, lista: seq<string>, i: nat)
    requires i < |lista|
    ensures Good(items, lista[..i + 1]) == Good(items, lista[..i]) + (if Classify(items, lista[i]) == Correct then [lista[i]] else [])
    ensures Bad(items, lista[..i + 1]) == Bad(items, lista[..i]) + (if Classify(items, lista[i]) == Incorrect then [lista[i]] else [])
  {
    FilterStep(ClassTest(items, Correct), lista, i);
    FilterStep(ClassTest(items, Incorrect), lista, i);
  }

  /** The allergen loop: sort each listed allergen into `buenos`, `malos` or neither. */
  method SortAllergens(items: seq<Span>, lista: seq<string>) returns (buenos: seq<string>, malos: seq<string>)
    ensures buenos == Good(items, lista) && malos == Bad(items, lista)
  {
    buenos, malos := [], [];
    var i := 0;
    while i < |lista|
      invariant 0 <= i <= |lista|
      invariant buenos == Good(items, lista[..i]) && malos == Bad(items, lista[..i])
    {
      var al := lista[i];
      var matches := Matches(items, al);
      var esValido := AnyWellMarked(matches);
      SortStep(items, lista, i);
      if esValido {
        buenos := buenos + [al];
      } else if matches != [] {
        malos := malos + [al];
      }
      i := i + 1;
    }
    assert lista[..i] == lista;
  }
  /** Passes iff at least one allergen is correct; a rule without `lista` fails. */
  function AllergensVerdict(items: seq<Span>, lista: Option<seq<string>>): (bool, Evidence) {
    match lista
    case None => (false, EmptyList)
    case Some(l) =>
      var buenos := Good(items, l);
      (|buenos| > 0, AllergenLists(buenos, Bad(items, l)))
  }

  // ---------------------------------------------------------------------
  // texto_condicional

  /** Index of the first condition whose marker occurs, as written, in `upper` (`|conds|` if none). */
  function FirstMarker(conds: seq<Condition>, upper: string): (k: nat)
    ensures k <= |conds|
    ensures forall j :: 0 <= j < k ==> !Contains(upper, conds[j].marca)
    ensures k < |conds| ==> Contains(upper, conds[k].marca)
  {
    if conds == [] then 0
    else if Contains(upper, conds[0].marca) then 0
    else 1 + FirstMarker(conds[1..], upper)
  }

  /** The first present marker decides; with no marker present the rule does not apply and passes. */
  function ConditionalVerdict(conds: seq<Condition>, full: string, rx: Regex): (bool, Evidence) {
    var k := FirstMarker(conds, Upper(full));
    if k < |conds| then
      var ok := rx.search(conds[k].patron, full);
      (ok, MarkerVerdict(conds[k].marca, ok))
    else
      (true, NotApplicable)
  }

  /** The condition loop, which stops at the first marker found in the upper-cased text. */
  method EvaluateConditional(conds: seq<Condition>, full: string, upper: string, rx: Regex)
    returns (ok: bool, evidencia: Evidence)
    requires upper == Upper(full)
    ensures (ok, evidencia) == ConditionalVerdict(conds, full, rx)
  {
    ok, evidencia := true, NotApplicable;
    var i := 0;
    while i < |conds|
      invariant 0 <= i <= |conds|
      invariant forall j :: 0 <= j < i ==> !Contains(upper, conds[j].marca)
      invariant ok && evidencia == NotApplicable
    {
      var c := conds[i];
      if Contains(upper, c.marca) {
        ok := rx.search(c.patron, full);
        evidencia := MarkerVerdict(c.marca, ok);
        assert FirstMarker(conds, upper) == i;
        return;
      }
      i := i + 1;
    }
  }

  // ---------------------------------------------------------------------
  // Dispatch

  /** The verdict and evidence of one text rule. */
  function TextVerdict(items: seq<Span>, kind: TextKind, rx: Regex): (bool, Evidence) {
    var full := FullText(items);
    match kind
    case IngredientsTitle => IngredientsVerdict(items)
    case Allergens(lista) => AllergensVerdict(items, lista)
    case RegexValid(p) =>
      var ok := rx.search(p, full);
      (ok, if ok then PatternFound else PatternMissing)
    case RegexInvalid(p) =>
      var errs := rx.findall(p, full);
      (errs == [], if errs != [] then ErrorsFound(errs) else NoErrors)
    case TextPresence(p) =>
      var ok := rx.search(p, full);
      (ok, if ok then TextPresent else TextAbsent)
    case ConditionalText(conds) => ConditionalVerdict(conds, full, rx)
    case UnknownText(_) => (false, NoEvidence)
  }

  function TextResult(items: seq<Span>, r: TextRule, rx: Regex): RuleResult {
    var v := TextVerdict(items, r.kind, rx);
    RuleResult(Texto, r.nombre, v.0, v.1)
  }

  /** The results of the text rules, one per rule, in rule order. */
  function TextResults(items: seq<Span>, reglas: seq<TextRule>, rx: Regex): (res: seq<RuleResult>)
    ensures |res| == |reglas|
    ensures forall i :: 0 <= i < |reglas| ==> res[i].categoria == Texto && res[i].regla == reglas[i].nombre
  {
    seq(|reglas|, i requires 0 <= i < |reglas| => TextResult(items, reglas[i], rx))
  }

  /** Evaluates one rule, running the allergen and condition loops where the rule needs them. */
  method EvaluateTextRule(items: seq<Span>, full: string, upper: string, r: TextRule, rx: Regex)
    returns (res: RuleResult)
    requires full == FullText(items) && upper == Upper(full)
    ensures res == TextResult(items, r, rx)
  {
    var ok, evidencia := false, NoEvidence;
    match r.kind {
      case IngredientsTitle =>
        var k := FirstHeading(items);
        if k < |items| {
          ok := items[k].bold && !IsUpper(items[k].text);
          evidencia := IngredientsFound(items[k].text, items[k].bold);
        } else {
          evidencia := IngredientsNotFound;
        }
      case Allergens(lista) =>
        if lista.Some? {
          var buenos, malos := SortAllergens(items, lista.value);
          ok := |buenos| > 0;
          evidencia := AllergenLists(buenos, malos);
        } else {
          evidencia := EmptyList;
        }
      case RegexValid(p) =>
        ok := rx.search(p, full);
        evidencia := if ok then PatternFound else PatternMissing;
      case RegexInvalid(p) =>
        var errs := rx.findall(p, full);
        ok := |errs| == 0;
        evidencia := if errs != [] then ErrorsFound(errs) else NoErrors;
      case TextPresence(p) =>
        ok := rx.search(p, full);
        evidencia := if ok then TextPresent else TextAbsent;
      case ConditionalText(conds) =>
        ok, evidencia := EvaluateConditional(conds, full, upper, rx);
      case UnknownText(_) =>
    }
    res := RuleResult(Texto, r.nombre, ok, evidencia);
  }

  /** The text-rule loop: one result per rule, appended in rule order. */
  method ValidateText(items: seq<Span>, reglas: seq<TextRule>, rx: Regex) returns (resultados: seq<RuleResult>)
    ensures resultados == TextResults(items, reglas, rx)
    ensures |resultados| == |reglas|
    ensures forall i :: 0 <= i < |reglas| ==>
      resultados[i].categoria == Texto && resultados[i].regla == reglas[i].nombre
  {
    resultados := [];
    var full := FullText(items);
    var upper := Upper(full);
    var i := 0;
    while i < |reglas|
      invariant 0 <= i <= |reglas|
      invariant resultados == TextResults(items, reglas[..i], rx)
    {
      var res := EvaluateTextRule(items, full, upper, reglas[i], rx);
      resultados := resultados + [res];
      i := i + 1;
    }
    assert reglas[..i] == reglas;
  }

  // ---------------------------------------------------------------------
  // Properties

  /**
   * `ingredientes_titulo` looks only at the first heading span: it passes iff
   * there is one and it is bold and not all capitals; with no heading it
   * fails with "No encontrado".
   */
  lemma IngredientsTitlePasses(items: seq<Span>)
    ensures IngredientsVerdict(items).0 <==>
      exists k :: 0 <= k < |items| && IsIngredientsHeading(items[k]) &&
        (forall j :: 0 <= j < k ==> !IsIngredientsHeading(items[j])) &&
        items[k].bold && !IsUpper(items[k].text)
    ensures (forall k :: 0 <= k < |items| ==> !IsIngredientsHeading(items[k])) ==>
      IngredientsVerdict(items) == (false, IngredientsNotFound)
  {
    var k := FirstHeading(items);
    if exists k' :: 0 <= k' < |items| && IsIngredientsHeading(items[k']) &&
        (forall j :: 0 <= j < k' ==> !IsIngredientsHeading(items[j])) &&
        items[k'].bold && !IsUpper(items[k'].text) {
      var k' :| 0 <= k' < |items| && IsIngredientsHeading(items[k']) &&
        (forall j :: 0 <= j < k' ==> !IsIngredientsHeading(items[j])) &&
        items[k'].bold && !IsUpper(items[k'].text);
      assert k == k';
    }
  }

  /** What sorts an allergen: its class, stated directly over the spans. */
  lemma ClassifyMeaning(items: seq<Span>, al: string)
    ensures Classify(items, al) == Correct <==>
      MarkedWell(items, al)
    ensures Classify(items, al) == Incorrect <==>
      (exists i :: 0 <= i < |items| && Mentions(items[i], al)) &&
      (forall i :: 0 <= i < |items| && Mentions(items[i], al) ==> !WellMarked(items[i]))
  {
    ClassifyCorrect(items, al);
    ClassifyIncorrect(items, al);
  }

  /** The spans `Matches` keeps are exactly those that mention the allergen. */
  lemma MatchesMembers(items: seq<Span>, al: string)
    ensures forall s :: s in Matches(items, al) <==> s in items && Mentions(s, al)
  {
    forall s ensures s in Matches(items, al) <==> s in items && Mentions(s, al) {
      FilterMembers(MentionTest(al), items, s);
    }
  }

  lemma ClassifyCorrect(items: seq<Span>, al: string)
    ensures Classify(items, al) == Correct <==>
      MarkedWell(items, al)
  {
    MatchesMembers(items, al);
  }

  lemma ClassifyIncorrect(items: seq<Span>, al: string)
    ensures Classify(items, al) == Incorrect <==>
      (exists i :: 0 <= i < |items| && Mentions(items[i], al)) &&
      (forall i :: 0 <= i < |items| && Mentions(items[i], al) ==> !WellMarked(items[i]))
  {
    var matches := Matches(items, al);
    MatchesMembers(items, al);
    if matches != [] {
      assert matches[0] in matches;
    }
  }


  /**
   * An allergen lands in `buenos` iff some span mentioning it is in capitals
   * and not bold; otherwise in `malos` iff some span mentions it at all;
   * never in both.
   */
  lemma AllergenSorting(items: seq<Span>, lista: seq<string>, al: string)
    ensures al in Good(items, lista) <==>
      al in lista && MarkedWell(items, al)
    ensures al in Bad(items, lista) <==>
      al in lista && (exists i :: 0 <= i < |items| && Mentions(items[i], al)) &&
      (forall i :: 0 <= i < |items| && Mentions(items[i], al) ==> !WellMarked(items[i]))
    ensures !(al in Good(items, lista) && al in Bad(items, lista))
  {
    FilterMembers(ClassTest(items, Correct), lista, al);
    FilterMembers(ClassTest(items, Incorrect), lista, al);
    ClassifyMeaning(items, al);
  }

  /**
   * `alergenos` passes iff some listed allergen is correctly marked; a rule
   * without `lista` fails with "Lista vacía".
   */
  lemma AllergensPasses(items: seq<Span>, lista: Option<seq<string>>)
    ensures lista.None? ==> AllergensVerdict(items, lista) == (false, EmptyList)
    ensures lista.Some? ==>
      (AllergensVerdict(items, lista).0 <==>
        exists al :: al in lista.value && MarkedWell(items, al))
  {
    if lista.Some? {
      var l := lista.value;
      var correct := ClassTest(items, Correct);
      FilterNonEmpty(correct, l);
      if Good(items, l) != [] {
        var al :| al in l && correct(al);
        ClassifyCorrect(items, al);
      }
      if exists al :: al in l && MarkedWell(items, al) {
        var al :| al in l && MarkedWell(items, al);
        ClassifyCorrect(items, al);
        assert correct(al);
      }
    }
  }

  /**
   * `regex_valido` and `texto` pass iff the pattern is found, `regex_invalido`
   * iff `findall` returns nothing, and an unknown tag fails with empty
   * evidence.
   */
  lemma PatternRulesPass(items: seq<Span>, p: string, tipo: string, rx: Regex)
    ensures TextVerdict(items, RegexValid(p), rx).0 == rx.search(p, FullText(items))
    ensures TextVerdict(items, TextPresence(p), rx).0 == rx.search(p, FullText(items))
    ensures TextVerdict(items, RegexInvalid(p), rx).0 <==> rx.findall(p, FullText(items)) == []
    ensures TextVerdict(items, UnknownText(tipo), rx) == (false, NoEvidence)
  {
  }

  /** With a real regex engine, `regex_invalido` passes exactly when `regex_valido` fails. */
  lemma ForbiddenIsNegatedRequired(items: seq<Span>, p: string, rx: Regex)
    requires Coherent(rx)
    ensures TextVerdict(items, RegexInvalid(p), rx).0 <==> !TextVerdict(items, RegexValid(p), rx).0
  {
  }

  /** With no marker present in the upper-cased text, the rule passes with "N/A". */
  lemma ConditionalNoMarker(conds: seq<Condition>, full: string, rx: Regex)
    requires forall j :: 0 <= j < |conds| ==> !Contains(Upper(full), conds[j].marca)
    ensures ConditionalVerdict(conds, full, rx) == (true, NotApplicable)
  {
    assert FirstMarker(conds, Upper(full)) == |conds|;
  }

  /** The first condition whose marker is present decides: its pattern must be found in the full text. */
  lemma ConditionalFirstDecides(conds: seq<Condition>, full: string, rx: Regex, k: nat)
    requires k < |conds| && Contains(Upper(full), conds[k].marca)
    requires forall j :: 0 <= j < k ==> !Contains(Upper(full), conds[j].marca)
    ensures ConditionalVerdict(conds, full, rx) ==
      (rx.search(conds[k].patron, full), MarkerVerdict(conds[k].marca, rx.search(conds[k].patron, full)))
  {
    FirstMarkerUnique(conds, Upper(full), k);
  }

  /** Once some marker is present, conditions listed after the list never change the verdict. */
  lemma ConditionalLaterIgnored(conds: seq<Condition>, later: seq<Condition>, full: string, rx: Regex)
    requires FirstMarker(conds, Upper(full)) < |conds|
    ensures ConditionalVerdict(conds + later, full, rx) == ConditionalVerdict(conds, full, rx)
  {
    var upper := Upper(full);
    var k := FirstMarker(conds, upper);
    assert (conds + later)[k] == conds[k];
    assert forall j :: 0 <= j < k ==> (conds + later)[j] == conds[j];
    FirstMarkerUnique(conds + later, upper, k);
  }


  /** The first-marker index is the only index with its two defining properties. */
  lemma {:induction false} FirstMarkerUnique(conds: seq<Condition>, upper: string, k: nat)
    requires k < |conds| && Contains(upper, conds[k].marca)
    requires forall j :: 0 <= j < k ==> !Contains(upper, conds[j].marca)
    ensures FirstMarker(conds, upper) == k
  {
  }

  /** A marker holding a lower-case letter never fires, since markers are not upper-cased. */
  lemma LowercaseMarkerNeverFires(items: seq<Span>, c: Condition, rx: Regex, k: nat)
    requires k < |c.marca| && IsLowerChar(c.marca[k])
    ensures TextVerdict(items, ConditionalText([c]), rx) == (true, NotApplicable)
  {
    LowerNotInUpper(FullText(items), c.marca, k);
  }
}
