/**
 * The validation run: extract the spans, run the three evaluators, join
 * their results into the report, and derive the name under which the
 * report is stored.
 */
module Validator {
  import opened Spans
  import opened Results
  import opened TextRules
  import opened VisualRules
  import opened LanguageRules
  import opened Seqs

  /** The report's `estado_general`. */
  datatype Status = Aprobado | Rechazado

  /** The rule document; a list whose key is absent is empty, and so is every list of a missing document. */
  datatype RuleSet = RuleSet(texto: seq<TextRule>, visual: seq<VisualRule>, idiomas: seq<LanguageRule>)

  /** The report: `{archivo, estado_general, resultados}`. */
  datatype Report = Report(archivo: string, estadoGeneral: Status, resultados: seq<RuleResult>)

  /** The outside signals a run consults. */
  datatype Signals = Signals(rx: Regex, vision: Vision, detect: Detector)

  /** `all(r["cumple"] for r in results)` */
  function AllPass(results: seq<RuleResult>): (b: bool)
    ensures b <==> forall i :: 0 <= i < |results| ==> results[i].cumple
  {
    if results == [] then true else results[0].cumple && AllPass(results[1..])
  }

  /** The final report over the three result lists, in the order text, visual, language. */
  function BuildReport(archivo: string, txt: seq<RuleResult>, vis: seq<RuleResult>, lan: seq<RuleResult>): Report {
    var all := txt + vis + lan;
    Report(archivo, if AllPass(all) then Aprobado else Rechazado, all)
  }

  /** The report lists its three parts in order, and is approved iff every result passes. */
  lemma BuildReportLayout(archivo: string, txt: seq<RuleResult>, vis: seq<RuleResult>, lan: seq<RuleResult>)
    ensures var rep := BuildReport(archivo, txt, vis, lan);
      && rep.archivo == archivo
      && rep.resultados == txt + vis + lan
      && (rep.estadoGeneral == Aprobado <==> forall i :: 0 <= i < |rep.resultados| ==> rep.resultados[i].cumple)
  {
  }

  /** The report of one validation run. */
  function ValidationReport(archivo: string, raw: seq<RawSpan>, pages: seq<string>, reglas: RuleSet, sig: Signals): Report {
    var items := Extracted(raw);
    BuildReport(archivo,
      TextResults(items, reglas.texto, sig.rx),
      VisualResults(sig.vision, pages, reglas.visual),
      LanguageResults(sig.detect, FullText(items), reglas.idiomas))
  }

  /** One validation run over the renderer's spans and page images. */
  method Validate(archivo: string, raw: seq<RawSpan>, pages: seq<string>, reglas: RuleSet, sig: Signals)
    returns (informe: Report)
    ensures informe == ValidationReport(archivo, raw, pages, reglas, sig)
    ensures informe.estadoGeneral == Aprobado <==>
      forall i :: 0 <= i < |informe.resultados| ==> informe.resultados[i].cumple
  {
    var items := ExtractSpans(raw);
    var textoFull := FullText(items);
    var resTxt := ValidateText(items, reglas.texto, sig.rx);
    var resVis := ValidateVisual(pages, reglas.visual, sig.vision);
    var resLan := ValidateLanguages(textoFull, reglas.idiomas, sig.detect);
    var all := resTxt + resVis + resLan;
    informe := Report(archivo, if AllPass(all) then Aprobado else Rechazado, all);
  }

  // ---------------------------------------------------------------------
  // Properties

  /**
   * The report lists the text results, then the visual ones, then the
   * language ones, one per rule and in rule order, and is approved iff
   * every result passes.
   */
  lemma ReportLayout(archivo: string, raw: seq<RawSpan>, pages: seq<string>, reglas: RuleSet, sig: Signals)
    ensures var rep := ValidationReport(archivo, raw, pages, reglas, sig);
      var nt, nv := |reglas.texto|, |reglas.visual|;
      && rep.archivo == archivo
      && |rep.resultados| == nt + nv + |reglas.idiomas|
      && (forall i :: 0 <= i < nt ==>
            rep.resultados[i].categoria == Texto && rep.resultados[i].regla == reglas.texto[i].nombre)
      && (forall i :: 0 <= i < nv ==>
            rep.resultados[nt + i].categoria == Visual && rep.resultados[nt + i].regla == reglas.visual[i].nombre)
      && (forall i :: 0 <= i < |reglas.idiomas| ==>
            rep.resultados[nt + nv + i].categoria == Idiomas &&
            rep.resultados[nt + nv + i].regla == reglas.idiomas[i].nombre)
      && (rep.estadoGeneral == Aprobado <==> forall i :: 0 <= i < |rep.resultados| ==> rep.resultados[i].cumple)
  {
    var items := Extracted(raw);
    var txt := TextResults(items, reglas.texto, sig.rx);
    var vis := VisualResults(sig.vision, pages, reglas.visual);
    var lan := LanguageResults(sig.detect, FullText(items), reglas.idiomas);
    assert ValidationReport(archivo, raw, pages, reglas, sig) == BuildReport(archivo, txt, vis, lan);
    BuildReportLayout(archivo, txt, vis, lan);
    Concat3At(txt, vis, lan);
  }

  /** A missing or empty rule document gives an approved report with no results. */
  lemma EmptyRuleSetApproved(archivo: string, raw: seq<RawSpan>, pages: seq<string>, sig: Signals)
    ensures ValidationReport(archivo, raw, pages, RuleSet([], [], []), sig) == Report(archivo, Aprobado, [])
  {
    var none: seq<RuleResult> := [];
    assert none + none + none == none;
  }

  /** A single failing result rejects the report. */
  lemma FailingResultRejects(archivo: string, txt: seq<RuleResult>, vis: seq<RuleResult>, lan: seq<RuleResult>, j: nat)
    requires j < |txt + vis + lan| && !(txt + vis + lan)[j].cumple
    ensures BuildReport(archivo, txt, vis, lan).estadoGeneral == Rechazado
  {
    BuildReportLayout(archivo, txt, vis, lan);
  }

  /** A text rule with an unknown tag always rejects the document. */
  lemma UnknownTextTagRejects(archivo: string, raw: seq<RawSpan>, pages: seq<string>, reglas: RuleSet, sig: Signals, k: nat)
    requires k < |reglas.texto| && reglas.texto[k].kind.UnknownText?
    ensures ValidationReport(archivo, raw, pages, reglas, sig).estadoGeneral == Rechazado
  {
    var items := Extracted(raw);
    var txt := TextResults(items, reglas.texto, sig.rx);
    var vis := VisualResults(sig.vision, pages, reglas.visual);
    var lan := LanguageResults(sig.detect, FullText(items), reglas.idiomas);
    assert ValidationReport(archivo, raw, pages, reglas, sig) == BuildReport(archivo, txt, vis, lan);
    assert !txt[k].cumple;
    Concat3At(txt, vis, lan);
    FailingResultRejects(archivo, txt, vis, lan, k);
  }

  /** A visual rule with an unknown tag always rejects the document. */
  lemma UnknownVisualTagRejects(archivo: string, raw: seq<RawSpan>, pages: seq<string>, reglas: RuleSet, sig: Signals, k: nat)
    requires k < |reglas.visual| && reglas.visual[k].kind.UnknownVisual?
    ensures ValidationReport(archivo, raw, pages, reglas, sig).estadoGeneral == Rechazado
  {
    var items := Extracted(raw);
    var txt := TextResults(items, reglas.texto, sig.rx);
    var vis := VisualResults(sig.vision, pages, reglas.visual);
    var lan := LanguageResults(sig.detect, FullText(items), reglas.idiomas);
    assert ValidationReport(archivo, raw, pages, reglas, sig) == BuildReport(archivo, txt, vis, lan);
    assert !vis[k].cumple;
    Concat3At(txt, vis, lan);
    FailingResultRejects(archivo, txt, vis, lan, |txt| + k);
  }
}

/**
 * The name under which a report is stored: the file name without its
 * extension, with every run of characters outside `[A-Za-z0-9_-]` turned
 * into a single underscore.
 */
module SafeNames {

  /** The characters a stored name may keep: `[A-Za-z0-9_-]`. */
  predicate IsNameChar(c: char) {
    ('A' <= c <= 'Z') || ('a' <= c <= 'z') || ('0' <= c <= '9') || c == '_' || c == '-'
  }

  /** Drops the leading characters that are not name characters. */
  function SkipRun(s: string): (t: string)
    ensures |t| <= |s|
    ensures t == [] || IsNameChar(t[0])
  {
    if s != [] && !IsNameChar(s[0]) then SkipRun(s[1..]) else s
  }

  /** `re.sub(r"[^A-Za-z0-9_-]+", "_", s)` */
  function Sanitise(s: string): string
    decreases |s|
  {
    if s == [] then []
    else if IsNameChar(s[0]) then [s[0]] + Sanitise(s[1..])
    else "_" + Sanitise(SkipRun(s[1..]))
  }

  /** Index of the last `c` in `s`, or -1: `s.rfind(c)`. */
  function LastIndex(s: string, c: char): (k: int)
    ensures -1 <= k < |s|
    ensures k >= 0 ==> s[k] == c
    ensures forall j :: k < j < |s| ==> s[j] != c
  {
    if s == [] then -1
    else if s[|s| - 1] == c then |s| - 1
    else LastIndex(s[..|s| - 1], c)
  }

  /** Whether all characters of `s[a..b]` are dots. */
  predicate AllDots(s: string, a: int, b: int)
    requires 0 <= a && b <= |s|
  {
    forall j :: a <= j < b ==> s[j] == '.'
  }

  /**
   * `os.path.splitext(p)[0]` on a POSIX path: the extension starts at the
   * last dot of the last path component, unless everything before that dot
   * in the component is dots too.
   */
  function Stem(p: string): string {
    var sep := LastIndex(p, '/');
    var dot := LastIndex(p, '.');
    if dot > sep && !AllDots(p, sep + 1, dot) then p[..dot] else p
  }

  /** The stored name of a file. */
  function SafeName(filename: string): string {
    Sanitise(Stem(filename))
  }

  /** Where the report of a file is uploaded. */
  function ReportBlobPath(filename: string): string {
    "validaciones/informes/" + SafeName(filename) + "_informe.json"
  }

  // ---------------------------------------------------------------------
  // Properties

  /** A sanitised name holds only name characters, and is empty only for an empty input. */
  lemma {:induction false} SanitiseClean(s: string)
    ensures forall i :: 0 <= i < |Sanitise(s)| ==> IsNameChar(Sanitise(s)[i])
    ensures |Sanitise(s)| <= |s|
    ensures Sanitise(s) == [] <==> s == []
    decreases |s|
  {
    if s != [] {
      if IsNameChar(s[0]) {
        SanitiseClean(s[1..]);
      } else {
        SanitiseClean(SkipRun(s[1..]));
      }
    }
  }

  /** A name made only of name characters is kept as it is. */
  lemma {:induction false} SanitiseKeepsClean(s: string)
    requires forall i :: 0 <= i < |s| ==> IsNameChar(s[i])
    ensures Sanitise(s) == s
    decreases |s|
  {
    if s != [] {
      SanitiseKeepsClean(s[1..]);
    }
  }

  /** Sanitising twice changes nothing. */
  lemma SanitiseIdempotent(s: string)
    ensures Sanitise(Sanitise(s)) == Sanitise(s)
  {
    SanitiseClean(s);
    SanitiseKeepsClean(Sanitise(s));
  }

  /** A run of characters outside the class, however long, becomes one underscore. */
  lemma RunBecomesOneUnderscore(a: string, run: string, b: string)
    requires forall i :: 0 <= i < |a| ==> IsNameChar(a[i])
    requires run != [] && forall i :: 0 <= i < |run| ==> !IsNameChar(run[i])
    requires b == [] || IsNameChar(b[0])
    ensures Sanitise(a + run + b) == a + "_" + Sanitise(b)
  {
    assert a + run + b == a + (run + b);
    SanitiseAppend(a, run + b);
    SanitiseRun(run, b);
    assert a + ("_" + Sanitise(b)) == a + "_" + Sanitise(b);
  }

  lemma SanitiseRun(run: string, b: string)
    requires run != [] && forall i :: 0 <= i < |run| ==> !IsNameChar(run[i])
    requires b == [] || IsNameChar(b[0])
    ensures Sanitise(run + b) == "_" + Sanitise(b)
  {
    var rb := run + b;
    assert rb[0] == run[0] && !IsNameChar(rb[0]);
    SkipRunAll(run, b);
    assert SkipRun(rb[1..]) == SkipRun(rb) == b;
    assert Sanitise(rb) == "_" + Sanitise(SkipRun(rb[1..]));
  }

  lemma {:induction false} SkipRunAll(run: string, b: string)
    requires forall i :: 0 <= i < |run| ==> !IsNameChar(run[i])
    requires b == [] || IsNameChar(b[0])
    ensures SkipRun(run + b) == b
    decreases |run|
  {
    if run == [] {
      assert run + b == b;
    } else {
      var rb := run + b;
      var tail := run[1..];
      assert rb[0] == run[0] && !IsNameChar(rb[0]);
      assert rb[1..] == tail + b;
      forall i | 0 <= i < |tail| ensures !IsNameChar(tail[i]) {
        assert tail[i] == run[i + 1];
      }
      SkipRunAll(tail, b);
      assert SkipRun(rb) == SkipRun(rb[1..]);
    }
  }

  lemma {:induction false} SanitiseAppend(a: string, rest: string)
    requires forall i :: 0 <= i < |a| ==> IsNameChar(a[i])
    ensures Sanitise(a + rest) == a + Sanitise(rest)
    decreases |a|
  {
    if a == [] {
      assert a + rest == rest;
    } else {
      var ar := a + rest;
      var tail := a[1..];
      assert ar[0] == a[0] && IsNameChar(ar[0]);
      assert ar[1..] == tail + rest;
      forall i | 0 <= i < |tail| ensures IsNameChar(tail[i]) {
        assert tail[i] == a[i + 1];
      }
      SanitiseAppend(tail, rest);
      calc {
        Sanitise(ar);
        [ar[0]] + Sanitise(ar[1..]);
        [a[0]] + (tail + Sanitise(rest));
        ([a[0]] + tail) + Sanitise(rest);
        { assert [a[0]] + tail == a; }
        a + Sanitise(rest);
      }
    }
  }

  /**
   * `p[k]` is the dot that starts an extension: no '/' or '.' follows it,
   * and the last path component has something other than dots before it.
   */
  predicate ExtensionDot(p: string, k: int) {
    && 0 <= k < |p| && p[k] == '.'
    && (forall j :: k < j < |p| ==> p[j] != '/' && p[j] != '.')
    && (exists j :: LastIndex(p, '/') < j < k && p[j] != '.')
  }

  /**
   * The stem is the path with a final extension cut off when it has one,
   * and the whole path when it has none.
   */
  lemma StemShape(p: string)
    ensures var st := Stem(p);
      && |st| <= |p| && st == p[..|st|]
      && (st != p ==> ExtensionDot(p, |st|))
    ensures forall k :: ExtensionDot(p, k) ==> Stem(p) == p[..k]
  {
    var sep := LastIndex(p, '/');
    var dot := LastIndex(p, '.');
    forall k | ExtensionDot(p, k)
      ensures Stem(p) == p[..k]
    {
      assert dot == k;
      var j :| sep < j < k && p[j] != '.';
      assert !AllDots(p, sep + 1, dot);
    }
  }

  /** A stored name holds no '/' and no '.', so the report path never leaves its folder. */
  lemma SafeNameStaysInFolder(filename: string)
    ensures '/' !in SafeName(filename) && '.' !in SafeName(filename)
    ensures var path := ReportBlobPath(filename);
      path[..22] == "validaciones/informes/" && forall j :: 22 <= j < |path| ==> path[j] != '/'
  {
    SanitiseClean(Stem(filename));
    var name := SafeName(filename);
    var path := ReportBlobPath(filename);
    assert path == "validaciones/informes/" + (name + "_informe.json");
    forall j | 22 <= j < |path| ensures path[j] != '/' {
      if j < 22 + |name| {
        assert path[j] == name[j - 22];
      }
    }
  }
}
