# PDF compliance validator — a verified model

This project models the decision logic of the packaging PDF validator in
`api_pdf_validator/__init__.py`. The validator takes the styled text spans of a PDF,
the rendered page images, and a rule document with three lists: `texto`, `visual`
and `idiomas`. It checks every rule and produces one result
`{categoria, regla, cumple, evidencia}` per rule. It then joins the results into a
report whose `estado_general` is `Aprobado` exactly when every result passes, and
stores that report under a sanitised file name.

The model is organised as follows:

- `pystr.dfy` holds the Python string behaviour the validator relies on: `isspace`,
  `upper`, `lower`, `isupper`, `strip`, `startswith`, substring `in`, `" ".join` and
  whitespace collapsing (module `PyStr`).
- `wrappers.dfy` (module `Wrappers`) holds `Option`, and `seqs.dfy` (module `Seqs`)
  holds the generic list helpers `FlatMap`, `Filter` and `UntilPass`.
- `spans.dfy` (module `Spans`) is span extraction and the bold-font heuristic.
- `results.dfy` (module `Results`) is the result record. Its evidence is a datatype
  with one constructor per message the validator writes.
- `text_rules.dfy` (module `TextRules`) covers `ingredientes_titulo`, `alergenos`,
  `regex_valido`, `regex_invalido`, `texto`, `texto_condicional` and unknown tags.
- `visual_rules.dfy` (module `VisualRules`) covers the template decision,
  `template_match`, `template_prohibido`, `ocr_text` and unknown tags.
- `language_rules.dfy` (module `LanguageRules`) covers the `idiomas` rules.
- `validator.dfy` holds the whole run and the report (module `Validator`), plus the
  `safe_name` sanitiser and the report's storage path (module `SafeNames`).
- `scenarios.dfy` (module `Scenarios`) works through concrete cases: the ingredients
  heading, the GLUTEN allergen, and a prohibited logo.

Each loop of the source is a method with a `while` loop: the span loop, the rule
loops, the allergen loop, the condition loop, and the page and template loops. Each
such method is proved equal to a specification function. The properties are lemmas
about those functions.

The outside signals are parameters:

- the regex engine (`search`, `findall`);
- whether a template asset exists;
- the template matcher's best similarity for a page and a template;
- the OCR reply for a page;
- the language detector.

Behaviour of the code that may surprise a reader, all of which the model reproduces:

- Language detection runs only when the text has more than 10 characters (`:224`).
  A text of exactly 10 characters detects nothing.
- The `texto_condicional` marker is compared as written against the upper-cased
  text (`:167`), not case-insensitively. A marker holding a lower-case letter never
  fires (`TextRules.LowercaseMarkerNeverFires`).
- A failing `template_match` always reports "No evaluado" (`:182`, `:192`), even when
  pages and templates were examined.
- An OCR error fails only the page it happened on. Later pages are still read, and a
  rule that passes on no page keeps the last page's evidence (`:208-215`).
- `alergenos` passes as soon as one allergen is correctly marked (`:147`). Badly
  marked allergens do not make it fail, even though the comment on `:146` says they
  should.

## Model

| member | source | states |
|---|---|---|
| `PyStr.StripShape` | api_pdf_validator/__init__.py:58 | `strip()` returns the piece of the text left after removing a run of whitespace from each end, and that piece has no whitespace at either end |
| `PyStr.StripEmptyIff` | api_pdf_validator/__init__.py:58-59 | the stripped text is empty exactly when the raw text is all whitespace, so only such spans are dropped |
| `PyStr.StripIdempotent` | api_pdf_validator/__init__.py:58 | stripping an already stripped span text changes nothing |
| `PyStr.IsUpperFixedByUpper` | api_pdf_validator/__init__.py:140 | a text for which `isupper()` holds is left unchanged by `upper()` |
| `PyStr.LowerNotInUpper` | api_pdf_validator/__init__.py:167 | a string holding a lower-case letter never occurs in an upper-cased text |
| `PyStr.ContainsIff` | api_pdf_validator/__init__.py:138 | the `in` substring test holds iff the needle occurs at some position of the text |
| `Spans.ExtractSpans` | api_pdf_validator/__init__.py:50-65 | the span loop appends exactly the spans of `Extracted`, in reading order |
| `Spans.ExtractedMembers` | api_pdf_validator/__init__.py:58-63 | a span is produced iff some raw span has non-empty stripped text equal to its text, and its `bold` is the font verdict ("bold", "black" or "negrita" in the lower-cased font name) |
| `Spans.ExtractedClean` | api_pdf_validator/__init__.py:58-59 | every produced span has non-empty text with no whitespace at either end |
| `Spans.BlankSpanDropped` | api_pdf_validator/__init__.py:59 | a raw span whose text is all whitespace adds nothing to the span list |
| `TextRules.FirstHeading` | api_pdf_validator/__init__.py:127 | the index found is the first span whose lower-cased text starts with "ingredientes"; no earlier span does |
| `TextRules.IngredientsTitlePasses` | api_pdf_validator/__init__.py:126-131 | `ingredientes_titulo` passes iff the first heading span exists, is bold and is not `isupper()`; with no heading it fails with "No encontrado" |
| `TextRules.SortStep` | api_pdf_validator/__init__.py:137-144 | sorting one more allergen appends it to `buenos` if correct, to `malos` if incorrect, and to neither otherwise |
| `TextRules.SortAllergens` | api_pdf_validator/__init__.py:134-145 | the allergen loop yields exactly `Good` and `Bad` of the list, in list order |
| `TextRules.ClassifyMeaning` | api_pdf_validator/__init__.py:138-144 | an allergen is correct iff some span mentioning it (case-insensitively) is `isupper()` and not bold; it is incorrect iff it is mentioned and no mention is like that |
| `TextRules.AllergenSorting` | api_pdf_validator/__init__.py:137-145 | an allergen is in `buenos` iff listed and correctly marked, and in `malos` iff listed, mentioned and never correctly marked; never in both |
| `TextRules.AllergensPasses` | api_pdf_validator/__init__.py:133-149 | `alergenos` passes iff some listed allergen is correctly marked in some span; without `lista` it fails with "Lista vacía" |
| `TextRules.PatternRulesPass` | api_pdf_validator/__init__.py:151-162 | `regex_valido` and `texto` pass iff the pattern is found in the full text; `regex_invalido` passes iff `findall` is empty; an unknown tag fails with empty evidence |
| `TextRules.ForbiddenIsNegatedRequired` | api_pdf_validator/__init__.py:151-158 | with a regex engine whose `search` and `findall` agree, `regex_invalido` passes exactly when `regex_valido` on the same pattern fails |
| `TextRules.FirstMarker` | api_pdf_validator/__init__.py:166-167 | the index found is the first condition whose marker occurs in the upper-cased text; no earlier marker occurs |
| `TextRules.EvaluateConditional` | api_pdf_validator/__init__.py:164-170 | the condition loop, which stops at the first present marker, yields `ConditionalVerdict` |
| `TextRules.ConditionalNoMarker` | api_pdf_validator/__init__.py:165-167 | with no condition's marker present in the upper-cased text, `texto_condicional` passes with "N/A" |
| `TextRules.ConditionalFirstDecides` | api_pdf_validator/__init__.py:166-170 | the first condition whose marker is present decides: the rule passes iff its pattern is found in the full text, with that marker in the evidence |
| `TextRules.ConditionalLaterIgnored` | api_pdf_validator/__init__.py:170 | once a marker is present, conditions appended after the list never change the verdict |
| `TextRules.FirstMarkerUnique` | api_pdf_validator/__init__.py:166-170 | a present marker with no present marker before it is the one that decides |
| `TextRules.LowercaseMarkerNeverFires` | api_pdf_validator/__init__.py:167 | a marker holding a lower-case letter never occurs in the upper-cased text, so a rule with only that condition passes with "N/A" whatever the document says |
| `TextRules.EvaluateTextRule` | api_pdf_validator/__init__.py:123-172 | dispatching one rule by its tag gives that rule's `TextResult` |
| `TextRules.ValidateText` | api_pdf_validator/__init__.py:117-173 | exactly one result per text rule, in rule order, with category "Texto" and the rule's name |
| `VisualRules.TemplateDecision` | api_pdf_validator/__init__.py:87-115 | the check passes iff the asset exists, a similarity is obtained, and it reaches the threshold (stays under it for a prohibition); a missing asset fails even a prohibition |
| `VisualRules.FirstHit` | api_pdf_validator/__init__.py:187-193 | the index found is the first usable template found on the page; no earlier template is |
| `VisualRules.EvaluateTemplateMatch` | api_pdf_validator/__init__.py:184-194 | the page loop and the template loop inside it, both left at the first match, yield `TemplateMatchVerdict` |
| `VisualRules.TemplateMatchPasses` | api_pdf_validator/__init__.py:182-194 | `template_match` passes iff some page and some non-empty template match; when it fails its evidence is "No evaluado" |
| `VisualRules.TemplateMatchStops` | api_pdf_validator/__init__.py:192-194 | once some pages make `template_match` pass, further pages never change the result |
| `VisualRules.EvaluateProhibited` | api_pdf_validator/__init__.py:196-199 | the page loop, left at the first failing page, yields `ProhibitedVerdict` |
| `VisualRules.ProhibitedPasses` | api_pdf_validator/__init__.py:182-199 | `template_prohibido` passes iff there is a page and every page passes the prohibition check at threshold 0.3; with no pages it fails |
| `VisualRules.ProhibitedPassLastPage` | api_pdf_validator/__init__.py:196-199 | when `template_prohibido` passes, the loop has run to the last page and the evidence is that page's check |
| `VisualRules.ProhibitedFoundFails` | api_pdf_validator/__init__.py:196-199 | one page where the template reaches 0.3, or a missing asset, fails the rule |
| `VisualRules.ProhibitedStops` | api_pdf_validator/__init__.py:198-199 | once a page fails the prohibition, further pages never change the result |
| `VisualRules.ProhibitedIgnoresThreshold` | api_pdf_validator/__init__.py:197 | the rule's own `umbral` has no effect on `template_prohibido` |
| `VisualRules.OcrPagePasses` | api_pdf_validator/__init__.py:206-212 | a page passes iff OCR reported no error and some upper-cased pattern occurs in the upper-cased, whitespace-collapsed, stripped text |
| `VisualRules.EvaluateOcr` | api_pdf_validator/__init__.py:202-215 | the page loop, left at the first passing page, yields `OcrVerdict` |
| `VisualRules.OcrPasses` | api_pdf_validator/__init__.py:202-215 | `ocr_text` passes iff some page passes |
| `VisualRules.OcrStops` | api_pdf_validator/__init__.py:215 | once a page passes, later pages are never consulted |
| `VisualRules.NoPagesNotEvaluated` | api_pdf_validator/__init__.py:182-184 | with no pages every visual rule, known or not, fails with "No evaluado" |
| `VisualRules.EvaluateVisualRule` | api_pdf_validator/__init__.py:179-217 | dispatching one rule by its tag gives that rule's `VisualResult` |
| `VisualRules.ValidateVisual` | api_pdf_validator/__init__.py:175-218 | exactly one result per visual rule, in rule order, with category "Visual" and the rule's name |
| `LanguageRules.ValidateLanguages` | api_pdf_validator/__init__.py:220-230 | exactly one result per language rule, with category "Idiomas" and the rule's name; no rules give no results |
| `LanguageRules.LanguagePasses` | api_pdf_validator/__init__.py:227-229 | each language rule passes iff the number of distinct detected codes is at least `min_idiomas` (default 1), with the codes as evidence |
| `LanguageRules.ShortTextDetectsNothing` | api_pdf_validator/__init__.py:224 | a text of at most 10 characters detects no language |
| `LanguageRules.DetectedCodes` | api_pdf_validator/__init__.py:224 | the detected codes are the parts before ':' of the detector's entries, as a set |
| `LanguageRules.NoLanguageRules` | api_pdf_validator/__init__.py:222 | an empty language rule list gives no results |
| `Validator.AllPass` | api_pdf_validator/__init__.py:276 | `all(...)` holds iff every result's `cumple` holds, so it is true of no results |
| `Validator.Validate` | api_pdf_validator/__init__.py:259-278 | a run yields `ValidationReport`, whose state is "Aprobado" iff every result passes |
| `Validator.ReportLayout` | api_pdf_validator/__init__.py:267-277 | the report lists text, then visual, then language results, one per rule in rule order with the right category and name, and is approved iff all pass |
| `Validator.EmptyRuleSetApproved` | api_pdf_validator/__init__.py:252-277 | an empty or missing rule document gives an approved report with no results |
| `Validator.FailingResultRejects` | api_pdf_validator/__init__.py:271-276 | one failing result anywhere in the joined list makes the report "Rechazado" |
| `Validator.UnknownTextTagRejects` | api_pdf_validator/__init__.py:124-172 | a text rule with an unknown tag rejects the document |
| `Validator.UnknownVisualTagRejects` | api_pdf_validator/__init__.py:182-217 | a visual rule with an unknown tag rejects the document |
| `SafeNames.SanitiseClean` | api_pdf_validator/__init__.py:282 | the sanitised name holds only `[A-Za-z0-9_-]`, is never longer than its input, and is empty only for an empty input |
| `SafeNames.SanitiseKeepsClean` | api_pdf_validator/__init__.py:282 | a name made only of `[A-Za-z0-9_-]` is kept as it is |
| `SafeNames.SanitiseIdempotent` | api_pdf_validator/__init__.py:282 | sanitising a sanitised name changes nothing |
| `SafeNames.RunBecomesOneUnderscore` | api_pdf_validator/__init__.py:282 | a run of other characters, however long, between clean parts becomes a single "_" |
| `SafeNames.StemShape` | api_pdf_validator/__init__.py:282 | the stem is a prefix of the name; it is shorter exactly when the name has an extension dot (no '/' or '.' after it, something other than dots before it in the last component), and then it is cut at that dot |
| `SafeNames.SafeNameStaysInFolder` | api_pdf_validator/__init__.py:282-285 | the stored name contains no '/' and no '.', so the report path starts with "validaciones/informes/" and has no '/' after it |
| `Scenarios.BoldSentenceCaseHeadingPasses` | api_pdf_validator/__init__.py:126-131 | the span "Ingredientes: harina, agua" in bold passes `ingredientes_titulo` |
| `Scenarios.CapitalHeadingFails` | api_pdf_validator/__init__.py:126-131 | the span "INGREDIENTES: HARINA" in bold fails, because it is all capitals |
| `Scenarios.CapitalAllergenPasses` | api_pdf_validator/__init__.py:133-149 | "GLUTEN" listed, with the non-bold span "GLUTEN", passes |
| `Scenarios.LowerCaseAllergenFails` | api_pdf_validator/__init__.py:133-149 | with only the span "gluten", the rule fails and lists GLUTEN as incorrect and nothing as correct |
| `Scenarios.ForbiddenAtPointFortyFiveFails` | api_pdf_validator/__init__.py:196-199 | a prohibited template found at similarity 0.45 on one page fails the rule |
| `Scenarios.ForbiddenAbsentPasses` | api_pdf_validator/__init__.py:196-199 | a prohibited template under 0.3 on every page, with its asset present, passes, and the evidence is the last page's similarity |

## Left out

- PDF parsing and rendering are left out. The model takes the renderer's spans as
  one list of `{text, font}` in reading order (the page, block and line nesting of
  `:53-57` is flattened). Pages are given as image paths. The DPI, temporary
  directories and cleanup are left out.
- The template matcher's pixel arithmetic is left out. The model takes its outcome:
  an unreadable image, a fault, or the best similarity as a real number. Every
  exception path of `:114-115` becomes one fault outcome.
- Regular-expression matching is left out, because it is library behaviour. The
  model uses `search`/`findall` oracles that are always case-insensitive.
- Language detection is a statistical model, so it is an oracle. The model keeps
  the length guard, the code extraction before ':' and the swallowed exception.
- The OCR client (`shared/azure_vision.py`) is left out: it uses the network and its
  polling loop has no bound. The model takes its reply `(text, error)` per page.
- Evidence rendering is left out. The model does not produce the f-strings, the
  `:.2f` similarity format or Python's list display. Evidence is a structured value
  with one constructor per message.
- Letter case: only ASCII letters and the Latin-1 letter pairs (U+00C0-U+00DE and
  U+00E0-U+00FE) are cased. Other characters that Python treats as cased count as
  uncased: ß, ÿ, µ, ª, º, and Greek and Cyrillic letters. `upper()` of ß is taken to
  be ß, not "SS".
- HTTP handling, base64 decoding, reading `Reglas.json`, JSON parsing, logging and
  blob uploads are I/O and are left out. Only the report's storage path is
  modelled. The page-image paths `pag_<n>.png` are not modelled.
- Malformed rules are not modelled. The model's rule datatypes always carry every
  key a rule kind reads, with a value of the expected type. In the source (line
  numbers are in `api_pdf_validator/__init__.py`):
  - A missing `tipo`, `nombre`, `patron` or `condiciones` key raises `KeyError` when
    the rule is evaluated, and the outer handler turns that into status 500.
  - A missing `template` key (`:197`) raises only once a page is examined. With no
    pages the rule fails with "No evaluado" instead.
  - A missing `patrones` key (`:212`) raises only when a page's OCR succeeds. If OCR
    reports an error on every page, the key is never read.
  - A non-numeric `umbral` fails inside the `try` of `:94-115`. Only that check
    fails, with "Error OpenCV"; the request goes on.
  - `lista`, `patrones` or `templates` given as a JSON string are iterated
    character by character (`:137`, `:188`, `:212`), without an error.
- An invalid regular expression in `patron` makes `re.search`/`re.findall` raise
  (`:152`, `:156`, `:161`, `:168`), and the whole request ends with status 500. The
  regex oracle always answers, so this abort is not modelled.
- `VisualRules.EvaluateVisualRule` checks the rule's tag once, before the page loop.
  The source checks it on every page. The tag never changes between pages, so the
  verdicts are the same.
- `os.path.splitext` is modelled from its POSIX behaviour, with '/' as the only
  separator.
- The other parts of the repository are not part of this model: PDF merging, slide
  and Word generation, and the manual HTTP test script.
