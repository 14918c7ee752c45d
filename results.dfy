/**
 * What every rule evaluation produces: a result record
 * `{categoria, regla, cumple, evidencia}`.
 */
module Results {

  /** The report's `categoria` field: "Texto", "Visual" or "Idiomas". */
  datatype Category = Texto | Visual | Idiomas

  /**
   * The `evidencia` field. Each constructor stands for one message the
   * validator writes; its comment gives the message's shape.
   */
  datatype Evidence =
    | NoEvidence                                        // ""
    | IngredientsFound(text: string, bold: bool)        // "Encontrado: '<text>', Bold: <bold>"
    | IngredientsNotFound                               // "No encontrado"
    | AllergenLists(buenos: seq<string>, malos: seq<string>)  // "Correctos: [...] | Incorrectos: [...]"
    | EmptyList                                         // "Lista vacía"
    | PatternFound                                      // "Patrón hallado"
    | PatternMissing                                    // "Falta patrón"
    | ErrorsFound(errs: seq<string>)                    // "Errores encontrados: [...]"
    | NoErrors                                          // "Ninguno"
    | TextPresent                                       // "Texto presente"
    | TextAbsent                                        // "Texto ausente"
    | NotApplicable                                     // "N/A"
    | MarkerVerdict(marca: string, ok: bool)            // "Marca <marca> -> Email OK|MAL"
    | NotEvaluated                                      // "No evaluado"
    | TemplateMissing(template: string)                 // "Template no encontrado en assets: <template>"
    | ImagesUnreadable                                  // "Error leyendo imágenes (OpenCV)"
    | MatcherError(msg: string)                         // "Error OpenCV: <msg>"
    | Similarity(maxVal: real, umbral: real, prohibido: bool)
                                                        // "Similitud: <v> (Prohibido si > <u>)" or "(Requerido > <u>)"
    | Logo(template: string, detail: Evidence)          // "Logo <template>: <detail>"
    | OcrError(err: string)                             // "Error OCR: <err>"
    | OcrOk                                             // "Texto en imagen OK"
    | OcrRead(excerpt: string)                          // "Leído: <first 50 characters>..."
    | Languages(codes: set<string>)                     // the detected language codes as a list

  datatype RuleResult = RuleResult(categoria: Category, regla: string, cumple: bool, evidencia: Evidence)
}
