/** `translate_text_logic`: the language-pair policy and the mapping of every
    backend failure to one sentinel triple. */
module Translation {
  import opened Oracles
  import opened Strings

  /** The `(translated_text, src_lang, dest_lang)` tuple the function returns. */
  datatype Triple = Triple(text: string, src: string, dest: string)

  /** The returned triple, with the backend calls made to compute it. */
  datatype Resolution = Resolution(triple: Triple, calls: seq<Call>)

  const NothingToTranslate: string := "Нечего переводить."
  const TranslationFailed: string := "Не удалось перевести текст."

  /** Returned for blank input, without asking any backend. */
  const BlankTriple: Triple := Triple(NothingToTranslate, "none", "none")

  /** Returned whenever detection or translation raises. */
  const ErrorTriple: Triple := Triple(TranslationFailed, "error", "error")

  /** The fixed pair policy: Russian goes to English, every other detected
      language (English or not) goes to Russian. */
  function TargetLanguage(src: string): (dest: string)
    ensures dest == "en" <==> src == "ru"
    ensures dest == "en" || dest == "ru"
    ensures dest != src
  {
    if src == "ru" then "en" else "ru"
  }

  /** `t` is what an honest run of the backends gives for `text`: the detected
      language is `t.src`, `t.dest` is the policy's target for it, and asking
      for exactly that pair returned `t.text`. */
  predicate Translated(text: string, backend: Backend, t: Triple) {
    backend.detect(text) == Ok(t.src)
    && t.dest == TargetLanguage(t.src)
    && backend.translate(text, t.dest, t.src) == Ok(t.text)
  }

  /** Detection answers for `text`, and so does the translation it leads to. */
  predicate BackendsAnswer(text: string, backend: Backend) {
    match backend.detect(text)
    case Fail => false
    case Ok(src) => backend.translate(text, TargetLanguage(src), src).Ok?
  }

  /** `translate_text_logic(text)`. Total: no backend failure escapes it. */
  function TranslateTextLogic(text: string, backend: Backend): (r: Resolution)
    // blank input: the sentinel triple, and no backend is asked
    ensures IsBlank(text) ==> r.triple == BlankTriple && r.calls == []
    // otherwise every answer is passed on unchanged ...
    ensures !IsBlank(text) && BackendsAnswer(text, backend) ==> Translated(text, backend, r.triple)
    // ... or, on any failure, the one opaque sentinel comes back
    ensures !IsBlank(text) && !BackendsAnswer(text, backend) ==> r.triple == ErrorTriple
    // detection is asked first, about the text itself
    ensures !IsBlank(text) ==> 1 <= |r.calls| <= 2 && r.calls[0] == DetectCall(text)
    // translation is asked exactly when detection answered, with the detected
    // language as source and the policy's target as destination
    ensures |r.calls| == 2 <==> !IsBlank(text) && backend.detect(text).Ok?
    ensures |r.calls| == 2 ==>
      var src := backend.detect(text).value;
      r.calls[1] == TranslateCall(text, TargetLanguage(src), src)
  {
    if Strip(text) == "" then
      Resolution(BlankTriple, [])
    else
      match backend.detect(text)
      case Fail => Resolution(ErrorTriple, [DetectCall(text)])
      case Ok(src) =>
        var dest := TargetLanguage(src);
        var calls := [DetectCall(text), TranslateCall(text, dest, src)];
        match backend.translate(text, dest, src)
        case Fail => Resolution(ErrorTriple, calls)
        case Ok(translated) => Resolution(Triple(translated, src, dest), calls)
  }

  /** A translated triple obeys the pair policy, so it is never one of the two
      sentinels. */
  lemma TranslatedObeysPolicy(text: string, backend: Backend, t: Triple)
    requires Translated(text, backend, t)
    ensures t.dest != t.src
    ensures t.dest == "en" <==> t.src == "ru"
    ensures t.dest in {"en", "ru"}
    ensures t != BlankTriple && t != ErrorTriple
  {
  }

  /** The three kinds of result are told apart by the triple alone: the blank
      sentinel, the failure sentinel and a translation never coincide. */
  lemma ResultKinds(text: string, backend: Backend)
    ensures var t := TranslateTextLogic(text, backend).triple;
      (t == BlankTriple <==> IsBlank(text))
      && (t == ErrorTriple <==> !IsBlank(text) && !BackendsAnswer(text, backend))
      && (Translated(text, backend, t) <==> !IsBlank(text) && BackendsAnswer(text, backend))
  {
  }

  /** The language pair depends on the detection alone: two runs on the same
      text whose detections agree get the same pair, whatever translated text
      each backend returns. */
  lemma SamePairForSameDetection(text: string, b1: Backend, b2: Backend)
    requires !IsBlank(text) && BackendsAnswer(text, b1) && BackendsAnswer(text, b2)
    requires b1.detect(text) == b2.detect(text)
    ensures TranslateTextLogic(text, b1).triple.src == TranslateTextLogic(text, b2).triple.src
    ensures TranslateTextLogic(text, b1).triple.dest == TranslateTextLogic(text, b2).triple.dest
  {
  }

  /** Blank input is answered without looking at the backends at all. */
  lemma BlankIgnoresBackend(text: string, b1: Backend, b2: Backend)
    requires IsBlank(text)
    ensures TranslateTextLogic(text, b1) == TranslateTextLogic(text, b2)
  {
  }
}
