/** The foreign libraries the bot calls into, seen only through their answers.
    OCR (pytesseract), language detection and translation (googletrans) are not
    modelled as algorithms: each call either answers with a value or raises. */
module Oracles {

  /** The answer of one backend call: a value, or an exception of any kind. */
  datatype Outcome<T> = Ok(value: T) | Fail

  /** One call into a backend, with the arguments it was given; a handler's
      calls are logged in order, so a test double's call counts are observable.
      `RecognizeCall` stands for the whole recognition step of one photo:
      opening the saved file with PIL and running Tesseract on it. It is
      logged whether the step fails while decoding or while recognising. */
  datatype Call =
    | RecognizeCall(path: string, languages: string)
    | DetectCall(text: string)
    | TranslateCall(text: string, dest: string, src: string)

  /** The translator client: `detect(text)` gives a language code,
      `translate(text, dest, src)` the translated text. */
  datatype Backend = Backend(
    detect: string -> Outcome<string>,
    translate: (string, string, string) -> Outcome<string>)
}
