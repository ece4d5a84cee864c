# Telegram translator bot: the message-handling policy

A Dafny model of the decision logic of a Telegram bot that translates text
messages, and the text it recognises in photos, between Russian and English.
The bot itself is glue around three libraries (the Telegram client,
Tesseract OCR and a Google Translate client); this model keeps the policy
that sits between those calls and treats each library call as an oracle that
either answers with a value or raises.

- `Oracles` (Oracles.dfy): the oracle answer `Outcome`, the translator client
  `Backend` (detect and translate as functions of their arguments), and a
  `Call` record so that every backend call a handler makes is logged in order.
- `Strings` (Strings.dfy): Python's `str.strip()` with Python's own whitespace
  set (`str.isspace`: the ASCII controls TAB through CR, the separators
  U+001C to U+001F, space, U+0085, U+00A0, U+1680, U+2000 to U+200A, U+2028,
  U+2029, U+202F, U+205F, U+3000), and Python's `str(int)` with a reader that
  inverts it.
- `Translation` (Translation.dfy): `translate_text_logic`, a total function of
  the text and the backend. Blank text gives the triple
  `("Нечего переводить.", "none", "none")` and asks nothing. Otherwise the
  language is detected, the target is `en` for `ru` and `ru` for everything
  else, and any failure of either call gives
  `("Не удалось перевести текст.", "error", "error")`.
- `Handlers` (Handlers.dfy): the reply formats, and a `Chat` class whose
  fields are the replies sent so far, the set of files in the working
  directory, and the backend call log. `HandleText` and `HandlePhoto` are
  methods that update them. `HandlePhoto` has the source's
  `try`/`except`/`finally` shape: the method `TryPhoto` is the `try` block
  step by step (download, acknowledgement, recognition, blank check with
  early return, Markdown echo, translation) and reports whether it raised;
  `HandlePhoto` then sends the catch-all error reply if it did, and removes
  the temporary file. The function `PhotoTry` states what the `try` block
  sends and asks, `PhotoOutcome` adds the catch-all reply, and the lemmas
  about them state each path.

Some things this code does not do, although a bot of this kind might. The model keeps to what the code does:

- There is no image preprocessing (grayscale or binarisation) in this code.
  The OCR runs on the downloaded file.
- Every failure in the photo handler gets one catch-all message. There are no
  separate messages for an undecodable image or a missing OCR engine.
- The photo handler sends one to three replies, not always a single one. When the download fails, it sends only the catch-all reply. Otherwise it sends the acknowledgement, then either a diagnostic or the echo and the translation.
- A failing translation is not an exception in the photo handler.
  `translate_text_logic` absorbs it, so the echoed recognised text stays in
  the chat and the translation-failure text follows it.

The sentinel `"error"` shares one string space with language codes. If the
detector ever returned the code `"error"`, `handle_text` would send the bare
translation without its header. The model keeps this behaviour.
`TextReplyCases` states it, and `FailureReplyIsDistinct` and
`PhotoFaultIsDistinct` carry it as a precondition.

## Model

| member | source | states |
|---|---|---|
| `Strings.IsSpace` | telegram-translator-bot.py:64 | no contract of its own: the definition is the whitespace set of Python's `str.isspace`, which `strip()` removes; `Strings.Strip` states how it is used |
| `Strings.IsBlank` | telegram-translator-bot.py:92 | no contract of its own: every character is Python whitespace; `Strings.Strip` states that this is exactly when `s.strip()` is empty, the test `not text.strip()` |
| `Strings.StripBounds` | telegram-translator-bot.py:92 | the slice `strip()` keeps: everything outside it is whitespace, and a non-empty slice starts and ends with a non-space character |
| `Strings.Strip` | telegram-translator-bot.py:64 | `s.strip()` is a slice of `s` with only whitespace outside it; it is empty exactly when every character of `s` is Python whitespace; a non-empty result has no whitespace at either end |
| `Strings.NatToString` | telegram-translator-bot.py:53 | `str(n)` is a non-empty string of decimal digits without a leading zero |
| `Strings.IntToString` | telegram-translator-bot.py:53 | `str(i)` is non-empty and starts with a minus sign exactly when `i` is negative |
| `Strings.DecimalRoundTrip` | telegram-translator-bot.py:53 | reading the digits of `str(n)` back gives `n` |
| `Strings.IntRoundTrip` | telegram-translator-bot.py:53 | `int(str(i)) == i` for every integer, so distinct user ids print differently |
| `Translation.TargetLanguage` | telegram-translator-bot.py:98 | the target is `en` exactly when the source is `ru`, is always `en` or `ru`, and never equals the source |
| `Translation.TranslateTextLogic` | telegram-translator-bot.py:90-103 | blank text gives the `none` sentinel and asks no backend; if both backends answer, the triple is the detected source, the policy's target and the translator's output for exactly that pair; any failure gives the `error` sentinel; detect is asked first about the text, and translate is asked exactly when detection answered, with the detected source and the derived target |
| `Translation.TranslatedObeysPolicy` | telegram-translator-bot.py:96-100 | a translated triple has target different from source, target in {en, ru} (`en` iff source `ru`), and is neither sentinel |
| `Translation.ResultKinds` | telegram-translator-bot.py:92-103 | the result is the blank sentinel iff the text is blank, the failure sentinel iff a backend failed, and a translation iff both answered, so the three cases never overlap |
| `Translation.SamePairForSameDetection` | telegram-translator-bot.py:96-98 | two runs with the same detected language get the same (source, target) pair whatever text each translator returns |
| `Translation.BlankIgnoresBackend` | telegram-translator-bot.py:92-93 | on blank text the result does not depend on the backends at all |
| `Handlers.FormatTranslation` | telegram-translator-bot.py:45 | no contract of its own: the f-string `"Перевод ({src} → {dest}):\n\n{text}"` of lines 45 and 76, written out; `Handlers.FormatTranslationParts` states its shape |
| `Handlers.FormatTranslationParts` | telegram-translator-bot.py:45 | a formatted translation starts with the header `"Перевод ("` and ends with the translated text, unchanged |
| `Handlers.TextReply` | telegram-translator-bot.py:43-48 | no contract of its own: the reply choice of lines 43-48 and 74-79; `Handlers.TextReplyCases` and `Handlers.FailureReplyIsDistinct` state its cases |
| `Handlers.TextReplyCases` | telegram-translator-bot.py:43-48 | blank input replies the formatted translation of `"Нечего переводить."` from `none` to `none`, that is `"Перевод (none → none):\n\nНечего переводить."`, a failure replies the bare failure message, and a translation replies `"Перевод (src → dest):\n\n<text>"`, or the bare text if the detected code is `"error"` |
| `Handlers.FailureReplyIsDistinct` | telegram-translator-bot.py:43-48 | unless a language is detected as `"error"`, the reply is the failure message exactly when a backend failed on non-blank text |
| `Handlers.RecognizedEcho` | telegram-translator-bot.py:70 | no contract of its own: the Markdown echo `` "Распознанный текст:\n\n`{text}`" ``; `Handlers.RecognizedEchoReadBack` states its shape |
| `Handlers.RecognizedEchoReadBack` | telegram-translator-bot.py:70 | the echo opens with its header, is one character longer than header and text together, and the recognised text read back from between the header and the closing backtick is unchanged |
| `Handlers.TempPhotoPath` | telegram-translator-bot.py:53 | the path starts with `temp_photo_`, ends with `.jpg`, and what lies between is `str(user_id)` |
| `Handlers.TempPhotoPathInjective` | telegram-translator-bot.py:53 | two users share the path `temp_photo_{user_id}.jpg` only if they have the same id |
| `Handlers.PhotoFaults` | telegram-translator-bot.py:57-70 | no contract of its own: the steps inside the `try` that raise (the download, the recognition, or a refused Markdown echo of non-blank text); `Handlers.PhotoTryRaisesAtFaults` states that these are exactly the raising paths |
| `Handlers.RepliesAvoidCatchAll` | telegram-translator-bot.py:60-83 | the acknowledgement, the diagnostic, the translation-failure message, the echo header and the translation header all differ from the catch-all error message |
| `Handlers.PhotoTry` | telegram-translator-bot.py:55-79 | no contract of its own: the replies and calls of the `try` block and whether it raised; the three lemmas below state its properties |
| `Handlers.PhotoTryRaisesAtFaults` | telegram-translator-bot.py:57-70 | the `try` block raises exactly when the download fails, the recognition fails, or the Markdown echo of non-blank text is refused |
| `Handlers.PhotoTryLeavesCatchAll` | telegram-translator-bot.py:60-79 | the `try` block never sends the catch-all reply; when it raises it has sent at most the acknowledgement, and when it finishes it has sent two or three replies, with the catch-all nowhere before the last |
| `Handlers.PhotoTryOrder` | telegram-translator-bot.py:57-72 | nothing is sent or asked before the download succeeds; then the acknowledgement is first and OCR runs on the temporary file with `rus+eng`; translation backends are asked only about non-blank, echoed recognised text |
| `Handlers.PhotoOutcome` | telegram-translator-bot.py:55-83 | no contract of its own: the `try` block's run followed by the catch-all reply when it raised; `Handlers.PhotoOutcomeReplies`, `Handlers.PhotoOutcomeOrder` and the path lemmas below state its properties |
| `Handlers.PhotoOutcomeReplies` | telegram-translator-bot.py:55-83 | one to three replies; a fault ends with the single catch-all error reply, which never appears before the last reply |
| `Handlers.PhotoOutcomeOrder` | telegram-translator-bot.py:55-83 | a failed download sends only the catch-all reply and asks nothing; otherwise the acknowledgement comes first and OCR runs on the temporary file with `rus+eng`; translation backends are asked only about non-blank, echoed recognised text |
| `Handlers.PhotoFaultIsDistinct` | telegram-translator-bot.py:74-83 | unless the recognised text is detected as `"error"`, the catch-all reply is among the replies exactly when a step inside the `try` raised |
| `Handlers.PhotoBlankText` | telegram-translator-bot.py:60-68 | blank recognised text: replies are exactly the acknowledgement and the "nothing recognised" diagnostic, and only the OCR call is made |
| `Handlers.PhotoTranslated` | telegram-translator-bot.py:70-79 | non-blank text and no fault: acknowledgement, echo, then exactly one translation reply; the triple is never the blank sentinel and its target is never `none`; the calls are OCR followed by the translation calls |
| `Handlers.PhotoTranslationFails` | telegram-translator-bot.py:70-79 | a failing translator is not an exception here: the echo is still sent, followed by the failure message |
| `Handlers.PhotoFaultReplies` | telegram-translator-bot.py:55-83 | a fault sends the replies already made, then one error reply; at most the OCR call is made |
| `Handlers.Chat.HandleText` | telegram-translator-bot.py:38-48 | appends exactly one reply, the reply choice applied to the triple; logs that triple's backend calls; leaves files alone |
| `Handlers.Chat.TryPhoto` | telegram-translator-bot.py:55-79 | runs the `try` block step by step and returns whether it raised; appends exactly the replies and calls of `PhotoTry`; the temporary file exists afterwards exactly when the download saved it or created it before raising |
| `Handlers.Chat.HandlePhoto` | telegram-translator-bot.py:50-86 | the `try` block, then the catch-all reply if it raised, then the `finally` cleanup: appends the replies and calls of `PhotoOutcome`; on every path (normal, early return, fault) the user's temporary file is gone afterwards and every other file is as before |

## Left out

- Telegram transport: the `Updater`/dispatcher setup, handler registration, polling and the `/start` greeting with its HTML mention (telegram-translator-bot.py:29-36, 107-125). This is framework I/O. `reply_text` is modelled as appending to `Chat.replies`.
- A plain `reply_text` that raises is not modelled: every reply except the Markdown echo is assumed to be delivered. The Markdown echo can be refused; that case is the `echoSent` parameter, because a refusal there lands in the catch-all.
- Token loading and the start-up `ValueError` (telegram-translator-bot.py:19-22), and logging (telegram-translator-bot.py:13-17, 82, 102). These are configuration and side-channel output.
- PIL image decoding, Tesseract recognition and the Google Translate client (telegram-translator-bot.py:62, 96, 99) are oracles: `Outcome` values and `Backend` functions, not algorithms. Their non-determinism is left out, because a `Backend` is a fixed function.
- The download mechanics (telegram-translator-bot.py:57-58) are left out. The model keeps only the outcome: saved, or raised with or without having created the file.
- The `finally` cleanup (telegram-translator-bot.py:85-86) is assumed to succeed. An `os.remove` that raises (a permission error, or the file vanishing after `os.path.exists`) is not modelled; in the source such an error escapes `handle_photo` and can leave the file behind, so `Handlers.Chat.HandlePhoto`'s promise that the file is gone rests on this assumption.
- PIL decoding and Tesseract recognition are one oracle, `RecognizeCall`. A file that PIL cannot decode never reaches Tesseract, but it is logged as the same recognition call.
- Two photos from the same user handled at once share one temporary path (telegram-translator-bot.py:53). That race is a concurrency effect and is not modelled. Each handler call runs alone.
- Markdown rendering of the echo (telegram-translator-bot.py:70) is left out. The reply is kept as the plain string that is sent.
