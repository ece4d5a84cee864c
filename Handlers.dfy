/** The two message handlers, `handle_text` and `handle_photo`, over a chat
    whose state is the replies sent so far, the files on disk and the log of
    backend calls. */
module Handlers {
  import opened Oracles
  import opened Strings
  import opened Translation

  const Acknowledgement: string := "Картинка получена. Начинаю распознавание..."
  const NothingRecognized: string :=
    "Не удалось распознать текст на картинке. " + "Попробуйте другое изображение."
  const PhotoFailed: string := "Произошла ошибка при обработке изображения."
  const OcrLanguages: string := "rus+eng"
  const TranslationHeader: string := "Перевод ("

  const EchoHeader: string := "Распознанный текст:\n\n`"

  /** `f"Перевод ({src_lang} → {dest_lang}):\n\n{translated_text}"` */
  function FormatTranslation(src: string, dest: string, text: string): string {
    TranslationHeader + src + " → " + dest + "):\n\n" + text
  }

  /** A formatted translation opens with the header, and the translated text
      is its tail. */
  lemma FormatTranslationParts(src: string, dest: string, text: string)
    ensures var s := FormatTranslation(src, dest, text);
      |s| >= |TranslationHeader| + |text|
      && s[..|TranslationHeader|] == TranslationHeader
      && s[|s| - |text|..] == text
  {
    var s := FormatTranslation(src, dest, text);
    var head := TranslationHeader + src + " → " + dest + "):\n\n";
    assert s == head + text;
    assert head[..|TranslationHeader|] == TranslationHeader;
  }

  /** The reply choice shared by both handlers: a formatted translation
      unless the source language is the "error" sentinel, then the bare text. */
  function TextReply(t: Triple): string {
    if t.src != "error" then FormatTranslation(t.src, t.dest, t.text) else t.text
  }

  /** The Markdown echo of the recognised text: a header, then the text in
      backticks. */
  function RecognizedEcho(recognized: string): string {
    EchoHeader + recognized + "`"
  }

  /** The text between the echo's header and its closing backtick. */
  function EchoedText(echo: string): string
    requires |echo| > |EchoHeader|
  {
    echo[|EchoHeader|..|echo| - 1]
  }

  /** The echo opens with its header, and the recognised text can be read back
      from it unchanged. */
  lemma RecognizedEchoReadBack(recognized: string)
    ensures var echo := RecognizedEcho(recognized);
      |echo| == |EchoHeader| + |recognized| + 1
      && echo[..|EchoHeader|] == EchoHeader
      && EchoedText(echo) == recognized
  {
  }

  /** `f"temp_photo_{user_id}.jpg"`: the id, printed, between a fixed prefix
      and the extension. */
  function TempPhotoPath(userId: int): (path: string)
    ensures "temp_photo_" <= path && |path| > 15 && path[|path| - 4..] == ".jpg"
    ensures path[11..|path| - 4] == IntToString(userId)
  {
    var path := "temp_photo_" + IntToString(userId) + ".jpg";
    assert path[..11] == "temp_photo_";
    path
  }

  /** Distinct users get distinct temporary files, so the cleanup of one
      user's photo never removes another user's file. */
  lemma TempPhotoPathInjective(u: int, v: int)
    ensures TempPhotoPath(u) == TempPhotoPath(v) ==> u == v
  {
    IntRoundTrip(u);
    IntRoundTrip(v);
  }

  /** What the reply of `handle_text` says, case by case. */
  lemma TextReplyCases(text: string, backend: Backend)
    ensures var reply := TextReply(TranslateTextLogic(text, backend).triple);
      (IsBlank(text) ==> reply == FormatTranslation("none", "none", NothingToTranslate))
      && (!IsBlank(text) && !BackendsAnswer(text, backend) ==> reply == TranslationFailed)
      && (!IsBlank(text) && BackendsAnswer(text, backend) ==>
            var src := backend.detect(text).value;
            var out := backend.translate(text, TargetLanguage(src), src).value;
            reply == if src != "error" then FormatTranslation(src, TargetLanguage(src), out) else out)
  {
    var t := TranslateTextLogic(text, backend).triple;
    ResultKinds(text, backend);
    if IsBlank(text) {
      assert t == BlankTriple;
    } else if BackendsAnswer(text, backend) {
      assert Translated(text, backend, t);
    } else {
      assert t == ErrorTriple;
    }
  }

  /** Unless a backend calls a language "error", a user can tell a failure
      from a translation: only failures get the bare failure message. */
  lemma FailureReplyIsDistinct(text: string, backend: Backend)
    requires backend.detect(text) != Ok("error")
    ensures TextReply(TranslateTextLogic(text, backend).triple) == TranslationFailed
            <==> !IsBlank(text) && !BackendsAnswer(text, backend)
  {
    var t := TranslateTextLogic(text, backend).triple;
    ResultKinds(text, backend);
    if t != ErrorTriple {
      assert t.src != "error";
      var reply := TextReply(t);
      FormatTranslationParts(t.src, t.dest, t.text);
      assert reply[0] == TranslationHeader[0] != TranslationFailed[0];
    }
  }

  /** How fetching the largest photo size and saving it to disk ended:
      saved, or raised (possibly after the file was created). */
  datatype Download = Saved | Failed(wroteFile: bool)

  /** The replies sent and calls made by the `try` block of `handle_photo`,
      and whether it raised. */
  datatype TryRun = TryRun(sent: seq<string>, calls: seq<Call>, raised: bool)

  /** The replies and backend calls of one `handle_photo` run. */
  datatype PhotoRun = PhotoRun(replies: seq<string>, calls: seq<Call>)

  /** Some step inside the `try` of `handle_photo` raises: the download, the
      recognition, or the Markdown echo the transport refuses. */
  predicate PhotoFaults(download: Download, ocr: Outcome<string>, echoSent: bool) {
    download.Failed? || ocr.Fail? || (!IsBlank(ocr.value) && !echoSent)
  }

  /** None of the other fixed photo replies reads like the catch-all reply. */
  lemma RepliesAvoidCatchAll()
    ensures Acknowledgement != PhotoFailed && NothingRecognized != PhotoFailed
    ensures TranslationFailed != PhotoFailed
    ensures EchoHeader[0] != PhotoFailed[0] && TranslationHeader[1] != PhotoFailed[1]
  {
    assert Acknowledgement[0] != PhotoFailed[0];
    assert NothingRecognized[0] != PhotoFailed[0];
    assert TranslationFailed[0] != PhotoFailed[0];
  }

  /** The `try` block of `handle_photo` (lines 57-79) on the photo saved at
      `path`: the replies it sends and the calls it makes before it either
      finishes or raises. */
  function PhotoTry(path: string, download: Download, ocr: Outcome<string>, echoSent: bool, backend: Backend): TryRun {
    match download
    case Failed(_) => TryRun([], [], true)
    case Saved =>
      var recognize := [RecognizeCall(path, OcrLanguages)];
      match ocr
      case Fail => TryRun([Acknowledgement], recognize, true)
      case Ok(recognized) =>
        if Strip(recognized) == "" then
          TryRun([Acknowledgement, NothingRecognized], recognize, false)
        else if !echoSent then
          TryRun([Acknowledgement], recognize, true)
        else
          var resolution := TranslateTextLogic(recognized, backend);
          TryRun([Acknowledgement, RecognizedEcho(recognized), TextReply(resolution.triple)],
                 recognize + resolution.calls, false)
  }

  /** The `try` block raises exactly at the faults. */
  lemma PhotoTryRaisesAtFaults(path: string, download: Download, ocr: Outcome<string>, echoSent: bool, backend: Backend)
    ensures PhotoTry(path, download, ocr, echoSent, backend).raised <==> PhotoFaults(download, ocr, echoSent)
  {
    match download
    case Failed(_) =>
    case Saved =>
      match ocr
      case Fail =>
      case Ok(recognized) =>
  }

  /** The `try` block never sends the catch-all reply itself: when it raises
      it has sent at most the acknowledgement, and when it finishes it has sent
      two or three replies, of which only the last can be a translation. */
  lemma PhotoTryLeavesCatchAll(path: string, download: Download, ocr: Outcome<string>, echoSent: bool, backend: Backend)
    ensures var t := PhotoTry(path, download, ocr, echoSent, backend);
      && (t.raised ==> PhotoFailed !in t.sent && |t.sent| <= 1)
      && (!t.raised ==> 2 <= |t.sent| <= 3 && PhotoFailed !in t.sent[..|t.sent| - 1])
  {
    RepliesAvoidCatchAll();
    match download
    case Failed(_) =>
    case Saved =>
      match ocr
      case Fail =>
      case Ok(recognized) =>
        var t := PhotoTry(path, download, ocr, echoSent, backend);
        if IsBlank(recognized) {
          assert t.sent == [Acknowledgement, NothingRecognized] && !t.raised;
        } else if !echoSent {
          assert t.sent == [Acknowledgement] && t.raised;
        } else {
          var echo := RecognizedEcho(recognized);
          RecognizedEchoReadBack(recognized);
          assert echo[0] == EchoHeader[0];
          assert t.sent[..2] == [Acknowledgement, echo] && |t.sent| == 3 && !t.raised;
        }
  }

  /** The order inside the `try` block: nothing is sent or asked before the
      download succeeds; then the photo is acknowledged first and recognised
      from its file; translation backends are asked only about recognised,
      non-blank, echoed text. */
  lemma PhotoTryOrder(path: string, download: Download, ocr: Outcome<string>, echoSent: bool, backend: Backend)
    ensures var t := PhotoTry(path, download, ocr, echoSent, backend);
      && (download.Failed? ==> t.sent == [] && t.calls == [])
      && (download.Saved? ==>
            |t.sent| >= 1 && t.sent[0] == Acknowledgement
            && |t.calls| >= 1 && t.calls[0] == RecognizeCall(path, OcrLanguages))
      && (|t.calls| > 1 ==>
            download.Saved? && ocr.Ok? && !IsBlank(ocr.value) && echoSent && t.calls[1] == DetectCall(ocr.value))
  {
    match download
    case Failed(_) =>
    case Saved =>
      match ocr
      case Fail =>
      case Ok(recognized) =>
  }

  /** What `handle_photo` sends and asks, for every combination of backend
      outcomes: the `try` block, then the catch-all reply if it raised. */
  function PhotoOutcome(userId: int, download: Download, ocr: Outcome<string>, echoSent: bool, backend: Backend): PhotoRun {
    var t := PhotoTry(TempPhotoPath(userId), download, ocr, echoSent, backend);
    PhotoRun(if t.raised then t.sent + [PhotoFailed] else t.sent, t.calls)
  }

  /** One to three replies; a fault is reported once, as the last reply,
      after what was already sent, and the catch-all reply appears nowhere
      before the last place. */
  lemma PhotoOutcomeReplies(userId: int, download: Download, ocr: Outcome<string>, echoSent: bool, backend: Backend)
    ensures var r := PhotoOutcome(userId, download, ocr, echoSent, backend);
      && 1 <= |r.replies| <= 3
      && (PhotoFaults(download, ocr, echoSent) ==> r.replies[|r.replies| - 1] == PhotoFailed)
      && PhotoFailed !in r.replies[..|r.replies| - 1]
  {
    var t := PhotoTry(TempPhotoPath(userId), download, ocr, echoSent, backend);
    PhotoTryRaisesAtFaults(TempPhotoPath(userId), download, ocr, echoSent, backend);
    PhotoTryLeavesCatchAll(TempPhotoPath(userId), download, ocr, echoSent, backend);
    var replies := PhotoOutcome(userId, download, ocr, echoSent, backend).replies;
    if t.raised {
      assert replies[..|replies| - 1] == t.sent;
    }
  }

  /** A failed download raises before anything is sent or asked; otherwise
      the photo is acknowledged first and recognised from its temporary file,
      and translation backends are asked only about recognised, non-blank,
      echoed text. */
  lemma PhotoOutcomeOrder(userId: int, download: Download, ocr: Outcome<string>, echoSent: bool, backend: Backend)
    ensures var r := PhotoOutcome(userId, download, ocr, echoSent, backend);
      && (download.Failed? ==> r.replies == [PhotoFailed] && r.calls == [])
      && (download.Saved? ==>
            r.replies[0] == Acknowledgement
            && |r.calls| >= 1 && r.calls[0] == RecognizeCall(TempPhotoPath(userId), OcrLanguages))
      && (|r.calls| > 1 ==>
            download.Saved? && ocr.Ok? && !IsBlank(ocr.value) && echoSent && r.calls[1] == DetectCall(ocr.value))
  {
    PhotoTryRaisesAtFaults(TempPhotoPath(userId), download, ocr, echoSent, backend);
    PhotoTryOrder(TempPhotoPath(userId), download, ocr, echoSent, backend);
  }

  /** The photo counterpart of `FailureReplyIsDistinct`: unless a language is
      detected as "error", the catch-all reply is sent exactly when a step
      inside the `try` raised. */
  lemma PhotoFaultIsDistinct(userId: int, download: Download, ocr: Outcome<string>, echoSent: bool, backend: Backend)
    requires ocr.Ok? ==> backend.detect(ocr.value) != Ok("error")
    ensures PhotoFailed in PhotoOutcome(userId, download, ocr, echoSent, backend).replies
            <==> PhotoFaults(download, ocr, echoSent)
  {
    RepliesAvoidCatchAll();
    if download.Saved? && ocr.Ok? && !IsBlank(ocr.value) && echoSent {
      var t := TranslateTextLogic(ocr.value, backend).triple;
      ResultKinds(ocr.value, backend);
      var reply := TextReply(t);
      if t == ErrorTriple {
        assert reply[0] != PhotoFailed[0];
      } else {
        assert t.src != "error";
        FormatTranslationParts(t.src, t.dest, t.text);
        assert reply[1] == TranslationHeader[1] != PhotoFailed[1];
      }
    }
  }

  /** Nothing recognised: the acknowledgement and the diagnostic, and no
      translation backend is asked. */
  lemma PhotoBlankText(userId: int, recognized: string, echoSent: bool, backend: Backend)
    requires IsBlank(recognized)
    ensures var r := PhotoOutcome(userId, Saved, Ok(recognized), echoSent, backend);
      r.replies == [Acknowledgement, NothingRecognized]
      && r.calls == [RecognizeCall(TempPhotoPath(userId), OcrLanguages)]
  {
  }

  /** Text recognised and nothing raises: acknowledgement, echo, then exactly
      one translation reply, and the blank-input sentinel cannot be the triple. */
  lemma PhotoTranslated(userId: int, recognized: string, backend: Backend)
    requires !IsBlank(recognized)
    ensures var r := PhotoOutcome(userId, Saved, Ok(recognized), true, backend);
      var t := TranslateTextLogic(recognized, backend).triple;
      r.replies == [Acknowledgement, RecognizedEcho(recognized), TextReply(t)]
      && t != BlankTriple && t.dest != "none"
      && r.calls == [RecognizeCall(TempPhotoPath(userId), OcrLanguages)]
                    + TranslateTextLogic(recognized, backend).calls
  {
  }

  /** A failing translation backend is not an exception here: the recognised
      text is still echoed and the failure message follows it. */
  lemma PhotoTranslationFails(userId: int, recognized: string, backend: Backend)
    requires !IsBlank(recognized) && !BackendsAnswer(recognized, backend)
    ensures PhotoOutcome(userId, Saved, Ok(recognized), true, backend).replies
            == [Acknowledgement, RecognizedEcho(recognized), TranslationFailed]
  {
  }

  /** A fault inside the `try` goes to the catch-all: one error reply after
      those already sent, and no translation backend is asked. */
  lemma PhotoFaultReplies(userId: int, download: Download, ocr: Outcome<string>, echoSent: bool, backend: Backend)
    requires PhotoFaults(download, ocr, echoSent)
    ensures var r := PhotoOutcome(userId, download, ocr, echoSent, backend);
      r.replies == (if download.Saved? then [Acknowledgement] else []) + [PhotoFailed]
      && |r.calls| <= 1
  {
  }

  /** The chat a handler runs in: replies sent to it, the files in the bot's
      working directory, and every backend call made. */
  class Chat {
    var replies: seq<string>
    var files: set<string>
    var calls: seq<Call>

    /** `handle_text`: translate the message and send exactly one reply. */
    method HandleText(userText: string, backend: Backend)
      modifies this
      ensures replies == old(replies) + [TextReply(TranslateTextLogic(userText, backend).triple)]
      ensures calls == old(calls) + TranslateTextLogic(userText, backend).calls
      ensures files == old(files)
    {
      var resolution := TranslateTextLogic(userText, backend);
      calls := calls + resolution.calls;
      replies := replies + [TextReply(resolution.triple)];
    }

    /** The `try` block of `handle_photo`: save, acknowledge, recognise,
        echo, translate, stopping where a step raises. The early `return` on
        blank text is a normal finish. */
    method TryPhoto(path: string, download: Download, ocr: Outcome<string>, echoSent: bool, backend: Backend)
      returns (raised: bool)
      modifies this
      ensures raised == PhotoTry(path, download, ocr, echoSent, backend).raised
      ensures replies == old(replies) + PhotoTry(path, download, ocr, echoSent, backend).sent
      ensures calls == old(calls) + PhotoTry(path, download, ocr, echoSent, backend).calls
      ensures files == old(files) + (if download.Saved? || download.wroteFile then {path} else {})
    {
      raised := false;
      match download {
      case Failed(wroteFile) =>
        if wroteFile {
          files := files + {path};
        }
        raised := true;
      case Saved =>
        files := files + {path};
        replies := replies + [Acknowledgement];
        calls := calls + [RecognizeCall(path, OcrLanguages)];
        match ocr {
        case Fail =>
          raised := true;
        case Ok(recognized) =>
          if Strip(recognized) == "" {
            replies := replies + [NothingRecognized];
            return;
          }
          if !echoSent {
            raised := true;
            return;
          }
          replies := replies + [RecognizedEcho(recognized)];
          var resolution := TranslateTextLogic(recognized, backend);
          calls := calls + resolution.calls;
          replies := replies + [TextReply(resolution.triple)];
        }
      }
    }

    /** `handle_photo`: the `try` block, the catch-all reply if it raised,
        and the `finally` cleanup, which removes the user's temporary file
        on every path and touches no other file. */
    method HandlePhoto(userId: int, download: Download, ocr: Outcome<string>, echoSent: bool, backend: Backend)
      modifies this
      ensures replies == old(replies) + PhotoOutcome(userId, download, ocr, echoSent, backend).replies
      ensures calls == old(calls) + PhotoOutcome(userId, download, ocr, echoSent, backend).calls
      ensures files == old(files) - {TempPhotoPath(userId)}
      ensures TempPhotoPath(userId) !in files
    {
      var path := TempPhotoPath(userId);
      // try:
      var raised := TryPhoto(path, download, ocr, echoSent, backend);
      // except Exception:
      if raised {
        replies := replies + [PhotoFailed];
      }
      // finally:
      if path in files {
        files := files - {path};
      }
    }
  }
}
