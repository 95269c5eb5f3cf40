/** `GoogleRecognizer`: the batched recognizer. It keeps the frames of an utterance and sends
    them, written to a wav file, to Google's web service once speech has ended. */
module Google {
  import opened Common

  /** How the file and network part of one recognition ends. */
  datatype Outcome =
    | RecordFailed(reason: string)    // `AudioFile`/`record` raised
    | Transcribed(content: string)    // `recognize_google` returned a transcript
    | NotUnderstood                   // `recognize_google` raised `UnknownValueError`
    | RequestFailed(reason: string)   // `recognize_google` raised anything else

  /** The error code of a failed request as `recognize` writes it: the literal "error: {e}",
      whatever the exception said, because the string is not an f-string. */
  function RequestErrorAsWritten(reason: string): (code: string)
    ensures IsErrorCode(code)
  {
    "error: {e}"
  }

  /** The two different failures below are reported with the same code. */
  lemma RequestErrorAsWrittenLosesReason()
    ensures RequestErrorAsWritten("timed out") == RequestErrorAsWritten("connection refused")
  {
  }

  /** The error code of a failure as the record failure writes it, with an f-string that
      puts the exception message after the prefix; the intended code of a failed request. */
  function ErrorCode(reason: string): (code: string)
    ensures IsErrorCode(code)
    ensures code[|ErrorPrefix|..] == reason
  {
    ErrorPrefix + reason
  }

  /** Distinct failures keep distinct codes. */
  lemma ErrorCodeKeepsReason(a: string, b: string)
    ensures ErrorCode(a) == ErrorCode(b) <==> a == b
  {
    if ErrorCode(a) == ErrorCode(b) {
      assert a == ErrorCode(a)[|ErrorPrefix|..];
    }
  }

  datatype Answer = Answer(frames: seq<Frame>, recognition: Recognition, announced: bool)

  /** `recognize(dataStream, isSpeech)` from the buffered `frames`: the new buffer, the
      triple returned and whether `{"type": "googleRecognizing"}` went to the callback. */
  function Decide(frames: seq<Frame>, dataStream: Frame, isSpeech: bool, outcome: Outcome): (a: Answer)
    // while speech goes on: buffer the frame, report nothing
    ensures isSpeech ==> a == Answer(frames + [dataStream], Nothing, false)
    // once it ends: the buffer is emptied whatever happens
    ensures !isSpeech ==> a.frames == []
    ensures !isSpeech ==> a.recognition.code in {"full", "unrecognized"} || IsErrorCode(a.recognition.code)
    ensures a.recognition.status <==> a.recognition.code == "full"
    ensures a.recognition.code == "full" <==> !isSpeech && outcome.Transcribed?
    ensures a.recognition.code == "full" ==> a.recognition.text == outcome.content
    ensures a.recognition.code == "unrecognized" <==> !isSpeech && outcome.NotUnderstood?
    ensures IsErrorCode(a.recognition.code) <==>
      !isSpeech && (outcome.RecordFailed? || outcome.RequestFailed?)
    // the request is announced exactly when the wav file could be read back
    ensures a.announced <==> !isSpeech && !outcome.RecordFailed?
    // a record failure carries its message; a failed request only the literal "error: {e}"
    ensures !isSpeech && outcome.RecordFailed? ==> a.recognition.code[|ErrorPrefix|..] == outcome.reason
    ensures !isSpeech && outcome.RequestFailed? ==> a.recognition.code == "error: {e}"
  {
    assert !IsErrorCode("unrecognized") && !IsErrorCode("full") by {
      assert "unrecognized"[0] != ErrorPrefix[0] && "full"[0] != ErrorPrefix[0];
    }
    if isSpeech then
      Answer(frames + [dataStream], Nothing, false)
    else
      match outcome
      case RecordFailed(reason) => Answer([], Recognition("", false, ErrorCode(reason)), false)
      case Transcribed(content) => Answer([], Recognition(content, true, "full"), true)
      case NotUnderstood => Answer([], Recognition("", false, "unrecognized"), true)
      case RequestFailed(reason) => Answer([], Recognition("", false, RequestErrorAsWritten(reason)), true)
  }

  class GoogleRecognizer {
    /** The frames of the current utterance, in arrival order. */
    var frames: seq<Frame>

    constructor ()
      ensures frames == []
    {
      frames := [];
    }

    /** `_clear` */
    method Clear()
      modifies this
      ensures frames == []
    {
      frames := [];
    }

    /** `recognize(dataStream, isSpeech)`; `outcome` stands for writing the wav file,
        reading it back and the web request. */
    method Recognize(dataStream: Frame, isSpeech: bool, outcome: Outcome)
      returns (r: Recognition, announced: bool)
      modifies this
      ensures Answer(frames, r, announced) == Decide(old(frames), dataStream, isSpeech, outcome)
    {
      announced := false;
      if isSpeech {
        frames := frames + [dataStream];
        return Nothing, false;
      }
      // `_save()` writes `frames` to the cache file here.
      if outcome.RecordFailed? {
        Clear();
        return Recognition("", false, ErrorCode(outcome.reason)), false;
      }
      Clear();
      announced := true;
      match outcome {
        case Transcribed(content) =>
          r := Recognition(content, true, "full");
        case NotUnderstood =>
          r := Recognition("", false, "unrecognized");
        case RequestFailed(reason) =>
          r := Recognition("", false, RequestErrorAsWritten(reason));
      }
    }
  }
}
