/** `VoskRecognizer`: the incremental, offline recognizer. Kaldi itself is outside the model;
    its answer for a frame is a `Reply`. */
module Vosk {
  import opened Common

  /** What the Kaldi recognizer reports for one frame: whether `AcceptWaveform` closed an
      utterance, the "text" of `Result()` and the "partial" of `PartialResult()`. */
  datatype Reply = Reply(accepted: bool, result: string, partial: string)

  /** The triple `recognize` returns and whether it called `rec.Reset()`. */
  datatype Decision = Decision(recognition: Recognition, reset: bool)

  /** The branches of `VoskRecognizer.recognize`. */
  function Decide(reply: Reply, isSpeech: bool): (d: Decision)
    // "partial" only for a non-empty partial result while the utterance goes on
    ensures d.recognition.code == "partial" <==> !reply.accepted && reply.partial != "" && isSpeech
    ensures d.recognition.code == "partial" ==> d.recognition.text == reply.partial
    // the end of speech always yields "full", with the final text or else the partial one
    ensures !isSpeech ==>
      && d.recognition.code == "full" && d.recognition.status
      && d.recognition.text == (if reply.accepted then reply.result else reply.partial)
    // a completed waveform with text is always reported
    ensures reply.accepted && reply.result != "" ==>
      && d.recognition.code == "full" && d.recognition.text == reply.result
    // nothing to say exactly when speech goes on and Kaldi has no text
    ensures d.recognition == Nothing <==>
      isSpeech && (if reply.accepted then reply.result == "" else reply.partial == "")
    ensures d.recognition.code in {"partial", "full", ""}
    ensures d.recognition.status <==> d.recognition.code != ""
    // the recognizer is reset exactly when a full result is returned
    ensures d.reset <==> d.recognition.code == "full"
  {
    var full := if reply.accepted then reply.result else "";
    var partial := if reply.accepted then "" else reply.partial;
    if partial != "" && isSpeech then
      Decision(Recognition(partial, true, "partial"), false)
    else if full != "" || !isSpeech then
      Decision(Recognition(if full != "" then full else partial, true, "full"), true)
    else
      Decision(Nothing, false)
  }

  class VoskRecognizer {
    /** How many times `rec.Reset()` has been called on the Kaldi recognizer. */
    var resets: nat

    constructor ()
      ensures resets == 0
    {
      resets := 0;
    }

    /** `recognize(dataStream, isSpeech)`; `reply` is Kaldi's answer to `dataStream`. */
    method Recognize(dataStream: Frame, isSpeech: bool, reply: Reply) returns (r: Recognition)
      modifies this
      ensures r == Decide(reply, isSpeech).recognition
      ensures resets == old(resets) + (if Decide(reply, isSpeech).reset then 1 else 0)
    {
      var full := "";
      var partial := "";
      if reply.accepted {
        full := reply.result;
      } else {
        partial := reply.partial;
      }
      if partial != "" && isSpeech {
        return Recognition(partial, true, "partial");
      }
      if full != "" || !isSpeech {
        resets := resets + 1;
        var text := full;
        if text == "" {
          text := partial;
        }
        return Recognition(text, true, "full");
      }
      return Nothing;
    }
  }
}
