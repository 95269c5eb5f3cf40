/** `JarvisVAD`: a voice activity detector that decides once per half second of audio. */
module Vad {
  import opened Common
  import opened Predictions

  const Rate: nat := 16000
  const Chunk: nat := 512
  /** DURATION = 0.5 s, written in tenths of a second. */
  const DurationTenths: nat := 5
  /** `int(RATE / CHUNK * DURATION)` = int(15.625) = 15 frames per decision. */
  const Window: nat := Rate * DurationTenths / (Chunk * 10)

  /** What `model.predict` returns for one half-second window: one score per class. */
  type Scores = s: seq<real> | |s| > 0 witness [0.0]

  /** The classifier says "speech": class 1 is the first class with the highest score,
      and that score reaches the sensitivity. */
  predicate SpeechOnTop(p: seq<real>, sensitivity: real)
  {
    |p| > 1 && p[0] < p[1] && p[1] >= sensitivity &&
    forall j :: 0 <= j < |p| ==> p[j] <= p[1]
  }

  /** The test `index == 1 and probability >= self.sensitivity` on the head of
      `formatPredictions` holds exactly when the raw scores put speech on top. */
  lemma TopIsSpeech(p: Scores, sensitivity: real)
    ensures var top := FormatPredictions(p)[0];
      (top.index == 1 && top.score >= sensitivity) <==> SpeechOnTop(p, sensitivity)
  {
    TopPrediction(p);
    var top := FormatPredictions(p)[0];
    if SpeechOnTop(p, sensitivity) {
      assert p[1] <= top.score && p[top.index] <= p[1];
      assert !(1 < top.index) && top.index != 0;
    }
  }

  datatype Verdict = Verdict(buffer: seq<Frame>, speech: bool)

  /** One call of `isSpeech` on the buffer it finds; `predictions` is what the classifier
      would answer if this call fills the window. The decibel features of a frame are
      represented by the frame itself. */
  function Classify(buffer: seq<Frame>, stream: Frame, predictions: Scores, sensitivity: real): (v: Verdict)
    ensures |buffer| < Window ==> |v.buffer| < Window
    ensures v.buffer == [] <==> |buffer| + 1 == Window
    ensures |buffer| + 1 != Window ==> v.buffer == buffer + [stream]
    ensures v.speech <==> |buffer| + 1 == Window && SpeechOnTop(predictions, sensitivity)
  {
    TopIsSpeech(predictions, sensitivity);
    var grown := buffer + [stream];
    if |grown| == Window then
      var top := FormatPredictions(predictions)[0];
      Verdict([], top.index == 1 && top.score >= sensitivity)
    else
      Verdict(grown, false)
  }

  /** Feeds a run of frames, with the classifier's answer for each, through `Classify`. */
  function Feed(buffer: seq<Frame>, streams: seq<Frame>, answers: seq<Scores>, sensitivity: real): (v: Verdict)
    requires |streams| == |answers|
    decreases |streams|
  {
    if streams == [] then Verdict(buffer, false)
    else
      var v := Classify(buffer, streams[0], answers[0], sensitivity);
      if |streams| == 1 then v else Feed(v.buffer, streams[1..], answers[1..], sensitivity)
  }

  /** After n calls the buffer holds (start + n) mod 15 frames: it is emptied on every
      15th call and on no other. */
  lemma {:induction false} FeedCycle(buffer: seq<Frame>, streams: seq<Frame>, answers: seq<Scores>, sensitivity: real)
    requires |streams| == |answers|
    requires |buffer| < Window
    ensures |Feed(buffer, streams, answers, sensitivity).buffer| == (|buffer| + |streams|) % Window
    decreases |streams|
  {
    assert Window == 15;
    if streams != [] {
      var v := Classify(buffer, streams[0], answers[0], sensitivity);
      var n := |buffer| + 1;
      assert |v.buffer| == n % 15;
      if |streams| > 1 {
        FeedCycle(v.buffer, streams[1..], answers[1..], sensitivity);
        var rest := |streams| - 1;
        assert (n % 15 + rest) % 15 == (n + rest) % 15 by {
          if n == 15 { assert (15 + rest) % 15 == rest % 15; }
        }
      }
    }
  }

  class JarvisVad {
    /** The features of the frames seen since the last decision. */
    var buffer: seq<Frame>
    const sensitivity: real
    /** Number of `isSpeech` calls so far. */
    ghost var calls: nat

    ghost predicate Valid()
      reads this
    {
      |buffer| == calls % Window
    }

    constructor (sensitivity: real := 0.90)
      ensures Valid() && buffer == [] && calls == 0 && this.sensitivity == sensitivity
    {
      buffer := [];
      this.sensitivity := sensitivity;
      calls := 0;
    }

    /** `isSpeech(stream)`; `predictions` stands for `model.predict` on the filled window. */
    method IsSpeech(stream: Frame, predictions: Scores) returns (speech: bool)
      requires Valid()
      modifies this
      ensures Valid() && calls == old(calls) + 1
      ensures Verdict(buffer, speech) == Classify(old(buffer), stream, predictions, sensitivity)
      ensures speech ==> calls % Window == 0
    {
      calls := calls + 1;
      buffer := buffer + [stream];
      speech := false;
      if |buffer| == Window {
        buffer := [];
        var ranked := FormatPredictions(predictions);
        var top := ranked[0];
        if top.index == 1 && top.score >= sensitivity {
          speech := true;
        }
      }
    }
  }
}
