/** The per-frame state machine of `SpeechRecognizer`, as functions on values. The class in
    module Speech is proved to follow `Step`; the lemmas in module Properties are about it. */
module Orchestration {
  import opened Common
  import Vad
  import Vosk
  import Google

  /** Frames kept in `_wakeWordStreams` before the wake word. */
  const Capacity: nat := 30
  /** `startSpeechLength = 4` seconds, in milliseconds. */
  const StartSpeechLength: int := 4000
  /** The default `speechLength = 0.9` seconds, in milliseconds. */
  const DefaultSpeechLength: int := 900

  /** The fields `_recognize` and `_reset` update (times in milliseconds). */
  datatype Core = Core(
    woke: bool,
    count: nat,
    prevSpeaking: Option<int>,
    speakingLength: int,
    speechLength: int,
    isSpeech: bool,
    frames: seq<Frame>,
    wakeWordStreams: seq<Frame>)

  /** The state of the voice activity detector: `JarvisVAD`'s buffer, or any other VAD. */
  datatype VadModel = JarvisModel(buffer: seq<Frame>, sensitivity: real) | CustomModel

  /** The state of the recognizer: how often Vosk was reset, or Google's buffered frames. */
  datatype BackendModel = VoskModel(resets: nat) | GoogleModel(frames: seq<Frame>)

  /** What the foreign code answers for one frame: the VAD classifier's scores, a custom
      VAD's verdict, the Kaldi reply and the outcome of Google's file and web part. */
  datatype Outcomes = Outcomes(
    scores: Vad.Scores,
    speech: bool,
    vosk: Vosk.Reply,
    google: Google.Outcome)

  /** A whole `SpeechRecognizer` with its collaborators. */
  datatype System = System(core: Core, vad: VadModel, backend: BackendModel, realSpeechLength: int)

  /** The fields as `__init__` sets them. */
  function InitialCore(speechLength: int): (c: Core)
    ensures !c.woke && c.count == 0 && c.prevSpeaking == None && c.isSpeech
    ensures c.frames == [] && c.wakeWordStreams == []
  {
    Core(false, 0, None, 0, speechLength, true, [], [])
  }

  /** The invariant `_recognize` keeps between frames. */
  predicate Valid(s: System)
  {
    && |s.core.wakeWordStreams| <= Capacity
    && s.core.isSpeech
    && (s.core.woke ==> s.core.prevSpeaking.Some?)
    && (!s.core.woke ==> s.core.count == 0)
    && (s.vad.JarvisModel? ==> |s.vad.buffer| < Vad.Window)
  }

  /** The last `Capacity` frames of s. */
  function Recent(s: seq<Frame>): (r: seq<Frame>)
  {
    if |s| <= Capacity then s else s[|s| - Capacity..]
  }

  /** The ring update of `_recognize` while asleep: drop the oldest stream when full, then
      keep the new one. */
  function Buffered(streams: seq<Frame>, data: Frame): (r: seq<Frame>)
    ensures |streams| <= Capacity ==> r == Recent(streams + [data]) && |r| <= Capacity
    ensures |r| > 0 && r[|r| - 1] == data
  {
    (if |streams| >= Capacity then streams[1..] else streams) + [data]
  }

  /** The silence that ends an utterance: longer before the first voice activity. */
  function Threshold(count: nat, realSpeechLength: int): (t: int)
    ensures count == 0 ==> t == StartSpeechLength
    ensures count > 0 ==> t == realSpeechLength
  {
    if count == 0 then StartSpeechLength else realSpeechLength
  }

  /** The timing part of `_recognize`: measure the silence since the last voice activity and
      compare it with the threshold in force. */
  function Timed(c: Core, now: int, realSpeechLength: int): (r: Core)
    ensures c.prevSpeaking.Some? ==>
      && r.speechLength == Threshold(c.count, realSpeechLength)
      && r.speakingLength == now - c.prevSpeaking.value
      && (r.isSpeech <==> c.isSpeech && now - c.prevSpeaking.value <= Threshold(c.count, realSpeechLength))
    ensures r == c.(speakingLength := r.speakingLength, speechLength := r.speechLength, isSpeech := r.isSpeech)
  {
    var measured :=
      if c.prevSpeaking.Some? then
        c.(speakingLength := now - c.prevSpeaking.value, speechLength := Threshold(c.count, realSpeechLength))
      else c;
    if measured.speakingLength > measured.speechLength then measured.(isSpeech := false) else measured
  }

  /** `_reset`, with `time.time()` read as `now`; `_frames` is left as it is. */
  function Reset(c: Core, now: int): (r: Core)
    ensures !r.woke && r.count == 0 && r.prevSpeaking == Some(now)
    ensures r.speakingLength == 0 && r.isSpeech
    // kept: the frames of every utterance so far, the ring and the threshold last used
    ensures r.frames == c.frames && r.wakeWordStreams == c.wakeWordStreams
    ensures r.speechLength == c.speechLength
  {
    c.(woke := false, count := 0, prevSpeaking := Some(now), speakingLength := 0, isSpeech := true)
  }

  /** `self.vad.isSpeech(data)`: the detector's new state and its verdict. */
  function Hear(v: VadModel, data: Frame, o: Outcomes): (r: (VadModel, bool))
    ensures v.CustomModel? ==> r == (CustomModel, o.speech)
    ensures v.JarvisModel? ==>
      && r.0.JarvisModel? && r.0.sensitivity == v.sensitivity
      && (|v.buffer| < Vad.Window ==> |r.0.buffer| < Vad.Window)
      && (r.1 <==> |v.buffer| + 1 == Vad.Window && Vad.SpeechOnTop(o.scores, v.sensitivity))
  {
    match v
    case JarvisModel(buffer, sensitivity) =>
      var verdict := Vad.Classify(buffer, data, o.scores, sensitivity);
      (JarvisModel(verdict.buffer, sensitivity), verdict.speech)
    case CustomModel => (CustomModel, o.speech)
  }

  datatype Transcript = Transcript(backend: BackendModel, recognition: Recognition, notes: seq<Event>)

  /** `self.recognizer.recognize(bytes(data), self._isSpeech)`; `notes` are the events the
      recognizer itself sends to the shared callback. */
  function Transcribe(b: BackendModel, data: Frame, isSpeech: bool, o: Outcomes): (t: Transcript)
    ensures t.backend.VoskModel? <==> b.VoskModel?
    // only Google announces itself, and only once speech has ended
    ensures t.notes == [] || t.notes == [GoogleRecognizing]
    ensures t.notes != [] ==> b.GoogleModel? && !isSpeech
    ensures b.VoskModel? ==>
      t.backend.resets == if t.recognition.code == "full" then b.resets + 1 else b.resets
    ensures b.GoogleModel? ==>
      t.backend.frames == if isSpeech then b.frames + [data] else []
    // a recognizer reports a finished text only once speech has ended
    ensures t.recognition.code == "full" ==> !isSpeech || (b.VoskModel? && o.vosk.accepted && o.vosk.result != "")
  {
    match b
    case VoskModel(resets) =>
      var d := Vosk.Decide(o.vosk, isSpeech);
      Transcript(VoskModel(if d.reset then resets + 1 else resets), d.recognition, [])
    case GoogleModel(frames) =>
      var a := Google.Decide(frames, data, isSpeech, o.google);
      Transcript(GoogleModel(a.frames), a.recognition, if a.announced then [GoogleRecognizing] else [])
  }

  /** The events a recognizer's answer produces at the end of `_recognize`. */
  predicate TextEvent(e: Event)
  {
    e.PartialText? || e.FullText? || e.Unrecognized? || e.Error?
  }

  function Announce(r: Recognition): (e: seq<Event>)
    ensures |e| <= 1
    ensures forall x :: x in e ==> TextEvent(x)
    ensures e == [] <==>
      r.code !in {"partial", "full", "unrecognized"} && !IsErrorCode(r.code)
  {
    if r.code == "partial" then [PartialText(r.text)]
    else if r.code == "full" then [FullText(r.text)]
    else if r.code == "unrecognized" then [Unrecognized]
    else if IsErrorCode(r.code) then [Error(r.code)]
    else []
  }

  /** The start of `_recognize`: keep the frame in the ring while asleep, then wake on a
      keyword. */
  function Wake(c: Core, data: Frame, wakeIndex: int, now: int): (r: (Core, seq<Event>))
    ensures r.0.woke <==> c.woke || wakeIndex >= 0
    ensures r.1 == if !c.woke && wakeIndex >= 0 then [WakeWordDetected] else []
    ensures c.woke ==> r.0 == c
    ensures !c.woke ==> r.0.wakeWordStreams == Buffered(c.wakeWordStreams, data)
    ensures !c.woke && wakeIndex >= 0 ==> r.0.count == 0 && r.0.prevSpeaking == Some(now)
    ensures !c.woke && wakeIndex < 0 ==> r.0.count == c.count && r.0.prevSpeaking == c.prevSpeaking
    ensures r.0.frames == c.frames && r.0.isSpeech == c.isSpeech
    ensures r.0.speakingLength == c.speakingLength && r.0.speechLength == c.speechLength
  {
    var c1 := if c.woke then c else c.(wakeWordStreams := Buffered(c.wakeWordStreams, data));
    if wakeIndex >= 0 && !c1.woke then
      (c1.(woke := true, count := 0, prevSpeaking := Some(now)), [WakeWordDetected])
    else
      (c1, [])
  }

  /** The frame while awake: keep it and count the voice activity the VAD reports. */
  function Heard(c: Core, data: Frame, heard: bool, now: int): (r: Core)
    ensures r.frames == c.frames + [data]
    ensures r.count == if heard then c.count + 1 else c.count
    ensures r.prevSpeaking == if heard then Some(now) else c.prevSpeaking
    ensures r.woke == c.woke && r.isSpeech == c.isSpeech && r.wakeWordStreams == c.wakeWordStreams
    ensures r.speakingLength == c.speakingLength && r.speechLength == c.speechLength
  {
    var kept := c.(frames := c.frames + [data]);
    if heard then kept.(count := kept.count + 1, prevSpeaking := Some(now)) else kept
  }

  /** At the end of speech, hand over the frames and reset. */
  function Close(c: Core, now: int): (r: (Core, seq<Event>))
    ensures c.isSpeech ==> r == (c, [])
    ensures !c.isSpeech ==> r == (Reset(c, now), [CompleteFrames(c.frames)])
    ensures r.0.isSpeech && r.0.frames == c.frames
  {
    if c.isSpeech then (c, []) else (Reset(c, now), [CompleteFrames(c.frames)])
  }

  /** The work done on a frame while awake, up to the recognizer's text event. */
  function Attend(sys: System, data: Frame, o: Outcomes, now: int): (r: (System, seq<Event>))
    ensures r.0.core.frames == sys.core.frames + [data]
    ensures r.0.vad == Hear(sys.vad, data, o).0 && r.0.realSpeechLength == sys.realSpeechLength
    ensures r.0.core.isSpeech && r.0.core.wakeWordStreams == sys.core.wakeWordStreams
    ensures WakeWordDetected !in r.1
    ensures VoiceActivity in r.1 <==> Hear(sys.vad, data, o).1
    // the utterance ends exactly when the frames are handed over, and then the state is reset
    ensures sys.core.woke ==>
      && (CompleteFrames(sys.core.frames + [data]) in r.1 <==> !r.0.core.woke)
      && (!r.0.core.woke ==> r.0.core.count == 0 && r.0.core.prevSpeaking == Some(now))
  {
    var h := Hear(sys.vad, data, o);
    var measured := Timed(Heard(sys.core, data, h.1, now), now, sys.realSpeechLength);
    var t := Transcribe(sys.backend, data, measured.isSpeech, o);
    var closed := Close(measured, now);
    var events := (if h.1 then [VoiceActivity] else []) + t.notes + closed.1 + Announce(t.recognition);
    (System(closed.0, h.0, t.backend, sys.realSpeechLength), events)
  }

  /** `_recognize(data, ...)`: one audio frame, the porcupine result `wakeIndex`, the answers
      of the foreign code and the time `now`; gives the new system and the callback events. */
  function Step(sys: System, data: Frame, wakeIndex: int, o: Outcomes, now: int): (r: (System, seq<Event>))
    ensures Valid(sys) ==> Valid(r.0)
    ensures r.0.realSpeechLength == sys.realSpeechLength
  {
    var woken := Wake(sys.core, data, wakeIndex, now);
    if !woken.0.woke then
      (sys.(core := woken.0), woken.1)
    else
      var heard := Attend(sys.(core := woken.0), data, o, now);
      (heard.0, woken.1 + heard.1)
  }

  /** One frame as the audio stream delivers it, with what the foreign code answers. */
  datatype Tick = Tick(data: Frame, wakeIndex: int, outcomes: Outcomes, now: int)

  /** Frames processed one after the other; the events of all of them, in order. */
  function Run(sys: System, ticks: seq<Tick>): (r: (System, seq<Event>))
    ensures Valid(sys) ==> Valid(r.0)
    ensures r.0.realSpeechLength == sys.realSpeechLength
    decreases |ticks|
  {
    if ticks == [] then (sys, [])
    else
      var t := ticks[0];
      var first := Step(sys, t.data, t.wakeIndex, t.outcomes, t.now);
      var rest := Run(first.0, ticks[1..]);
      (rest.0, first.1 + rest.1)
  }
}
