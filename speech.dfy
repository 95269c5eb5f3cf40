/** `SpeechRecognizer`: the object that `_recognize` updates frame by frame. */
module Speech {
  import opened Common
  import M = Orchestration
  import Vad
  import Vosk
  import Google

  /** The `vad` object handed to the constructor: a `JarvisVAD`, or any other object with
      an `isSpeech` method, whose verdict for each frame is then an input. */
  datatype VadRef = Jarvis(j: Vad.JarvisVad) | CustomVad

  /** The `recognizer` object handed to the constructor. */
  datatype RecognizerRef = VoskBackend(v: Vosk.VoskRecognizer) | GoogleBackend(g: Google.GoogleRecognizer)

  class SpeechRecognizer {
    const recognizer: RecognizerRef
    const vad: VadRef
    const realSpeechLength: int
    const startSpeechLength: int := M.StartSpeechLength

    var speechLength: int
    var woke: bool
    var prevSpeaking: Option<int>
    var speakingLength: int
    var frames: seq<Frame>
    var count: nat
    var wakeWordStreams: seq<Frame>
    var isSpeech: bool

    /** The collaborator objects `_recognize` may change. */
    function VadObjects(): set<object>
    {
      if vad.Jarvis? then {vad.j} else {}
    }

    function RecognizerObjects(): set<object>
    {
      match recognizer
      case VoskBackend(v) => {v}
      case GoogleBackend(g) => {g}
    }

    /** A VAD and a recognizer are objects of different classes. */
    lemma CollaboratorsDisjoint()
      ensures VadObjects() !! RecognizerObjects()
    {
      match vad {
        case Jarvis(j) =>
          match recognizer {
            case VoskBackend(v) => assert (j as object) != (v as object);
            case GoogleBackend(g) => assert (j as object) != (g as object);
          }
        case CustomVad =>
      }
    }

    function Collaborators(): set<object>
    {
      VadObjects() + RecognizerObjects()
    }

    function VadModel(): M.VadModel
      reads VadObjects()
    {
      match vad
      case Jarvis(j) => M.JarvisModel(j.buffer, j.sensitivity)
      case CustomVad => M.CustomModel
    }

    function BackendModel(): M.BackendModel
      reads RecognizerObjects()
    {
      match recognizer
      case VoskBackend(v) => M.VoskModel(v.resets)
      case GoogleBackend(g) => M.GoogleModel(g.frames)
    }

    /** The fields `_recognize` updates, as a value. */
    function CoreModel(): M.Core
      reads this
    {
      M.Core(woke, count, prevSpeaking, speakingLength, speechLength, isSpeech, frames, wakeWordStreams)
    }

    /** The object and the state of its collaborators, as a value. */
    function Model(): M.System
      reads this, Collaborators()
    {
      M.System(CoreModel(), VadModel(), BackendModel(), realSpeechLength)
    }

    ghost predicate Valid()
      reads this, Collaborators()
    {
      M.Valid(Model()) && (vad.Jarvis? ==> vad.j.Valid())
    }

    /** `__init__(recognizer, vad, speechLength=0.9)`, with the speech length in milliseconds. */
    constructor (recognizer: RecognizerRef, vad: VadRef, speechLength: int := M.DefaultSpeechLength)
      requires vad.Jarvis? ==> vad.j.Valid()
      ensures this.recognizer == recognizer && this.vad == vad && realSpeechLength == speechLength
      ensures Valid()
      ensures Model().core == M.InitialCore(speechLength)
    {
      this.recognizer := recognizer;
      this.vad := vad;
      this.speechLength := speechLength;
      realSpeechLength := speechLength;
      woke := false;
      prevSpeaking := None;
      speakingLength := 0;
      frames := [];
      count := 0;
      wakeWordStreams := [];
      isSpeech := true;
    }

    /** `_reset`, with `time.time()` read as `now`. */
    method Reset(now: int)
      modifies this
      ensures woke == false && count == 0 && prevSpeaking == Some(now)
      ensures speakingLength == 0 && isSpeech == true
      ensures frames == old(frames) && wakeWordStreams == old(wakeWordStreams)
      ensures speechLength == old(speechLength)
    {
      woke := false;
      count := 0;
      prevSpeaking := Some(now);
      speakingLength := 0;
      isSpeech := true;
    }

    /** `self.vad.isSpeech(data)` */
    method Detect(data: Frame, o: M.Outcomes) returns (heard: bool)
      requires vad.Jarvis? ==> vad.j.Valid()
      modifies VadObjects()
      ensures vad.Jarvis? ==> vad.j.Valid()
      ensures (VadModel(), heard) == M.Hear(old(VadModel()), data, o)
    {
      match vad
      case Jarvis(j) =>
        heard := j.IsSpeech(data, o.scores);
      case CustomVad =>
        heard := o.speech;
    }

    /** `self.recognizer.recognize(bytes(data), self._isSpeech)`, with the events the recognizer
        sends to the shared callback. */
    method Transcribe(data: Frame, speech: bool, o: M.Outcomes) returns (r: Recognition, notes: seq<Event>)
      requires vad.Jarvis? ==> vad.j.Valid()
      modifies RecognizerObjects()
      ensures vad.Jarvis? ==> vad.j.Valid()
      ensures VadModel() == old(VadModel())
      ensures M.Transcript(BackendModel(), r, notes) == M.Transcribe(old(BackendModel()), data, speech, o)
    {
      CollaboratorsDisjoint();
      match recognizer
      case VoskBackend(v) =>
        r := v.Recognize(data, speech, o.vosk);
        notes := [];
      case GoogleBackend(g) =>
        var announced;
        r, announced := g.Recognize(data, speech, o.google);
        notes := if announced then [GoogleRecognizing] else [];
    }

    /** The start of `_recognize`: the ring and the wake word. */
    method Wake(data: Frame, wakeIndex: int, now: int) returns (events: seq<Event>)
      modifies this
      ensures (CoreModel(), events) == M.Wake(old(CoreModel()), data, wakeIndex, now)
      ensures speechLength == old(speechLength) && isSpeech == old(isSpeech)
      ensures speakingLength == old(speakingLength) && frames == old(frames)
    {
      ghost var c := CoreModel();
      events := [];
      if !woke {
        if |wakeWordStreams| >= M.Capacity {
          wakeWordStreams := wakeWordStreams[1..];
        }
        wakeWordStreams := wakeWordStreams + [data];
      }
      ghost var c1 := if c.woke then c else c.(wakeWordStreams := M.Buffered(c.wakeWordStreams, data));
      assert CoreModel() == c1;

      if wakeIndex >= 0 && !woke {
        woke := true;
        count := 0;
        prevSpeaking := Some(now);
        events := events + [WakeWordDetected];
        assert CoreModel() == c1.(woke := true, count := 0, prevSpeaking := Some(now));
        assert events == [WakeWordDetected];
      }
      assert (CoreModel(), events) == M.Wake(c, data, wakeIndex, now);
    }

    /** `_recognize` while awake: keep the frame and ask the VAD. */
    method Hearing(data: Frame, o: M.Outcomes, now: int) returns (heard: bool, events: seq<Event>)
      requires vad.Jarvis? ==> vad.j.Valid()
      modifies this, VadObjects()
      ensures vad.Jarvis? ==> vad.j.Valid()
      ensures (VadModel(), heard) == M.Hear(old(VadModel()), data, o)
      ensures CoreModel() == M.Heard(old(CoreModel()), data, heard, now)
      ensures BackendModel() == old(BackendModel())
      ensures events == if heard then [VoiceActivity] else []
    {
      CollaboratorsDisjoint();
      frames := frames + [data];
      heard := Detect(data, o);
      events := [];
      if heard {
        count := count + 1;
        prevSpeaking := Some(now);
        events := events + [VoiceActivity];
      }
    }

    /** `_recognize` while awake: measure the silence against the threshold. */
    method Measure(now: int)
      modifies this
      ensures CoreModel() == M.Timed(old(CoreModel()), now, realSpeechLength)
    {
      if prevSpeaking.Some? {
        speakingLength := now - prevSpeaking.value;
        if count == 0 {
          speechLength := startSpeechLength;
        } else {
          speechLength := realSpeechLength;
        }
      }
      if speakingLength > speechLength {
        isSpeech := false;
      }
    }

    /** `_recognize` at the end of speech: hand over the frames and reset. */
    method Close(now: int) returns (events: seq<Event>)
      modifies this
      ensures (CoreModel(), events) == M.Close(old(CoreModel()), now)
    {
      ghost var c := CoreModel();
      events := [];
      if !isSpeech {
        events := events + [CompleteFrames(frames)];
        Reset(now);
        assert CoreModel() == M.Reset(c, now);
        assert events == [CompleteFrames(c.frames)];
      }
      assert (CoreModel(), events) == M.Close(c, now);
    }

    /** `_recognize` while awake, from the frame to the recognizer's text event. */
    method Attend(data: Frame, o: M.Outcomes, now: int) returns (events: seq<Event>)
      requires vad.Jarvis? ==> vad.j.Valid()
      modifies this, Collaborators()
      ensures vad.Jarvis? ==> vad.j.Valid()
      ensures (Model(), events) == M.Attend(old(Model()), data, o, now)
    {
      CollaboratorsDisjoint();
      var heard, voice := Hearing(data, o, now);
      Measure(now);
      var r, notes := Transcribe(data, isSpeech, o);
      var closing := Close(now);
      events := voice + notes + closing + M.Announce(r);
    }

    /** `_recognize(data, ...)` for one frame: `wakeIndex` is what `porcupine.process` returned,
        `o` what the other foreign code answers, `now` the clock in milliseconds. Returns the
        events sent to the callback, in order. */
    method Step(data: Frame, wakeIndex: int, o: M.Outcomes, now: int) returns (events: seq<Event>)
      requires Valid()
      modifies this, Collaborators()
      ensures Valid()
      ensures (Model(), events) == M.Step(old(Model()), data, wakeIndex, o, now)
    {
      events := Wake(data, wakeIndex, now);
      if woke {
        var more := Attend(data, o, now);
        events := events + more;
      }
    }
  }
}
