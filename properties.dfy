/** What `_recognize` guarantees, frame by frame and over runs of frames. */
module Properties {
  import opened Common
  import opened Orchestration
  import Vad

  function FramesOf(ticks: seq<Tick>): (r: seq<Frame>)
    ensures |r| == |ticks|
    ensures forall k :: 0 <= k < |ticks| ==> r[k] == ticks[k].data
  {
    seq(|ticks|, k requires 0 <= k < |ticks| => ticks[k].data)
  }

  lemma FramesOfFirst(prefix: seq<Frame>, ticks: seq<Tick>)
    requires ticks != []
    ensures prefix + [ticks[0].data] + FramesOf(ticks[1..]) == prefix + FramesOf(ticks)
  {
    assert FramesOf(ticks) == [ticks[0].data] + FramesOf(ticks[1..]);
  }

  // ---------------------------------------------------------------------------
  // One frame

  /** Asleep and no keyword: only the frame is kept in the ring; the VAD and the recognizer
      are not consulted and nothing is emitted. */
  lemma AsleepFrame(sys: System, data: Frame, wakeIndex: int, o: Outcomes, now: int)
    requires !sys.core.woke && wakeIndex < 0
    ensures Step(sys, data, wakeIndex, o, now) ==
      (sys.(core := sys.core.(wakeWordStreams := Buffered(sys.core.wakeWordStreams, data))), [])
  {
  }

  /** A keyword heard while awake is ignored: the frame is handled as if there were none. */
  lemma WakeIgnoredWhileAwake(sys: System, data: Frame, wakeIndex: int, o: Outcomes, now: int)
    requires sys.core.woke
    ensures Step(sys, data, wakeIndex, o, now) == Step(sys, data, -1, o, now)
  {
  }

  /** The ring is updated exactly while asleep, including on the frame that wakes. */
  lemma RingFrame(sys: System, data: Frame, wakeIndex: int, o: Outcomes, now: int)
    requires Valid(sys)
    ensures var r := Step(sys, data, wakeIndex, o, now);
      && |r.0.core.wakeWordStreams| <= Capacity
      && r.0.core.wakeWordStreams ==
        if sys.core.woke then sys.core.wakeWordStreams
        else Recent(sys.core.wakeWordStreams + [data])
  {
  }

  /** One wakeWordDetected, first, exactly on the frame that wakes a sleeping recognizer. */
  lemma WakeFrame(sys: System, data: Frame, wakeIndex: int, o: Outcomes, now: int)
    ensures var r := Step(sys, data, wakeIndex, o, now);
      if wakeIndex >= 0 && !sys.core.woke then
        && r.1[0] == WakeWordDetected
        && WakeWordDetected !in r.1[1..]
      else
        WakeWordDetected !in r.1
  {
  }

  /** The frame that wakes a sleeping recognizer never ends the utterance (none of its silence
      has passed yet): it stays awake, with the last activity now and the frame's own voice
      activity as the only speech counted. */
  lemma WakingFrame(sys: System, data: Frame, wakeIndex: int, o: Outcomes, now: int)
    requires Valid(sys) && !sys.core.woke && wakeIndex >= 0 && sys.realSpeechLength >= 0
    ensures var r := Step(sys, data, wakeIndex, o, now);
      && r.0.core.woke
      && r.0.core.prevSpeaking == Some(now)
      && r.0.core.count == (if Hear(sys.vad, data, o).1 then 1 else 0)
      && r.0.core.frames == sys.core.frames + [data]
      && CompleteFrames(sys.core.frames + [data]) !in r.1
  {
    var woken := Wake(sys.core, data, wakeIndex, now);
    var s1 := sys.(core := woken.0);
    var h := Hear(s1.vad, data, o);
    var heard := Heard(s1.core, data, h.1, now);
    var measured := Timed(heard, now, sys.realSpeechLength);
    assert measured.isSpeech;
    assert Close(measured, now) == (measured, []);
  }

  /** A frame handled while awake (or on waking) is kept in `_frames`, goes through the VAD
      once, and a positive verdict is reported as voiceActivity. */
  lemma AwakeFrame(sys: System, data: Frame, wakeIndex: int, o: Outcomes, now: int)
    requires sys.core.woke || wakeIndex >= 0
    ensures var r := Step(sys, data, wakeIndex, o, now);
      && r.0.core.frames == sys.core.frames + [data]
      && r.0.vad == Hear(sys.vad, data, o).0
      && (VoiceActivity in r.1 <==> Hear(sys.vad, data, o).1)
  {
  }

  /** A frame of an utterance in progress: the threshold is 4 s before any voice activity and
      `speechLength` after; the utterance ends exactly when the silence is strictly longer.
      The recognizer learns the verdict; on the closing frame the frames go out first, then
      the state is reset (with `_frames` kept) and then the recognizer's own event follows. */
  lemma UtteranceFrame(sys: System, data: Frame, wakeIndex: int, o: Outcomes, now: int)
    requires Valid(sys) && sys.core.woke
    ensures
      var heard := Hear(sys.vad, data, o).1;
      var count := if heard then sys.core.count + 1 else sys.core.count;
      var since := if heard then now else sys.core.prevSpeaking.value;
      var ended := now - since > Threshold(count, sys.realSpeechLength);
      var t := Transcribe(sys.backend, data, !ended, o);
      var r := Step(sys, data, wakeIndex, o, now);
      && r.0.backend == t.backend
      && (ended <==> CompleteFrames(sys.core.frames + [data]) in r.1)
      && (ended ==>
        && r.0.core == Core(false, 0, Some(now), 0, Threshold(count, sys.realSpeechLength), true,
                            sys.core.frames + [data], sys.core.wakeWordStreams)
        && r.1 == (if heard then [VoiceActivity] else []) + t.notes
                  + [CompleteFrames(sys.core.frames + [data])] + Announce(t.recognition))
      && (!ended ==>
        && r.0.core.woke && r.0.core.count == count && r.0.core.prevSpeaking == Some(since)
        && r.1 == (if heard then [VoiceActivity] else []) + t.notes + Announce(t.recognition))
  {
  }

  /** The recognizer's code decides its event; anything unknown (such as "") gives none. */
  lemma AnnounceCodes(r: Recognition)
    ensures r.code == "partial" ==> Announce(r) == [PartialText(r.text)]
    ensures r.code == "full" ==> Announce(r) == [FullText(r.text)]
    ensures r.code == "unrecognized" ==> Announce(r) == [Unrecognized]
    ensures IsErrorCode(r.code) ==> Announce(r) == [Error(r.code)]
  {
    if IsErrorCode(r.code) {
      assert r.code[0] == 'e';
      assert "partial"[0] != 'e' && "full"[0] != 'e' && "unrecognized"[0] != 'e';
    }
  }

  // ---------------------------------------------------------------------------
  // Runs of frames

  /** Run, one frame at a time. */
  lemma RunFirst(sys: System, ticks: seq<Tick>)
    requires ticks != []
    ensures var t := ticks[0];
      var first := Step(sys, t.data, t.wakeIndex, t.outcomes, t.now);
      var rest := Run(first.0, ticks[1..]);
      Run(sys, ticks) == (rest.0, first.1 + rest.1)
  {
  }

  /** The last `Capacity` frames of the last `Capacity` frames of s, followed by more,
      are the last `Capacity` frames of the whole. */
  lemma RecentAppend(s: seq<Frame>, more: seq<Frame>)
    ensures Recent(Recent(s) + more) == Recent(s + more)
  {
    if |s| > Capacity {
      var k := |s| - Capacity;
      assert s + more == s[..k] + (s[k..] + more);
      assert (s + more)[k..] == s[k..] + more;
    }
  }

  /** While no keyword is heard, a sleeping recognizer stays asleep, emits nothing, never
      calls the VAD or the recognizer, and keeps the last 30 frames in the ring. */
  lemma {:induction false} SilentRun(sys: System, ticks: seq<Tick>)
    requires Valid(sys) && !sys.core.woke
    requires forall k :: 0 <= k < |ticks| ==> ticks[k].wakeIndex < 0
    ensures Run(sys, ticks) ==
      (sys.(core := sys.core.(wakeWordStreams := Recent(sys.core.wakeWordStreams + FramesOf(ticks)))), [])
    decreases |ticks|
  {
    if ticks != [] {
      var t := ticks[0];
      var ws := sys.core.wakeWordStreams;
      var first := Step(sys, t.data, t.wakeIndex, t.outcomes, t.now);
      assert first == (sys.(core := sys.core.(wakeWordStreams := Recent(ws + [t.data]))), []) by {
        AsleepFrame(sys, t.data, t.wakeIndex, t.outcomes, t.now);
      }
      var next := first.0;
      SilentRun(next, ticks[1..]);
      var whole := Recent(ws + FramesOf(ticks));
      assert Recent(Recent(ws + [t.data]) + FramesOf(ticks[1..])) == whole by {
        RecentAppend(ws + [t.data], FramesOf(ticks[1..]));
        FramesOfFirst(ws, ticks);
      }
      assert next.(core := next.core.(wakeWordStreams := whole)) ==
        sys.(core := sys.core.(wakeWordStreams := whole));
      assert Run(next, ticks[1..]) == (sys.(core := sys.core.(wakeWordStreams := whole)), []);
      RunFirst(sys, ticks);
      assert Run(sys, ticks) == (Run(next, ticks[1..]).0, first.1 + Run(next, ticks[1..]).1);
      assert first.1 + Run(next, ticks[1..]).1 == [];
    } else {
      assert sys.core.wakeWordStreams + FramesOf(ticks) == sys.core.wakeWordStreams;
    }
  }

  /** `_frames` is only ever appended to: `_reset` does not clear it, so every
      completeFrames event carries all the frames of all utterances so far. */
  lemma {:induction false} FramesOnlyGrow(sys: System, ticks: seq<Tick>)
    ensures sys.core.frames <= Run(sys, ticks).0.core.frames
    decreases |ticks|
  {
    if ticks != [] {
      var t := ticks[0];
      var next := Step(sys, t.data, t.wakeIndex, t.outcomes, t.now).0;
      assert sys.core.frames <= next.core.frames;
      FramesOnlyGrow(next, ticks[1..]);
    }
  }

  /** The wake/complete bracket structure of an event stream, starting from `awake`:
      the final state if every wakeWordDetected comes while asleep and every completeFrames
      while awake, None otherwise. */
  function Pairing(es: seq<Event>, awake: bool): Option<bool>
    decreases |es|
  {
    if es == [] then Some(awake)
    else if es[0].WakeWordDetected? then (if awake then None else Pairing(es[1..], true))
    else if es[0].CompleteFrames? then (if awake then Pairing(es[1..], false) else None)
    else Pairing(es[1..], awake)
  }

  predicate Neutral(es: seq<Event>)
  {
    forall e :: e in es ==> !e.WakeWordDetected? && !e.CompleteFrames?
  }

  lemma {:induction false} PairingNeutral(es: seq<Event>, awake: bool)
    requires Neutral(es)
    ensures Pairing(es, awake) == Some(awake)
    decreases |es|
  {
    if es != [] {
      assert es[0] in es;
      assert Neutral(es[1..]) by {
        forall e | e in es[1..] ensures !e.WakeWordDetected? && !e.CompleteFrames? {
          assert e in es;
        }
      }
      PairingNeutral(es[1..], awake);
    }
  }

  lemma {:induction false} PairingAppend(a: seq<Event>, b: seq<Event>, awake: bool)
    ensures Pairing(a + b, awake) ==
      match Pairing(a, awake)
      case None => None
      case Some(w) => Pairing(b, w)
    decreases |a|
  {
    if a != [] {
      assert (a + b)[1..] == a[1..] + b;
      if a[0].WakeWordDetected? {
        if !awake { PairingAppend(a[1..], b, true); }
      } else if a[0].CompleteFrames? {
        if awake { PairingAppend(a[1..], b, false); }
      } else {
        PairingAppend(a[1..], b, awake);
      }
    } else {
      assert a + b == b;
    }
  }

  lemma TranscribeNotesNeutral(b: BackendModel, data: Frame, isSpeech: bool, o: Outcomes)
    ensures Neutral(Transcribe(b, data, isSpeech, o).notes)
  {
  }

  /** The events of one frame fit the bracket structure and lead to the new wake state. */
  lemma StepPairing(sys: System, data: Frame, wakeIndex: int, o: Outcomes, now: int)
    requires Valid(sys)
    ensures var r := Step(sys, data, wakeIndex, o, now);
      Pairing(r.1, sys.core.woke) == Some(r.0.core.woke)
  {
    var woken := Wake(sys.core, data, wakeIndex, now);
    assert Pairing(woken.1, sys.core.woke) == Some(woken.0.woke);
    if woken.0.woke {
      var s1 := sys.(core := woken.0);
      var h := Hear(s1.vad, data, o);
      var measured := Timed(Heard(s1.core, data, h.1, now), now, s1.realSpeechLength);
      var t := Transcribe(s1.backend, data, measured.isSpeech, o);
      var closed := Close(measured, now);
      var voice: seq<Event> := if h.1 then [VoiceActivity] else [];
      var said := Announce(t.recognition);
      TranscribeNotesNeutral(s1.backend, data, measured.isSpeech, o);
      assert Neutral(voice + t.notes);
      assert Neutral(said);
      PairingNeutral(voice + t.notes, true);
      PairingNeutral(said, closed.0.woke);
      PairingAppend(voice + t.notes, closed.1, true);
      assert Pairing(closed.1, true) == Some(closed.0.woke);
      PairingAppend(voice + t.notes + closed.1, said, true);
      var heard := Attend(s1, data, o, now);
      assert heard.1 == voice + t.notes + closed.1 + said;
      PairingAppend(woken.1, heard.1, sys.core.woke);
    }
  }

  /** Over any run, wakeWordDetected and completeFrames alternate: never two wakes without
      a completion between them, every completion closes a wake, and the stream ends in the
      recognizer's final wake state. */
  lemma {:induction false} RunPairing(sys: System, ticks: seq<Tick>)
    requires Valid(sys)
    ensures var r := Run(sys, ticks);
      Pairing(r.1, sys.core.woke) == Some(r.0.core.woke)
    decreases |ticks|
  {
    if ticks != [] {
      var t := ticks[0];
      var first := Step(sys, t.data, t.wakeIndex, t.outcomes, t.now);
      StepPairing(sys, t.data, t.wakeIndex, t.outcomes, t.now);
      RunPairing(first.0, ticks[1..]);
      PairingAppend(first.1, Run(first.0, ticks[1..]).1, sys.core.woke);
    }
  }

  /** The VAD reports no speech for this frame, whatever its buffer holds. */
  predicate Quiet(v: VadModel, o: Outcomes)
  {
    match v
    case JarvisModel(_, sensitivity) => !Vad.SpeechOnTop(o.scores, sensitivity)
    case CustomModel => !o.speech
  }

  /** Two detector states that give the same verdict on every frame a Quiet asks about. */
  predicate SameDetector(v: VadModel, w: VadModel)
  {
    match v
    case JarvisModel(_, sensitivity) => w.JarvisModel? && w.sensitivity == sensitivity
    case CustomModel => w.CustomModel?
  }

  /** One quiet frame inside the threshold keeps the utterance open. */
  lemma QuietFrame(sys: System, data: Frame, wakeIndex: int, o: Outcomes, now: int)
    requires Valid(sys) && sys.core.woke && Quiet(sys.vad, o)
    requires now - sys.core.prevSpeaking.value <= Threshold(sys.core.count, sys.realSpeechLength)
    ensures var r := Step(sys, data, wakeIndex, o, now);
      && r.0.core.woke
      && r.0.core.count == sys.core.count
      && r.0.core.prevSpeaking == sys.core.prevSpeaking
      && r.0.core.frames == sys.core.frames + [data]
      && SameDetector(sys.vad, r.0.vad)
      && forall e :: e in r.1 ==> !e.CompleteFrames? && !e.WakeWordDetected? && !e.VoiceActivity?
  {
    UtteranceFrame(sys, data, wakeIndex, o, now);
    AwakeFrame(sys, data, wakeIndex, o, now);
  }

  /** While the VAD hears nothing and the silence has not grown strictly longer than the
      threshold in force, the utterance stays open: awake, same count, same last activity,
      every frame kept, and no wakeWordDetected, voiceActivity or completeFrames. */
  lemma {:induction false} QuietRun(sys: System, ticks: seq<Tick>)
    requires Valid(sys) && sys.core.woke
    requires forall k :: 0 <= k < |ticks| ==>
      && Quiet(sys.vad, ticks[k].outcomes)
      && ticks[k].now - sys.core.prevSpeaking.value <= Threshold(sys.core.count, sys.realSpeechLength)
    ensures var r := Run(sys, ticks);
      && r.0.core.woke
      && r.0.core.count == sys.core.count
      && r.0.core.prevSpeaking == sys.core.prevSpeaking
      && r.0.core.frames == sys.core.frames + FramesOf(ticks)
      && SameDetector(sys.vad, r.0.vad)
      && forall e :: e in r.1 ==> !e.CompleteFrames? && !e.WakeWordDetected? && !e.VoiceActivity?
    decreases |ticks|
  {
    if ticks == [] {
      assert sys.core.frames + FramesOf(ticks) == sys.core.frames;
    } else {
      var t := ticks[0];
      var first := Step(sys, t.data, t.wakeIndex, t.outcomes, t.now);
      QuietFrame(sys, t.data, t.wakeIndex, t.outcomes, t.now);
      var next := first.0;
      assert forall k :: 0 <= k < |ticks[1..]| ==> Quiet(next.vad, ticks[1..][k].outcomes) by {
        assert forall o :: Quiet(next.vad, o) == Quiet(sys.vad, o);
      }
      QuietRun(next, ticks[1..]);
      FramesOfFirst(sys.core.frames, ticks);
      RunFirst(sys, ticks);
      var rest := Run(next, ticks[1..]);
      assert forall e :: e in first.1 + rest.1 ==> e in first.1 || e in rest.1;
    }
  }

  /** 512 samples at 16 kHz: a frame every 32 ms. */
  const Cadence: int := 32

  /** Frames arriving every 32 ms after the last activity at t0, none of them speech: the
      utterance stays open for floor(T / 32) frames, T being the threshold in force, and
      the next frame closes it, handing over every frame kept. With no speech since waking
      (T = 4000) that is 125 frames, the 126th closing; after speech with the default
      `speechLength` (T = 900) it is 28 frames, the 29th closing. A silence of exactly T
      does not close the utterance. */
  lemma {:induction false} CadenceTimeout(sys: System, ticks: seq<Tick>, last: Tick)
    requires Valid(sys) && sys.core.woke
    requires Threshold(sys.core.count, sys.realSpeechLength) >= 0
    requires |ticks| == Threshold(sys.core.count, sys.realSpeechLength) / Cadence
    requires forall k :: 0 <= k < |ticks| ==>
      && ticks[k].now == sys.core.prevSpeaking.value + Cadence * (k + 1)
      && Quiet(sys.vad, ticks[k].outcomes)
    requires last.now == sys.core.prevSpeaking.value + Cadence * (|ticks| + 1)
    requires Quiet(sys.vad, last.outcomes)
    ensures var r := Run(sys, ticks);
      && r.0.core.woke
      && (forall e :: e in r.1 ==> !e.CompleteFrames?)
      && var closing := Step(r.0, last.data, last.wakeIndex, last.outcomes, last.now);
      && !closing.0.core.woke
      && CompleteFrames(sys.core.frames + FramesOf(ticks) + [last.data]) in closing.1
  {
    var threshold := Threshold(sys.core.count, sys.realSpeechLength);
    var t0 := sys.core.prevSpeaking.value;
    forall k | 0 <= k < |ticks|
      ensures ticks[k].now - t0 <= threshold
    {
      assert Cadence * (k + 1) <= Cadence * |ticks|;
    }
    QuietRun(sys, ticks);
    var r := Run(sys, ticks);
    assert Quiet(r.0.vad, last.outcomes);
    assert last.now - t0 > threshold;
    UtteranceFrame(r.0, last.data, last.wakeIndex, last.outcomes, last.now);
  }
}
