# JSpeechRecognizer, modelled in Dafny

JSpeechRecognizer listens to 16 kHz mono audio in frames of 512 samples. It waits for a wake
word (porcupine), then collects the utterance, asks a voice activity detector (`JarvisVAD`)
whether each frame holds speech, and ends the utterance after a stretch of silence. Every frame is
also passed to a speech recognizer (`VoskRecognizer`, incremental and offline, or
`GoogleRecognizer`, batched and over the network), and the results go to a user callback as typed
events: `wakeWordDetected`, `voiceActivity`, `googleRecognizing`, `completeFrames`,
`partialText`, `fullText`, `unrecognized` and `error`.

This project models the per-frame state machine `SpeechRecognizer._recognize` and its
collaborators, all from `jspeechrecognizer/speech.py`:

- `common.dfy` (module `Common`): frames, the `(text, status, code)` triple, the events.
- `predictions.dfy` (`Predictions`): `formatPredictions`, the stable descending sort of the scores.
- `vad.dfy` (`Vad`): `JarvisVAD` and its 15-frame buffer. The class `JarvisVad` is proved
  against the function `Classify`.
- `vosk.dfy` (`Vosk`): the decision in `VoskRecognizer.recognize` (`Decide`), and the class
  that counts its `Reset()` calls.
- `google.dfy` (`Google`): `GoogleRecognizer` with its frame buffer (`Decide`, class
  `GoogleRecognizer`).
- `orchestration.dfy` (`Orchestration`): the whole recognizer as a value (`System`). `Step` is
  one call of `_recognize` and `Run` is a sequence of calls.
- `speech.dfy` (`Speech`): the class `SpeechRecognizer`. Its fields are `woke`, `count`
  (`_count`), `prevSpeaking` (`_prevSpeaking`, an `Option`), `speakingLength`, `speechLength`,
  `isSpeech`, `frames` (`_frames`) and `wakeWordStreams`. `Step` is proved to change them, and the
  collaborators, exactly as `Orchestration.Step` says.
- `properties.dfy` (`Properties`): lemmas about one frame and about runs of frames.

Python's duck-typed collaborators become datatypes that hold a reference to the object:
`VadRef = Jarvis(JarvisVad) | CustomVad` and `RecognizerRef = VoskBackend(..) | GoogleBackend(..)`.
`CustomVad` stands for any other object with an `isSpeech` method; its verdict for each frame is
an input. What foreign code answers for a frame is also an input, collected in `Outcomes`:
the classifier's scores, the Kaldi reply and the outcome of the wav file and the web request.
Porcupine's keyword index is the `wakeIndex` parameter. `time.time()` is the `now` parameter, in
milliseconds, so the thresholds are 4000 and (by default) 900.

The model follows the code, including these behaviours a reader of `_recognize` might not expect:

- `completeFrames` is emitted before the recognizer's text event for the same frame.
- `_reset` does not clear `_frames`. Each `completeFrames` therefore carries the frames of every
  utterance so far, and `_frames` is not empty while asleep once an utterance has ended.
- `wakeWordDetected` carries no keyword index.
- The timeout test is a strict `>`, so a silence exactly as long as the threshold still counts
  as speech.
- The pre-wake ring `_wakeWordStreams` is kept up to date but is never put into any event.
- A failed Google request reports the literal code `error: {e}` (see "## Findings").

## Model

| member | source | states |
|---|---|---|
| Predictions.FormatPredictions | jspeechrecognizer/speech.py:31-34 | the result is a permutation of the pairs (i, p[i]), ordered by non-increasing score, with ties keeping the lower index first (a stable descending sort) |
| Predictions.SortRanked | jspeechrecognizer/speech.py:33 | sorting pairs given in increasing index order yields the score-descending, index-ascending order |
| Predictions.TopPrediction | jspeechrecognizer/speech.py:189 | the head of formatPredictions is the first index holding the highest score |
| Vad.TopIsSpeech | jspeechrecognizer/speech.py:186-192 | the test "index == 1 and probability >= sensitivity" on the head holds iff class 1 is the first class with the top score and that score reaches the sensitivity |
| Vad.Classify | jspeechrecognizer/speech.py:179-193 | the buffer stays below 15 entries; it is emptied exactly on the call that makes it 15 and otherwise gains the frame; the verdict is true iff this call fills the window and the scores put speech on top |
| Vad.FeedCycle | jspeechrecognizer/speech.py:179-183 | after n calls the buffer holds (start + n) mod 15 entries |
| Vad.JarvisVad.constructor | jspeechrecognizer/speech.py:164-169 | empty buffer, default sensitivity 0.90 |
| Vad.JarvisVad.IsSpeech | jspeechrecognizer/speech.py:171-193 | follows Classify; the buffer length is the call count mod 15, and a true verdict only comes on a call whose number is a multiple of 15 |
| Vosk.Decide | jspeechrecognizer/speech.py:57-75 | "partial" only for a non-empty partial text while speech goes on; with isSpeech false always "full" with a reset, carrying the final text if accepted and the partial text otherwise; an accepted non-empty text is always "full"; ("", False, "") exactly when speech goes on and there is no text; a reset exactly with "full" |
| Vosk.VoskRecognizer.constructor | jspeechrecognizer/speech.py:52-55 | no reset yet |
| Vosk.VoskRecognizer.Recognize | jspeechrecognizer/speech.py:57-75 | returns Decide's triple and counts one Reset() exactly when Decide resets |
| Google.Decide | jspeechrecognizer/speech.py:109-133 | while speech goes on the frame is buffered and ("", False, "") returned; at the end the buffer is empty on every outcome, the code is "full", "unrecognized" or an "error: " code, status is true only for "full", and googleRecognizing is sent iff the wav file could be read; a record failure's code carries the exception message, while a failed request's code is the literal "error: {e}" |
| Google.GoogleRecognizer.constructor | jspeechrecognizer/speech.py:90-96 | no frames buffered |
| Google.GoogleRecognizer.Clear | jspeechrecognizer/speech.py:106-107 | the buffer is empty |
| Google.GoogleRecognizer.Recognize | jspeechrecognizer/speech.py:109-133 | buffer, triple and announcement are those of Decide |
| Google.RequestErrorAsWritten | jspeechrecognizer/speech.py:133 | the code of a failed request is an error code (as written, it ignores the exception) |
| Google.RequestErrorAsWrittenLosesReason | jspeechrecognizer/speech.py:133 | two different request failures get the same code |
| Google.ErrorCode | jspeechrecognizer/speech.py:122 | an "error: " code whose rest is the exception message |
| Google.ErrorCodeKeepsReason | jspeechrecognizer/speech.py:122 | two failures get the same code iff their messages are equal |
| Orchestration.InitialCore | jspeechrecognizer/speech.py:238-252 | asleep, no speech counted, no previous activity, isSpeech true, no frames kept |
| Orchestration.Buffered | jspeechrecognizer/speech.py:266-269 | the ring becomes the last 30 frames of the old ring plus the new frame, and ends with that frame |
| Orchestration.Threshold | jspeechrecognizer/speech.py:296-299 | 4000 ms while no voice activity has been counted, speechLength once some has |
| Orchestration.Reset | jspeechrecognizer/speech.py:254-259 | asleep, no speech counted, last activity now, no silence measured, isSpeech true; _frames, the ring and the threshold last used are kept |
| Orchestration.Hear | jspeechrecognizer/speech.py:284 | a custom VAD answers with its verdict and keeps no state; JarvisVAD keeps its sensitivity and a buffer below 15 and says speech iff this call fills the window and the scores put speech on top |
| Orchestration.Transcribe | jspeechrecognizer/speech.py:304 | the backend keeps its kind; only Google emits a note (googleRecognizing), and only once speech has ended; Vosk counts a reset exactly for "full"; Google buffers the frame while speech goes on and empties its buffer after; "full" comes during speech only from an accepted Vosk text |
| Orchestration.Wake | jspeechrecognizer/speech.py:266-276 | awake afterwards iff already awake or a keyword was found; wakeWordDetected exactly on the waking frame; an awake state is untouched; asleep the ring gets the frame; waking sets count 0 and the last activity to now; _frames, isSpeech and the timing fields are unchanged |
| Orchestration.Heard | jspeechrecognizer/speech.py:281-289 | _frames gains the frame; a true verdict adds one to count and sets the last activity to now, a false one leaves both; every other field is unchanged |
| Orchestration.Close | jspeechrecognizer/speech.py:306-308 | while speech goes on nothing changes and nothing is emitted; at its end completeFrames carries the kept frames and the state is reset; isSpeech is true and _frames kept either way |
| Orchestration.Attend | jspeechrecognizer/speech.py:278-324 | _frames gains the frame, the VAD moves as Hear says, isSpeech is true afterwards and the ring is untouched; no wakeWordDetected; voiceActivity iff the VAD says speech; on an awake recognizer completeFrames is emitted iff it goes to sleep, and then count is 0 and the last activity is now |
| Orchestration.Timed | jspeechrecognizer/speech.py:292-302 | the threshold is 4000 ms with no speech counted and speechLength otherwise; isSpeech stays true iff the silence is at most the threshold; no other field changes |
| Orchestration.Announce | jspeechrecognizer/speech.py:310-324 | at most one event, always a text event, and none exactly when the code is none of "partial", "full", "unrecognized" or an "error: " code |
| Orchestration.Step | jspeechrecognizer/speech.py:261-324 | keeps the invariant: ring of at most 30, isSpeech true between frames, a previous activity while awake, no speech counted while asleep, VAD buffer below 15 |
| Orchestration.Run | jspeechrecognizer/speech.py:261-324 | keeps the same invariant over any run of frames |
| Speech.SpeechRecognizer.constructor | jspeechrecognizer/speech.py:220-252 | the fields as __init__ sets them, with realSpeechLength = speechLength |
| Speech.SpeechRecognizer.Reset | jspeechrecognizer/speech.py:254-259 | woke false, count 0, prevSpeaking now, speakingLength 0, isSpeech true; frames and the ring unchanged |
| Speech.SpeechRecognizer.Wake | jspeechrecognizer/speech.py:266-276 | the fields change as Orchestration.Wake says |
| Speech.SpeechRecognizer.Detect | jspeechrecognizer/speech.py:284 | the VAD changes and answers as Orchestration.Hear says |
| Speech.SpeechRecognizer.Hearing | jspeechrecognizer/speech.py:281-289 | keeps the frame; a true verdict counts speech, moves prevSpeaking to now and emits voiceActivity; the recognizer is untouched |
| Speech.SpeechRecognizer.Measure | jspeechrecognizer/speech.py:292-302 | the fields change as Orchestration.Timed says |
| Speech.SpeechRecognizer.Transcribe | jspeechrecognizer/speech.py:304 | the recognizer changes and answers as Orchestration.Transcribe says; the VAD is untouched |
| Speech.SpeechRecognizer.Close | jspeechrecognizer/speech.py:306-308 | at the end of speech emits completeFrames with the kept frames, then resets |
| Speech.SpeechRecognizer.Attend | jspeechrecognizer/speech.py:278-324 | object and collaborators change as Orchestration.Attend says |
| Speech.SpeechRecognizer.Step | jspeechrecognizer/speech.py:261-324 | keeps the invariant; fields, VAD, recognizer and the emitted events are exactly those of Orchestration.Step |
| Properties.AsleepFrame | jspeechrecognizer/speech.py:266-278 | asleep and no keyword: only the ring changes, no collaborator is called, no event is emitted |
| Properties.WakeIgnoredWhileAwake | jspeechrecognizer/speech.py:271 | while awake a keyword match makes no difference at all |
| Properties.RingFrame | jspeechrecognizer/speech.py:266-269 | the ring is at most 30 long; while asleep (including the frame that wakes) it becomes the last 30 frames ending with this one; while awake it is unchanged |
| Properties.WakeFrame | jspeechrecognizer/speech.py:271-276 | waking emits exactly one wakeWordDetected, first; any other frame emits none |
| Properties.WakingFrame | jspeechrecognizer/speech.py:271-308 | the frame that wakes never closes the utterance: the recognizer stays awake, the last activity is now, count is 1 or 0 by the frame's own verdict, the frame is kept and no completeFrames is emitted |
| Properties.AwakeFrame | jspeechrecognizer/speech.py:278-289 | an awake frame is appended to _frames, the VAD is consulted once, and voiceActivity is emitted iff it says speech |
| Properties.UtteranceFrame | jspeechrecognizer/speech.py:291-324 | the utterance ends iff now minus the last activity is strictly above 4000 ms (no speech yet) or speechLength; the recognizer gets that verdict; on the closing frame the events are voiceActivity?, the recognizer's notes, completeFrames, then its text event, and the state is reset with _frames kept; otherwise it stays awake |
| Properties.AnnounceCodes | jspeechrecognizer/speech.py:310-324 | "partial" gives partialText, "full" fullText, "unrecognized" unrecognized, an "error: " code an error event carrying the code |
| Properties.SilentRun | jspeechrecognizer/speech.py:261-276 | with no keyword a sleeping recognizer stays asleep, emits nothing, calls no collaborator, and its ring holds the last 30 frames |
| Properties.FramesOnlyGrow | jspeechrecognizer/speech.py:254-281 | _frames is only appended to over any run |
| Properties.StepPairing | jspeechrecognizer/speech.py:271-308 | one frame's events respect the wake/complete alternation and end in the new wake state |
| Properties.RunPairing | jspeechrecognizer/speech.py:271-308 | over any run, wakeWordDetected and completeFrames alternate, starting from the initial wake state and ending in the final one |
| Properties.QuietFrame | jspeechrecognizer/speech.py:292-302 | a frame without speech inside the threshold keeps the utterance open, with count and last activity unchanged |
| Properties.QuietRun | jspeechrecognizer/speech.py:292-302 | a run of such frames keeps the utterance open, keeps every frame and emits no wake, voice or complete event |
| Properties.CadenceTimeout | jspeechrecognizer/speech.py:292-308 | at one frame per 32 ms without speech, the utterance stays open for floor(threshold / 32) frames and the next frame closes it with all kept frames (125 frames then close at 4 s; 28 then close at 0.9 s) |

## Left out

- Audio capture and the run loop: `sounddevice` setup, `_start`'s sleep loop with its
  `KeyboardInterrupt` exit, and `start`'s background thread. This is I/O and threading. The model
  is driven frame by frame through `Step` and `Run`.
- Porcupine (`pvporcupine.create`/`process`) is a foreign library whose keyword index is the input
  `wakeIndex`. For that reason `wakewords` and `sensitivities` are not stored. The `listen` field
  is never read by the code and is not modelled either.
- Kaldi (`vosk.Model`, `KaldiRecognizer`) and its JSON results are abstracted to the `Vosk.Reply`
  input. Only the number of `Reset()` calls is kept of Kaldi's state.
- The Google side (`_save` writing the wav file, `AudioFile`/`record`, `recognize_google`) is
  file and network I/O and becomes the `Google.Outcome` input. An exception from `_save` itself
  is not caught by the source and is not modelled.
- TensorFlow (`load_model`, `predict`) and the FFT and decibel features are foreign code and
  floating point. A frame stands for its features. The predictions are an input of type
  `Vad.Scores`, which is never empty: an empty prediction would make `predictions[0]` raise.
- The `_callback` sentinel that shares the user's callback with the recognizer. The model
  assumes the shared case, so `googleRecognizing` appears in the same event stream. A
  recognizer built with a callback of its own would send that event elsewhere.
- Clock reads: one `now` serves every read of `time.time()` within a frame. The source reads
  the clock again in `_reset`, a moment later.
- Times are integer milliseconds rather than float seconds, so `speechLength` is given in
  milliseconds.
- `_prevSpeaking` is an `Option`. Python tests it by truthiness, which would also treat a
  timestamp of 0 as missing. A real clock never gives 0.
- `completeFrames` hands the consumer the list object `_frames` itself, which later frames keep
  appending to. The model hands over a value (a snapshot), so this aliasing is not modelled.
- `_wakeWordStreams` keeps the audio callback's `data` object itself, while `_frames` and the
  recognizer get copies made with `bytes(data)`. Ring entries are values here, so `RingFrame`
  and `SilentRun` ("the last 30 frames") hold only if the audio library never reuses a buffer
  it has handed out; that aliasing is not modelled.
- Exceptions raised by porcupine, the VAD or a recognizer while processing a frame are not
  modelled. They would propagate out of the audio callback. Recognizers other than Vosk and
  Google are not modelled.
- `main()` and `setup.py`: demo wiring and packaging.

## Findings

| source | as written | input that shows it | evidently intended | confidence | as-written member | corrected member |
|---|---|---|---|---|---|---|
| jspeechrecognizer/speech.py:133 | `return ("", False, "error: {e}")` has no `f` prefix, so every failed Google request reports the literal code `error: {e}` | two request failures with the messages "timed out" and "connection refused" produce the same error event | `f"error: {e}"`, as line 122 writes it, so that the code carries the exception message | high; not executed | Google.RequestErrorAsWrittenLosesReason | Google.ErrorCodeKeepsReason |

The Google model (`Google.Decide`, `Google.GoogleRecognizer.Recognize`) follows the code as
written: a failed request reports `error: {e}`. `Google.ErrorCode`, which the record failure
uses, is the intended form of both codes, and `Google.ErrorCodeKeepsReason` proves that it keeps
the message.
