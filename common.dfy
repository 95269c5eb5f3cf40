/** Values shared by the speech recognizer and its collaborators. */
module Common {

  datatype Option<T> = None | Some(value: T)

  /** One byte of raw 16-bit PCM audio. */
  newtype Byte = b: int | 0 <= b < 256

  /** One block of CHUNK samples as the audio stream delivers it; the model never looks inside. */
  type Frame = seq<Byte>

  /** The `(text, status, code)` triple that every recognizer's `recognize` returns. */
  datatype Recognition = Recognition(text: string, status: bool, code: string)

  /** `("", False, "")`: the recognizer has nothing to report for this frame. */
  const Nothing: Recognition := Recognition("", false, "")

  /** The prefix that marks a recognizer code as an error. */
  const ErrorPrefix: string := "error: "

  predicate IsErrorCode(code: string)
  {
    ErrorPrefix <= code
  }

  /** The dictionaries handed to the user's callback, one constructor per "type". */
  datatype Event =
    | WakeWordDetected
    | VoiceActivity
    | GoogleRecognizing
    | CompleteFrames(frames: seq<Frame>)
    | PartialText(text: string)
    | FullText(text: string)
    | Unrecognized
    | Error(text: string)
}
