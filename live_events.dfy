/** The part of a live recognition event that the handlers read. */
module LiveEvents {
  import opened Wrappers

  /** `result.channel.alternatives[0].transcript` (None when that path is
      missing, so reading it raises), `result.is_final` and
      `result.speech_final`. */
  datatype LiveResult = LiveResult(transcript: Option<string>, isFinal: bool, speechFinal: bool)
}
