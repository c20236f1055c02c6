/**
  * What the speech listener and the speech handler share (`agent.py`):
  * the `pause_listener_event` flag and the `audio_queue` of recognised
  * utterances, oldest first.
  */
module SpeechChannel {
  class Channel {
    var paused: bool
    var utterances: seq<string>

    /** A fresh channel: the event is clear and the queue empty. */
    constructor ()
      ensures !paused && utterances == []
    {
      paused, utterances := false, [];
    }
  }
}
