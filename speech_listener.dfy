/**
  * `speech/listener.py`: the dispatcher that keeps the configured speech-to-text
  * provider running, and the pause gate and enqueue rule of its two listening
  * loops. Audio devices and recognisers are inputs: a chunk read from the
  * stream, or the result of one capture.
  */
module SpeechListener {
  import opened Options
  import opened SpeechChannel

  // ---- the dispatcher ------------------------------------------------------

  /** How one run of a provider's listening function ended. */
  datatype Exit = Returned | Raised

  /** What the dispatcher does: start a listening function, or sleep after a crash. */
  datatype Action = Listen(engine: string) | Backoff

  /** The listening engine for a configured provider, if the provider is known. */
  function EngineFor(provider: string): Option<string> {
    if provider == "vosk" || provider == "google" || provider == "openai" then Some(provider) else None
  }

  /** The dispatcher's actions over a sequence of provider exits. */
  function DispatchTrace(engine: string, exits: seq<Exit>): seq<Action> {
    if exits == [] then []
    else
      var last := exits[|exits| - 1];
      DispatchTrace(engine, exits[..|exits| - 1]) + [Listen(engine)] + (if last == Raised then [Backoff] else [])
  }

  function Crashes(exits: seq<Exit>): nat {
    if exits == [] then 0
    else Crashes(exits[..|exits| - 1]) + (if exits[|exits| - 1] == Raised then 1 else 0)
  }

  /**
    * `speech_listener`: an unknown provider stops the dispatcher at once;
    * otherwise it runs the provider again after each exit, sleeping first
    * only when the provider raised. `exits` are the first exits of the
    * (endless) run.
    */
  method Dispatch(provider: string, exits: seq<Exit>) returns (trace: seq<Action>, stopped: bool)
    ensures EngineFor(provider) == None ==> trace == [] && stopped
    ensures EngineFor(provider).Some? ==> trace == DispatchTrace(provider, exits) && !stopped
  {
    if EngineFor(provider) == None {
      return [], true;
    }
    trace, stopped := [], false;
    var k := 0;
    while k < |exits|
      invariant 0 <= k <= |exits|
      invariant trace == DispatchTrace(provider, exits[..k])
    {
      assert exits[..k + 1][..k] == exits[..k];
      trace := trace + [Listen(provider)];
      if exits[k] == Raised {
        trace := trace + [Backoff];
      }
      k := k + 1;
    }
    assert exits[..k] == exits;
  }

  /**
    * Each run of the provider is one `Listen`; there is one backoff per
    * crash, and every backoff comes straight after the run that crashed.
    */
  lemma {:induction false} DispatchShape(engine: string, exits: seq<Exit>)
    ensures var t := DispatchTrace(engine, exits);
            && |t| == |exits| + Crashes(exits)
            && (forall k :: 0 <= k < |t| && t[k] == Backoff ==> k > 0 && t[k - 1] == Listen(engine))
            && (forall k :: 0 <= k < |t| ==> t[k] == Backoff || t[k] == Listen(engine))
  {
    if exits != [] {
      DispatchShape(engine, exits[..|exits| - 1]);
    }
  }

  // ---- the Vosk loop ---------------------------------------------------------

  /**
    * One read of the audio stream: a chunk of `size` bytes with the final
    * text Vosk recognised when the chunk completes an utterance, or a failed
    * read.
    */
  datatype Chunk = Chunk(size: nat, final: Option<string>) | ReadFailed

  /** What an unpaused Vosk pass enqueues for a chunk. */
  function HeardVosk(c: Chunk): (heard: seq<string>)
    ensures forall t :: t in heard ==> t != ""
  {
    match c
    case ReadFailed => []
    case Chunk(size, final) =>
      if size == 0 then []
      else if final.Some? && final.value != "" then [final.value]
      else []
  }

  /**
    * `_listen_vosk`'s loop, in the two places where it meets the flag: the
    * test at the top of a pass, and the `put` at its end, which follows the
    * blocking `stream.read` without testing the flag again.
    */
  class VoskListener {
    /** Whether a pass found the flag clear and is reading its chunk. */
    var reading: bool

    constructor ()
      ensures !reading
    {
      reading := false;
    }

    /** The top of a pass: while paused the chunk is read and discarded; otherwise the pass goes on to read. */
    method Check(ch: Channel)
      modifies this
      ensures reading == (old(reading) || !ch.paused)
    {
      if !ch.paused {
        reading := true;
      }
    }

    /** The end of a pass that went on to read: chunk `c` arrives and what it yields is put on the queue. */
    method Deliver(ch: Channel, c: Chunk)
      modifies this, ch
      ensures !reading && ch.paused == old(ch.paused)
      ensures ch.utterances == old(ch.utterances) + (if old(reading) then HeardVosk(c) else [])
    {
      if !reading {
        return;
      }
      reading := false;
      match c {
        case ReadFailed =>
        case Chunk(size, final) =>
          if size == 0 {
            return;
          }
          if final.Some? && final.value != "" {
            ch.utterances := ch.utterances + [final.value];
          }
      }
    }
  }

  /** An unpaused pass enqueues the recognised text exactly when it is non-empty and the chunk was not empty. */
  lemma VoskEnqueueRule(c: Chunk)
    ensures c.Chunk? && c.size > 0 && c.final.Some? && c.final.value != "" ==> HeardVosk(c) == [c.final.value]
    ensures c.Chunk? && c.size == 0 ==> HeardVosk(c) == []
  {
  }

  // ---- the speech_recognition loop ---------------------------------------------

  /** The engine `_listen_speech_recognition` ends up using: Whisper needs an API key, else Google. */
  function EffectiveEngine(requested: string, hasApiKey: bool): (e: string)
    ensures requested == "openai" && !hasApiKey ==> e == "google"
    ensures requested != "openai" || hasApiKey ==> e == requested
  {
    if requested == "openai" && !hasApiKey then "google" else requested
  }

  /** What recognising captured audio gives. */
  datatype Recognition = Text(text: string) | Unintelligible | ServiceError | LoopError

  /** What one `r.listen` gives: a timeout, or audio that is then recognised. */
  datatype Capture = TimedOut | Audio(result: Recognition)

  /** What an unpaused capture enqueues with `engine`. */
  function HeardCapture(engine: string, c: Capture): (heard: seq<string>)
    ensures forall t :: t in heard ==> t != ""
  {
    if c.Audio? && c.result.Text? && c.result.text != "" && (engine == "google" || engine == "openai")
    then [c.result.text]
    else []
  }

  /**
    * Where a pass of `_listen_speech_recognition`'s loop is: between passes,
    * listening after the first test found the flag clear, or recognising a
    * capture after the second test found it clear.
    */
  datatype SrStage = Between | Listening | Recognizing(result: Recognition)

  class SrListener {
    /** The engine in use, after the fallback. */
    var engine: string
    var stage: SrStage

    constructor (requested: string, hasApiKey: bool)
      ensures engine == EffectiveEngine(requested, hasApiKey) && stage == Between
    {
      engine := EffectiveEngine(requested, hasApiKey);
      stage := Between;
    }

    /** The top of a pass: while paused, sleep; otherwise start listening. */
    method StartCapture(ch: Channel)
      modifies this
      ensures engine == old(engine)
      ensures old(stage).Between? && !ch.paused ==> stage == Listening
      ensures !(old(stage).Between? && !ch.paused) ==> stage == old(stage)
    {
      if stage.Between? && !ch.paused {
        stage := Listening;
      }
    }

    /**
      * `r.listen` returns the capture `c`: a timeout ends the pass, and so
      * does the flag, tested again; otherwise recognition starts.
      */
    method Recheck(ch: Channel, c: Capture)
      modifies this
      ensures engine == old(engine)
      ensures old(stage).Listening? && c.Audio? && !ch.paused ==> stage == Recognizing(c.result)
      ensures old(stage).Listening? && !(c.Audio? && !ch.paused) ==> stage == Between
      ensures !old(stage).Listening? ==> stage == old(stage)
    {
      if !stage.Listening? {
        return;
      }
      if c.TimedOut? || ch.paused {
        stage := Between;
      } else {
        stage := Recognizing(c.result);
      }
    }

    /**
      * Recognition is over: non-empty text is put on the queue without the
      * flag being tested again.
      */
    method Deliver(ch: Channel)
      modifies this, ch
      ensures engine == old(engine) && ch.paused == old(ch.paused)
      ensures old(stage).Recognizing? ==>
                stage == Between && ch.utterances == old(ch.utterances) + HeardCapture(engine, Audio(old(stage).result))
      ensures !old(stage).Recognizing? ==> stage == old(stage) && ch.utterances == old(ch.utterances)
    {
      if !stage.Recognizing? {
        return;
      }
      var r := stage.result;
      stage := Between;
      if r.Text? && r.text != "" && (engine == "google" || engine == "openai") {
        ch.utterances := ch.utterances + [r.text];
      }
    }
  }
}
