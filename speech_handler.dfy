/**
  * `handle_speech_input` of `speech/handler.py`: takes utterances off the
  * queue one at a time, pauses the listener, asks the LLM agent for a
  * response (an apology when the agent fails), speaks it, and resumes the
  * listener. One pass of its loop is split in three steps, `Take`, `Pause`
  * and `Finish`, so that the listener can run between them.
  */
module SpeechHandler {
  import opened SpeechChannel

  /** What the agent call gives: its output, or an exception. */
  datatype AgentOutcome = Output(text: string) | Failed

  const Apology := "I'm sorry, I ran into an error processing your request."

  /** The response spoken for an agent outcome. */
  function ResponseTo(o: AgentOutcome): (r: string)
    ensures o.Failed? ==> r == Apology
    ensures o.Output? ==> r == o.text
  {
    match o
    case Output(t) => t
    case Failed => Apology
  }

  /** One invocation of the agent, with whether the listener was paused at that moment. */
  datatype AgentCall = AgentCall(query: string, listenerPaused: bool)

  /** What one step of the handler did. */
  datatype Turn =
    | Inactive                    // no API key: the handler has returned
    | Waiting                     // the queue is empty: `get()` blocks
    | Skipped                     // an empty utterance was dropped
    | Taken(query: string)        // `query` came off the queue; the flag is not set yet
    | Started(query: string)      // the listener is paused and the agent is working on `query`
    | Answered(query: string, response: string, spoken: bool)
    | Idle                        // this step has nothing to do at this point of the pass

  /**
    * Where the handler is in a loop pass: before `get()`, holding an
    * utterance it has not yet paused the listener for, or working on it
    * with the listener paused.
    */
  datatype Stage = Free | Got(query: string) | Working(query: string)

  class Handler {
    /** Whether the API key was set: without it the handler returns at once. */
    var active: bool
    /** How far the current loop pass has got. */
    var stage: Stage
    /** Every agent invocation, in order. */
    var calls: seq<AgentCall>
    /** Every response handed to `notify`, in order. */
    var spoken: seq<string>

    constructor (hasApiKey: bool)
      ensures active == hasApiKey && stage == Free && calls == [] && spoken == []
    {
      active, stage, calls, spoken := hasApiKey, Free, [], [];
    }

    /** `audio_queue.get()`, dropping an empty utterance. The flag is not touched. */
    method Take(ch: Channel) returns (t: Turn)
      modifies this, ch
      ensures active == old(active) && calls == old(calls) && spoken == old(spoken) && ch.paused == old(ch.paused)
      ensures !active ==> t == Inactive && stage == old(stage) && ch.utterances == old(ch.utterances)
      ensures active && !old(stage).Free? ==> t == Idle && stage == old(stage) && ch.utterances == old(ch.utterances)
      ensures active && old(stage).Free? && old(ch.utterances) == [] ==>
                t == Waiting && stage == Free && ch.utterances == []
      ensures active && old(stage).Free? && old(ch.utterances) != [] ==>
                ch.utterances == old(ch.utterances)[1..]
      ensures active && old(stage).Free? && old(ch.utterances) != [] && old(ch.utterances)[0] == "" ==>
                t == Skipped && stage == Free
      ensures active && old(stage).Free? && old(ch.utterances) != [] && old(ch.utterances)[0] != "" ==>
                t == Taken(old(ch.utterances)[0]) && stage == Got(old(ch.utterances)[0])
    {
      if !active {
        return Inactive;
      }
      if !stage.Free? {
        return Idle;
      }
      if ch.utterances == [] {
        return Waiting;
      }
      var text := ch.utterances[0];
      ch.utterances := ch.utterances[1..];
      if text == "" {
        return Skipped;
      }
      stage := Got(text);
      t := Taken(text);
    }

    /** `pause_listener_event.set()`, after the utterance was taken and before the agent is invoked. */
    method Pause(ch: Channel) returns (t: Turn)
      modifies this, ch
      ensures active == old(active) && calls == old(calls) && spoken == old(spoken) && ch.utterances == old(ch.utterances)
      ensures old(stage).Got? ==> t == Started(old(stage).query) && stage == Working(old(stage).query) && ch.paused
      ensures !old(stage).Got? ==> t == Idle && stage == old(stage) && ch.paused == old(ch.paused)
    {
      if !stage.Got? {
        return Idle;
      }
      ch.paused := true;
      stage := Working(stage.query);
      t := Started(stage.query);
    }

    /**
      * The rest of the pass: the agent call (logged with the flag as it is
      * now), the apology on failure, `notify`, and clearing the flag.
      * `notifyOk` false stands for an unexpected exception after the agent
      * call, which the outer handler catches; the flag is cleared on that
      * path too.
      */
    method Finish(ch: Channel, outcome: AgentOutcome, notifyOk: bool) returns (t: Turn)
      modifies this, ch
      ensures active == old(active) && ch.utterances == old(ch.utterances)
      ensures !old(stage).Working? ==>
                t == Idle && stage == old(stage) && calls == old(calls) && spoken == old(spoken) && ch.paused == old(ch.paused)
      ensures old(stage).Working? ==>
                && stage == Free
                && calls == old(calls) + [AgentCall(old(stage).query, old(ch.paused))]
                && spoken == old(spoken) + (if notifyOk then [ResponseTo(outcome)] else [])
                && t == Answered(old(stage).query, ResponseTo(outcome), notifyOk)
                && !ch.paused
    {
      if !stage.Working? {
        return Idle;
      }
      var query := stage.query;
      calls := calls + [AgentCall(query, ch.paused)];
      var response := ResponseTo(outcome);
      if notifyOk {
        spoken := spoken + [response];
      }
      ch.paused := false;
      stage := Free;
      t := Answered(query, response, notifyOk);
    }
  }

  /** What the handler does to a queue of utterances when every pass runs to its end. */
  function Serve(utterances: seq<string>, outcomes: seq<AgentOutcome>): (turns: seq<Turn>)
    requires |outcomes| == |utterances|
  {
    if utterances == [] then []
    else
      var last := |utterances| - 1;
      Serve(utterances[..last], outcomes[..last])
      + [if utterances[last] == "" then Skipped else Answered(utterances[last], ResponseTo(outcomes[last]), true)]
  }

  /** The queries the agent answered, in order. */
  function Queries(turns: seq<Turn>): seq<string> {
    if turns == [] then []
    else Queries(turns[..|turns| - 1])
         + (if turns[|turns| - 1].Answered? then [turns[|turns| - 1].query] else [])
  }

  /** The non-empty utterances, in order. */
  function NonEmpty(utterances: seq<string>): seq<string> {
    if utterances == [] then []
    else NonEmpty(utterances[..|utterances| - 1])
         + (if utterances[|utterances| - 1] != "" then [utterances[|utterances| - 1]] else [])
  }

  /** Utterances are answered one at a time in queue order, every non-empty one exactly once. */
  lemma {:induction false} ServedInOrder(utterances: seq<string>, outcomes: seq<AgentOutcome>)
    requires |outcomes| == |utterances|
    ensures |Serve(utterances, outcomes)| == |utterances|
    ensures Queries(Serve(utterances, outcomes)) == NonEmpty(utterances)
  {
    if utterances != [] {
      var last := |utterances| - 1;
      ServedInOrder(utterances[..last], outcomes[..last]);
      var turns := Serve(utterances, outcomes);
      assert turns[..|turns| - 1] == Serve(utterances[..last], outcomes[..last]);
    }
  }

  /**
    * The handler loop run until the queue is empty, each agent call giving
    * the outcome `outcomes` lists for its utterance. Without an API key it
    * returns before taking anything.
    */
  method HandleSpeechInput(h: Handler, ch: Channel, outcomes: seq<AgentOutcome>) returns (turns: seq<Turn>)
    requires h.stage == Free && |outcomes| == |ch.utterances|
    modifies h, ch
    ensures !old(h.active) ==> turns == [] && ch.utterances == old(ch.utterances) && ch.paused == old(ch.paused)
    ensures old(h.active) ==> turns == Serve(old(ch.utterances), outcomes) && ch.utterances == []
    ensures old(h.active) && NonEmpty(old(ch.utterances)) != [] ==> !ch.paused
    ensures h.stage == Free && |old(h.calls)| <= |h.calls|
    ensures forall c :: c in h.calls[|old(h.calls)|..] ==> c.listenerPaused
  {
    if !h.active {
      return [];
    }
    ghost var queue := ch.utterances;
    ghost var calls0 := h.calls;
    turns := [];
    var k := 0;
    while k < |outcomes|
      invariant 0 <= k <= |outcomes|
      invariant ch.utterances == queue[k..] && h.stage == Free && h.active
      invariant turns == Serve(queue[..k], outcomes[..k])
      invariant |calls0| <= |h.calls| && h.calls[..|calls0|] == calls0
      invariant forall c :: c in h.calls[|calls0|..] ==> c.listenerPaused
      invariant NonEmpty(queue[..k]) != [] ==> !ch.paused
    {
      assert queue[..k + 1][..k] == queue[..k] && outcomes[..k + 1][..k] == outcomes[..k];
      ghost var callsBefore := h.calls;
      var t := h.Take(ch);
      if t.Taken? {
        t := h.Pause(ch);
        t := h.Finish(ch, outcomes[k], true);
        assert h.calls[|calls0|..] == callsBefore[|calls0|..] + [AgentCall(queue[k], true)];
      }
      turns := turns + [t];
      k := k + 1;
    }
    assert queue[..k] == queue && outcomes[..k] == outcomes;
  }
}
