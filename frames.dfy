/**
  * The two unbounded queues through which the speech side asks the camera loop
  * for a picture (`frame_request_queue`, `frame_response_queue` of `agent.py`),
  * held as sequences: the front of a sequence is the oldest entry.
  */
module FrameQueues {
  import opened Options

  /** A camera frame, opaque: only its identity matters here. */
  datatype Frame = Frame(serial: nat)

  /** What the camera loop puts on the response queue: a copy of the frame, or the frame JPEG-encoded. */
  datatype Response = FrameCopy(frame: Frame) | Jpeg(frame: Frame)

  /** The request the store tool sends. */
  const Capture := "CAPTURE"
  /** The legacy request answered with encoded bytes. */
  const GetFrame := "get_frame"

  class FrameExchange {
    var requests: seq<string>
    var responses: seq<Response>

    constructor ()
      ensures requests == [] && responses == []
    {
      requests, responses := [], [];
    }

    /** `frame_request_queue.put(r)`. */
    method PutRequest(r: string)
      modifies this
      ensures requests == old(requests) + [r] && responses == old(responses)
    {
      requests := requests + [r];
    }

    /** `frame_response_queue.put(r)`. */
    method PutResponse(r: Response)
      modifies this
      ensures responses == old(responses) + [r] && requests == old(requests)
    {
      responses := responses + [r];
    }

    /** `frame_request_queue.get()` guarded by `empty()`: the oldest request, if any. */
    method TakeRequest() returns (r: Option<string>)
      modifies this
      ensures old(requests) == [] ==> r == None && requests == []
      ensures old(requests) != [] ==> r == Some(old(requests)[0]) && requests == old(requests)[1..]
      ensures responses == old(responses)
    {
      if requests == [] {
        return None;
      }
      r := Some(requests[0]);
      requests := requests[1..];
    }

    /**
      * `frame_response_queue.get(timeout=...)`, after the responses in `arrivals`
      * were put by the camera loop during the wait: the oldest response, or
      * `None` (the timeout) when the queue stayed empty.
      */
    method TakeResponse(arrivals: seq<Response>) returns (r: Option<Response>)
      modifies this
      ensures var waited := old(responses) + arrivals;
              && (waited == [] ==> r == None && responses == [])
              && (waited != [] ==> r == Some(waited[0]) && responses == waited[1..])
      ensures requests == old(requests)
    {
      responses := responses + arrivals;
      if responses == [] {
        return None;
      }
      r := Some(responses[0]);
      responses := responses[1..];
    }
  }
}
