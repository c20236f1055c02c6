/**
  * `recognize_face` of `models/insightface_model.py`: the best-scoring known
  * face, kept only when its similarity reaches the threshold. The
  * similarities (dot products of normalised embeddings) are given, one per
  * known face in the dictionary's order.
  */
module FaceMatch {
  const Unknown := "Unknown"

  /** The recognition threshold used by the camera loop. */
  const FaceRecogThreshold: real := 0.45

  /** A known face with its similarity to the face being recognised. */
  type Scored = (string, real)

  /** `best_name, best_sim` after the loop has seen `scores`: a strictly larger similarity replaces the best. */
  function Scan(scores: seq<Scored>): Scored {
    if scores == [] then (Unknown, 0.0)
    else
      var best := Scan(scores[..|scores| - 1]);
      var last := scores[|scores| - 1];
      if last.1 > best.1 then last else best
  }

  /** The pair `recognize_face` returns. */
  function Recognize(scores: seq<Scored>, threshold: real): Scored {
    var best := Scan(scores);
    if best.1 >= threshold then best else (Unknown, best.1)
  }

  /**
    * The best similarity is the maximum of 0 and all similarities, and it is
    * 0 with the name `Unknown` when none is positive.
    */
  lemma {:induction false} ScanIsMaximum(scores: seq<Scored>)
    ensures var best := Scan(scores);
            && best.1 >= 0.0
            && (forall k :: 0 <= k < |scores| ==> scores[k].1 <= best.1)
            && ((forall k :: 0 <= k < |scores| ==> scores[k].1 <= 0.0) ==> best == (Unknown, 0.0))
  {
    if scores != [] {
      ScanIsMaximum(scores[..|scores| - 1]);
    }
  }

  /** A positive best similarity belongs to the first entry that reaches it (ties keep the earlier face). */
  lemma {:induction false} ScanIsFirst(scores: seq<Scored>)
    ensures var best := Scan(scores);
            best.1 > 0.0 ==> exists k :: 0 <= k < |scores| && scores[k] == best
                                        && forall j :: 0 <= j < k ==> scores[j].1 < best.1
  {
    if scores != [] {
      var init := scores[..|scores| - 1];
      ScanIsFirst(init);
      ScanIsMaximum(init);
      var best := Scan(init);
      var last := scores[|scores| - 1];
      if last.1 > best.1 {
        assert scores[|scores| - 1] == Scan(scores);
        assert forall j :: 0 <= j < |scores| - 1 ==> scores[j] == init[j];
      } else if best.1 > 0.0 {
        var k :| 0 <= k < |init| && init[k] == best && forall j :: 0 <= j < k ==> init[j].1 < best.1;
        assert scores[k] == best;
        assert forall j :: 0 <= j < k ==> scores[j] == init[j];
      }
    }
  }

  /**
    * The similarity returned is the best one. Below the threshold the name is
    * `Unknown`; at or above it the pair is the best match, which is the first
    * known face reaching the best similarity when that is positive.
    */
  lemma RecognizeContract(scores: seq<Scored>, threshold: real)
    ensures var (name, sim) := Recognize(scores, threshold);
            && sim == Scan(scores).1
            && sim >= 0.0 && (forall k :: 0 <= k < |scores| ==> scores[k].1 <= sim)
            && (name == Unknown || exists k :: 0 <= k < |scores| && scores[k].0 == name)
            && (sim < threshold ==> name == Unknown)
            && (sim >= threshold ==> (name, sim) == Scan(scores))
            && (sim >= threshold && sim > 0.0 ==>
                  exists k :: 0 <= k < |scores| && scores[k] == (name, sim)
                              && forall j :: 0 <= j < k ==> scores[j].1 < sim)
  {
    ScanIsMaximum(scores);
    ScanIsFirst(scores);
  }

  /** With no known faces the result is (`Unknown`, 0). */
  lemma NoKnownFaces(threshold: real)
    ensures Recognize([], threshold) == (Unknown, 0.0)
  {
  }

  /** `recognize_face`: the loop over the known faces, updating `best_name` and `best_sim`. */
  method RecognizeFace(scores: seq<Scored>, threshold: real) returns (name: string, sim: real)
    ensures (name, sim) == Recognize(scores, threshold)
  {
    var bestName, bestSim := Unknown, 0.0;
    var i := 0;
    while i < |scores|
      invariant 0 <= i <= |scores|
      invariant (bestName, bestSim) == Scan(scores[..i])
    {
      assert scores[..i + 1][..i] == scores[..i];
      var (n, s) := scores[i];
      if s > bestSim {
        bestName, bestSim := n, s;
      }
      i := i + 1;
    }
    assert scores[..i] == scores;
    if bestSim >= threshold {
      return bestName, bestSim;
    }
    return Unknown, bestSim;
  }
}
