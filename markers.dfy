/**
 The two kinds of marker the tracker's registry holds, and what one frame
 does to each of them.

 The marker classes themselves are not part of this model: their
 `initialise` is an oracle (`Loader`), and their `update` is recorded rather
 than interpreted.  A single marker keeps the list of arguments its `update`
 has received (`None` stands for `update(NULL)`, "not visible"); a
 multi-marker keeps the list of detection arrays it has been given.
 */
module Markers {
  import opened Wrappers
  import opened Selection

  datatype Marker =
    | Single(pattFile: string, width: string, centerX: string, centerY: string,
             patternID: int, inputs: seq<Option<Detection>>)
    | Multi(multiFile: string, frames: seq<seq<Detection>>)

  /**
   The markers' `initialise`: for a single marker it loads the pattern file
   and yields the pattern's ID, or fails; for a multi-marker it loads the
   configuration file and succeeds or fails.
   */
  datatype Loader = Loader(
    single: (string, string, string, string) -> Option<int>,
    multi: string -> bool)

  /** The argument a single marker of pattern `patternID` receives in a frame with detections `dets`. */
  function SelectedInput(dets: seq<Detection>, patternID: int): (r: Option<Detection>)
    ensures r.None? <==> NoMatch(dets, patternID)
    ensures r.Some? ==> exists k :: IsBestMatch(dets, patternID, k) && r.value == dets[k]
  {
    BestIsBestMatch(dets, patternID);
    var k := Best(dets, patternID);
    if k == -1 then None else Some(dets[k])
  }

  /** One marker after one frame. */
  function Updated(m: Marker, dets: seq<Detection>): Marker
  {
    match m
    case Single(_, _, _, _, patternID, inputs) => m.(inputs := inputs + [SelectedInput(dets, patternID)])
    case Multi(_, frames) => m.(frames := frames + [dets])
  }

  /** The whole registry after one frame, marker by marker in registry order. */
  function FrameUpdate(ms: seq<Marker>, dets: seq<Detection>): seq<Marker>
  {
    seq(|ms|, i requires 0 <= i < |ms| => Updated(ms[i], dets))
  }

  /**
   What a frame does to the registry: no marker is added, dropped or
   reordered; each gets exactly one update; a single marker gets its best
   match or "not visible", a multi-marker the whole detection array, and
   nothing else about a marker changes.
   */
  lemma FrameUpdateEffect(ms: seq<Marker>, dets: seq<Detection>, i: int)
    requires 0 <= i < |ms|
    ensures |FrameUpdate(ms, dets)| == |ms|
    ensures ms[i].Single? ==>
              && FrameUpdate(ms, dets)[i].Single?
              && FrameUpdate(ms, dets)[i].(inputs := ms[i].inputs) == ms[i]
              && |FrameUpdate(ms, dets)[i].inputs| == |ms[i].inputs| + 1
              && FrameUpdate(ms, dets)[i].inputs[..|ms[i].inputs|] == ms[i].inputs
              && (FrameUpdate(ms, dets)[i].inputs[|ms[i].inputs|].None? <==> NoMatch(dets, ms[i].patternID))
    ensures ms[i].Multi? ==> FrameUpdate(ms, dets)[i] == ms[i].(frames := ms[i].frames + [dets])
  {
  }

  /**
   A single marker that sees its pattern receives exactly the detection
   the scan picks: the most confident one, the first of several equals.
   */
  lemma SingleReceivesBest(ms: seq<Marker>, dets: seq<Detection>, i: int, k: int)
    requires 0 <= i < |ms| && ms[i].Single?
    requires IsBestMatch(dets, ms[i].patternID, k)
    ensures FrameUpdate(ms, dets)[i].inputs == ms[i].inputs + [Some(dets[k])]
  {
    BestIsBestMatch(dets, ms[i].patternID);
    BestMatchUnique(dets, ms[i].patternID, k, Best(dets, ms[i].patternID));
  }
}
