/**
 Per-frame choice of the detection that a single marker is updated with.

 The detector reports an array of candidate detections, each carrying the
 pattern it matched (`id`) and a confidence (`cf`).  For a single marker the
 tracker keeps, among the detections of the marker's pattern, the one with
 the largest confidence; among equally confident ones it keeps the first.
 */
module Selection {

  /** One entry of the detector's marker_info array, restricted to what the selection reads. */
  datatype Detection = Detection(id: int, cf: real)

  /** No detection in `dets` is of pattern `patternID`. */
  predicate NoMatch(dets: seq<Detection>, patternID: int)
  {
    forall j :: 0 <= j < |dets| ==> dets[j].id != patternID
  }

  /**
   `k` is the detection a single marker of pattern `patternID` must receive:
   it matches, no matching detection is more confident, and every earlier
   matching detection is strictly less confident (the first maximum wins).
   */
  predicate IsBestMatch(dets: seq<Detection>, patternID: int, k: int)
  {
    0 <= k < |dets| && dets[k].id == patternID
    && (forall j :: 0 <= j < |dets| && dets[j].id == patternID ==> dets[j].cf <= dets[k].cf)
    && (forall j :: 0 <= j < k && dets[j].id == patternID ==> dets[j].cf < dets[k].cf)
  }

  /**
   Reference definition of the choice, written independently of the scan:
   by recursion on the tail of the array, the head wins when it matches and
   is at least as confident as the best of the rest; -1 means "no match".
   */
  function Best(dets: seq<Detection>, patternID: int): (k: int)
    ensures -1 <= k < |dets|
  {
    if dets == [] then -1
    else
      var rest := Best(dets[1..], patternID);
      if dets[0].id == patternID && (rest == -1 || dets[0].cf >= dets[1 + rest].cf) then 0
      else if rest == -1 then -1
      else rest + 1
  }

  /** The reference choice is the best match, and it is -1 exactly when nothing matches. */
  lemma {:induction false} BestIsBestMatch(dets: seq<Detection>, patternID: int)
    ensures Best(dets, patternID) == -1 <==> NoMatch(dets, patternID)
    ensures Best(dets, patternID) != -1 ==> IsBestMatch(dets, patternID, Best(dets, patternID))
  {
    if dets != [] {
      var tail := dets[1..];
      BestIsBestMatch(tail, patternID);
      var rest := Best(tail, patternID);
      assert forall j :: 1 <= j < |dets| ==> dets[j] == tail[j - 1];
      if rest != -1 {
        assert IsBestMatch(tail, patternID, rest);
        assert dets[1 + rest] == tail[rest];
      }
    }
  }

  /** At most one index is the best match. */
  lemma BestMatchUnique(dets: seq<Detection>, patternID: int, k1: int, k2: int)
    requires IsBestMatch(dets, patternID, k1) && IsBestMatch(dets, patternID, k2)
    ensures k1 == k2
  {
  }

  /** Anything that satisfies the selection's specification is the reference choice. */
  lemma SelectedIsBest(dets: seq<Detection>, patternID: int, k: int)
    requires k == -1 <==> NoMatch(dets, patternID)
    requires k != -1 ==> IsBestMatch(dets, patternID, k)
    ensures k == Best(dets, patternID)
  {
    BestIsBestMatch(dets, patternID);
    if k != -1 {
      BestMatchUnique(dets, patternID, k, Best(dets, patternID));
    }
  }

  /**
   The scan `update()` runs for one single marker: `k` starts at -1, the
   first matching detection is taken, and a later one replaces it only when
   strictly more confident.
   */
  method SelectDetection(dets: seq<Detection>, patternID: int) returns (k: int)
    ensures -1 <= k < |dets|
    ensures k == -1 <==> NoMatch(dets, patternID)
    ensures k != -1 ==> IsBestMatch(dets, patternID, k)
  {
    k := -1;
    var j := 0;
    while j < |dets|
      invariant 0 <= j <= |dets|
      invariant -1 <= k < j
      invariant k == -1 <==> forall i :: 0 <= i < j ==> dets[i].id != patternID
      invariant k != -1 ==> dets[k].id == patternID
      invariant k != -1 ==> forall i :: 0 <= i < j && dets[i].id == patternID ==> dets[i].cf <= dets[k].cf
      invariant k != -1 ==> forall i :: 0 <= i < k && dets[i].id == patternID ==> dets[i].cf < dets[k].cf
    {
      if dets[j].id == patternID {
        if k == -1 {
          k := j;
        } else if dets[j].cf > dets[k].cf {
          k := j;
        }
      }
      j := j + 1;
    }
  }

  /** Three detections, two of pattern 5: the more confident one (index 1) is chosen; pattern 3 is absent. */
  lemma SelectionExample()
    ensures Best([Detection(5, 0.2), Detection(5, 0.9), Detection(7, 0.99)], 5) == 1
    ensures Best([Detection(5, 0.2), Detection(5, 0.9), Detection(7, 0.99)], 7) == 2
    ensures Best([Detection(5, 0.2), Detection(5, 0.9), Detection(7, 0.99)], 3) == -1
    ensures Best([Detection(5, 0.5), Detection(5, 0.5)], 5) == 0
  {
  }
}
