/** Small facts about sequences that the loop invariants of the model step through. */
module SeqLemmas {

  /** A prefix one element longer is the prefix followed by that element. */
  lemma PrefixStep<T>(s: seq<T>, i: nat)
    requires i < |s|
    ensures s[..i + 1] == s[..i] + [s[i]]
  {
  }

  /** A prefix two elements longer is the prefix followed by those two elements. */
  lemma TakeTwoMore<T>(s: seq<T>, k: nat)
    requires k + 2 <= |s|
    ensures s[..k + 2] == s[..k] + [s[k], s[k + 1]]
  {
  }

  /** A non-empty sequence is its first element followed by the rest. */
  lemma HeadTail<T>(s: seq<T>)
    requires s != []
    ensures s == [s[0]] + s[1..]
  {
  }

  /** Concatenation is associative. */
  lemma AppendAssoc<T>(a: seq<T>, b: seq<T>, c: seq<T>)
    ensures (a + b) + c == a + (b + c)
  {
  }

  /**
   One more step of an element-by-element rewrite of `before` into `after`:
   the current element is still the original, and replacing it by its new
   value extends the rewritten prefix by one.
   */
  lemma ReplaceStep<T>(xs: seq<T>, before: seq<T>, after: seq<T>, i: nat)
    requires |before| == |after| && i < |before| && xs == after[..i] + before[i..]
    ensures xs[i] == before[i]
    ensures xs[i := after[i]] == after[..i + 1] + before[i + 1..]
  {
  }

  /** When a prefix of `s` is `pre + mid`, the window of `s` after `pre` is `mid`. */
  lemma Window<T>(s: seq<T>, pre: seq<T>, mid: seq<T>, i: nat, j: nat)
    requires i == |pre| && j == i + |mid| <= |s| && s[..j] == pre + mid
    ensures s[i..j] == mid
    ensures forall k :: 0 <= k < |mid| ==> s[i + k] == mid[k]
  {
    forall k | 0 <= k < |mid|
      ensures s[i + k] == mid[k]
    {
      assert s[i + k] == s[..j][i + k];
    }
  }
}
