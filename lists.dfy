/** The one array mutation the script performs besides `push` and indexed assignment. */
module Lists {

  /**
    `s.splice(i, 1)` for a non-negative index: the element at `i` is removed and
    the later ones move one place to the left; past the end nothing changes.
   */
  function RemoveAt<T>(s: seq<T>, i: nat): (r: seq<T>)
    ensures i < |s| ==> |r| == |s| - 1
    ensures i < |s| ==> forall k :: 0 <= k < i ==> r[k] == s[k]
    ensures i < |s| ==> forall k :: i <= k < |r| ==> r[k] == s[k + 1]
    ensures |s| <= i ==> r == s
  {
    if i < |s| then s[..i] + s[i + 1..] else s
  }

  /** Removing position `i` loses exactly one copy of `s[i]` and nothing else. */
  lemma RemoveAtMultiset<T>(s: seq<T>, i: nat)
    requires i < |s|
    ensures multiset(RemoveAt(s, i)) + multiset{s[i]} == multiset(s)
  {
    assert s == s[..i] + [s[i]] + s[i + 1..];
  }
}
