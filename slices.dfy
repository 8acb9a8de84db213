/** findIndexInSlice: the position of the first occurrence of an item in
    a slice, or -1. The match-log reader's player and hero lookups and the
    leaderboard rank lookup all search this way. */
module Slices {

  function FindIndexInSlice<T(==)>(s: seq<T>, item: T): (i: int)
    ensures -1 <= i < |s|
    ensures i == -1 <==> item !in s
    ensures i >= 0 ==> s[i] == item && item !in s[..i]
    decreases |s|
  {
    if |s| == 0 then -1
    else if s[0] == item then 0
    else
      var j := FindIndexInSlice(s[1..], item);
      assert j >= 0 ==> s[1..][..j] == s[1..j + 1];
      if j < 0 then -1 else j + 1
  }

  /** The position found is the one every other first-occurrence search
      finds: any index holding the item with no earlier copy is it. */
  lemma FindIndexUnique<T>(s: seq<T>, item: T, k: nat)
    requires k < |s| && s[k] == item && item !in s[..k]
    ensures FindIndexInSlice(s, item) == k
  {
  }

  /** The scan itself: walks the slice from the front and stops at the
      first element equal to the item. */
  method FindIndex<T(==)>(s: seq<T>, item: T) returns (i: int)
    ensures i == FindIndexInSlice(s, item)
  {
    var k := 0;
    while k < |s|
      invariant 0 <= k <= |s|
      invariant item !in s[..k]
    {
      if s[k] == item {
        FindIndexUnique(s, item, k);
        return k;
      }
      assert s[..k + 1] == s[..k] + [s[k]];
      k := k + 1;
    }
    assert s[..k] == s;
    return -1;
  }
}
