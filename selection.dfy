/**
 * The choice made by `pick_next_task_{sjf,rms}`: a forward scan that replaces
 * its candidate only on a strictly smaller static slice.
 */
module Selection {

  /**
   * `i` is the task the strict-`<` scan settles on: its key is minimal, and
   * every earlier task has a strictly larger key (ties go to the task nearest
   * the head, i.e. the earliest queued).
   */
  ghost predicate IsFirstMin(keys: seq<int>, i: int) {
    0 <= i < |keys| &&
    (forall j :: 0 <= j < |keys| ==> keys[i] <= keys[j]) &&
    (forall j :: 0 <= j < i ==> keys[i] < keys[j])
  }

  /** The choice is determined by the keys: no two positions are both the first minimum. */
  lemma FirstMinUnique(keys: seq<int>, i: int, k: int)
    requires IsFirstMin(keys, i) && IsFirstMin(keys, k)
    ensures i == k
  {
    assert keys[i] <= keys[k] && keys[k] <= keys[i];
  }

  /** Every non-empty key sequence has a first minimum (so the scan always has an answer). */
  lemma {:induction false} FirstMinExists(keys: seq<int>) returns (i: int)
    requires |keys| > 0
    ensures IsFirstMin(keys, i)
  {
    if |keys| == 1 {
      i := 0;
    } else {
      var init := keys[..|keys| - 1];
      var k := FirstMinExists(init);
      assert forall j :: 0 <= j < |init| ==> init[j] == keys[j];
      i := if keys[|keys| - 1] < keys[k] then |keys| - 1 else k;
    }
  }
}
