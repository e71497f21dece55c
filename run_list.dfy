/**
 * The run list of one scheduling class, seen as the sequence of tasks met by
 * walking the intrusive `list_head` ring from the head forwards.
 * The three list primitives the scheduling classes use become functions:
 *   list_add_tail(p, head)   ~  s + [p]
 *   list_del(p)              ~  Remove(s, p)
 *   list_move_tail(p, head)  ~  MoveToTail(s, p)
 */
module RunList {

  /** A task is linked into a list at most once. */
  ghost predicate Distinct<T>(s: seq<T>) {
    forall i, j :: 0 <= i < j < |s| ==> s[i] != s[j]
  }

  /** Position of the first occurrence of `x`. */
  function IndexOf<T(==)>(s: seq<T>, x: T): (i: nat)
    requires x in s
    ensures i < |s| && s[i] == x
    ensures x !in s[..i]
  {
    if s[0] == x then 0
    else
      assert s[1..][..IndexOf(s[1..], x)] == s[1..IndexOf(s[1..], x) + 1];
      1 + IndexOf(s[1..], x)
  }

  lemma IndexOfDistinct<T>(s: seq<T>, k: nat)
    requires Distinct(s) && k < |s|
    ensures IndexOf(s, s[k]) == k
  {
  }

  /** `list_del(p)`: unlink `x`. */
  function Remove<T(==)>(s: seq<T>, x: T): seq<T>
    requires x in s
  {
    s[..IndexOf(s, x)] + s[IndexOf(s, x) + 1..]
  }

  /** `list_move_tail(p, head)`: unlink `x` and relink it just before the head. */
  function MoveToTail<T(==)>(s: seq<T>, x: T): seq<T>
    requires x in s
  {
    Remove(s, x) + [x]
  }

  /** Where each survivor of `Remove` stood before. */
  lemma RemoveAt<T>(s: seq<T>, x: T)
    requires x in s
    ensures |Remove(s, x)| == |s| - 1
    ensures forall i :: 0 <= i < |Remove(s, x)| ==>
              Remove(s, x)[i] == s[if i < IndexOf(s, x) then i else i + 1]
  {
  }

  lemma RemoveMultiset<T>(s: seq<T>, x: T)
    requires x in s
    ensures multiset(Remove(s, x)) == multiset(s) - multiset{x}
  {
    var k := IndexOf(s, x);
    assert s == s[..k] + [x] + s[k + 1..];
  }

  lemma RemoveOrder<T>(s: seq<T>, x: T)
    requires Distinct(s) && x in s
    ensures Distinct(Remove(s, x))
    ensures forall i, j :: 0 <= i < j < |Remove(s, x)| ==>
              IndexOf(s, Remove(s, x)[i]) < IndexOf(s, Remove(s, x)[j])
  {
  }

  lemma RemoveMembers<T>(s: seq<T>, x: T)
    requires Distinct(s) && x in s
    ensures forall y :: y in Remove(s, x) <==> y in s && y != x
  {
  }

  /**
   * Unlinking removes exactly `x`: one element fewer, the same tasks but `x`,
   * still duplicate-free, and the survivors keep their relative order.
   */
  lemma RemoveSpec<T>(s: seq<T>, x: T)
    requires Distinct(s) && x in s
    ensures |Remove(s, x)| == |s| - 1
    ensures Distinct(Remove(s, x))
    ensures forall y :: y in Remove(s, x) <==> y in s && y != x
    ensures multiset(Remove(s, x)) == multiset(s) - multiset{x}
    ensures forall i, j :: 0 <= i < j < |Remove(s, x)| ==>
              IndexOf(s, Remove(s, x)[i]) < IndexOf(s, Remove(s, x)[j])
  {
    RemoveAt(s, x);
    RemoveMultiset(s, x);
    RemoveOrder(s, x);
    RemoveMembers(s, x);
  }

  /** Enqueue followed by dequeue of the same task gives back the list it started from. */
  lemma RemoveAppended<T>(s: seq<T>, x: T)
    requires x !in s
    ensures x in s + [x]
    ensures Remove(s + [x], x) == s
  {
  }

  /**
   * Moving to the tail keeps the length and the set of linked tasks, puts `x`
   * last, and leaves every other task in its old relative order.
   */
  lemma MoveToTailSpec<T>(s: seq<T>, x: T)
    requires Distinct(s) && x in s
    ensures |MoveToTail(s, x)| == |s|
    ensures Distinct(MoveToTail(s, x))
    ensures multiset(MoveToTail(s, x)) == multiset(s)
    ensures MoveToTail(s, x)[|s| - 1] == x
    ensures x in MoveToTail(s, x) && Remove(MoveToTail(s, x), x) == Remove(s, x)
  {
    var r := Remove(s, x);
    RemoveSpec(s, x);
    assert x !in r;
    assert x in s ==> multiset(s) == multiset(s) - multiset{x} + multiset{x};
    RemoveAppended(r, x);
    var t := MoveToTail(s, x);
    forall i, j | 0 <= i < j < |t|
      ensures t[i] != t[j]
    {
      if j == |t| - 1 {
        assert t[i] in r;
      }
    }
  }

  /** Yielding twice in a row leaves the list as a single yield does. */
  lemma MoveToTailIdempotent<T>(s: seq<T>, x: T)
    requires Distinct(s) && x in s
    ensures x in MoveToTail(s, x)
    ensures MoveToTail(MoveToTail(s, x), x) == MoveToTail(s, x)
  {
  }
}
