/**
 * The load-balance iterator `load_balance_start_*` / `load_balance_next_*`.
 * The cursor (`sjf_load_balance_curr` / `rms_load_balance_curr`) is a node of
 * the ring: `Some(t)` for the node of task `t`, `None` for the list head.
 * Its predecessor is looked up in the list as it is at the time of the call,
 * as `curr->prev` is read from the live ring.
 */
module LoadBalance {
  import opened Wrappers
  import opened RunList

  /** The node before task `x`: its predecessor, or the head for the first task. */
  function Pred<T(==)>(q: seq<T>, x: T): (c: Option<T>)
    requires x in q
    ensures c.Some? ==> c.value in q
  {
    var i := IndexOf(q, x);
    if i == 0 then None else Some(q[i - 1])
  }

  /**
   * `start`: take the tail, and move the cursor to its predecessor before
   * returning it. On an empty list there is no task to return (None).
   */
  function Start<T(==)>(q: seq<T>): (r: (Option<T>, Option<T>))
    ensures r.1.Some? ==> r.1.value in q
  {
    if q == [] then (None, None) else (Some(q[|q| - 1]), Pred(q, q[|q| - 1]))
  }

  /**
   * `next`: return the task under the cursor and step the cursor back.
   * With the cursor on the head there is nothing left (None). A cursor on a
   * task no longer in the list is a stale cursor: nothing is returned.
   */
  function Next<T(==)>(q: seq<T>, cursor: Option<T>): (r: (Option<T>, Option<T>))
    ensures r.0.Some? ==> r.0.value in q
    ensures r.1.Some? ==> r.1.value in q
  {
    match cursor
    case None => (None, None)
    case Some(t) => if t in q then (Some(t), Pred(q, t)) else (None, None)
  }

  /** The list the next call sees: the caller may unlink the task it was just handed. */
  function AfterReturn<T(==)>(q: seq<T>, p: Option<T>, unlink: bool): seq<T>
    requires p.Some? ==> p.value in q
  {
    if unlink && p.Some? then Remove(q, p.value) else q
  }

  /**
   * The results of `|unlinks|` further calls of `next` from `cursor`, where
   * `unlinks[i]` says whether the caller unlinks the task handed out by the
   * i-th call before making the next one (as a balancer that pulls some tasks
   * and skips others does).
   */
  function Drain<T(==)>(q: seq<T>, cursor: Option<T>, unlinks: seq<bool>): seq<Option<T>>
    decreases |unlinks|
  {
    if unlinks == [] then []
    else
      var (p, c) := Next(q, cursor);
      [p] + Drain(AfterReturn(q, p, unlinks[0]), c, unlinks[1..])
  }

  /** The results of `start` followed by `|unlinks| - 1` calls of `next`, with the caller's choices `unlinks`. */
  function Walk<T(==)>(q: seq<T>, unlinks: seq<bool>): seq<Option<T>>
  {
    if unlinks == [] then []
    else
      var (p, c) := Start(q);
      [p] + Drain(AfterReturn(q, p, unlinks[0]), c, unlinks[1..])
  }

  /** The cursor that still has the first `m` tasks of `s` to hand out. */
  function At<T>(s: seq<T>, m: nat): Option<T>
    requires m <= |s|
  {
    if m == 0 then None else Some(s[m - 1])
  }

  lemma DrainStep<T>(q: seq<T>, cursor: Option<T>, unlinks: seq<bool>)
    requires unlinks != []
    ensures Drain(q, cursor, unlinks) ==
              [Next(q, cursor).0] + Drain(AfterReturn(q, Next(q, cursor).0, unlinks[0]), Next(q, cursor).1, unlinks[1..])
  {
  }

  /** One call of `next` from a cursor with `m > 0` tasks of `s` left: it hands out `s[m - 1]`. */
  lemma NextFromAt<T>(s: seq<T>, q: seq<T>, m: nat, unlink: bool)
    requires Distinct(q) && 0 < m <= |s| && m <= |q| && q[..m] == s[..m]
    ensures Next(q, At(s, m)) == (Some(s[m - 1]), At(s, m - 1))
    ensures Distinct(AfterReturn(q, Some(s[m - 1]), unlink))
    ensures m - 1 <= |AfterReturn(q, Some(s[m - 1]), unlink)|
    ensures AfterReturn(q, Some(s[m - 1]), unlink)[..m - 1] == s[..m - 1]
  {
  }

  /** The same call, seen on the whole rest of the walk. */
  lemma DrainFromStep<T>(s: seq<T>, q: seq<T>, m: nat, unlinks: seq<bool>)
    requires Distinct(q) && 0 < m <= |s| && m <= |q| && q[..m] == s[..m] && unlinks != []
    ensures Distinct(AfterReturn(q, Some(s[m - 1]), unlinks[0]))
    ensures m - 1 <= |AfterReturn(q, Some(s[m - 1]), unlinks[0])|
    ensures AfterReturn(q, Some(s[m - 1]), unlinks[0])[..m - 1] == s[..m - 1]
    ensures Drain(q, At(s, m), unlinks) ==
              [Some(s[m - 1])] + Drain(AfterReturn(q, Some(s[m - 1]), unlinks[0]), At(s, m - 1), unlinks[1..])
  {
    DrainStep(q, At(s, m), unlinks);
    NextFromAt(s, q, m, unlinks[0]);
  }

  /** What `k` calls of `next` should hand out with the first `m` tasks of `s` left: those, last first, then nothing. */
  function Expected<T>(s: seq<T>, m: nat, k: nat): (e: seq<Option<T>>)
    requires m <= |s|
    ensures |e| == k
    ensures forall i :: 0 <= i < k ==> e[i] == if i < m then Some(s[m - 1 - i]) else None
  {
    seq(k, i requires 0 <= i < k => if i < m then Some(s[m - 1 - i]) else None)
  }

  lemma ExpectedStep<T>(s: seq<T>, m: nat, k: nat)
    requires 0 < m <= |s| && 0 < k
    ensures Expected(s, m, k) == [Some(s[m - 1])] + Expected(s, m - 1, k - 1)
  {
  }

  /** One step of the induction behind DrainFrom, given the walk from the next cursor. */
  lemma DrainFromCons<T>(s: seq<T>, q: seq<T>, m: nat, unlinks: seq<bool>)
    requires Distinct(q) && 0 < m <= |s| && m <= |q| && q[..m] == s[..m] && unlinks != []
    requires Drain(AfterReturn(q, Some(s[m - 1]), unlinks[0]), At(s, m - 1), unlinks[1..]) == Expected(s, m - 1, |unlinks| - 1)
    ensures Drain(q, At(s, m), unlinks) == Expected(s, m, |unlinks|)
  {
    DrainFromStep(s, q, m, unlinks);
    ExpectedStep(s, m, |unlinks|);
  }

  /** With the cursor on the head, `next` hands out nothing, however often it is called. */
  lemma {:induction false} DrainAtHead<T>(s: seq<T>, q: seq<T>, unlinks: seq<bool>)
    ensures Drain(q, None, unlinks) == Expected(s, 0, |unlinks|)
    decreases |unlinks|
  {
    if unlinks != [] {
      DrainAtHead(s, q, unlinks[1..]);
      assert Drain(q, None, unlinks) == [None] + Drain(q, None, unlinks[1..]);
      var e, e' := Expected(s, 0, |unlinks|), Expected(s, 0, |unlinks| - 1);
      assert e == [None] + e';
    }
  }

  lemma {:induction false} DrainFrom<T>(s: seq<T>, q: seq<T>, m: nat, unlinks: seq<bool>)
    requires Distinct(q) && m <= |s| && m <= |q| && q[..m] == s[..m]
    ensures Drain(q, At(s, m), unlinks) == Expected(s, m, |unlinks|)
    decreases |unlinks|
  {
    if m == 0 {
      DrainAtHead(s, q, unlinks);
    } else if unlinks != [] {
      NextFromAt(s, q, m, unlinks[0]);
      DrainFrom(s, AfterReturn(q, Some(s[m - 1]), unlinks[0]), m - 1, unlinks[1..]);
      DrainFromCons(s, q, m, unlinks);
    }
  }

  /**
   * `start` and `|unlinks| - 1` calls of `next` hand out the last tasks, tail
   * first, each once, and nothing (None) once the head is reached. This holds
   * for every pattern of the caller's choices: before each further call, it
   * may unlink the task it was just handed or leave it in place.
   */
  lemma WalkTailToHead<T>(q: seq<T>, unlinks: seq<bool>)
    requires Distinct(q)
    ensures |Walk(q, unlinks)| == |unlinks|
    ensures forall i :: 0 <= i < |unlinks| ==>
              Walk(q, unlinks)[i] == if i < |q| then Some(q[|q| - 1 - i]) else None
  {
    if unlinks != [] {
      DrainStep(q, At(q, |q|), unlinks);
      if q != [] {
        IndexOfDistinct(q, |q| - 1);
      }
      assert Start(q) == Next(q, At(q, |q|));
    }
    assert Walk(q, unlinks) == Drain(q, At(q, |q|), unlinks);
    DrainFrom(q, q, |q|, unlinks);
  }

  /**
   * Dequeue safety: unlinking the task just handed out does not change what
   * the following `next` returns nor where it leaves the cursor.
   */
  lemma NextSurvivesRemoval<T>(q: seq<T>, x: T)
    requires Distinct(q) && x in q
    ensures Next(Remove(q, x), Pred(q, x)) == Next(q, Pred(q, x))
  {
  }

  // ----- The iterator as written, without a check for the list head -----

  /** A node of the ring: a task's node, or the list head, which `list_entry` turns into a pointer that is no task. */
  datatype Node<T> = TaskNode(task: T) | HeadNode

  /** `n->prev` on the ring: the head precedes the first task, the last task precedes the head. */
  function PrevAsWritten<T(==)>(q: seq<T>, n: Node<T>): (r: Node<T>)
    requires n.TaskNode? ==> n.task in q
    ensures r.TaskNode? ==> r.task in q
  {
    match n
    case HeadNode => if q == [] then HeadNode else TaskNode(q[|q| - 1])
    case TaskNode(t) => var i := IndexOf(q, t); if i == 0 then HeadNode else TaskNode(q[i - 1])
  }

  /** `load_balance_start_*` as written: `curr = head->prev; p = list_entry(curr); curr = curr->prev`. */
  function StartAsWritten<T(==)>(q: seq<T>): (r: (Node<T>, Node<T>))
    ensures r.1.TaskNode? ==> r.1.task in q
  {
    var tail := PrevAsWritten(q, HeadNode);
    (tail, PrevAsWritten(q, tail))
  }

  /** `k` further calls of `load_balance_next_*` as written. */
  function DrainAsWritten<T(==)>(q: seq<T>, cursor: Node<T>, k: nat): seq<Node<T>>
    requires cursor.TaskNode? ==> cursor.task in q
    decreases k
  {
    if k == 0 then [] else [cursor] + DrainAsWritten(q, PrevAsWritten(q, cursor), k - 1)
  }

  function WalkAsWritten<T(==)>(q: seq<T>, k: nat): seq<Node<T>>
  {
    if k == 0 then [] else var (p, c) := StartAsWritten(q); [p] + DrainAsWritten(q, c, k - 1)
  }

  function AtAsWritten<T>(s: seq<T>, m: nat): Node<T>
    requires m <= |s|
  {
    if m == 0 then HeadNode else TaskNode(s[m - 1])
  }

  lemma {:induction false} DrainAsWrittenFrom<T>(q: seq<T>, m: nat, k: nat)
    requires Distinct(q) && 0 < |q| && m <= |q| && k <= m + 2
    ensures |DrainAsWritten(q, AtAsWritten(q, m), k)| == k
    ensures forall i :: 0 <= i < k ==>
              DrainAsWritten(q, AtAsWritten(q, m), k)[i] ==
                if i < m then TaskNode(q[m - 1 - i])
                else if i == m then HeadNode
                else TaskNode(q[|q| - 1])
  {
    if k > 0 {
      if m == 0 {
        assert PrevAsWritten(q, HeadNode) == AtAsWritten(q, |q|);
        if k == 2 {
          assert DrainAsWritten(q, AtAsWritten(q, |q|), 1) == [TaskNode(q[|q| - 1])];
        }
      } else {
        IndexOfDistinct(q, m - 1);
        assert PrevAsWritten(q, AtAsWritten(q, m)) == AtAsWritten(q, m - 1);
        DrainAsWrittenFrom(q, m - 1, k - 1);
      }
    }
  }

  /**
   * What the code as written does at the end of the list: on an empty list
   * `start` hands out the head as if it were a task; on a list of n tasks the
   * (n+1)-th result is the head, and the (n+2)-th is the tail again, handed
   * out a second time.
   */
  lemma AsWrittenWalkRevisitsTail<T>(q: seq<T>)
    requires Distinct(q)
    ensures WalkAsWritten(q, 1) == [HeadNode] <== q == []
    ensures |q| > 0 ==> |WalkAsWritten(q, |q| + 2)| == |q| + 2
    ensures |q| > 0 ==> WalkAsWritten(q, |q| + 2)[|q|] == HeadNode
    ensures |q| > 0 ==> WalkAsWritten(q, |q| + 2)[|q| + 1] == TaskNode(q[|q| - 1]) == WalkAsWritten(q, |q| + 2)[0]
  {
    var n := |q|;
    if n > 0 {
      IndexOfDistinct(q, n - 1);
      assert StartAsWritten(q) == (TaskNode(q[n - 1]), AtAsWritten(q, n - 1));
      DrainAsWrittenFrom(q, n - 1, n + 1);
    }
  }
}
