/**
  Doubly linked lists threaded through table slots.

  EdgeOS links tasks by pointers stored in the tasks themselves: run queues through
  rq_prev/rq_next and child lists through sibling_prev/sibling_next. A pointer into the
  table is modelled by the slot's index, a null pointer by NULL.
 */
module IntrusiveLists {

  const NULL := -1

  /** The element at position i, or NULL past either end. */
  function At(q: seq<int>, i: int): int {
    if 0 <= i < |q| then q[i] else NULL
  }

  /** A table of n equal entries. */
  function Repeat<T>(n: nat, x: T): (r: seq<T>)
    ensures |r| == n && forall i :: 0 <= i < n ==> r[i] == x
  {
    seq(n, _ => x)
  }

  predicate NoDup(q: seq<int>) {
    forall i, j :: 0 <= i < j < |q| ==> q[i] != q[j]
  }

  predicate Within(q: seq<int>, n: nat) {
    forall i :: 0 <= i < |q| ==> 0 <= q[i] < n
  }

  /** q without the first occurrence of t. */
  function Without(q: seq<int>, t: int): seq<int> {
    if q == [] then [] else if q[0] == t then q[1..] else [q[0]] + Without(q[1..], t)
  }

  lemma {:induction false} WithoutAt(q: seq<int>, k: nat)
    requires NoDup(q) && k < |q|
    ensures Without(q, q[k]) == q[..k] + q[k + 1..]
  {
    if k > 0 {
      assert q[1..][k - 1] == q[k] && q[0] != q[k];
      WithoutAt(q[1..], k - 1);
      assert q[1..][..k - 1] == q[1..k] && q[1..][k..] == q[k + 1..];
      assert [q[0]] + q[1..k] == q[..k];
    }
  }

  lemma {:induction false} WithoutAbsent(q: seq<int>, t: int)
    requires t !in q
    ensures Without(q, t) == q
  {
    if q != [] {
      WithoutAbsent(q[1..], t);
    }
  }

  lemma CutOut(q: seq<int>, k: nat)
    requires NoDup(q) && k < |q|
    ensures var r := q[..k] + q[k + 1..]; NoDup(r) && forall x :: x in r <==> x in q && x != q[k]
  {
    var r := q[..k] + q[k + 1..];
    forall i | 0 <= i < |r| ensures r[i] == q[if i < k then i else i + 1] {}
    forall x ensures x in r <==> x in q && x != q[k] {
      if x in q && x != q[k] {
        var i :| 0 <= i < |q| && q[i] == x;
        assert r[if i < k then i else i - 1] == x;
      }
    }
  }

  /** Removal keeps a list duplicate-free and takes out exactly t. */
  lemma WithoutElements(q: seq<int>, t: int)
    requires NoDup(q)
    ensures NoDup(Without(q, t))
    ensures forall x :: x in Without(q, t) <==> x in q && x != t
  {
    if t in q {
      var k :| 0 <= k < |q| && q[k] == t;
      WithoutAt(q, k);
      CutOut(q, k);
    } else {
      WithoutAbsent(q, t);
    }
  }

  /** prev and next thread exactly the list q. */
  predicate Chain(q: seq<int>, prev: seq<int>, next: seq<int>) {
    && |prev| == |next|
    && (forall i :: 0 <= i < |q| ==> 0 <= q[i] < |prev|)
    && (forall i {:trigger next[q[i]]} :: 0 <= i < |q| ==> next[q[i]] == At(q, i + 1))
    && (forall i {:trigger prev[q[i]]} :: 0 <= i < |q| ==> prev[q[i]] == At(q, i - 1))
  }

  /** Every list of the family is duplicate-free and threaded, and no two lists share a slot. */
  ghost predicate Family(lists: seq<seq<int>>, prev: seq<int>, next: seq<int>) {
    && |prev| == |next|
    && (forall c :: 0 <= c < |lists| ==> NoDup(lists[c]) && Chain(lists[c], prev, next))
    && (forall c, d, x :: 0 <= c < |lists| && 0 <= d < |lists| && x in lists[c] && x in lists[d] ==> c == d)
  }

  /** Links that differ only outside q still thread q. */
  lemma ChainFrame(q: seq<int>, prev: seq<int>, next: seq<int>, prev': seq<int>, next': seq<int>)
    requires Chain(q, prev, next)
    requires |prev'| == |next'| == |prev|
    requires forall i :: 0 <= i < |prev| && i in q ==> prev'[i] == prev[i] && next'[i] == next[i]
    ensures Chain(q, prev', next')
  {
  }

  lemma ChainNode(q: seq<int>, prev: seq<int>, next: seq<int>, i: int)
    requires Chain(q, prev, next) && 0 <= i < |q|
    ensures |prev| == |next| && 0 <= q[i] < |prev| && q[i] in q
    ensures next[q[i]] == At(q, i + 1) && prev[q[i]] == At(q, i - 1)
  {
  }

  lemma SpelledChain(q: seq<int>, prev: seq<int>, next: seq<int>)
    requires |prev| == |next|
    requires forall i :: 0 <= i < |q| ==> 0 <= q[i] < |prev| && next[q[i]] == At(q, i + 1) && prev[q[i]] == At(q, i - 1)
    ensures Chain(q, prev, next)
  {
  }

  /** Node i after t is linked behind the tail. */
  lemma TailNode(q: seq<int>, prev: seq<int>, next: seq<int>, t: int, i: int)
    requires Chain(q, prev, next) && NoDup(q) && 0 <= t < |prev| && t !in q && 0 <= i <= |q|
    requires |prev| == |next| && (q != [] ==> 0 <= q[|q| - 1] < |prev|)
    ensures var q' := q + [t];
            var prev', next1 := prev[t := At(q, |q| - 1)], next[t := NULL];
            var next' := if q == [] then next1 else next1[q[|q| - 1] := t];
            0 <= q'[i] < |prev| && next'[q'[i]] == At(q', i + 1) && prev'[q'[i]] == At(q', i - 1)
  {
    hide Chain;
    if q != [] { assert q[|q| - 1] in q; }
    if i < |q| { ChainNode(q, prev, next, i); }
    if i < |q| - 1 { assert q[i] != q[|q| - 1]; }
  }

  lemma ChainPushTail(q: seq<int>, prev: seq<int>, next: seq<int>, t: int)
    requires Chain(q, prev, next) && NoDup(q) && 0 <= t < |prev| && t !in q
    ensures q != [] ==> 0 <= q[|q| - 1] < |prev|
    ensures var next1 := next[t := NULL];
            Chain(q + [t], prev[t := At(q, |q| - 1)], if q == [] then next1 else next1[q[|q| - 1] := t])
    ensures NoDup(q + [t])
  {
    assert |prev| == |next|;
    if q != [] { ChainNode(q, prev, next, |q| - 1); }
    hide Chain, At;
    var q' := q + [t];
    var prev', next1 := prev[t := At(q, |q| - 1)], next[t := NULL];
    var next' := if q == [] then next1 else next1[q[|q| - 1] := t];
    forall i | 0 <= i < |q'|
      ensures 0 <= q'[i] < |prev| && next'[q'[i]] == At(q', i + 1) && prev'[q'[i]] == At(q', i - 1)
    {
      TailNode(q, prev, next, t, i);
    }
    SpelledChain(q', prev', next');
  }

  /** Node i after t is linked before the head. */
  lemma HeadNode(q: seq<int>, prev: seq<int>, next: seq<int>, t: int, i: int)
    requires Chain(q, prev, next) && NoDup(q) && 0 <= t < |prev| && t !in q && 0 <= i <= |q|
    requires |prev| == |next| && (q != [] ==> 0 <= q[0] < |prev|)
    ensures var q' := [t] + q;
            var prev1, next' := prev[t := NULL], next[t := At(q, 0)];
            var prev' := if q == [] then prev1 else prev1[q[0] := t];
            0 <= q'[i] < |prev| && next'[q'[i]] == At(q', i + 1) && prev'[q'[i]] == At(q', i - 1)
  {
    hide Chain;
    if q != [] { assert q[0] in q; }
    if i > 0 { ChainNode(q, prev, next, i - 1); }
    if i > 1 { assert q[i - 1] != q[0]; }
  }

  lemma ChainPushHead(q: seq<int>, prev: seq<int>, next: seq<int>, t: int)
    requires Chain(q, prev, next) && NoDup(q) && 0 <= t < |prev| && t !in q
    ensures q != [] ==> 0 <= q[0] < |prev|
    ensures var prev1 := prev[t := NULL];
            Chain([t] + q, if q == [] then prev1 else prev1[q[0] := t], next[t := At(q, 0)])
  {
    assert |prev| == |next|;
    if q != [] { ChainNode(q, prev, next, 0); }
    hide Chain, At;
    var q' := [t] + q;
    var prev1, next' := prev[t := NULL], next[t := At(q, 0)];
    var prev' := if q == [] then prev1 else prev1[q[0] := t];
    forall i | 0 <= i < |q'|
      ensures 0 <= q'[i] < |prev| && next'[q'[i]] == At(q', i + 1) && prev'[q'[i]] == At(q', i - 1)
    {
      HeadNode(q, prev, next, t, i);
    }
    SpelledChain(q', prev', next');
  }

  /** The two neighbour updates of an unlink, and the reset of the removed slot. */
  function UnlinkedPrev(prev: seq<int>, next: seq<int>, t: int): seq<int>
    requires |prev| == |next| && 0 <= t < |prev| && NULL <= next[t] < |prev|
  {
    (if next[t] != NULL then prev[next[t] := prev[t]] else prev)[t := NULL]
  }

  function UnlinkedNext(prev: seq<int>, next: seq<int>, t: int): seq<int>
    requires |prev| == |next| && 0 <= t < |prev| && NULL <= prev[t] < |prev|
  {
    (if prev[t] != NULL then next[prev[t] := next[t]] else next)[t := NULL]
  }

  /** What a removal reads: the removed slot's neighbours are its list neighbours. */
  lemma ChainNeighbours(q: seq<int>, prev: seq<int>, next: seq<int>, k: nat)
    requires Chain(q, prev, next) && k < |q|
    ensures prev[q[k]] == At(q, k - 1) && next[q[k]] == At(q, k + 1)
    ensures NULL <= prev[q[k]] < |prev| && NULL <= next[q[k]] < |prev|
  {
  }

  lemma ChainRemove(q: seq<int>, prev: seq<int>, next: seq<int>, k: nat)
    requires Chain(q, prev, next) && NoDup(q) && k < |q|
    ensures NULL <= prev[q[k]] < |prev| && NULL <= next[q[k]] < |prev|
    ensures Chain(q[..k] + q[k + 1..], UnlinkedPrev(prev, next, q[k]), UnlinkedNext(prev, next, q[k]))
  {
    ChainNeighbours(q, prev, next, k);
    var q' := q[..k] + q[k + 1..];
    var prev' := UnlinkedPrev(prev, next, q[k]);
    var next' := UnlinkedNext(prev, next, q[k]);
    forall i | 0 <= i < |q'| ensures next'[q'[i]] == At(q', i + 1) && prev'[q'[i]] == At(q', i - 1) {
      var j := if i < k then i else i + 1;
      assert q'[i] == q[j] && next[q[j]] == At(q, j + 1) && prev[q[j]] == At(q, j - 1);
    }
  }

  /** Only the neighbours of t in its own list change, so the other lists stay threaded. */
  lemma RemoveFrame(q: seq<int>, r: seq<int>, prev: seq<int>, next: seq<int>, k: nat)
    requires Chain(q, prev, next) && Chain(r, prev, next) && k < |q|
    requires forall x :: x in q ==> x !in r
    ensures NULL <= prev[q[k]] < |prev| && NULL <= next[q[k]] < |prev|
    ensures Chain(r, UnlinkedPrev(prev, next, q[k]), UnlinkedNext(prev, next, q[k]))
  {
    ChainNeighbours(q, prev, next, k);
    assert q[k] in q && (k > 0 ==> q[k - 1] in q) && (k + 1 < |q| ==> q[k + 1] in q);
    ChainFrame(r, prev, next, UnlinkedPrev(prev, next, q[k]), UnlinkedNext(prev, next, q[k]));
  }

  /** Unlinking slot t from list c leaves a well-threaded family. */
  lemma FamilyRemove(lists: seq<seq<int>>, prev: seq<int>, next: seq<int>, c: int, t: int)
    requires Family(lists, prev, next) && 0 <= c < |lists| && t in lists[c]
    ensures 0 <= t < |prev| && NULL <= prev[t] < |prev| && NULL <= next[t] < |prev|
    ensures Family(lists[c := Without(lists[c], t)], UnlinkedPrev(prev, next, t), UnlinkedNext(prev, next, t))
  {
    var q := lists[c];
    var k :| 0 <= k < |q| && q[k] == t;
    ChainRemove(q, prev, next, k);
    WithoutAt(q, k);
    WithoutElements(q, t);
    var prev', next' := UnlinkedPrev(prev, next, t), UnlinkedNext(prev, next, t);
    forall d | 0 <= d < |lists| && d != c ensures Chain(lists[d], prev', next') {
      RemoveFrame(q, lists[d], prev, next, k);
    }
  }

  /** Which ends of the list move when t is unlinked. */
  lemma RemoveEnds(q: seq<int>, prev: seq<int>, next: seq<int>, t: int)
    requires Chain(q, prev, next) && NoDup(q) && t in q
    ensures |Without(q, t)| == |q| - 1
    ensures At(Without(q, t), 0) == if prev[t] == NULL then next[t] else q[0]
    ensures At(Without(q, t), |q| - 2) == if next[t] == NULL then prev[t] else q[|q| - 1]
  {
    var k :| 0 <= k < |q| && q[k] == t;
    ChainNeighbours(q, prev, next, k);
    WithoutAt(q, k);
  }

  lemma FamilyPushTail(lists: seq<seq<int>>, prev: seq<int>, next: seq<int>, c: int, t: int)
    requires Family(lists, prev, next) && 0 <= c < |lists| && 0 <= t < |prev|
    requires forall d :: 0 <= d < |lists| ==> t !in lists[d]
    ensures lists[c] != [] ==> 0 <= lists[c][|lists[c]| - 1] < |prev|
    ensures var q := lists[c];
            var next1 := next[t := NULL];
            Family(lists[c := q + [t]], prev[t := At(q, |q| - 1)], if q == [] then next1 else next1[q[|q| - 1] := t])
  {
    var q := lists[c];
    ChainPushTail(q, prev, next, t);
    var prev' := prev[t := At(q, |q| - 1)];
    var next1 := next[t := NULL];
    var next' := if q == [] then next1 else next1[q[|q| - 1] := t];
    forall d | 0 <= d < |lists| && d != c ensures Chain(lists[d], prev', next') {
      ChainFrame(lists[d], prev, next, prev', next');
    }
  }

  lemma FamilyPushHead(lists: seq<seq<int>>, prev: seq<int>, next: seq<int>, c: int, t: int)
    requires Family(lists, prev, next) && 0 <= c < |lists| && 0 <= t < |prev|
    requires forall d :: 0 <= d < |lists| ==> t !in lists[d]
    ensures lists[c] != [] ==> 0 <= lists[c][0] < |prev|
    ensures var q := lists[c];
            var prev1 := prev[t := NULL];
            Family(lists[c := [t] + q], if q == [] then prev1 else prev1[q[0] := t], next[t := At(q, 0)])
  {
    var q := lists[c];
    assert NoDup([t] + q);
    ChainPushHead(q, prev, next, t);
    var prev1 := prev[t := NULL];
    var prev' := if q == [] then prev1 else prev1[q[0] := t];
    var next' := next[t := At(q, 0)];
    forall d | 0 <= d < |lists| && d != c ensures Chain(lists[d], prev', next') {
      ChainFrame(lists[d], prev, next, prev', next');
    }
  }
}
