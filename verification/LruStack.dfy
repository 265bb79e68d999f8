/** What LRU keeps resident, and why more frames never hurt it (FIFO they can). */
module LruStack {
  import opened Replacement

  // The distinct pages of refs, the most recently used last.
  function Recency(refs: seq<int>): seq<int> {
    if refs == [] then [] else Remove(Recency(refs[..|refs| - 1]), refs[|refs| - 1]) + [refs[|refs| - 1]]
  }

  function LastUse(refs: seq<int>, p: int): nat
    requires p in refs
  {
    if refs[|refs| - 1] == p then |refs| - 1
    else
      assert p in refs[..|refs| - 1];
      LastUse(refs[..|refs| - 1], p)
  }

  lemma LastUseIsLast(refs: seq<int>, p: int)
    requires p in refs
    ensures LastUse(refs, p) < |refs| && refs[LastUse(refs, p)] == p && p !in refs[LastUse(refs, p) + 1..]
  {
  }

  // r[i] was used for the last time before r[j], for i before j.
  ghost predicate InOrderOfUse(refs: seq<int>, r: seq<int>)
    requires forall p :: p in r ==> p in refs
  {
    forall i, j :: 0 <= i < j < |r| ==> LastUse(refs, r[i]) < LastUse(refs, r[j])
  }

  lemma RemoveInOrder(refs: seq<int>, r: seq<int>, p: int)
    requires (forall x :: x in r ==> x in refs) && InOrderOfUse(refs, r) && NoDup(r)
    ensures (forall x :: x in Remove(r, p) ==> x in refs) && InOrderOfUse(refs, Remove(r, p))
  {
    RemoveProps(r, p);
    if r != [] && r[0] != p {
      var t := r[1..];
      RemoveProps(t, p);
      RemoveInOrder(refs, t, p);
      var rest := Remove(t, p);
      forall j | 0 <= j < |rest| ensures LastUse(refs, r[0]) < LastUse(refs, rest[j]) {
        assert rest[j] in rest;
        assert rest[j] in t;
      }
    }
  }

  lemma {:induction false} RecencyMeaning(refs: seq<int>)
    ensures NoDup(Recency(refs))
    ensures forall p :: p in Recency(refs) <==> p in refs
    ensures InOrderOfUse(refs, Recency(refs))
  {
    if refs != [] {
      var before, p := refs[..|refs| - 1], refs[|refs| - 1];
      assert refs == before + [p];
      RecencyMeaning(before);
      var r := Recency(before);
      RemoveProps(r, p);
      RemoveInOrder(before, r, p);
      var kept := Remove(r, p);
      forall i | 0 <= i < |kept| ensures LastUse(refs, kept[i]) == LastUse(before, kept[i]) < |refs| - 1 {
        assert kept[i] in kept;
        LastUseIsLast(before, kept[i]);
      }
    }
  }

  function Last(r: seq<int>, k: nat): seq<int> {
    if |r| <= k then r else r[|r| - k..]
  }

  lemma LastOfSum(x: seq<int>, y: seq<int>, k: nat)
    requires |y| == k || (|y| <= k && x == [])
    ensures Last(x + y, k) == y
  {
    assert x == [] ==> x + y == y;
  }

  // p is among the k last pages of r, or is not.
  lemma LastHit(a: seq<int>, q: seq<int>, k: nat, p: int)
    requires 0 < k && p in q && p !in a && |Remove(q, p)| == |q| - 1 && (|q| == k || (|q| <= k && a == []))
    ensures Remove(q, p) + [p] == Last(Remove(a + q, p) + [p], k)
  {
    RemoveSplit(a, q, p);
    assert Remove(a + q, p) + [p] == a + (Remove(q, p) + [p]);
    LastOfSum(a, Remove(q, p) + [p], k);
  }

  lemma LastMiss(a: seq<int>, q: seq<int>, k: nat, p: int)
    requires 0 < k && p !in q && (|q| == k || (|q| < k && a == []))
    ensures (if |q| < k then q + [p] else q[1..] + [p]) == Last(Remove(a + q, p) + [p], k)
  {
    var x := Remove(a, p);
    RemoveSplit(a, q, p);
    if p !in a { RemoveAbsent(a, p); RemoveAbsent(q, p); }
    assert Remove(a + q, p) == x + q;
    if |q| < k {
      assert x + q + [p] == x + (q + [p]);
      LastOfSum(x, q + [p], k);
    } else {
      assert x + q + [p] == (x + [q[0]]) + (q[1..] + [p]);
      LastOfSum(x + [q[0]], q[1..] + [p], k);
    }
  }

  lemma LastStep(r: seq<int>, k: nat, p: int)
    requires 0 < k && NoDup(r)
    ensures Step(LRU, Last(r, k), k, p) == Last(Remove(r, p) + [p], k)
  {
    var a, q := r[..|r| - |Last(r, k)|], Last(r, k);
    assert r == a + q;
    RemoveProps(q, p);
    hide Remove;
    if p in q {
      assert p !in a;
      LastHit(a, q, k, p);
    } else {
      LastMiss(a, q, k, p);
    }
  }

  lemma RemoveAbsent(r: seq<int>, p: int)
    requires p !in r
    ensures Remove(r, p) == r
  {
  }

  // With k frames LRU holds the k most recently used pages, in order of last use.
  lemma {:induction false} LruHoldsMostRecent(refs: seq<int>, k: nat)
    requires 0 < k
    ensures Queue(LRU, [], k, refs) == Last(Recency(refs), k)
  {
    if refs != [] {
      var before := refs[..|refs| - 1];
      LruHoldsMostRecent(before, k);
      RecencyMeaning(before);
      LastStep(Recency(before), k, refs[|refs| - 1]);
    }
  }

  // The stack property: with fewer frames LRU holds a suffix of what it holds
  // with more, so more frames never fault more often.
  lemma {:induction false} StackProperty(refs: seq<int>, k: nat, n: nat)
    requires 0 < k <= n
    ensures Queue(LRU, [], k, refs) == Last(Queue(LRU, [], n, refs), k)
    ensures Faults(LRU, [], n, refs) <= Faults(LRU, [], k, refs)
  {
    LruHoldsMostRecent(refs, k);
    LruHoldsMostRecent(refs, n);
    if refs != [] {
      StackProperty(refs[..|refs| - 1], k, n);
    }
  }

  // One reference with three, and with four, frames taken.
  lemma NextOfThree(refs: seq<int>, i: nat, a: int, b: int, c: int, f: nat)
    requires i < |refs|
    requires Queue(FIFO, [], 3, refs[..i]) == [a, b, c] && Faults(FIFO, [], 3, refs[..i]) == f
    ensures refs[i] == a || refs[i] == b || refs[i] == c ==>
              Queue(FIFO, [], 3, refs[..i + 1]) == [a, b, c] && Faults(FIFO, [], 3, refs[..i + 1]) == f
    ensures !(refs[i] == a || refs[i] == b || refs[i] == c) ==>
              Queue(FIFO, [], 3, refs[..i + 1]) == [b, c, refs[i]] && Faults(FIFO, [], 3, refs[..i + 1]) == f + 1
  {
    assert refs[..i + 1][..i] == refs[..i];
  }

  lemma NextOfFour(refs: seq<int>, i: nat, a: int, b: int, c: int, d: int, f: nat)
    requires i < |refs|
    requires Queue(FIFO, [], 4, refs[..i]) == [a, b, c, d] && Faults(FIFO, [], 4, refs[..i]) == f
    ensures refs[i] == a || refs[i] == b || refs[i] == c || refs[i] == d ==>
              Queue(FIFO, [], 4, refs[..i + 1]) == [a, b, c, d] && Faults(FIFO, [], 4, refs[..i + 1]) == f
    ensures !(refs[i] == a || refs[i] == b || refs[i] == c || refs[i] == d) ==>
              Queue(FIFO, [], 4, refs[..i + 1]) == [b, c, d, refs[i]] && Faults(FIFO, [], 4, refs[..i + 1]) == f + 1
  {
    assert refs[..i + 1][..i] == refs[..i];
  }

  // The first references fill the frames.
  lemma Fill(k: nat, refs: seq<int>, i: nat)
    requires 0 < k && i <= |refs| && i <= k && NoDup(refs[..i])
    ensures Queue(FIFO, [], k, refs[..i]) == refs[..i] && Faults(FIFO, [], k, refs[..i]) == i
  {
    if i > 0 {
      var before := refs[..i - 1];
      assert refs[..i] == before + [refs[i - 1]] && refs[..i][..i - 1] == before;
      assert NoDup(before);
      Fill(k, refs, i - 1);
      assert refs[i - 1] == refs[..i][i - 1];
      assert refs[i - 1] !in before;
    }
  }

  function AnomalyRefs(): seq<int> {
    [1, 2, 3, 4, 1, 2, 5, 1, 2, 3, 4, 5]
  }

  lemma AnomalyAt()
    ensures var r := AnomalyRefs();
            && |r| == 12 && r[..12] == r && r[..3] == [1, 2, 3] && r[..4] == [1, 2, 3, 4]
            && r[3] == 4 && r[4] == 1 && r[5] == 2 && r[6] == 5 && r[7] == 1 && r[8] == 2 && r[9] == 3 && r[10] == 4 && r[11] == 5
  {
  }

  // FIFO has no such property: this string faults 9 times with three frames and
  // 10 times with four.
  lemma FifoAnomaly()
    ensures Faults(FIFO, [], 3, AnomalyRefs()) == 9 && Faults(FIFO, [], 4, AnomalyRefs()) == 10
  {
    FifoOnThree();
    FifoOnFour();
  }

  /** --- When more frames never hurt, for either policy --- */

  // From a cold start every page faults the first time.
  lemma {:induction false} FirstUseFaults(policy: Policy, k: nat, refs: seq<int>)
    requires 0 < k
    ensures Pages(Queue(policy, [], k, refs)) <= Pages(refs)
    ensures NoDup(Queue(policy, [], k, refs)) && |Queue(policy, [], k, refs)| <= k
    ensures |Pages(refs)| <= Faults(policy, [], k, refs)
  {
    if refs != [] {
      var before, p := refs[..|refs| - 1], refs[|refs| - 1];
      FirstUseFaults(policy, k, before);
      var q := Queue(policy, [], k, before);
      StepKeeps(policy, q, k, p);
      RemoveProps(q, p);
      assert Pages(refs) == Pages(before) + {p};
      assert p in q ==> p in Pages(q);
      forall x | x in Step(policy, q, k, p) ensures x in Pages(refs) {
        assert x == p || x in Pages(q);
      }
    }
  }

  // With a frame for every page there are as few faults as can be, so no more
  // than with any other number of frames.
  lemma EnoughFrames(policy: Policy, k: nat, n: nat, refs: seq<int>)
    requires 0 < k && 0 < n && |Pages(refs)| <= n
    ensures Faults(policy, [], n, refs) == |Pages(refs)| <= Faults(policy, [], k, refs)
  {
    WindowBound(policy, [], n, refs);
    FirstUseFaults(policy, n, refs);
    FirstUseFaults(policy, k, refs);
  }

  // A single frame is the worst there is.
  lemma {:induction false} OneFrame(policy: Policy, n: nat, refs: seq<int>)
    requires 0 < n
    ensures Faults(policy, [], n, refs) <= Faults(policy, [], 1, refs)
    ensures refs != [] ==> Queue(policy, [], 1, refs) == [refs[|refs| - 1]] && refs[|refs| - 1] in Queue(policy, [], n, refs)
    ensures refs == [] ==> Queue(policy, [], 1, refs) == []
  {
    if refs != [] {
      var before, p := refs[..|refs| - 1], refs[|refs| - 1];
      OneFrame(policy, n, before);
      FirstUseFaults(policy, n, before);
      StepKeeps(policy, Queue(policy, [], n, before), n, p);
    }
  }

  lemma FifoOnThree()
    ensures Faults(FIFO, [], 3, AnomalyRefs()) == 9
  {
    hide Queue, Faults, AnomalyRefs, NoDup;
    var refs := AnomalyRefs();
    AnomalyAt();
    Fill(3, refs, 3);
    NextOfThree(refs, 3, 1, 2, 3, 3);
    NextOfThree(refs, 4, 2, 3, 4, 4);
    NextOfThree(refs, 5, 3, 4, 1, 5);
    NextOfThree(refs, 6, 4, 1, 2, 6);
    NextOfThree(refs, 7, 1, 2, 5, 7);
    NextOfThree(refs, 8, 1, 2, 5, 7);
    NextOfThree(refs, 9, 1, 2, 5, 7);
    NextOfThree(refs, 10, 2, 5, 3, 8);
    NextOfThree(refs, 11, 5, 3, 4, 9);
  }

  lemma FifoOnFour()
    ensures Faults(FIFO, [], 4, AnomalyRefs()) == 10
  {
    hide Queue, Faults, AnomalyRefs;
    FifoOnFourSoFar();
    AnomalyAt();
    var refs := AnomalyRefs();
    NextOfFour(refs, 8, 3, 4, 5, 1, 6);
    NextOfFour(refs, 9, 4, 5, 1, 2, 7);
    NextOfFour(refs, 10, 5, 1, 2, 3, 8);
    NextOfFour(refs, 11, 1, 2, 3, 4, 9);
  }

  lemma FifoOnFourSoFar()
    ensures Queue(FIFO, [], 4, AnomalyRefs()[..8]) == [3, 4, 5, 1] && Faults(FIFO, [], 4, AnomalyRefs()[..8]) == 6
  {
    hide Queue, Faults, AnomalyRefs;
    var refs := AnomalyRefs();
    AnomalyAt();
    Fill(4, refs, 4);
    NextOfFour(refs, 4, 1, 2, 3, 4, 4);
    NextOfFour(refs, 5, 1, 2, 3, 4, 4);
    NextOfFour(refs, 6, 1, 2, 3, 4, 4);
    NextOfFour(refs, 7, 2, 3, 4, 5, 5);
  }
}
