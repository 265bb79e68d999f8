/** The LRU simulation loop. */
module LruLoop {
  import opened Replacement

  // Erasing the first occurrence of page, as the scan over frameQueue does.
  method EraseFirst(frameQueue: seq<int>, page: int) returns (q: seq<int>)
    ensures q == Remove(frameQueue, page)
  {
    q := frameQueue;
    var j := 0;
    while j < |q|
      invariant 0 <= j <= |q| && q == frameQueue && page !in q[..j]
    {
      if q[j] == page {
        RemoveSplit(q[..j], q[j..], page);
        assert q == q[..j] + q[j..];
        return q[..j] + q[j + 1..];
      }
      j := j + 1;
    }
    assert page !in q;
    RemoveNone(q, page);
  }

  lemma RemoveNone(q: seq<int>, p: int)
    requires p !in q
    ensures Remove(q, p) == q
  {
  }

  lemma PagesOfStep(q: seq<int>, k: nat, p: int)
    requires 0 < k && NoDup(q) && |q| <= k
    ensures Pages(Step(LRU, q, k, p)) == if p in q then Pages(q)
                                         else if |q| < k then Pages(q) + {p} else Pages(q) - {q[0]} + {p}
    ensures p in q <==> p in Pages(q)
  {
    RemoveProps(q, p);
    var s := Step(LRU, q, k, p);
    if p in q {
      forall x ensures x in s <==> x in q { assert x in s <==> x in Remove(q, p) || x == p; }
    } else if |q| == k {
      assert q == [q[0]] + q[1..];
      forall x ensures x in s <==> (x in q && x != q[0]) || x == p { assert x in s <==> x in q[1..] || x == p; }
    } else {
      forall x ensures x in s <==> x in q || x == p { }
    }
  }

  // One turn of the loop.
  method Reference(inMemory: map<int, int>, frameQueue: seq<int>, numFrames: nat, page: int)
    returns (m: map<int, int>, q: seq<int>, fault: bool)
    requires 1 <= numFrames && NoDup(frameQueue) && |frameQueue| <= numFrames && inMemory.Keys == Pages(frameQueue)
    ensures q == Step(LRU, frameQueue, numFrames, page)
    ensures m.Keys == Pages(q)
    ensures fault <==> page !in frameQueue
  {
    PagesOfStep(frameQueue, numFrames, page);
    NoDupSize(frameQueue);
    hide NoDup, Remove, Pages;
    m, q, fault := inMemory, frameQueue, false;
    if page in m {
      q := EraseFirst(q, page);
      q := q + [page];
    } else {
      if |m| < numFrames {
        m := m[page := |m|];
        q := q + [page];
      } else {
        var lruPage := q[0];
        m := m - {lruPage};
        m := m[page := |m|];
        q := q[1..];
        q := q + [page];
      }
      fault := true;
    }
  }

  method Lru(pageReferences: seq<int>, numFrames: nat) returns (pageFaults: nat, hits: nat)
    requires 1 <= numFrames
    ensures pageFaults == Faults(LRU, [], numFrames, pageReferences)
    ensures pageFaults + hits == |pageReferences|
  {
    pageFaults := 0;
    var inMemory: map<int, int> := map[];
    var frameQueue: seq<int> := [];
    var i := 0;
    assert pageReferences[..0] == [];
    while i < |pageReferences|
      invariant 0 <= i <= |pageReferences| && pageFaults <= i
      invariant frameQueue == Queue(LRU, [], numFrames, pageReferences[..i])
      invariant pageFaults == Faults(LRU, [], numFrames, pageReferences[..i])
      invariant NoDup(frameQueue) && |frameQueue| <= numFrames
      invariant inMemory.Keys == Pages(frameQueue)
    {
      var page := pageReferences[i];
      NextReference(LRU, [], numFrames, pageReferences, i);
      StepKeeps(LRU, frameQueue, numFrames, page);
      hide Step, Queue, Faults, NoDup, Pages;
      var fault;
      inMemory, frameQueue, fault := Reference(inMemory, frameQueue, numFrames, page);
      if fault {
        pageFaults := pageFaults + 1;
      }
      i := i + 1;
    }
    assert pageReferences[..i] == pageReferences;
    hits := |pageReferences| - pageFaults;
  }
}
