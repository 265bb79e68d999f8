/** What a FIFO queue holds, told by positions in the reference string. */
module FifoOrder {
  import opened Replacement

  predicate Within(f: seq<nat>, n: nat) {
    forall a :: 0 <= a < |f| ==> f[a] < n
  }

  predicate Rising(f: seq<nat>) {
    forall a, b :: 0 <= a < b < |f| ==> f[a] < f[b]
  }

  // Page p was referenced at one of the last k of the first m positions of f.
  predicate Among(refs: seq<int>, f: seq<nat>, m: nat, k: nat, p: int) {
    exists a :: 0 <= a < |f| && m - k <= a < m && f[a] < |refs| && refs[f[a]] == p
  }

  // The first m positions of f are those before i.
  predicate SoMany(f: seq<nat>, m: nat, i: nat) {
    m <= |f| && (m > 0 ==> f[m - 1] < i) && (m < |f| ==> i <= f[m])
  }

  /** f lists the positions of the faults with k frames: a reference is one exactly if
      its page is not the page of any of the last k faults before it. A reference that
      is no fault changes nothing. */
  ghost predicate FifoFaults(k: nat, refs: seq<int>, f: seq<nat>) {
    && Within(f, |refs|) && Rising(f)
    && forall m: nat, i: nat :: i < |refs| && SoMany(f, m, i) ==>
         ((m < |f| && f[m] == i) <==> !Among(refs, f, m, k, refs[i]))
  }

  // The pages of the last k of these positions, in their order.
  function PagesOfLast(refs: seq<int>, f: seq<nat>, k: nat): (q: seq<int>)
    requires Within(f, |refs|)
    ensures |q| == if |f| <= k then |f| else k
    ensures forall a :: 0 <= a < |q| ==> q[a] == refs[f[|f| - |q| + a]]
  {
    var n := if |f| <= k then |f| else k;
    seq(n, a requires 0 <= a < n => refs[f[|f| - n + a]])
  }

  lemma AmongLast(refs: seq<int>, f: seq<nat>, k: nat, p: int)
    requires Within(f, |refs|)
    ensures p in PagesOfLast(refs, f, k) <==> Among(refs, f, |f|, k, p)
  {
    hide PagesOfLast;
    var q := PagesOfLast(refs, f, k);
    if Among(refs, f, |f|, k, p) {
      var a :| 0 <= a < |f| && |f| - k <= a < |f| && f[a] < |refs| && refs[f[a]] == p;
      assert q[a - (|f| - |q|)] == p;
    }
  }

  // What comes later in the string or in the list does not matter.
  lemma AmongSame(refs: seq<int>, f: seq<nat>, refs': seq<int>, f': seq<nat>, m: nat, k: nat, p: int)
    requires refs <= refs' && f <= f' && m <= |f| && Within(f, |refs|)
    ensures Among(refs', f', m, k, p) <==> Among(refs, f, m, k, p)
  {
    if Among(refs', f', m, k, p) {
      var a :| 0 <= a < |f'| && m - k <= a < m && f'[a] < |refs'| && refs'[f'[a]] == p;
      assert f[a] == f'[a] && refs[f[a]] == p;
    }
    if Among(refs, f, m, k, p) {
      var a :| 0 <= a < |f| && m - k <= a < m && f[a] < |refs| && refs[f[a]] == p;
      assert f'[a] == f[a] && refs'[f'[a]] == p;
    }
  }

  // One more reference.
  function WithNext(k: nat, refs: seq<int>, f: seq<nat>, p: int): seq<nat> {
    if Among(refs, f, |f|, k, p) then f else f + [|refs|]
  }

  lemma NextFault(k: nat, refs: seq<int>, f: seq<nat>, p: int)
    requires FifoFaults(k, refs, f)
    ensures FifoFaults(k, refs + [p], WithNext(k, refs, f, p))
  {
    hide Among;
    var refs', f' := refs + [p], WithNext(k, refs, f, p);
    forall m: nat, i: nat | i < |refs'| && SoMany(f', m, i)
      ensures (m < |f'| && f'[m] == i) <==> !Among(refs', f', m, k, refs'[i])
    {
      if i < |refs| {
        assert SoMany(f, m, i);
      } else {
        assert m == |f|;
      }
      AmongSame(refs, f, refs', f', m, k, refs'[i]);
    }
  }

  lemma NoFaultYet(k: nat)
    ensures FifoFaults(k, [], [])
  {
  }

  // The queue after one more reference.
  lemma NextQueue(k: nat, refs: seq<int>, f: seq<nat>, p: int)
    requires 0 < k && Within(f, |refs|)
    ensures var q, f' := PagesOfLast(refs, f, k), WithNext(k, refs, f, p);
            && Within(f', |refs + [p]|) && Step(FIFO, q, k, p) == PagesOfLast(refs + [p], f', k)
            && |f'| == |f| + if p in q then 0 else 1
  {
    hide Among, PagesOfLast;
    AmongLast(refs, f, k, p);
    var q, refs', f' := PagesOfLast(refs, f, k), refs + [p], WithNext(k, refs, f, p);
    var q', s := PagesOfLast(refs', f', k), Step(FIFO, q, k, p);
    assert |s| == |q'|;
    assert forall a :: 0 <= a < |q'| ==> s[a] == q'[a];
  }

  function FaultPositions(k: nat, refs: seq<int>): (f: seq<nat>)
    ensures Within(f, |refs|)
  {
    if refs == [] then [] else
      var n := |refs| - 1;
      WithNext(k, refs[..n], FaultPositions(k, refs[..n]), refs[n])
  }

  /** From a cold start FIFO holds the pages of its last k faults, or of all if there
      were fewer, in the order of the faults. */
  lemma {:induction false} FifoHoldsLastFaults(k: nat, refs: seq<int>)
    requires 0 < k
    ensures var f := FaultPositions(k, refs);
            && FifoFaults(k, refs, f)
            && Queue(FIFO, [], k, refs) == PagesOfLast(refs, f, k) && Faults(FIFO, [], k, refs) == |f|
  {
    hide FifoFaults, WithNext, PagesOfLast, Step;
    if refs == [] {
      NoFaultYet(k);
    } else {
      var n := |refs| - 1;
      var before, f := refs[..n], FaultPositions(k, refs[..n]);
      FifoHoldsLastFaults(k, before);
      assert refs == before + [refs[n]];
      NextFault(k, before, f, refs[n]);
      NextQueue(k, before, f, refs[n]);
    }
  }

  lemma WithinNone(f: seq<nat>, n: nat)
    requires Within(f, n)
    ensures f != [] ==> n > 0
  {
    if f != [] { assert f[0] < n; }
  }

  // No other list of positions is one of the faults.
  lemma {:induction false} FaultsUnique(k: nat, refs: seq<int>, f: seq<nat>)
    requires FifoFaults(k, refs, f)
    ensures f == FaultPositions(k, refs)
  {
    hide Among, Rising;
    if refs != [] {
      var n := |refs| - 1;
      var before, g := refs[..n], Earlier(f, n);
      FaultsBefore(k, refs, f);
      FaultsUnique(k, before, g);
      assert SoMany(f, |g|, n);
      AmongSame(before, g, refs, f, |g|, k, refs[n]);
    } else {
      WithinNone(f, 0);
    }
  }

  function Earlier(f: seq<nat>, n: nat): (g: seq<nat>)
    ensures g <= f
  {
    if f != [] && f[|f| - 1] == n then f[..|f| - 1] else f
  }

  lemma FaultsBefore(k: nat, refs: seq<int>, f: seq<nat>)
    requires FifoFaults(k, refs, f) && refs != []
    ensures FifoFaults(k, refs[..|refs| - 1], Earlier(f, |refs| - 1))
    ensures SoMany(f, |Earlier(f, |refs| - 1)|, |refs| - 1)
  {
    hide Among;
    var before, g := refs[..|refs| - 1], Earlier(f, |refs| - 1);
    forall m: nat, i: nat | i < |before| && SoMany(g, m, i)
      ensures (m < |g| && g[m] == i) <==> !Among(before, g, m, k, before[i])
    {
      assert SoMany(f, m, i);
      AmongSame(before, g, refs, f, m, k, before[i]);
    }
  }
}
