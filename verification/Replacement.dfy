/** Page replacement with a queue of resident pages, as values: what the LRU and
    the FIFO loops compute, and what is true of it for every reference string. */
module Replacement {
  import opened Arithmetic

  datatype Policy = LRU | FIFO

  function Remove(q: seq<int>, p: int): seq<int> {
    if q == [] then [] else if q[0] == p then q[1..] else [q[0]] + Remove(q[1..], p)
  }

  function Touch(policy: Policy, q: seq<int>, p: int): seq<int> {
    if policy == LRU then Remove(q, p) + [p] else q
  }

  // One reference: a hit may reorder the queue, a fault evicts the front if all frames are taken.
  function Step(policy: Policy, q: seq<int>, k: nat, p: int): seq<int>
    requires 0 < k
  {
    if p in q then Touch(policy, q, p)
    else if |q| < k then q + [p]
    else q[1..] + [p]
  }

  function Queue(policy: Policy, q: seq<int>, k: nat, refs: seq<int>): seq<int>
    requires 0 < k
  {
    if refs == [] then q else Step(policy, Queue(policy, q, k, refs[..|refs| - 1]), k, refs[|refs| - 1])
  }

  lemma BeforeAny(policy: Policy, k: nat)
    requires 0 < k
    ensures Queue(policy, [], k, []) == [] && Faults(policy, [], k, []) == 0
  {
  }

  function Faults(policy: Policy, q: seq<int>, k: nat, refs: seq<int>): nat
    requires 0 < k
  {
    if refs == [] then 0
    else
      var before, p := refs[..|refs| - 1], refs[|refs| - 1];
      Faults(policy, q, k, before) + if p in Queue(policy, q, k, before) then 0 else 1
  }

  // The loops' view: one more reference of a longer string.
  lemma NextReference(policy: Policy, q: seq<int>, k: nat, refs: seq<int>, i: nat)
    requires 0 < k && i < |refs|
    ensures Queue(policy, q, k, refs[..i + 1]) == Step(policy, Queue(policy, q, k, refs[..i]), k, refs[i])
    ensures Faults(policy, q, k, refs[..i + 1])
         == Faults(policy, q, k, refs[..i]) + if refs[i] in Queue(policy, q, k, refs[..i]) then 0 else 1
  {
    assert refs[..i + 1][..i] == refs[..i];
  }

  ghost predicate NoDup(q: seq<int>) {
    forall i, j :: 0 <= i < j < |q| ==> q[i] != q[j]
  }

  function Pages(q: seq<int>): set<int> {
    set p | p in q
  }

  /** --- Sequences without repetition --- */

  lemma {:induction false} RemoveSplit(a: seq<int>, b: seq<int>, p: int)
    ensures p !in a ==> Remove(a + b, p) == a + Remove(b, p)
    ensures p in a ==> Remove(a + b, p) == Remove(a, p) + b
  {
    if a == [] {
      assert a + b == b;
    } else {
      var t := a[1..];
      assert (a + b)[0] == a[0] && (a + b)[1..] == t + b;
      RemoveSplit(t, b, p);
      assert p in a <==> p == a[0] || p in t;
      assert [a[0]] + (t + Remove(b, p)) == a + Remove(b, p);
      assert [a[0]] + (Remove(t, p) + b) == ([a[0]] + Remove(t, p)) + b;
    }
  }

  lemma RemoveProps(q: seq<int>, p: int)
    requires NoDup(q)
    ensures NoDup(Remove(q, p)) && p !in Remove(q, p)
    ensures forall x :: x in Remove(q, p) <==> x in q && x != p
    ensures |Remove(q, p)| == if p in q then |q| - 1 else |q|
  {
    if q != [] {
      RemoveProps(q[1..], p);
      assert q == [q[0]] + q[1..];
      assert q[0] !in q[1..];
      if q[0] != p { assert q[0] !in Remove(q[1..], p); }
    }
  }

  lemma NoDupSize(q: seq<int>)
    requires NoDup(q)
    ensures |Pages(q)| == |q|
  {
    if q == [] {
      assert Pages(q) == {};
    } else {
      NoDupSize(q[1..]);
      assert Pages(q) == Pages(q[1..]) + {q[0]};
    }
  }

  lemma StepKeeps(policy: Policy, q: seq<int>, k: nat, p: int)
    requires 0 < k && NoDup(q) && |q| <= k
    ensures NoDup(Step(policy, q, k, p)) && |Step(policy, q, k, p)| <= k && p in Step(policy, q, k, p)
  {
    RemoveProps(q, p);
  }

  /** --- Windows: a policy faults at most once for each page of a window of at
          most k pages --- */

  // The last c queue entries are pages of D.
  ghost predicate TailIn(q: seq<int>, c: nat, D: set<int>) {
    c <= |q| && forall i :: |q| - c <= i < |q| ==> q[i] in D
  }

  lemma TailSize(q: seq<int>, c: nat, D: set<int>)
    requires NoDup(q) && TailIn(q, c, D)
    ensures c <= |D|
  {
    var t := q[|q| - c..];
    NoDupSize(t);
    assert Pages(t) <= D;
    SubsetSize(Pages(t), D);
  }

  lemma SubsetSize(a: set<int>, b: set<int>)
    requires a <= b
    ensures |a| <= |b|
    ensures |a| == |b| ==> a == b
  {
    assert b == a + (b - a);
  }

  // One more reference inside the window, to a page that may be new in it.
  lemma TailStep(policy: Policy, q: seq<int>, k: nat, p: int, c: nat, D: set<int>)
    requires 0 < k && NoDup(q) && |q| <= k && TailIn(q, c, D) && |D + {p}| <= k
    ensures TailIn(Step(policy, q, k, p), if p in q then c else c + 1, D + {p})
  {
    var q' := Step(policy, q, k, p);
    if p in q {
      if policy == LRU {
        var a, b := q[..|q| - c], q[|q| - c..];
        assert q == a + b;
        RemoveSplit(a, b, p);
        RemoveProps(q, p);
        RemoveProps(b, p);
        forall i | |q'| - c <= i < |q'| ensures q'[i] in D + {p} {
          if i < |q'| - 1 {
            if p !in a {
              assert q'[i] == Remove(b, p)[i - |a|];
              assert q'[i] in Remove(b, p);
            } else {
              RemoveProps(a, p);
              assert q'[i] == b[i - (|a| - 1)];
            }
          }
        }
      }
    } else if |q| == k {
      if c == |q| {
        assert Pages(q) <= D;
        NoDupSize(q);
        SubsetSize(D, D + {p});
        SubsetSize(Pages(q), D);
        assert false;
      }
    }
  }

  lemma {:induction false} WindowInv(policy: Policy, q: seq<int>, k: nat, w: seq<int>)
    requires 0 < k && NoDup(q) && |q| <= k && |Pages(w)| <= k
    ensures NoDup(Queue(policy, q, k, w)) && |Queue(policy, q, k, w)| <= k
    ensures TailIn(Queue(policy, q, k, w), Faults(policy, q, k, w), Pages(w))
  {
    if w != [] {
      var before, p := w[..|w| - 1], w[|w| - 1];
      assert w == before + [p];
      assert Pages(w) == Pages(before) + {p};
      SubsetSize(Pages(before), Pages(w));
      WindowInv(policy, q, k, before);
      StepKeeps(policy, Queue(policy, q, k, before), k, p);
      TailStep(policy, Queue(policy, q, k, before), k, p, Faults(policy, q, k, before), Pages(before));
    }
  }

  // Over any window with at most k distinct pages there are no more faults than
  // distinct pages, whatever was resident before.
  lemma WindowBound(policy: Policy, q: seq<int>, k: nat, w: seq<int>)
    requires 0 < k && NoDup(q) && |q| <= k && |Pages(w)| <= k
    ensures Faults(policy, q, k, w) <= |Pages(w)|
  {
    WindowInv(policy, q, k, w);
    TailSize(Queue(policy, q, k, w), Faults(policy, q, k, w), Pages(w));
  }

  /** --- Competitiveness --- */

  // Any way of serving refs with k frames, starting empty: mem[i] is resident
  // before reference i, and a page comes in only when it is referenced.
  ghost predicate Schedule(mem: seq<set<int>>, k: nat, refs: seq<int>) {
    && |mem| == |refs| + 1 && mem[0] == {}
    && (forall i :: 0 <= i < |mem| ==> |mem[i]| <= k)
    && (forall i :: 0 <= i < |refs| ==> refs[i] in mem[i + 1] && mem[i + 1] <= mem[i] + {refs[i]})
  }

  ghost function Cost(mem: seq<set<int>>, refs: seq<int>): nat
    requires |mem| == |refs| + 1
  {
    if refs == [] then 0
    else
      var n := |refs| - 1;
      Cost(mem[..n + 1], refs[..n]) + if refs[n] in mem[n] then 0 else 1
  }

  // The greedy division of refs into phases of at most k distinct pages: how
  // many phases, and the pages of the last.
  ghost function Phases(k: nat, refs: seq<int>): Phase {
    if refs == [] then Phase(0, {}) else NextPhase(k, Phases(k, refs[..|refs| - 1]), refs[|refs| - 1])
  }

  datatype Phase = Phase(m: nat, D: set<int>)

  ghost function NextPhase(k: nat, ph: Phase, p: int): Phase {
    if ph.m > 0 && |ph.D + {p}| <= k then Phase(ph.m, ph.D + {p}) else Phase(ph.m + 1, {p})
  }

  // Where a schedule that paid only once per phase can be: all it holds and all
  // the phase has asked for fit into k frames.
  ghost predicate Confined(S: set<int>, k: nat, D: set<int>, held: set<int>) {
    |S| <= k && D <= S && held <= S
  }

  // At most k faults in each of m phases but the last, and c in that.
  ghost predicate Paid(k: nat, m: nat, f: nat, c: nat) {
    if m == 0 then f == 0 else f <= k * (m - 1) + c
  }

  lemma PaidMore(k: nat, m: nat, f: nat, c: nat)
    requires m > 0 && Paid(k, m, f, c)
    ensures Paid(k, m, f + 1, c + 1)
  {
  }

  lemma PaidPhase(k: nat, m: nat, f: nat, c: nat, x: nat)
    requires Paid(k, m, f, c) && c <= k
    ensures Paid(k, m + 1, f + x, x)
  {
    if m > 0 { Distribute(k, m - 1); }
  }

  // What holds after the phases ph, the last with at least c faults: the policy
  // has queue q and f faults, the schedule holds held and has paid cost.
  ghost predicate PhaseOk(k: nat, q: seq<int>, f: nat, ph: Phase, cost: nat, held: set<int>, c: nat, S: set<int>) {
    && NoDup(q) && |q| <= k && |ph.D| <= k && TailIn(q, c, ph.D)
    && Paid(k, ph.m, f, c)
    && ph.m <= cost && |held| <= k
    && (cost == ph.m ==> Confined(S, k, ph.D, held))
  }

  // The last fault, if it is one, is the only one of a new phase.
  lemma NewTail(policy: Policy, q: seq<int>, k: nat, p: int)
    requires 0 < k && |q| <= k
    ensures TailIn(Step(policy, q, k, p), if p in q then 0 else 1, {p})
  {
  }

  lemma PhaseStep(policy: Policy, k: nat, q: seq<int>, f: nat, ph: Phase, cost: nat, held: set<int>,
                  c: nat, S: set<int>, p: int, held': set<int>) returns (c': nat, S': set<int>)
    requires 0 < k && PhaseOk(k, q, f, ph, cost, held, c, S)
    requires |held'| <= k && held' <= held + {p} && p in held'
    requires ph.m == 0 ==> held == {}
    ensures PhaseOk(k, Step(policy, q, k, p), f + (if p in q then 0 else 1), NextPhase(k, ph, p),
                    cost + (if p in held then 0 else 1), held', c', S')
  {
    hide Step, NoDup, TailIn, Paid;
    StepKeeps(policy, q, k, p);
    if ph.m > 0 && |ph.D + {p}| <= k {
      TailStep(policy, q, k, p, c, ph.D);
      PaidMore(k, ph.m, f, c);
      c', S' := if p in q then c else c + 1, S;
    } else {
      TailSize(q, c, ph.D);
      c', S' := if p in q then 0 else 1, held';
      NewTail(policy, q, k, p);
      PaidPhase(k, ph.m, f, c, c');
      if ph.m > 0 && cost == ph.m && p in held { SubsetSize(ph.D + {p}, S); }
    }
  }

  lemma NoPhase(k: nat)
    ensures PhaseOk(k, [], 0, Phase(0, {}), 0, {}, 0, {})
  {
  }

  lemma {:induction false} PhaseInv(policy: Policy, k: nat, refs: seq<int>, mem: seq<set<int>>)
    returns (c: nat, S: set<int>)
    requires 0 < k && Schedule(mem, k, refs)
    ensures PhaseOk(k, Queue(policy, [], k, refs), Faults(policy, [], k, refs), Phases(k, refs),
                    Cost(mem, refs), mem[|refs|], c, S)
    ensures Phases(k, refs).m == 0 ==> refs == []
  {
    hide Step, PhaseOk, NoDup, TailIn, Confined;
    if refs == [] {
      c, S := 0, {};
      NoPhase(k);
    } else {
      var n := |refs| - 1;
      var before, p, mem0 := refs[..n], refs[n], mem[..n + 1];
      c, S := PhaseInv(policy, k, before, mem0);
      c, S := PhaseStep(policy, k, Queue(policy, [], k, before), Faults(policy, [], k, before), Phases(k, before),
                        Cost(mem0, before), mem[n], c, S, p, mem[n + 1]);
    }
  }

  // From a cold start neither policy faults more than k times as often as any
  // schedule with k frames.
  lemma Competitive(policy: Policy, k: nat, refs: seq<int>, mem: seq<set<int>>)
    requires 0 < k && Schedule(mem, k, refs)
    ensures Faults(policy, [], k, refs) <= k * Cost(mem, refs)
  {
    hide Queue, Faults, Cost, Phases;
    var c, S := PhaseInv(policy, k, refs, mem);
    var m := Phases(k, refs).m;
    TailSize(Queue(policy, [], k, refs), c, Phases(k, refs).D);
    if m > 0 {
      assert k * m == k * (m - 1) + k;
      MulMono(k, m, Cost(mem, refs));
    }
  }
}
