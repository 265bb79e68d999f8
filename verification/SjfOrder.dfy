/** What shortest job first is good for: with one processor burst each, when every
    process is finished, and that the sum of the waiting times is the least there is. */
module SjfOrder {
  import opened SjfSpec
  import opened SjfRun

  /** --- The order of service with the least sum of waiting times --- */

  // The sum of the starting times when bursts are served one after the other.
  function Cost(b: seq<int>, from: int): int {
    if b == [] then 0 else from + Cost(b[1..], from + b[0])
  }

  lemma {:induction false} MoveToFront(u: seq<int>, m: int, v: seq<int>, from: int)
    requires forall i :: 0 <= i < |u| ==> m <= u[i]
    ensures Cost([m] + (u + v), from) <= Cost(u + [m] + v, from)
  {
    if u == [] {
      assert u + [m] + v == [m] + (u + v);
    } else {
      var a, u' := u[0], u[1..];
      MoveToFront(u', m, v, from + a);
      assert (u + [m] + v)[1..] == u' + [m] + v;
      assert ([m] + (u' + v))[1..] == u' + v;
      assert ([m] + (u + v))[1..] == u + v;
      assert (u + v)[1..] == u' + v;
    }
  }

  lemma SameRest(r: seq<int>, u: seq<int>, m: int, v: seq<int>)
    requires multiset([m] + r) == multiset(u + [m] + v)
    ensures multiset(r) == multiset(u + v)
  {
    assert multiset(r) == multiset([m] + r) - multiset{m};
    assert multiset(u + v) == multiset(u + [m] + v) - multiset{m};
  }

  function Without(t: seq<int>, i: nat): seq<int>
    requires i < |t|
  {
    t[..i] + t[i + 1..]
  }

  // Serving the shortest of all first costs no more, and leaves the others.
  lemma ShortestFirst(t: seq<int>, i: nat, from: int, r: seq<int>)
    requires i < |t| && (forall k :: 0 <= k < |t| ==> t[i] <= t[k]) && multiset([t[i]] + r) == multiset(t)
    ensures from + Cost(Without(t, i), from + t[i]) <= Cost(t, from)
    ensures multiset(r) == multiset(Without(t, i))
  {
    var u, m, v := t[..i], t[i], t[i + 1..];
    assert t == u + [m] + v;
    MoveToFront(u, m, v, from);
    assert ([m] + (u + v))[1..] == u + v;
    SameRest(r, u, m, v);
  }

  lemma {:induction false} SortedIsLeast(s: seq<int>, t: seq<int>, from: int)
    requires multiset(s) == multiset(t) && forall i, k :: 0 <= i < k < |s| ==> s[i] <= s[k]
    ensures Cost(s, from) <= Cost(t, from)
    decreases |s|
  {
    if s == [] {
      assert |multiset(t)| == 0;
    } else {
      assert s == [s[0]] + s[1..];
      var i := LeastAt(s, t);
      ShortestFirst(t, i, from, s[1..]);
      SortedIsLeast(s[1..], Without(t, i), from + s[0]);
    }
  }

  lemma LeastAt(s: seq<int>, t: seq<int>) returns (i: nat)
    requires multiset(s) == multiset(t) && s != [] && forall i, k :: 0 <= i < k < |s| ==> s[i] <= s[k]
    ensures i < |t| && t[i] == s[0] && forall k :: 0 <= k < |t| ==> s[0] <= t[k]
  {
    assert s[0] in multiset(t);
    i :| 0 <= i < |t| && t[i] == s[0];
    forall k | 0 <= k < |t| ensures s[0] <= t[k] {
      assert t[k] in multiset(s);
    }
  }

  // Starting times of bursts served in this order, with pauses or without.
  ghost predicate Serves(order: seq<int>, starts: seq<int>, from: int) {
    && |starts| == |order| && (starts != [] ==> from <= starts[0])
    && forall i :: 0 < i < |starts| ==> starts[i - 1] + order[i - 1] <= starts[i]
  }

  lemma {:induction false} PausesCost(order: seq<int>, starts: seq<int>, from: int)
    requires Serves(order, starts, from)
    ensures Cost(order, from) <= Sum(starts)
  {
    if order != [] {
      var o, r := order[1..], starts[1..];
      forall i | 0 < i < |r| ensures r[i - 1] + o[i - 1] <= r[i] {
        var k := i + 1;
        assert starts[k - 1] + order[k - 1] <= starts[k];
      }
      PausesCost(o, r, from + order[0]);
    }
  }

  /** --- One processor burst each --- */

  ghost predicate Single(arr: seq<nat>, b: seq<int>) {
    |b| == |arr| > 0 && forall p :: 0 <= p < |b| ==> b[p] >= 1
  }

  function Alone(b: seq<int>): (r: seq<seq<int>>)
    ensures |r| == |b|
  {
    seq(|b|, (p: nat) => if p < |b| then [b[p]] else [])
  }

  // The work of all that have come by tick t.
  function WorkBy(arr: seq<nat>, b: seq<int>, t: int): int
    requires |arr| == |b|
  {
    if arr == [] then 0 else (if arr[0] <= t then b[0] else 0) + WorkBy(arr[1..], b[1..], t)
  }

  // The work of those that come at tick t, of the first k.
  function WorkAt(arr: seq<nat>, b: seq<int>, t: int, k: nat): int
    requires |arr| == |b| && k <= |arr|
  {
    if k == 0 then 0 else WorkAt(arr, b, t, k - 1) + if arr[k - 1] == t then b[k - 1] else 0
  }

  lemma {:induction false} WorkByAt(arr: seq<nat>, b: seq<int>, t: int)
    requires |arr| == |b|
    ensures WorkBy(arr, b, t) == WorkBy(arr, b, t - 1) + WorkAt(arr, b, t, |arr|)
  {
    if arr != [] {
      WorkByAt(arr[1..], b[1..], t);
      WorkAtFront(arr, b, t, |arr|);
    }
  }

  lemma {:induction false} WorkAtFront(arr: seq<nat>, b: seq<int>, t: int, k: nat)
    requires |arr| == |b| && 0 < k <= |arr|
    ensures WorkAt(arr, b, t, k) == (if arr[0] == t then b[0] else 0) + WorkAt(arr[1..], b[1..], t, k - 1)
  {
    if k > 1 { WorkAtFront(arr, b, t, k - 1); }
  }

  lemma {:induction false} WorkByBefore(arr: seq<nat>, b: seq<int>, t: int)
    requires |arr| == |b| && forall p :: 0 <= p < |arr| ==> arr[p] > t
    ensures WorkBy(arr, b, t) == 0
  {
    if arr != [] { WorkByBefore(arr[1..], b[1..], t); }
  }

  function Earliest(arr: seq<nat>): (t: nat)
    requires arr != []
    ensures forall p :: 0 <= p < |arr| ==> t <= arr[p]
    ensures exists p :: 0 <= p < |arr| && arr[p] == t
  {
    if |arr| == 1 then assert arr[0] == arr[|arr| - 1]; arr[0]
    else
      var rest := Earliest(arr[1..]);
      var q :| 0 <= q < |arr[1..]| && arr[1..][q] == rest;
      assert arr[q + 1] == rest;
      assert forall p :: 0 < p < |arr| ==> arr[p] == arr[1..][p - 1];
      if arr[0] < rest then arr[0] else rest
  }

  // All work that has come by tick t is done at its end: what came so far is no
  // more than the ticks since the first arrival.
  ghost predicate Gap(arr: seq<nat>, b: seq<int>, t: int)
    requires |arr| == |b| && arr != []
  {
    Earliest(arr) <= t && WorkBy(arr, b, t) <= t + 1 - Earliest(arr)
  }

  function Backlog(s: Sim): int {
    JobSum(s.ready) + DeviceSum(s.cpu)
  }

  // No I/O, and only those to come have their burst still in the input.
  ghost predicate CpuOnly(s: Sim, arr: seq<nat>, b: seq<int>, k: nat)
    requires |arr| == |b|
  {
    && s.ioq == [] && s.io == Idle && |s.bursts| == |b|
    && forall p :: 0 <= p < |b| ==>
         s.bursts[p] == if arr[p] < s.time || (arr[p] == s.time && p < k) then [] else [b[p]]
  }

  ghost predicate Busily(s: Sim, arr: seq<nat>, b: seq<int>)
    requires |arr| == |b| && arr != []
  {
    && CpuOnly(s, arr, b, 0)
    && (if s.time <= Earliest(arr) then s.ready == [] && s.cpu == Idle
        else Backlog(s) == WorkBy(arr, b, s.time - 1) - (s.time - Earliest(arr)) > 0)
  }

  lemma PushCpuOnly(s: Sim, arr: seq<nat>, b: seq<int>, k: nat)
    requires Shape(s, arr) && |arr| == |b| && k < |arr| && CpuOnly(s, arr, b, k) && arr[k] == s.time
    ensures s.bursts[k] == [b[k]]
    ensures var s' := Push(s, arr, k);
            && CpuOnly(s', arr, b, k + 1) && s'.cpu == s.cpu && s'.time == s.time
            && JobSum(s'.ready) == JobSum(s.ready) + b[k]
  {
    JobSumInsert(s.ready, Job(s.bursts[k][0], k));
    hide Insert, Queue, JobSum;
  }

  lemma {:induction false} ArriveCpuOnly(s: Sim, arr: seq<nat>, b: seq<int>, k: nat)
    requires Shape(s, arr) && |arr| == |b| && k <= |arr| && CpuOnly(s, arr, b, 0)
    requires forall p :: 0 <= p < |arr| && arr[p] == s.time ==> s.bursts[p] != []
    ensures var s' := Arrive(s, arr, k);
            && CpuOnly(s', arr, b, k) && s'.cpu == s.cpu && s'.time == s.time
            && JobSum(s'.ready) == JobSum(s.ready) + WorkAt(arr, b, s.time, k)
    decreases k
  {
    if k > 0 {
      ArriveCpuOnly(s, arr, b, k - 1);
      var s1 := Arrive(s, arr, k - 1);
      hide JobSum, Shape;
      if arr[k - 1] == s.time { PushCpuOnly(s1, arr, b, k - 1); } else { SkipCpuOnly(s1, arr, b, k - 1); }
    }
  }

  lemma SkipCpuOnly(s: Sim, arr: seq<nat>, b: seq<int>, k: nat)
    requires |arr| == |b| && k < |arr| && CpuOnly(s, arr, b, k) && arr[k] != s.time
    ensures CpuOnly(s, arr, b, k + 1)
  {
  }

  // What starting and working make of a state without I/O.
  lemma TickCpuOnly(s: Sim, arr: seq<nat>, b: seq<int>)
    requires Shape(s, arr) && |arr| == |b| && CpuOnly(s, arr, b, |arr|) && Live(s)
    ensures var w := Work(StartIo(StartCpu(s, arr), arr), arr);
            && CpuOnly(w, arr, b, |arr|) && w.time == s.time
            && w.cpu.Busy? == (s.cpu.Busy? || s.ready != []) && (!w.cpu.Busy? ==> w.ready == [])
            && Backlog(w) == Backlog(s) - if w.cpu.Busy? then 1 else 0
  {
    hide Entries;
  }

  // The work there is once everyone who comes at this tick is in.
  lemma ArrivedBusily(s: Sim, arr: seq<nat>, b: seq<int>)
    requires Shape(s, arr) && |arr| == |b| && arr != [] && Busily(s, arr, b)
    requires forall p :: 0 <= p < |b| ==> b[p] >= 1
    requires forall p :: 0 <= p < |arr| && arr[p] == s.time ==> s.bursts[p] != []
    ensures var s1 := Arrive(s, arr, |arr|);
            && CpuOnly(s1, arr, b, |arr|) && s1.time == s.time && s1.cpu == s.cpu
            && (if s.time < Earliest(arr) then Backlog(s1) == 0
                else Backlog(s1) == WorkBy(arr, b, s.time) - (s.time - Earliest(arr)) > 0)
  {
    hide Shape, WorkBy, WorkAt, Earliest, CpuOnly, Arrive, JobSum;
    ArriveCpuOnly(s, arr, b, |arr|);
    WorkByAt(arr, b, s.time);
    WorkAtNat(arr, b, s.time, |arr|);
    JobSumEmpty();
    if s.time < Earliest(arr) {
      WorkByBefore(arr, b, s.time);
      WorkByBefore(arr, b, s.time - 1);
    } else if s.time == Earliest(arr) {
      WorkByBefore(arr, b, s.time - 1);
      var p :| 0 <= p < |arr| && arr[p] == s.time;
      WorkAtSome(arr, b, s.time, |arr|, p);
    }
  }

  lemma JobSumEmpty()
    ensures JobSum([]) == 0
  {
  }

  // The processor works whenever there is something to do.
  lemma WorkedBusily(s: Sim, arr: seq<nat>, b: seq<int>)
    requires Shape(s, arr) && Live(s) && |arr| == |b| && arr != [] && Busily(s, arr, b)
    requires forall p :: 0 <= p < |b| ==> b[p] >= 1
    requires forall p :: 0 <= p < |arr| && arr[p] == s.time ==> s.bursts[p] != []
    ensures var w := Worked(s, arr);
            && CpuOnly(w, arr, b, |arr|) && w.time == s.time
            && (if s.time < Earliest(arr) then w.ready == [] && w.cpu == Idle
                else w.cpu.Busy? && Backlog(w) == WorkBy(arr, b, s.time) - (s.time + 1 - Earliest(arr)))
  {
    ArrivedBusily(s, arr, b);
    var s1 := Arrive(s, arr, |arr|);
    assert s1.io == Idle;
    hide WorkBy, Earliest, Work, StartIo, StartCpu, JobSum, CpuOnly, Arrive, Shape;
    TickCpuOnly(s1, arr, b);
    NothingReady(s1, arr);
  }

  lemma NothingReady(s: Sim, arr: seq<nat>)
    requires Shape(s, arr)
    ensures s.ready == [] <==> JobSum(s.ready) <= 0
    ensures JobSum(s.ready) >= 0
  {
    JobSumNat(s.ready, |arr|);
  }

  lemma {:induction false} WorkAtNat(arr: seq<nat>, b: seq<int>, t: int, k: nat)
    requires |arr| == |b| && k <= |arr| && forall p :: 0 <= p < |b| ==> b[p] >= 1
    ensures WorkAt(arr, b, t, k) >= 0
  {
    if k > 0 { WorkAtNat(arr, b, t, k - 1); }
  }

  lemma {:induction false} WorkAtSome(arr: seq<nat>, b: seq<int>, t: int, k: nat, p: nat)
    requires |arr| == |b| && k <= |arr| && p < k && arr[p] == t && forall p :: 0 <= p < |b| ==> b[p] >= 1
    ensures WorkAt(arr, b, t, k) >= 1
  {
    if p < k - 1 { WorkAtSome(arr, b, t, k - 1, p); } else { WorkAtNat(arr, b, t, k - 1); }
  }

  // The end of a tick when there is no I/O and no second burst.
  lemma EndedAlone(w: Sim, arr: seq<nat>)
    requires Shape(w, arr) && !w.over && w.io == Idle && w.ioq == []
    requires w.cpu.Busy? ==> w.bursts[w.cpu.pid] == []
    ensures var s', done := Ended(w, arr), w.cpu.Busy? && w.cpu.left == 0;
            && s'.ready == w.ready && s'.ioq == [] && s'.io == Idle && s'.bursts == w.bursts && s'.used == w.used
            && s'.over == (done && w.ready == [])
            && s'.time == (if s'.over then w.time else w.time + 1)
            && s'.cpu == (if done && !s'.over then Idle else w.cpu)
            && (if done then s'.turnaround == w.turnaround[w.cpu.pid := w.time - arr[w.cpu.pid] + 1]
                             && s'.waits == w.waits[w.cpu.pid := w.time - arr[w.cpu.pid] + 1 - w.used[w.cpu.pid]]
                else s'.turnaround == w.turnaround && s'.waits == w.waits)
  {
    hide Queue;
  }

  lemma NextCpuOnly(w: Sim, s': Sim, arr: seq<nat>, b: seq<int>)
    requires |arr| == |b| && CpuOnly(w, arr, b, |arr|)
    requires s'.time == w.time + 1 && s'.bursts == w.bursts && s'.ioq == [] && s'.io == Idle
    ensures CpuOnly(s', arr, b, 0)
  {
  }

  lemma CpuHolder(w: Sim, arr: seq<nat>, b: seq<int>)
    requires Books(w, arr, w.time, |arr|, w.time + 1) && |arr| == |b| && CpuOnly(w, arr, b, |arr|) && w.cpu.Busy?
    ensures Shape(w, arr) && w.bursts[w.cpu.pid] == [] && arr[w.cpu.pid] <= w.time
  {
    assert Fine(w, arr, w.time, |arr|, w.time + 1, w.cpu.pid);
    hide Queue, Entries;
  }

  // The processor still holds the process whose end ended the loop.
  predicate EndOfLast(s: Sim) {
    s.io == Idle && s.cpu.Busy? && s.cpu.pid < |s.turnaround| && s.turnaround[s.cpu.pid] != 0
  }

  // What matters of it here.
  lemma EndedShort(w: Sim, arr: seq<nat>)
    requires Shape(w, arr) && !w.over && w.io == Idle && w.ioq == []
    requires w.cpu.Busy? ==> w.bursts[w.cpu.pid] == [] && arr[w.cpu.pid] <= w.time
    ensures var s' := Ended(w, arr);
            && (s'.over <==> w.cpu.Busy? && Backlog(w) == 0)
            && (s'.over ==> EndOfLast(s'))
            && (!s'.over ==>
                  && s'.time == w.time + 1 && s'.ioq == [] && s'.io == Idle && s'.bursts == w.bursts
                  && s'.ready == w.ready && (w.cpu.Idle? ==> s'.cpu == Idle) && Backlog(s') == Backlog(w) >= 0)
  {
    hide Entries, Ended, Shape, JobSum, Sorted;
    NothingReady(w, arr);
    EndedAlone(w, arr);
    DeviceNat(w, arr);
  }

  // The loop is left at the first gap and no earlier.
  lemma EndedBusily(w: Sim, arr: seq<nat>, b: seq<int>)
    requires Books(w, arr, w.time, |arr|, w.time + 1) && |arr| == |b| && arr != [] && !w.over && CpuOnly(w, arr, b, |arr|)
    requires if w.time < Earliest(arr) then w.ready == [] && w.cpu == Idle
             else w.cpu.Busy? && Backlog(w) == WorkBy(arr, b, w.time) - (w.time + 1 - Earliest(arr))
    ensures Shape(w, arr)
    ensures var s' := Ended(w, arr);
            && (s'.over <==> Gap(arr, b, w.time))
            && (s'.over ==> EndOfLast(s'))
            && (!s'.over ==> Busily(s', arr, b))
  {
    hide WorkBy, Earliest, Entries, Books, Ended, Shape, CpuOnly, Live, Sorted, Gap, Busily, Backlog, EndOfLast;
    BooksShape(w, arr);
    if w.cpu.Busy? { CpuHolder(w, arr, b); }
    NoIo(w, arr, b);
    EndedShort(w, arr);
    var s' := Ended(w, arr);
    if !s'.over {
      NextCpuOnly(w, s', arr, b);
      StillBusily(s', arr, b);
    } else {
      AGap(arr, b, w.time);
    }
  }

  lemma StillBusily(s: Sim, arr: seq<nat>, b: seq<int>)
    requires |arr| == |b| && arr != [] && s.time > 0 && CpuOnly(s, arr, b, 0)
    requires if s.time <= Earliest(arr) then s.ready == [] && s.cpu == Idle
             else Backlog(s) == WorkBy(arr, b, s.time - 1) - (s.time - Earliest(arr)) > 0
    ensures Busily(s, arr, b) && !Gap(arr, b, s.time - 1)
  {
    hide WorkBy, Earliest;
  }

  lemma AGap(arr: seq<nat>, b: seq<int>, t: nat)
    requires |arr| == |b| && arr != [] && Earliest(arr) <= t && WorkBy(arr, b, t) == t + 1 - Earliest(arr)
    ensures Gap(arr, b, t)
  {
  }

  lemma BooksShape(w: Sim, arr: seq<nat>)
    requires Books(w, arr, w.time, |arr|, w.time + 1)
    ensures Shape(w, arr)
  {
  }

  lemma NoIo(w: Sim, arr: seq<nat>, b: seq<int>)
    requires |arr| == |b| && CpuOnly(w, arr, b, |arr|)
    ensures w.io == Idle && w.ioq == []
  {
  }

  lemma DeviceNat(w: Sim, arr: seq<nat>)
    requires Shape(w, arr)
    ensures w.cpu.Busy? ==> w.cpu.left >= 0 && w.cpu.pid < |w.turnaround| == |arr|
  {
  }

  // A tick is its two halves.
  lemma NextIs(s: Sim, arr: seq<nat>)
    requires Between(s, arr)
    ensures Shape(s, arr) && Live(s)
    ensures forall p :: 0 <= p < |arr| && arr[p] == s.time ==> s.bursts[p] != []
    ensures var w := Worked(s, arr);
            && Next(s, arr) == Ended(w, arr) && w.time == s.time && !w.over && Books(w, arr, s.time, |arr|, s.time + 1)
    ensures var s' := Next(s, arr);
            && s'.time == (if s'.over then s.time else s.time + 1)
            && (!s'.over ==> Between(s', arr))
  {
    hide Worked, Ended, WorkLeft, Delay, Stopped;
    WorkedKeeps(s, arr);
    StepKeeps(s, arr);
  }

  lemma StepBusily(s: Sim, arr: seq<nat>, b: seq<int>)
    requires Between(s, arr) && Single(arr, b) && |arr| == |b| && Busily(s, arr, b)
    ensures var s' := Next(s, arr);
            && s'.time == (if s'.over then s.time else s.time + 1)
            && (s'.over <==> Gap(arr, b, s.time))
            && (s'.over ==> EndOfLast(s'))
            && (!s'.over ==> Between(s', arr) && Busily(s', arr, b))
  {
    hide WorkBy, Earliest, Worked, Ended, WorkLeft, Delay, Books, Backlog, Gap, CpuOnly, Stopped, Busily, EndOfLast,
         Shape, Between, Next, Live;
    NextIs(s, arr);
    WorkedBusily(s, arr, b);
    EndedBusily(Worked(s, arr), arr, b);
  }

  lemma FinishNext(s: Sim, arr: seq<nat>)
    requires Between(s, arr)
    ensures var s' := Next(s, arr); Finish(s, arr) == if s'.over then s' else Finish(s', arr)
  {
    hide Books, WorkLeft, Delay, Next, Stopped;
  }

  lemma NextLess(s: Sim, arr: seq<nat>)
    requires Between(s, arr) && !Next(s, arr).over
    ensures var s' := Next(s, arr);
            0 <= WorkLeft(s') <= WorkLeft(s) && (WorkLeft(s') == WorkLeft(s) ==> Delay(s', arr) < Delay(s, arr))
  {
    hide Books, WorkLeft, Delay, Stopped;
  }

  lemma {:induction false} FinishBusily(s: Sim, arr: seq<nat>, b: seq<int>)
    requires Between(s, arr) && Single(arr, b) && |arr| == |b| && Busily(s, arr, b)
    ensures var f := Finish(s, arr);
            && EndOfLast(f) && Gap(arr, b, f.time)
            && forall t: nat :: s.time <= t < f.time ==> !Gap(arr, b, t)
    decreases WorkLeft(s), Delay(s, arr)
  {
    hide Books, Busily, Gap, WorkLeft, Delay, Between, EndOfLast, Next, Stopped, Single, Finish;
    StepBusily(s, arr, b);
    FinishNext(s, arr);
    var s' := Next(s, arr);
    if !s'.over {
      NextLess(s, arr);
      FinishBusily(s', arr, b);
    }
  }

  lemma StartBusily(arr: seq<nat>, b: seq<int>)
    requires Single(arr, b)
    ensures Proper(arr, Alone(b)) && Between(Start(arr, Alone(b)), arr) && Busily(Start(arr, Alone(b)), arr, b)
  {
    StartBetween(arr, Alone(b));
  }

  lemma {:induction false} LatestAt(arr: seq<nat>) returns (p: nat)
    requires arr != []
    ensures p < |arr| && arr[p] == Latest(arr)
  {
    if |arr| == 1 || arr[0] > Latest(arr[1..]) {
      p := 0;
    } else {
      p := LatestAt(arr[1..]);
      p := p + 1;
    }
  }

  // Exactly the processes that have come by the end are finished.
  lemma FinishedHaveCome(arr: seq<nat>, b: seq<int>, p: nat)
    requires Single(arr, b) && p < |arr|
    ensures Started(Start(arr, Alone(b)), arr)
    ensures var f := Finish(Start(arr, Alone(b)), arr);
            p < |f.turnaround| && (f.turnaround[p] != 0 <==> arr[p] <= f.time)
  {
    StartBusily(arr, b);
    var s := Start(arr, Alone(b));
    FinishBusily(s, arr, b);
    LoopResult(arr, Alone(b), p);
    var f := Finish(s, arr);
    hide Finish, Busily, Gap, Start, Single, Books, Between;
    if arr[p] > f.time { NotCome(f, arr, p); }
  }

  lemma NotCome(f: Sim, arr: seq<nat>, p: nat)
    requires Stopped(f, arr) && p < |arr| && arr[p] > f.time
    ensures f.turnaround[p] == 0
  {
    assert Fine(Released(f), arr, f.time, |arr|, f.time + 1, p);
  }

  /** With one processor burst each, every process is finished if and only if the
      work never runs out before the last arrival. */
  lemma AllFinishedIffNoGap(arr: seq<nat>, b: seq<int>)
    requires Single(arr, b)
    ensures Started(Start(arr, Alone(b)), arr)
    ensures (forall p :: 0 <= p < |arr| ==> Finish(Start(arr, Alone(b)), arr).turnaround[p] != 0)
       <==> forall t: nat :: t < Latest(arr) ==> !Gap(arr, b, t)
  {
    StartBusily(arr, b);
    FinishBusily(Start(arr, Alone(b)), arr, b);
    var f := Finish(Start(arr, Alone(b)), arr);
    forall p | 0 <= p < |arr| ensures f.turnaround[p] != 0 <==> arr[p] <= f.time { FinishedHaveCome(arr, b, p); }
    forall p | 0 <= p < |arr| ensures arr[p] <= Latest(arr) { LatestIs(arr, p); }
    hide Finish, Busily, Gap, Latest;
    var q := LatestAt(arr);
  }

  // The second of two processes comes after the first is done: it never runs.
  lemma LateProcessIsLost()
    ensures var arr: seq<nat> := [0, 5];
            && Started(Start(arr, Alone([1, 1])), arr)
            && exists p :: 0 <= p < 2 && Finish(Start(arr, Alone([1, 1])), arr).turnaround[p] == 0
  {
    var arr: seq<nat> := [0, 5];
    var b := [1, 1];
    assert Single(arr, b);
    AllFinishedIffNoGap(arr, b);
    assert arr[1..] == [5] && b[1..] == [1];
    assert Latest([5]) == 5 && Latest(arr) == 5;
    assert Earliest(arr) == 0;
    assert WorkBy([5], [1], 0) == 0;
    assert Gap(arr, b, 0);
  }
}
