/** Runs of the shortest-job-first simulation: every tick keeps the books, the
    loop ends, and what is true when it does. */
module SjfRun {
  import opened SjfSpec

  /** --- The work still to be done --- */

  function Sum(b: seq<int>): int {
    if b == [] then 0 else b[0] + Sum(b[1..])
  }

  function SumAll(b: seq<seq<int>>): int {
    if b == [] then 0 else Sum(b[0]) + SumAll(b[1..])
  }

  function JobSum(q: seq<Job>): int {
    if q == [] then 0 else q[0].burst + JobSum(q[1..])
  }

  function DeviceSum(d: Device): int {
    if d.Busy? then d.left else 0
  }

  function WorkLeft(s: Sim): int {
    SumAll(s.bursts) + JobSum(s.ready) + JobSum(s.ioq) + DeviceSum(s.cpu) + DeviceSum(s.io)
  }

  lemma {:induction false} SumAllUpdate(b: seq<seq<int>>, p: nat)
    requires p < |b| && b[p] != []
    ensures SumAll(b[p := b[p][1..]]) == SumAll(b) - b[p][0]
  {
    var b' := b[p := b[p][1..]];
    if p == 0 {
      assert b'[1..] == b[1..];
    } else {
      SumAllUpdate(b[1..], p - 1);
      assert b'[1..] == b[1..][p - 1 := b[1..][p - 1][1..]];
    }
  }

  lemma {:induction false} JobSumInsert(q: seq<Job>, j: Job)
    ensures JobSum(Insert(q, j)) == JobSum(q) + j.burst
  {
    if q != [] && !Leq(j, q[0]) {
      JobSumInsert(q[1..], j);
      assert Insert(q, j)[1..] == Insert(q[1..], j);
    } else {
      assert ([j] + q)[1..] == q;
    }
  }

  lemma {:induction false} JobSumAppend(q: seq<Job>, j: Job)
    ensures JobSum(q + [j]) == JobSum(q) + j.burst
  {
    if q == [] {
      assert [j][1..] == [];
    } else {
      JobSumAppend(q[1..], j);
      assert (q + [j])[1..] == q[1..] + [j];
    }
  }

  lemma PushWork(s: Sim, arr: seq<nat>, p: nat)
    requires Shape(s, arr) && p < |arr| && s.bursts[p] != []
    ensures WorkLeft(Push(s, arr, p)) == WorkLeft(s)
  {
    SumAllUpdate(s.bursts, p);
    JobSumInsert(s.ready, Job(s.bursts[p][0], p));
    hide SumAll, JobSum, Insert, Queue;
  }

  lemma SendWork(s: Sim, arr: seq<nat>, p: nat)
    requires Shape(s, arr) && p < |arr| && s.bursts[p] != []
    ensures WorkLeft(Send(s, arr, p)) == WorkLeft(s)
  {
    SumAllUpdate(s.bursts, p);
    JobSumAppend(s.ioq, Job(s.bursts[p][0], p));
    hide SumAll, JobSum, Queue;
  }

  lemma {:induction false} ArriveWork(s: Sim, arr: seq<nat>, k: nat)
    requires Shape(s, arr) && k <= |arr|
    requires forall p :: 0 <= p < |arr| && arr[p] == s.time ==> s.bursts[p] != []
    ensures WorkLeft(Arrive(s, arr, k)) == WorkLeft(s) && Arrive(s, arr, k).turnaround == s.turnaround
    decreases k
  {
    if k > 0 {
      ArriveWork(s, arr, k - 1);
      if arr[k - 1] == s.time { PushWork(Arrive(s, arr, k - 1), arr, k - 1); }
    }
  }

  // After the devices have been given work, neither is idle while its queue is not.
  predicate Manned(s: Sim) {
    (s.cpu.Idle? ==> s.ready == []) && (s.io.Idle? ==> s.ioq == [])
  }

  lemma StartWork(s: Sim, arr: seq<nat>)
    requires Shape(s, arr) && Live(s)
    ensures var s' := StartIo(StartCpu(s, arr), arr);
            && WorkLeft(s') == WorkLeft(s) && s'.turnaround == s.turnaround && s'.time == s.time && s'.over == s.over
            && Manned(s') && Live(s')
  {
    hide SumAll;
  }

  lemma TickWork(s: Sim, arr: seq<nat>)
    requires Shape(s, arr) && Live(s)
    ensures var s' := Work(s, arr);
            && s'.turnaround == s.turnaround && s'.time == s.time && s'.over == s.over
            && s'.cpu.Idle? == s.cpu.Idle? && s'.io.Idle? == s.io.Idle?
            && WorkLeft(s') == WorkLeft(s) - (if s.cpu.Busy? then 1 else 0) - (if s.io.Busy? then 1 else 0)
  {
    hide SumAll, JobSum, Entries, Queue;
  }

  lemma EndIoWork(s: Sim, arr: seq<nat>)
    requires Shape(s, arr)
    ensures WorkLeft(EndIo(s, arr)) == WorkLeft(s)
  {
    if s.io.Busy? && s.io.left == 0 && s.bursts[s.io.pid] != [] { PushWork(s, arr, s.io.pid); }
    hide Push, SumAll, JobSum, Queue;
  }

  lemma EndCpuWork(s: Sim, arr: seq<nat>)
    requires Shape(s, arr)
    ensures WorkLeft(EndCpu(s, arr)) == WorkLeft(s)
  {
    if s.cpu.Busy? && s.cpu.left == 0 && s.bursts[s.cpu.pid] != [] { SendWork(s, arr, s.cpu.pid); }
    hide Send, SumAll, JobSum, Queue;
  }

  lemma {:induction false} WorkNat(s: Sim, arr: seq<nat>)
    requires Shape(s, arr)
    ensures WorkLeft(s) >= 0
  {
    SumAllNat(s.bursts);
    JobSumNat(s.ready, |arr|);
    JobSumNat(s.ioq, |arr|);
  }

  lemma {:induction false} SumNat(b: seq<int>)
    requires forall i :: 0 <= i < |b| ==> b[i] >= 1
    ensures Sum(b) >= |b|
  {
    if b != [] { SumNat(b[1..]); }
  }

  lemma {:induction false} SumAllNat(b: seq<seq<int>>)
    requires forall p, i :: 0 <= p < |b| && 0 <= i < |b[p]| ==> b[p][i] >= 1
    ensures SumAll(b) >= 0
  {
    if b != [] {
      SumNat(b[0]);
      forall p, i | 0 <= p < |b[1..]| && 0 <= i < |b[1..][p]| ensures b[1..][p][i] >= 1 {
        assert b[p + 1][i] >= 1;
      }
      SumAllNat(b[1..]);
    }
  }

  lemma {:induction false} JobSumNat(q: seq<Job>, n: nat)
    requires Queue(q, n)
    ensures JobSum(q) >= |q|
  {
    if q != [] { JobSumNat(q[1..], n); }
  }

  /** --- A tick --- */

  ghost predicate Unfinished(s: Sim) {
    exists p :: 0 <= p < |s.turnaround| && s.turnaround[p] == 0
  }

  // Before a tick: the books are right and there is something left to do.
  ghost predicate Between(s: Sim, arr: seq<nat>) {
    Books(s, arr, s.time, 0, s.time) && Live(s) && !s.over && Unfinished(s)
  }

  // When the loop has been left: the books are right but that a device may still
  // hold the process whose end was the reason.
  ghost predicate Stopped(s: Sim, arr: seq<nat>) {
    s.over && s.ready == [] && s.ioq == [] && Shape(s, arr) && Books(Released(s), arr, s.time, |arr|, s.time + 1)
  }

  lemma QueuedUnfinished(s: Sim, arr: seq<nat>, lim: nat, k: nat, now: nat)
    requires Books(s, arr, lim, k, now) && (s.ready != [] || s.ioq != [])
    ensures Unfinished(s)
  {
    var p := if s.ready != [] then s.ready[0].pid else s.ioq[0].pid;
    assert Fine(s, arr, lim, k, now, p);
    assert Places(s, p) >= 1;
  }

  lemma NextTick(s: Sim, arr: seq<nat>)
    requires Books(s, arr, s.time, |arr|, s.time + 1) && !s.over && Unfinished(s) && Live(s)
    ensures Between(s.(time := s.time + 1), arr) && WorkLeft(s.(time := s.time + 1)) == WorkLeft(s)
  {
    var s', now := s.(time := s.time + 1), s.time + 1;
    hide Fair, Entries, Sorted, SumAll, JobSum;
    assert s'.turnaround == s.turnaround;
    forall p | 0 <= p < |arr| ensures Fine(s', arr, now, 0, now, p) {
      assert Fine(s, arr, s.time, |arr|, now, p);
      assert View(s', arr, p) == View(s, arr, p);
    }
  }

  lemma EndIoStep(s: Sim, arr: seq<nat>)
    requires Books(s, arr, s.time, |arr|, s.time + 1) && !s.over && Unfinished(s)
    ensures var s' := EndIo(s, arr);
            && (s'.over ==> Stopped(s', arr))
            && (!s'.over ==> Books(s', arr, s.time, |arr|, s.time + 1) && Unfinished(s') && (s'.io.Busy? ==> s'.io.left >= 1))
            && s'.time == s.time
  {
    EndIoKeeps(s, arr, |arr|);
    var s' := EndIo(s, arr);
    hide Books, Insert, Queue;
    if !s'.over {
      if s'.ready != [] || s'.ioq != [] {
        QueuedUnfinished(s', arr, s.time, |arr|, s.time + 1);
      } else {
        assert s'.turnaround == s.turnaround;
      }
    }
  }

  lemma EndCpuStep(s: Sim, arr: seq<nat>)
    requires Books(s, arr, s.time, |arr|, s.time + 1) && !s.over && Unfinished(s) && (s.io.Busy? ==> s.io.left >= 1)
    ensures var s' := EndCpu(s, arr);
            && (s'.over ==> Stopped(s', arr))
            && (!s'.over ==> Books(s', arr, s.time, |arr|, s.time + 1) && Unfinished(s') && Live(s'))
            && s'.time == s.time
  {
    EndCpuKeeps(s, arr, |arr|);
    var s' := EndCpu(s, arr);
    hide Books, Queue;
    if !s'.over {
      if s'.ready != [] || s'.ioq != [] {
        QueuedUnfinished(s', arr, s.time, |arr|, s.time + 1);
      } else {
        assert s'.turnaround == s.turnaround;
      }
    }
  }

  lemma WorkedKeeps(s: Sim, arr: seq<nat>)
    requires Between(s, arr)
    ensures forall p :: 0 <= p < |arr| && arr[p] == s.time ==> s.bursts[p] != []
    ensures var s' := Worked(s, arr);
            && Books(s', arr, s.time, |arr|, s.time + 1) && s'.turnaround == s.turnaround && s'.time == s.time && !s'.over
            && WorkLeft(s') <= WorkLeft(s)
            && (WorkLeft(s') == WorkLeft(s) ==>
                  s'.cpu.Idle? && s'.io.Idle? && exists p :: 0 <= p < |arr| && arr[p] > s.time)
  {
    ArriveKeeps(s, arr, |arr|);
    hide Books;
    var s1 := Arrive(s, arr, |arr|);
    ArriveWork(s, arr, |arr|);
    StartCpuKeeps(s1, arr, |arr|);
    StartIoKeeps(StartCpu(s1, arr), arr, |arr|);
    StartWork(s1, arr);
    var s2 := StartIo(StartCpu(s1, arr), arr);
    WorkKeeps(s2, arr, |arr|);
    TickWork(s2, arr);
    if s2.cpu.Idle? && s2.io.Idle? {
      SomebodyToCome(s2, arr);
    }
  }

  // Nobody is anywhere, but somebody is not finished.
  lemma SomebodyToCome(s: Sim, arr: seq<nat>)
    requires Books(s, arr, s.time, |arr|, s.time) && Unfinished(s)
    requires s.cpu.Idle? && s.io.Idle? && s.ready == [] && s.ioq == []
    ensures exists p :: 0 <= p < |arr| && arr[p] > s.time
  {
    var p :| 0 <= p < |s.turnaround| && s.turnaround[p] == 0;
    assert Fine(s, arr, s.time, |arr|, s.time, p);
    assert Places(s, p) == 0;
  }

  function Latest(arr: seq<nat>): nat {
    if arr == [] then 0 else if arr[0] > Latest(arr[1..]) then arr[0] else Latest(arr[1..])
  }

  lemma {:induction false} LatestIs(arr: seq<nat>, p: nat)
    requires p < |arr|
    ensures arr[p] <= Latest(arr)
  {
    if p > 0 { LatestIs(arr[1..], p - 1); }
  }

  function Delay(s: Sim, arr: seq<nat>): nat {
    if s.time <= Latest(arr) then Latest(arr) - s.time + 1 else 0
  }

  lemma EndedKeeps(w: Sim, arr: seq<nat>)
    requires Books(w, arr, w.time, |arr|, w.time + 1) && !w.over && Unfinished(w)
    ensures var s' := Ended(w, arr);
            && (if s'.over then Stopped(s', arr) && s'.time == w.time else Between(s', arr) && s'.time == w.time + 1)
            && WorkLeft(s') == WorkLeft(w)
  {
    assert Shape(w, arr);
    hide Books, EndIo, EndCpu, WorkLeft, Unfinished, Live, Stopped, Shape, Between;
    EndIoStep(w, arr);
    EndIoWork(w, arr);
    var s1 := EndIo(w, arr);
    if !s1.over {
      EndCpuStep(s1, arr);
      EndCpuWork(s1, arr);
      var s2 := EndCpu(s1, arr);
      if !s2.over { NextTick(s2, arr); }
    }
  }

  lemma StepKeeps(s: Sim, arr: seq<nat>)
    requires Between(s, arr)
    ensures forall p :: 0 <= p < |arr| && arr[p] == s.time ==> s.bursts[p] != []
    ensures var s' := Step(s, arr);
            && (if s'.over then Stopped(s', arr) && s'.time == s.time else Between(s', arr) && s'.time == s.time + 1)
            && 0 <= WorkLeft(s') <= WorkLeft(s)
            && (!s'.over && WorkLeft(s') == WorkLeft(s) ==> Delay(s', arr) < Delay(s, arr))
  {
    WorkedKeeps(s, arr);
    var w := Worked(s, arr);
    SameUnfinished(s, w);
    hide Books, Worked, Ended, WorkLeft, Unfinished, Stopped, Shape, Between, Delay;
    EndedKeeps(w, arr);
    var s' := Ended(w, arr);
    WorkNat(s', arr);
    if !s'.over && WorkLeft(w) == WorkLeft(s) { LessDelay(s, s', arr); }
  }

  lemma SameUnfinished(s: Sim, s': Sim)
    requires s'.turnaround == s.turnaround
    ensures Unfinished(s') == Unfinished(s)
  {
  }

  lemma LessDelay(s: Sim, s': Sim, arr: seq<nat>)
    requires s'.time == s.time + 1 && exists p :: 0 <= p < |arr| && arr[p] > s.time
    ensures Delay(s', arr) < Delay(s, arr)
  {
    var p :| 0 <= p < |arr| && arr[p] > s.time;
    LatestIs(arr, p);
  }

  /** --- The loop --- */

  ghost predicate Started(s: Sim, arr: seq<nat>) {
    Between(s, arr) || Stopped(s, arr)
  }

  ghost function Next(s: Sim, arr: seq<nat>): (s': Sim)
    requires Between(s, arr)
    ensures Started(s', arr) && Shape(s', arr)
    ensures 0 <= WorkLeft(s') <= WorkLeft(s)
    ensures !s'.over && WorkLeft(s') == WorkLeft(s) ==> Delay(s', arr) < Delay(s, arr)
  {
    StepKeeps(s, arr);
    Step(s, arr)
  }

  // The state in which the loop is left; that there is one is its termination.
  ghost function Finish(s: Sim, arr: seq<nat>): (s': Sim)
    requires Started(s, arr)
    ensures Stopped(s', arr)
    decreases if s.over then 0 else 1, WorkLeft(s), Delay(s, arr)
  {
    if s.over then s else Finish(Next(s, arr), arr)
  }

  ghost function Start(arr: seq<nat>, bursts: seq<seq<int>>): (s: Sim)
    requires |bursts| == |arr|
  {
    var zero := seq(|arr|, i => 0);
    Sim(0, [], [], Idle, Idle, bursts, zero, seq(|arr|, i => -1), zero, zero, zero, false)
  }

  // Input the program is made for: processes with bursts of at least one tick.
  ghost predicate Proper(arr: seq<nat>, bursts: seq<seq<int>>) {
    && |bursts| == |arr| > 0
    && forall p :: 0 <= p < |arr| ==> bursts[p] != [] && forall i :: 0 <= i < |bursts[p]| ==> bursts[p][i] >= 1
  }

  lemma StartBetween(arr: seq<nat>, bursts: seq<seq<int>>)
    requires Proper(arr, bursts)
    ensures Between(Start(arr, bursts), arr)
  {
    var s := Start(arr, bursts);
    assert s.turnaround[0] == 0;
    forall p | 0 <= p < |arr| ensures Fine(s, arr, 0, 0, 0, p) { }
  }

  /** --- No burst is lost --- */

  // The bursts of p in a queue.
  function Owed(q: seq<Job>, p: nat): int {
    if q == [] then 0 else Owed(q[1..], p) + if q[0].pid == p then q[0].burst else 0
  }

  lemma {:induction false} OwedInsert(q: seq<Job>, j: Job, p: nat)
    ensures Owed(Insert(q, j), p) == Owed(q, p) + if j.pid == p then j.burst else 0
  {
    if q != [] && !Leq(j, q[0]) {
      OwedInsert(q[1..], j, p);
      assert Insert(q, j)[1..] == Insert(q[1..], j);
    } else {
      assert ([j] + q)[1..] == q;
    }
  }

  lemma {:induction false} OwedAppend(q: seq<Job>, j: Job, p: nat)
    ensures Owed(q + [j], p) == Owed(q, p) + if j.pid == p then j.burst else 0
  {
    if q == [] {
      assert [j][1..] == [];
    } else {
      OwedAppend(q[1..], j, p);
      assert (q + [j])[1..] == q[1..] + [j];
    }
  }

  // What p has been given and what it is still to be given.
  function Due(s: Sim, p: nat): int
    requires p < |s.used| && p < |s.bursts|
  {
    s.used[p] + Sum(s.bursts[p]) + Owed(s.ready, p) + Owed(s.ioq, p)
  }

  lemma PushDue(s: Sim, arr: seq<nat>, p0: nat, p: nat)
    requires Shape(s, arr) && p0 < |arr| && s.bursts[p0] != [] && p < |arr|
    ensures Due(Push(s, arr, p0), p) == Due(s, p)
  {
    OwedInsert(s.ready, Job(s.bursts[p0][0], p0), p);
    hide Insert, Owed, Queue;
  }

  lemma SendDue(s: Sim, arr: seq<nat>, p0: nat, p: nat)
    requires Shape(s, arr) && p0 < |arr| && s.bursts[p0] != [] && p < |arr|
    ensures Due(Send(s, arr, p0), p) == Due(s, p)
  {
    OwedAppend(s.ioq, Job(s.bursts[p0][0], p0), p);
    hide Owed, Queue;
  }

  lemma {:induction false} ArriveDue(s: Sim, arr: seq<nat>, k: nat, p: nat)
    requires Shape(s, arr) && k <= |arr| && p < |arr|
    requires forall p :: 0 <= p < |arr| && arr[p] == s.time ==> s.bursts[p] != []
    ensures Due(Arrive(s, arr, k), p) == Due(s, p)
    decreases k
  {
    if k > 0 {
      ArriveDue(s, arr, k - 1, p);
      if arr[k - 1] == s.time { PushDue(Arrive(s, arr, k - 1), arr, k - 1, p); }
    }
  }

  lemma StartDue(s: Sim, arr: seq<nat>, p: nat)
    requires Shape(s, arr) && p < |arr|
    ensures Due(StartCpu(s, arr), p) == Due(StartIo(s, arr), p) == Due(Work(s, arr), p) == Due(s, p)
  {
  }

  lemma EndIoDue(s: Sim, arr: seq<nat>, p: nat)
    requires Shape(s, arr) && p < |arr|
    ensures Due(EndIo(s, arr), p) == Due(s, p)
  {
    if s.io.Busy? && s.io.left == 0 && s.bursts[s.io.pid] != [] { PushDue(s, arr, s.io.pid, p); }
    hide Push, Owed, Sum, Queue;
  }

  lemma EndCpuDue(s: Sim, arr: seq<nat>, p: nat)
    requires Shape(s, arr) && p < |arr|
    ensures Due(EndCpu(s, arr), p) == Due(s, p)
  {
    if s.cpu.Busy? && s.cpu.left == 0 && s.bursts[s.cpu.pid] != [] { SendDue(s, arr, s.cpu.pid, p); }
    hide Send, Owed, Sum, Queue;
  }

  lemma StepDue(s: Sim, arr: seq<nat>, p: nat)
    requires Shape(s, arr) && p < |arr|
    requires forall p :: 0 <= p < |arr| && arr[p] == s.time ==> s.bursts[p] != []
    ensures Due(Step(s, arr), p) == Due(s, p)
  {
    WorkedDue(s, arr, p);
    var w := Worked(s, arr);
    EndIoDue(w, arr, p);
    EndCpuDue(EndIo(w, arr), arr, p);
    hide Worked, EndIo, EndCpu, Shape, Owed, Sum;
  }

  lemma WorkedDue(s: Sim, arr: seq<nat>, p: nat)
    requires Shape(s, arr) && p < |arr|
    requires forall p :: 0 <= p < |arr| && arr[p] == s.time ==> s.bursts[p] != []
    ensures Due(Worked(s, arr), p) == Due(s, p)
  {
    var s1 := Arrive(s, arr, |arr|);
    ArriveDue(s, arr, |arr|, p);
    StartDue(s1, arr, p);
    var s2 := StartCpu(s1, arr);
    StartDue(s2, arr, p);
    var s3 := StartIo(s2, arr);
    StartDue(s3, arr, p);
  }

  lemma {:induction false} FinishDue(s: Sim, arr: seq<nat>, p: nat)
    requires Started(s, arr) && p < |arr| && Shape(s, arr)
    ensures var f := Finish(s, arr); p < |f.used| && p < |f.bursts| && Due(f, p) == Due(s, p)
    decreases if s.over then 0 else 1, WorkLeft(s), Delay(s, arr)
  {
    if !s.over {
      StepKeeps(s, arr);
      StepDue(s, arr, p);
      hide Step, Books, Due, WorkLeft, Delay;
      FinishDue(Next(s, arr), arr, p);
    }
  }

  /** --- When the loop has been left --- */

  // A finished process got exactly its bursts, and the waiting time reported for
  // it is the time it was queued; the others are those that have not come and
  // those on a device other than the one whose burst was just over.
  lemma LoopResult(arr: seq<nat>, bursts: seq<seq<int>>, p: nat)
    requires Proper(arr, bursts) && p < |arr|
    ensures Started(Start(arr, bursts), arr)
    ensures var f := Finish(Start(arr, bursts), arr);
            && f.over && f.ready == [] && f.ioq == [] && Shape(f, arr)
            && (f.turnaround[p] != 0 ==>
                  && f.used[p] == Sum(bursts[p]) && f.waits[p] == f.queued[p]
                  && f.turnaround[p] == f.waits[p] + f.used[p] && 0 <= f.response[p] <= f.waits[p])
            && (f.turnaround[p] == 0 <==>
                  arr[p] > f.time || Holds(Released(f).cpu, p) || Holds(Released(f).io, p))
  {
    StartBetween(arr, bursts);
    var s := Start(arr, bursts);
    assert Due(s, p) == Sum(bursts[p]);
    SumNat(bursts[p]);
    FinishDue(s, arr, p);
    var f := Finish(s, arr);
    hide Finish, Books, Due, Sum, WorkLeft, Delay;
    StoppedMeans(f, arr, p);
  }

  lemma StoppedMeans(f: Sim, arr: seq<nat>, p: nat)
    requires Stopped(f, arr) && p < |arr|
    ensures f.turnaround[p] != 0 ==>
              && f.used[p] == Due(f, p) && f.waits[p] == f.queued[p]
              && f.turnaround[p] == f.waits[p] + f.used[p] && (f.used[p] > 0 ==> 0 <= f.response[p] <= f.waits[p])
    ensures f.turnaround[p] == 0 <==> arr[p] > f.time || Holds(Released(f).cpu, p) || Holds(Released(f).io, p)
  {
    assert Fine(Released(f), arr, f.time, |arr|, f.time + 1, p);
  }
}
