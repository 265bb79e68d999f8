/** When every process is there at tick 0 with one processor burst: the simulation
    finishes them all, and no order of service has a smaller sum of waiting times. */
module SjfBest {
  import opened SjfSpec
  import opened SjfRun
  import opened SjfOrder

  ghost predicate AllAtZero(arr: seq<nat>) {
    forall p :: 0 <= p < |arr| ==> arr[p] == 0
  }

  function Bursts(q: seq<Job>): (b: seq<int>)
    ensures |b| == |q|
  {
    seq(|q|, (i: nat) => if i < |q| then q[i].burst else 0)
  }

  // Nobody in the ready queue has had the processor.
  ghost predicate Fresh(s: Sim) {
    forall i :: 0 <= i < |s.ready| ==> s.ready[i].pid < |s.used| && s.used[s.ready[i].pid] == 0
  }

  /** The sum of all waiting times in the end: those reported, that of the process on
      the processor, and those that follow from serving the queue in its order. */
  function Outlook(s: Sim, now: nat): int
    requires s.cpu.Busy? ==> s.cpu.pid < |s.used|
  {
    Sum(s.waits) + if s.cpu.Busy? then now + s.cpu.left - s.used[s.cpu.pid] + Cost(Bursts(s.ready), now + s.cpu.left)
                   else Cost(Bursts(s.ready), now)
  }

  lemma {:induction false} SumUpdate(w: seq<int>, p: nat, x: int)
    requires p < |w|
    ensures Sum(w[p := x]) == Sum(w) - w[p] + x
  {
    if p == 0 {
      assert w[p := x][1..] == w[1..];
    } else {
      SumUpdate(w[1..], p - 1, x);
      assert w[p := x][1..] == w[1..][p - 1 := x];
    }
  }

  lemma {:induction false} NoEntries(q: seq<Job>, p: nat, i: nat)
    requires Entries(q, p) == 0 && i < |q|
    ensures q[i].pid != p
  {
    if i > 0 { NoEntries(q[1..], p, i - 1); }
  }

  // The first of the queue goes to the processor.
  lemma StartOutlook(s: Sim, arr: seq<nat>)
    requires Books(s, arr, s.time, |arr|, s.time) && Fresh(s) && s.io == Idle && s.ioq == []
    ensures var s' := StartIo(StartCpu(s, arr), arr);
            Shape(s, arr) && Outlook(s', s.time) == Outlook(s, s.time) && Fresh(s') && s'.io == Idle && s'.ioq == []
  {
    var s' := StartCpu(s, arr);
    if s.cpu.Idle? && s.ready != [] {
      var p := s.ready[0].pid;
      assert Fine(s, arr, s.time, |arr|, s.time, p);
      assert Entries(s.ready[1..], p) == 0;
      forall i | 0 <= i < |s'.ready| ensures s'.used[s'.ready[i].pid] == 0 {
        NoEntries(s.ready[1..], p, i);
        assert s'.ready[i] == s.ready[i + 1];
      }
      assert Bursts(s.ready)[1..] == Bursts(s'.ready);
      assert s.used[p] == 0;
    }
  }

  lemma WorkOutlook(s: Sim, arr: seq<nat>)
    requires Shape(s, arr) && Live(s) && Manned(s) && Fresh(s)
    ensures var w := Work(s, arr);
            Outlook(w, s.time + 1) == Outlook(s, s.time) && Fresh(w)
  {
    hide Sum, Queue, Entries;
  }

  // A process that ends is reported with the wait foreseen for it.
  lemma EndedOutlook(w: Sim, arr: seq<nat>)
    requires Books(w, arr, w.time, |arr|, w.time + 1) && AllAtZero(arr) && Fresh(w)
    requires !w.over && w.io == Idle && w.ioq == [] && (w.cpu.Busy? ==> w.bursts[w.cpu.pid] == [])
    ensures Shape(w, arr)
    ensures var s' := Ended(w, arr);
            && Fresh(s')
            && Outlook(w, w.time + 1) == if s'.over then Sum(s'.waits) else Outlook(s', s'.time)
  {
    BooksShape(w, arr);
    DeviceNat(w, arr);
    EndedAlone(w, arr);
    if w.cpu.Busy? && w.cpu.left == 0 {
      var p := w.cpu.pid;
      NotReported(w, arr, p);
      SumUpdate(w.waits, p, w.time + 1 - w.used[p]);
    }
    hide Ended, Books, Sum;
    assert Cost([], w.time + 1) == 0;
  }

  lemma NotReported(w: Sim, arr: seq<nat>, p: nat)
    requires Books(w, arr, w.time, |arr|, w.time + 1) && Holds(w.cpu, p)
    ensures p < |w.waits| && w.waits[p] == 0
  {
    assert Fine(w, arr, w.time, |arr|, w.time + 1, p);
  }

  lemma {:induction false} ArriveNone(s: Sim, arr: seq<nat>, k: nat)
    requires Shape(s, arr) && k <= |arr| && forall p :: 0 <= p < |arr| ==> arr[p] != s.time
    ensures Arrive(s, arr, k) == s
    decreases k
  {
    if k > 0 { ArriveNone(s, arr, k - 1); }
  }

  lemma StepOutlook(s: Sim, arr: seq<nat>, b: seq<int>)
    requires Between(s, arr) && AllAtZero(arr) && |arr| == |b| && CpuOnly(s, arr, b, 0)
    ensures Shape(s, arr) && forall p :: 0 <= p < |arr| && arr[p] == s.time ==> s.bursts[p] != []
    ensures var s1, s' := Arrive(s, arr, |arr|), Next(s, arr);
            Fresh(s1) ==>
              && Fresh(s') && s'.time == (if s'.over then s.time else s.time + 1)
              && (!s'.over ==> Between(s', arr) && CpuOnly(s', arr, b, 0))
              && Outlook(s1, s.time) == if s'.over then Sum(s'.waits) else Outlook(s', s'.time)
  {
    hide Worked, Ended, Books, CpuOnly, Between, Outlook, Shape, Live, Fresh, AllAtZero, Start, StartIo, StartCpu, Next, Arrive, Sum,
         Cost, Bursts, JobSum, Entries, Work;
    NextIs(s, arr);
    NotOver(s, arr);
    var s1, w := Arrive(s, arr, |arr|), Worked(s, arr);
    if Fresh(s1) {
      ArriveKeeps(s, arr, |arr|);
      LiveToo(s, s1);
      ArriveCpuOnly(s, arr, b, |arr|);
      NoIo(s1, arr, b);
      StartOutlook(s1, arr);
      StartWork(s1, arr);
      var s2 := StartIo(StartCpu(s1, arr), arr);
      WorkOutlook(s2, arr);
      WorkedIs(s, arr);
      TickCpuOnly(s1, arr, b);
      NoIo(w, arr, b);
      if w.cpu.Busy? { CpuHolder(w, arr, b); }
      EndedOutlook(w, arr);
      EndedAlone(w, arr);
      if !Next(s, arr).over { NextCpuOnly(w, Next(s, arr), arr, b); }
    }
  }

  lemma NotOver(s: Sim, arr: seq<nat>)
    requires Between(s, arr)
    ensures Books(s, arr, s.time, 0, s.time) && !s.over
  {
  }

  lemma LiveToo(s: Sim, s1: Sim)
    requires Live(s) && s1.cpu == s.cpu && s1.io == s.io
    ensures Live(s1)
  {
  }

  lemma WorkedIs(s: Sim, arr: seq<nat>)
    requires Shape(s, arr) && forall p :: 0 <= p < |arr| && arr[p] == s.time ==> s.bursts[p] != []
    ensures Worked(s, arr) == Work(StartIo(StartCpu(Arrive(s, arr, |arr|), arr), arr), arr)
  {
  }

  lemma {:induction false} FinishOutlook(s: Sim, arr: seq<nat>, b: seq<int>)
    requires Between(s, arr) && AllAtZero(arr) && |arr| == |b| && CpuOnly(s, arr, b, 0) && Fresh(s) && s.time > 0
    ensures Shape(s, arr) && Sum(Finish(s, arr).waits) == Outlook(s, s.time)
    decreases WorkLeft(s), Delay(s, arr)
  {
    NextIs(s, arr);
    ArriveNone(s, arr, |arr|);
    hide Books, CpuOnly, Between, Outlook, Shape, Live, Fresh, Arrive, Next, Finish, WorkLeft, Delay, Stopped;
    StepOutlook(s, arr, b);
    FinishNext(s, arr);
    var s' := Next(s, arr);
    if !s'.over {
      NextLess(s, arr);
      FinishOutlook(s', arr, b);
    }
  }

  // One enters, nothing else changes.
  lemma PushBursts(s: Sim, arr: seq<nat>, p: nat)
    requires Shape(s, arr) && p < |arr| && s.bursts[p] != []
    ensures var s' := Push(s, arr, p);
            && s'.used == s.used && s'.waits == s.waits && s'.cpu == s.cpu
            && multiset(Bursts(s'.ready)) == multiset(Bursts(s.ready)) + multiset{s.bursts[p][0]}
  {
    BurstsInsert(s.ready, Job(s.bursts[p][0], p));
    hide Insert, Queue, Bursts;
  }

  // The first tick: everyone enters.
  lemma {:induction false} AllArrive(s: Sim, arr: seq<nat>, b: seq<int>, k: nat)
    requires |arr| == |b| && Shape(s, arr) && s.time == 0 && AllAtZero(arr) && k <= |arr| && s.ready == []
    requires forall p :: 0 <= p < |arr| ==> s.bursts[p] == [b[p]]
    ensures var s1 := Arrive(s, arr, k);
            && s1.used == s.used && s1.waits == s.waits && s1.cpu == s.cpu
            && multiset(Bursts(s1.ready)) == multiset(b[..k])
    decreases k
  {
    if k == 0 {
      assert Bursts([]) == [];
    } else {
      AllArrive(s, arr, b, k - 1);
      hide Shape, Bursts, Push;
      PushBursts(Arrive(s, arr, k - 1), arr, k - 1);
      assert b[..k] == b[..k - 1] + [b[k - 1]];
    }
  }

  lemma {:induction false} BurstsInsert(q: seq<Job>, j: Job)
    ensures multiset(Bursts(Insert(q, j))) == multiset(Bursts(q)) + multiset{j.burst}
  {
    var r := Insert(q, j);
    if q != [] && !Leq(j, q[0]) {
      BurstsInsert(q[1..], j);
      assert Bursts(r) == [q[0].burst] + Bursts(Insert(q[1..], j));
      assert Bursts(q) == [q[0].burst] + Bursts(q[1..]);
    } else {
      assert Bursts(r) == [j.burst] + Bursts(q);
    }
  }

  lemma {:induction false} SumZero(w: seq<int>)
    requires forall i :: 0 <= i < |w| ==> w[i] == 0
    ensures Sum(w) == 0
  {
    if w != [] { SumZero(w[1..]); }
  }

  // What the first tick finds: all bursts, sorted, to be served from time 0 on.
  lemma FirstOutlook(arr: seq<nat>, b: seq<int>)
    requires Single(arr, b) && AllAtZero(arr)
    ensures var s := Start(arr, Alone(b));
            && Between(s, arr) && Shape(s, arr)
            && (forall p :: 0 <= p < |arr| && arr[p] == s.time ==> s.bursts[p] != [])
            && var s1 := Arrive(s, arr, |arr|);
            && Fresh(s1) && Outlook(s1, 0) == Cost(Bursts(s1.ready), 0)
            && multiset(Bursts(s1.ready)) == multiset(b)
            && forall i, k :: 0 <= i < k < |s1.ready| ==> Bursts(s1.ready)[i] <= Bursts(s1.ready)[k]
  {
    hide Between, Start, Shape, Books, Sum, Cost, Bursts, Fresh, Arrive;
    StartBusily(arr, b);
    var s := Start(arr, Alone(b));
    BetweenBooks(s, arr);
    StartIs(arr, b);
    AllArrive(s, arr, b, |arr|);
    SumZero(s.waits);
    assert b[..|b|] == b;
    ArriveKeeps(s, arr, |arr|);
    var s1 := Arrive(s, arr, |arr|);
    QueueSorted(s1, arr);
    NothingUsed(s1, arr);
  }

  lemma BetweenBooks(s: Sim, arr: seq<nat>)
    requires Between(s, arr)
    ensures Books(s, arr, s.time, 0, s.time) && Shape(s, arr)
  {
  }

  lemma StartIs(arr: seq<nat>, b: seq<int>)
    requires Single(arr, b)
    ensures var s := Start(arr, Alone(b));
            && s.time == 0 && s.ready == [] && s.cpu == Idle && s.bursts == Alone(b)
            && |s.used| == |arr| && (forall p :: 0 <= p < |arr| ==> s.used[p] == 0)
            && forall p :: 0 <= p < |s.waits| ==> s.waits[p] == 0
  {
  }

  lemma QueueSorted(s: Sim, arr: seq<nat>)
    requires Books(s, arr, 0, |arr|, 0)
    ensures forall i, k :: 0 <= i < k < |s.ready| ==> Bursts(s.ready)[i] <= Bursts(s.ready)[k]
  {
    hide Fine, Shape;
  }

  lemma NothingUsed(s: Sim, arr: seq<nat>)
    requires Books(s, arr, 0, |arr|, 0) && s.cpu == Idle && Sum(s.waits) == 0
    requires |s.used| == |arr| && forall p :: 0 <= p < |arr| ==> s.used[p] == 0
    ensures Fresh(s) && Outlook(s, 0) == Cost(Bursts(s.ready), 0)
  {
    hide Fine, Sorted, Cost;
  }

  /** For any order of service of the same bursts, with pauses or without, starting
      at starts, the waiting times the simulation reports add up to no more. */
  lemma ShortestFirstIsBest(arr: seq<nat>, b: seq<int>, order: seq<int>, starts: seq<int>)
    requires Single(arr, b) && AllAtZero(arr)
    requires multiset(order) == multiset(b) && Serves(order, starts, 0)
    ensures Started(Start(arr, Alone(b)), arr)
    ensures var f := Finish(Start(arr, Alone(b)), arr);
            && |f.turnaround| == |arr| && (forall p :: 0 <= p < |arr| ==> f.turnaround[p] != 0)
            && Sum(f.waits) <= Sum(starts)
  {
    hide Books, Between, Outlook, Shape, Fresh, Arrive, Next, Finish, Start, Gap, CpuOnly, Serves, AllAtZero, Sum;
    var s := Start(arr, Alone(b));
    FirstOutlook(arr, b);
    StartBusily(arr, b);
    AllFinish(arr, b);
    BusilyCpuOnly(s, arr, b);
    StepOutlook(s, arr, b);
    FinishNext(s, arr);
    var s', q := Next(s, arr), Arrive(s, arr, |arr|).ready;
    if !s'.over { FinishOutlook(s', arr, b); }
    SortedIsLeast(Bursts(q), order, 0);
    PausesCost(order, starts, 0);
  }

  lemma BusilyCpuOnly(s: Sim, arr: seq<nat>, b: seq<int>)
    requires |arr| == |b| && arr != [] && s == Start(arr, Alone(b))
    ensures CpuOnly(s, arr, b, 0) && s.time == 0
  {
  }

  lemma AllFinish(arr: seq<nat>, b: seq<int>)
    requires Single(arr, b) && AllAtZero(arr)
    ensures Started(Start(arr, Alone(b)), arr)
    ensures var f := Finish(Start(arr, Alone(b)), arr);
            |f.turnaround| == |arr| && forall p :: 0 <= p < |arr| ==> f.turnaround[p] != 0
  {
    StartBusily(arr, b);
    hide Finish, Single, Start, Books, Gap;
    forall p | 0 <= p < |arr|
      ensures var f := Finish(Start(arr, Alone(b)), arr); p < |f.turnaround| == |arr| && f.turnaround[p] != 0
    {
      FinishedHaveCome(arr, b, p);
      LoopResult(arr, Alone(b), p);
    }
  }
}
