/** Shortest-job-first simulation of one processor and one I/O device, as a
    function on states, and the accounting every tick keeps. */
module SjfSpec {

  datatype Job = Job(burst: int, pid: nat)

  datatype Device = Idle | Busy(pid: nat, left: int)

  /** ready is the priority queue, in the order it gives its entries out. queued
      counts for each process the ticks it stayed in a queue; the program has no
      such counter. over: the loop has been left. */
  datatype Sim = Sim(
    time: nat, ready: seq<Job>, ioq: seq<Job>, cpu: Device, io: Device,
    bursts: seq<seq<int>>, used: seq<int>, response: seq<int>, turnaround: seq<int>, waits: seq<int>,
    queued: seq<int>, over: bool)

  /** --- The priority queue --- */

  predicate Leq(a: Job, b: Job) {
    a.burst < b.burst || (a.burst == b.burst && a.pid <= b.pid)
  }

  function Insert(q: seq<Job>, j: Job): (r: seq<Job>)
    ensures |r| == |q| + 1
  {
    if q == [] || Leq(j, q[0]) then [j] + q else [q[0]] + Insert(q[1..], j)
  }

  ghost predicate Sorted(q: seq<Job>) {
    forall i, k :: 0 <= i < k < |q| ==> Leq(q[i], q[k])
  }

  lemma {:induction false} InsertAdds(q: seq<Job>, j: Job)
    ensures multiset(Insert(q, j)) == multiset(q) + multiset{j}
  {
    if q != [] && !Leq(j, q[0]) {
      InsertAdds(q[1..], j);
      assert q == [q[0]] + q[1..];
    }
  }

  lemma {:induction false} InsertSorts(q: seq<Job>, j: Job)
    requires Sorted(q)
    ensures Sorted(Insert(q, j)) && multiset(Insert(q, j)) == multiset(q) + multiset{j}
  {
    InsertAdds(q, j);
    if q != [] && !Leq(j, q[0]) {
      var r := Insert(q[1..], j);
      InsertSorts(q[1..], j);
      forall k | 0 <= k < |r| ensures Leq(q[0], r[k]) {
        assert r[k] in multiset(r);
        assert r[k] == j || r[k] in q[1..];
      }
    }
  }

  // How often p is in a queue.
  function Entries(q: seq<Job>, p: nat): nat {
    if q == [] then 0 else Entries(q[1..], p) + if q[0].pid == p then 1 else 0
  }

  lemma {:induction false} EntriesInsert(q: seq<Job>, j: Job, p: nat)
    ensures Entries(Insert(q, j), p) == Entries(q, p) + if j.pid == p then 1 else 0
  {
    if q != [] && !Leq(j, q[0]) {
      EntriesInsert(q[1..], j, p);
      assert Insert(q, j)[1..] == Insert(q[1..], j);
    } else {
      assert ([j] + q)[1..] == q;
    }
  }

  lemma {:induction false} EntriesAppend(q: seq<Job>, j: Job, p: nat)
    ensures Entries(q + [j], p) == Entries(q, p) + if j.pid == p then 1 else 0
  {
    if q == [] {
      assert [j][1..] == [];
    } else {
      EntriesAppend(q[1..], j, p);
      assert (q + [j])[1..] == q[1..] + [j];
    }
  }

  /** --- One tick --- */

  ghost predicate Queue(q: seq<Job>, n: nat) {
    forall i :: 0 <= i < |q| ==> q[i].pid < n && q[i].burst >= 1
  }

  predicate Holds(d: Device, p: nat) {
    d.Busy? && d.pid == p
  }

  ghost predicate Shape(s: Sim, arr: seq<nat>) {
    && |s.bursts| == |s.used| == |s.response| == |s.turnaround| == |s.waits| == |s.queued| == |arr|
    && Queue(s.ready, |arr|) && Queue(s.ioq, |arr|)
    && (s.cpu.Busy? ==> s.cpu.pid < |arr| && s.cpu.left >= 0)
    && (s.io.Busy? ==> s.io.pid < |arr| && s.io.left >= 0)
    && (forall p, i :: 0 <= p < |arr| && 0 <= i < |s.bursts[p]| ==> s.bursts[p][i] >= 1)
  }

  // p's next burst is for the processor.
  ghost function Push(s: Sim, arr: seq<nat>, p: nat): (s': Sim)
    requires Shape(s, arr) && p < |arr| && s.bursts[p] != []
    ensures Shape(s', arr)
  {
    InsertQueue(s.ready, Job(s.bursts[p][0], p), |arr|);
    s.(ready := Insert(s.ready, Job(s.bursts[p][0], p)), bursts := s.bursts[p := s.bursts[p][1..]])
  }

  lemma {:induction false} InsertQueue(q: seq<Job>, j: Job, n: nat)
    requires Queue(q, n) && Queue([j], n)
    ensures Queue(Insert(q, j), n)
  {
    assert [j][0] == j;
    if q != [] && !Leq(j, q[0]) {
      InsertQueue(q[1..], j, n);
    }
  }

  // The processes up to pid k that arrive now enter the ready queue.
  ghost function Arrive(s: Sim, arr: seq<nat>, k: nat): (s': Sim)
    requires Shape(s, arr) && k <= |arr|
    requires forall p :: 0 <= p < |arr| && arr[p] == s.time ==> s.bursts[p] != []
    ensures Shape(s', arr) && s'.time == s.time
    ensures forall p :: k <= p < |arr| ==> s'.bursts[p] == s.bursts[p]
  {
    if k == 0 then s
    else
      var s1 := Arrive(s, arr, k - 1);
      if arr[k - 1] == s.time then Push(s1, arr, k - 1) else s1
  }

  ghost function StartCpu(s: Sim, arr: seq<nat>): (s': Sim)
    requires Shape(s, arr)
    ensures Shape(s', arr)
  {
    if s.cpu.Idle? && s.ready != [] then
      var j := s.ready[0];
      s.(cpu := Busy(j.pid, j.burst), ready := s.ready[1..], used := s.used[j.pid := s.used[j.pid] + j.burst],
         response := if s.response[j.pid] == -1 then s.response[j.pid := s.time - arr[j.pid]] else s.response)
    else s
  }

  ghost function StartIo(s: Sim, arr: seq<nat>): (s': Sim)
    requires Shape(s, arr)
    ensures Shape(s', arr)
  {
    if s.io.Idle? && s.ioq != [] then
      var j := s.ioq[0];
      s.(io := Busy(j.pid, j.burst), ioq := s.ioq[1..], used := s.used[j.pid := s.used[j.pid] + j.burst])
    else s
  }

  function Down(d: Device): Device {
    if d.Busy? && d.left >= 1 then d.(left := d.left - 1) else d
  }

  // Both devices work for one tick; whoever is in a queue waits for one.
  ghost function Work(s: Sim, arr: seq<nat>): (s': Sim)
    requires Shape(s, arr)
    ensures Shape(s', arr)
  {
    s.(cpu := Down(s.cpu), io := Down(s.io),
       queued := seq(|arr|, p requires 0 <= p < |arr| =>
         s.queued[p] + if Entries(s.ready, p) > 0 || Entries(s.ioq, p) > 0 then 1 else 0))
  }

  ghost function Complete(s: Sim, arr: seq<nat>, p: nat): (s': Sim)
    requires Shape(s, arr) && p < |arr|
    ensures Shape(s', arr)
  {
    var tr := s.time - arr[p] + 1;
    s.(turnaround := s.turnaround[p := tr], waits := s.waits[p := tr - s.used[p]])
  }

  // An I/O burst is over.
  ghost function EndIo(s: Sim, arr: seq<nat>): (s': Sim)
    requires Shape(s, arr)
    ensures Shape(s', arr)
  {
    if s.io.Busy? && s.io.left == 0 then
      var p := s.io.pid;
      var s1 := if s.bursts[p] != [] then Push(s, arr, p) else Complete(s, arr, p);
      if s1.ready == [] && s1.ioq == [] then s1.(over := true) else s1.(io := Idle)
    else s
  }

  // p's next burst is for the I/O device.
  ghost function Send(s: Sim, arr: seq<nat>, p: nat): (s': Sim)
    requires Shape(s, arr) && p < |arr| && s.bursts[p] != []
    ensures Shape(s', arr)
  {
    s.(ioq := s.ioq + [Job(s.bursts[p][0], p)], bursts := s.bursts[p := s.bursts[p][1..]])
  }

  // A processor burst is over; what follows is I/O.
  ghost function EndCpu(s: Sim, arr: seq<nat>): (s': Sim)
    requires Shape(s, arr)
    ensures Shape(s', arr)
  {
    if s.cpu.Busy? && s.cpu.left == 0 then
      var p := s.cpu.pid;
      var s1 := if s.bursts[p] != [] then Send(s, arr, p) else Complete(s, arr, p);
      if s1.ready == [] && s1.ioq == [] then s1.(over := true) else s1.(cpu := Idle)
    else s
  }

  // The first half of a turn of the loop: arrivals, and a tick of work.
  ghost function Worked(s: Sim, arr: seq<nat>): (s': Sim)
    requires Shape(s, arr)
    requires forall p :: 0 <= p < |arr| && arr[p] == s.time ==> s.bursts[p] != []
    ensures Shape(s', arr)
  {
    Work(StartIo(StartCpu(Arrive(s, arr, |arr|), arr), arr), arr)
  }

  // The second half: the bursts that are over.
  ghost function Ended(s: Sim, arr: seq<nat>): (s': Sim)
    requires Shape(s, arr)
    ensures Shape(s', arr)
  {
    var s1 := EndIo(s, arr);
    if s1.over then s1
    else
      var s2 := EndCpu(s1, arr);
      if s2.over then s2 else s2.(time := s2.time + 1)
  }

  ghost function Step(s: Sim, arr: seq<nat>): (s': Sim)
    requires Shape(s, arr)
    requires forall p :: 0 <= p < |arr| && arr[p] == s.time ==> s.bursts[p] != []
    ensures Shape(s', arr)
  {
    Ended(Worked(s, arr), arr)
  }

  /** --- Accounting --- */

  // In how many places p is.
  function Places(s: Sim, p: nat): nat {
    Entries(s.ready, p) + Entries(s.ioq, p) + (if Holds(s.cpu, p) then 1 else 0) + if Holds(s.io, p) then 1 else 0
  }

  function Left(d: Device, p: nat): int {
    if Holds(d, p) then d.left else 0
  }

  /** What the state says of one process: in how many places it is, the part of
      its current burst still to come, the program's counters, and whether it has
      had the processor (begun) and has bursts left (more). */
  datatype Account = Account(
    places: nat, left: int, used: int, response: int, turnaround: int, waits: int, queued: int, begun: bool, more: bool)

  ghost function View(s: Sim, arr: seq<nat>, p: nat): Account
    requires Shape(s, arr) && p < |arr|
  {
    Account(Places(s, p), Left(s.cpu, p) + Left(s.io, p), s.used[p], s.response[p], s.turnaround[p], s.waits[p],
            s.queued[p], Entries(s.ioq, p) > 0 || Holds(s.cpu, p), s.bursts[p] != [])
  }

  /** From its arrival to its end a process is in exactly one place, and its age is
      its service so far and the ticks it was queued. */
  ghost predicate Fair(a: Account, came: bool, age: int) {
    && a.places == (if came && a.turnaround == 0 then 1 else 0)
    && (came && a.turnaround == 0 ==> age == a.queued + a.used - a.left)
    && (a.turnaround != 0 ==>
          0 < a.turnaround <= age && came && !a.more && a.waits == a.queued && a.turnaround == a.waits + a.used)
    && (!came ==> a.turnaround == 0 && a.more && a.used == 0 && a.queued == 0 && a.response == -1)
    && (a.turnaround == 0 ==> a.waits == 0) && a.queued >= 0
    && (a.response == -1 ==> a.used == 0 && !a.begun)
    && (a.response == -1 || 0 <= a.response <= a.queued)
  }

  // p has arrived: before tick lim, or at lim and its pid is below k.
  predicate Came(arr: seq<nat>, lim: nat, k: nat, p: nat)
    requires p < |arr|
  {
    arr[p] < lim || (arr[p] == lim && p < k)
  }

  ghost predicate Fine(s: Sim, arr: seq<nat>, lim: nat, k: nat, now: nat, p: nat)
    requires Shape(s, arr) && p < |arr|
  {
    Fair(View(s, arr, p), Came(arr, lim, k, p), now - arr[p])
  }

  // The books are right, with now ticks accounted for.
  ghost predicate Books(s: Sim, arr: seq<nat>, lim: nat, k: nat, now: nat) {
    && Shape(s, arr) && Sorted(s.ready)
    && forall p :: 0 <= p < |arr| ==> Fine(s, arr, lim, k, now, p)
  }

  // Only p0's account changes.
  lemma OneAccount(s: Sim, s': Sim, arr: seq<nat>, lim: nat, k: nat, k': nat, now: nat, p0: nat)
    requires Books(s, arr, lim, k, now) && Shape(s', arr) && Sorted(s'.ready) && p0 < |arr|
    requires forall p :: 0 <= p < |arr| && p != p0 ==> View(s', arr, p) == View(s, arr, p)
    requires k' == k || (k' == k + 1 && p0 == k)
    requires Fine(s', arr, lim, k', now, p0)
    ensures Books(s', arr, lim, k', now)
  {
    hide View, Fair, Sorted, Shape;
    forall p | 0 <= p < |arr| ensures Fine(s', arr, lim, k', now, p) {
      assert Fine(s, arr, lim, k, now, p);
    }
  }

  lemma PushView(s: Sim, arr: seq<nat>, p0: nat, p: nat)
    requires Shape(s, arr) && p0 < |arr| && p < |arr| && s.bursts[p0] != []
    ensures var a := View(s, arr, p);
            View(Push(s, arr, p0), arr, p) == if p == p0 then a.(places := a.places + 1, more := |s.bursts[p0]| > 1) else a
  {
    EntriesInsert(s.ready, Job(s.bursts[p0][0], p0), p);
    hide Entries, Insert, Queue;
  }

  lemma SendView(s: Sim, arr: seq<nat>, p0: nat, p: nat)
    requires Shape(s, arr) && p0 < |arr| && p < |arr| && s.bursts[p0] != []
    ensures var a := View(s, arr, p);
            View(Send(s, arr, p0), arr, p) ==
              if p == p0 then a.(places := a.places + 1, more := |s.bursts[p0]| > 1, begun := true) else a
  {
    EntriesAppend(s.ioq, Job(s.bursts[p0][0], p0), p);
    hide Entries, Queue;
  }

  lemma PushSorted(s: Sim, arr: seq<nat>, p: nat)
    requires Shape(s, arr) && p < |arr| && s.bursts[p] != [] && Sorted(s.ready)
    ensures Sorted(Push(s, arr, p).ready)
  {
    InsertSorts(s.ready, Job(s.bursts[p][0], p));
  }

  lemma ArriveOne(s: Sim, arr: seq<nat>, k: nat)
    requires k < |arr| && Books(s, arr, s.time, k, s.time) && arr[k] == s.time && s.bursts[k] != []
    ensures Books(Push(s, arr, k), arr, s.time, k + 1, s.time)
  {
    assert Fine(s, arr, s.time, k, s.time, k);
    PushSorted(s, arr, k);
    forall p | 0 <= p < |arr| { PushView(s, arr, k, p); }
    assert Left(s.cpu, k) == 0 && Left(s.io, k) == 0;
    hide Push, Entries, Queue, Sorted;
    OneAccount(s, Push(s, arr, k), arr, s.time, k, k + 1, s.time, k);
  }

  lemma ArriveSkip(s: Sim, arr: seq<nat>, k: nat)
    requires k < |arr| && Books(s, arr, s.time, k, s.time) && arr[k] != s.time
    ensures Books(s, arr, s.time, k + 1, s.time)
  {
    assert Fine(s, arr, s.time, k, s.time, k);
    OneAccount(s, s, arr, s.time, k, k + 1, s.time, k);
  }

  lemma ArrivalsHaveBursts(s: Sim, arr: seq<nat>)
    requires Books(s, arr, s.time, 0, s.time)
    ensures forall p :: 0 <= p < |arr| && arr[p] == s.time ==> s.bursts[p] != []
  {
    forall p | 0 <= p < |arr| && arr[p] == s.time ensures s.bursts[p] != [] {
      assert Fine(s, arr, s.time, 0, s.time, p);
    }
  }

  lemma {:induction false} ArriveKeeps(s: Sim, arr: seq<nat>, k: nat)
    requires Books(s, arr, s.time, 0, s.time) && k <= |arr|
    ensures (forall p :: 0 <= p < |arr| && arr[p] == s.time ==> s.bursts[p] != [])
    ensures var s' := Arrive(s, arr, k);
            Books(s', arr, s.time, k, s.time) && s'.time == s.time && s'.cpu == s.cpu && s'.io == s.io && s'.over == s.over
    decreases k
  {
    ArrivalsHaveBursts(s, arr);
    if k > 0 {
      ArriveKeeps(s, arr, k - 1);
      hide Books, Shape, Insert, Queue;
      var s1 := Arrive(s, arr, k - 1);
      if arr[k - 1] == s.time { ArriveOne(s1, arr, k - 1); } else { ArriveSkip(s1, arr, k - 1); }
    }
  }

  lemma StartCpuKeeps(s: Sim, arr: seq<nat>, k: nat)
    requires Books(s, arr, s.time, k, s.time)
    ensures Books(StartCpu(s, arr), arr, s.time, k, s.time)
  {
    var s' := StartCpu(s, arr);
    if s.cpu.Idle? && s.ready != [] {
      var p0 := s.ready[0].pid;
      assert Sorted(s'.ready);
      StartCpuView(s, arr, p0);
      assert Fine(s, arr, s.time, k, s.time, p0);
      forall p | 0 <= p < |arr| && p != p0 { StartCpuView(s, arr, p); }
      hide StartCpu, View, Shape, Sorted;
      OneAccount(s, s', arr, s.time, k, k, s.time, p0);
    }
  }

  // Shortest job first: of those that are ready the processor gets the one with the
  // least burst, and of these the one with the least pid.
  lemma DispatchesLeast(s: Sim, arr: seq<nat>)
    requires Shape(s, arr) && Sorted(s.ready) && s.cpu.Idle? && s.ready != []
    ensures var s' := StartCpu(s, arr);
            && s'.cpu.Busy? && multiset(s'.ready) + multiset{Job(s'.cpu.left, s'.cpu.pid)} == multiset(s.ready)
            && forall j :: j in s.ready ==>
                 s'.cpu.left < j.burst || (s'.cpu.left == j.burst && s'.cpu.pid <= j.pid)
  {
    hide Queue;
    assert s.ready == [s.ready[0]] + s.ready[1..];
    forall j | j in s.ready ensures Leq(s.ready[0], j) {
      var k :| 0 <= k < |s.ready| && s.ready[k] == j;
    }
  }

  lemma StartCpuView(s: Sim, arr: seq<nat>, p: nat)
    requires Shape(s, arr) && p < |arr| && s.cpu.Idle? && s.ready != []
    ensures var a, a', j := View(s, arr, p), View(StartCpu(s, arr), arr, p), s.ready[0];
            if p == j.pid then
              && a.places >= 1 && (a.places == 1 ==> a.left == 0)
              && a' == a.(left := a.left + j.burst, used := a.used + j.burst, begun := true,
                          response := if a.response == -1 then s.time - arr[p] else a.response)
            else a' == a
  {
    hide Queue;
  }

  lemma StartIoKeeps(s: Sim, arr: seq<nat>, k: nat)
    requires Books(s, arr, s.time, k, s.time)
    ensures Books(StartIo(s, arr), arr, s.time, k, s.time)
  {
    var s' := StartIo(s, arr);
    if s.io.Idle? && s.ioq != [] {
      var p0 := s.ioq[0].pid;
      assert s'.ready == s.ready;
      StartIoView(s, arr, p0);
      assert Fine(s, arr, s.time, k, s.time, p0);
      forall p | 0 <= p < |arr| && p != p0 { StartIoView(s, arr, p); }
      hide StartIo, View, Shape, Sorted;
      OneAccount(s, s', arr, s.time, k, k, s.time, p0);
    }
  }

  lemma StartIoView(s: Sim, arr: seq<nat>, p: nat)
    requires Shape(s, arr) && p < |arr| && s.io.Idle? && s.ioq != []
    ensures var a, a', j := View(s, arr, p), View(StartIo(s, arr), arr, p), s.ioq[0];
            if p == j.pid then
              && a.places >= 1 && (a.places == 1 ==> a.left == 0) && a.begun
              && a' == a.(left := a.left + j.burst, used := a.used + j.burst, begun := a'.begun)
            else a' == a
  {
    hide Queue;
  }

  // No device holds a burst that is used up.
  predicate Live(s: Sim) {
    (s.cpu.Busy? ==> s.cpu.left >= 1) && (s.io.Busy? ==> s.io.left >= 1)
  }

  lemma WorkKeeps(s: Sim, arr: seq<nat>, k: nat)
    requires Books(s, arr, s.time, k, s.time) && Live(s)
    ensures Books(Work(s, arr), arr, s.time, k, s.time + 1)
  {
    var s', now := Work(s, arr), s.time + 1;
    hide Entries;
    forall p | 0 <= p < |arr| ensures Fine(s', arr, s.time, k, now, p) {
      assert Fine(s, arr, s.time, k, s.time, p);
    }
  }

  // A process leaves a device, its burst used up: to the ready queue,
  lemma IoToReady(s: Sim, arr: seq<nat>, k: nat)
    requires Books(s, arr, s.time, k, s.time + 1)
    requires s.io.Busy? && s.io.left == 0 && s.bursts[s.io.pid] != []
    ensures Books(Push(s, arr, s.io.pid).(io := Idle), arr, s.time, k, s.time + 1)
  {
    var p0 := s.io.pid;
    var s1 := Push(s, arr, p0);
    PushSorted(s, arr, p0);
    forall p | 0 <= p < |arr| { PushView(s, arr, p0, p); }
    assert Fine(s, arr, s.time, k, s.time + 1, p0);
    hide Push, Entries, Queue, Sorted;
    forall p | 0 <= p < |arr| { LeftView(s1, s1.(io := Idle), arr, p); }
    OneAccount(s, s1.(io := Idle), arr, s.time, k, k, s.time + 1, p0);
  }

  // The device that held p0 is free.
  lemma LeftView(s: Sim, s': Sim, arr: seq<nat>, p: nat)
    requires Shape(s, arr) && p < |arr|
    requires (s' == s.(io := Idle, over := s'.over) && s.io.Busy? && s.io.left == 0)
          || (s' == s.(cpu := Idle, over := s'.over) && s.cpu.Busy? && s.cpu.left == 0)
    ensures Shape(s', arr)
    ensures var a, p0 := View(s, arr, p), if s'.io == s.io then s.cpu.pid else s.io.pid;
            if p == p0 then View(s', arr, p) == a.(places := a.places - 1, begun := View(s', arr, p).begun)
                            && (View(s', arr, p).begun ==> a.begun)
            else View(s', arr, p) == a
  {
    hide Entries, Queue;
  }

  // to the I/O queue,
  lemma CpuToIo(s: Sim, arr: seq<nat>, k: nat)
    requires Books(s, arr, s.time, k, s.time + 1)
    requires s.cpu.Busy? && s.cpu.left == 0 && s.bursts[s.cpu.pid] != []
    ensures Books(Send(s, arr, s.cpu.pid).(cpu := Idle), arr, s.time, k, s.time + 1)
  {
    var p0 := s.cpu.pid;
    var s1 := Send(s, arr, p0);
    forall p | 0 <= p < |arr| { SendView(s, arr, p0, p); }
    assert Fine(s, arr, s.time, k, s.time + 1, p0);
    assert View(s, arr, p0).begun && s1.ready == s.ready;
    hide Send, Entries, Queue, Sorted;
    forall p | 0 <= p < |arr| { LeftView(s1, s1.(cpu := Idle), arr, p); }
    OneAccount(s, s1.(cpu := Idle), arr, s.time, k, k, s.time + 1, p0);
  }

  // or out, with its account closed.
  lemma CompleteKeeps(s: Sim, arr: seq<nat>, k: nat, p0: nat, s': Sim)
    requires Books(s, arr, s.time, k, s.time + 1) && p0 < |arr| && s.bursts[p0] == []
    requires (Holds(s.io, p0) && s.io.left == 0 && s' == Complete(s, arr, p0).(io := Idle, over := s'.over))
          || (Holds(s.cpu, p0) && s.cpu.left == 0 && s' == Complete(s, arr, p0).(cpu := Idle, over := s'.over))
    ensures Books(s', arr, s.time, k, s.time + 1) && s'.turnaround[p0] > 0
  {
    hide Entries, Queue, Sorted;
    var s1 := Complete(s, arr, p0);
    assert Fine(s, arr, s.time, k, s.time + 1, p0);
    forall p | 0 <= p < |arr| { CompleteView(s, arr, p0, p); }
    forall p | 0 <= p < |arr| { LeftView(s1, s', arr, p); }
    OnePlace(s, arr, p0);
    hide View, Complete;
    OneAccount(s, s', arr, s.time, k, k, s.time + 1, p0);
  }

  lemma CompleteView(s: Sim, arr: seq<nat>, p0: nat, p: nat)
    requires Shape(s, arr) && p0 < |arr| && p < |arr|
    ensures var a, tr := View(s, arr, p), s.time - arr[p0] + 1;
            View(Complete(s, arr, p0), arr, p) ==
              if p == p0 then a.(turnaround := tr, waits := tr - a.used) else a
  {
    hide Entries, Queue;
  }

  // On a device with nothing left and nowhere else, no burst is pending.
  lemma OnePlace(s: Sim, arr: seq<nat>, p: nat)
    requires Shape(s, arr) && p < |arr| && Places(s, p) <= 1
    requires (Holds(s.io, p) && s.io.left == 0) || (Holds(s.cpu, p) && s.cpu.left == 0)
    ensures View(s, arr, p).left == 0 && View(s, arr, p).places == 1
  {
  }

  // The state when the device that ended the loop is let go of.
  function Released(s: Sim): Sim {
    if !s.over then s
    else if s.io.Busy? && s.io.left == 0 then s.(io := Idle)
    else s.(cpu := Idle)
  }

  lemma EndIoKeeps(s: Sim, arr: seq<nat>, k: nat)
    requires Books(s, arr, s.time, k, s.time + 1) && !s.over
    ensures var s' := EndIo(s, arr);
            && Books(Released(s'), arr, s.time, k, s.time + 1) && s'.time == s.time && s'.cpu == s.cpu
            && (!s'.over ==> s'.io.Busy? ==> s'.io.left >= 1)
  {
    if s.io.Busy? && s.io.left == 0 {
      var p := s.io.pid;
      hide Books, Insert, Queue;
      if s.bursts[p] != [] {
        IoToReady(s, arr, k);
      } else {
        CompleteKeeps(s, arr, k, p, Complete(s, arr, p).(io := Idle, over := EndIo(s, arr).over));
      }
    }
  }

  lemma EndCpuKeeps(s: Sim, arr: seq<nat>, k: nat)
    requires Books(s, arr, s.time, k, s.time + 1) && !s.over && (s.io.Busy? ==> s.io.left >= 1)
    ensures var s' := EndCpu(s, arr);
            && Books(Released(s'), arr, s.time, k, s.time + 1) && s'.time == s.time && s'.io == s.io
            && (!s'.over ==> Live(s'))
  {
    if s.cpu.Busy? && s.cpu.left == 0 {
      var p := s.cpu.pid;
      hide Books, Queue;
      if s.bursts[p] != [] {
        CpuToIo(s, arr, k);
      } else {
        CompleteKeeps(s, arr, k, p, Complete(s, arr, p).(cpu := Idle, over := EndCpu(s, arr).over));
      }
    }
  }
}
