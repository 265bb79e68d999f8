/** What the two devices did over a run: a log of the bursts they served, and what it
    says of the order of service and of the times reported. */
module SjfLog {
  import opened SjfSpec
  import opened SjfRun
  import opened SjfOrder
  import opened SjfBest

  // A burst that a device took up at a tick: the I/O device if io, else the processor.
  datatype Service = Service(time: nat, pid: nat, burst: int, io: bool)

  function End(e: Service): int {
    e.time + e.burst
  }

  // The services of p.
  function Of(log: seq<Service>, p: nat): seq<Service> {
    if log == [] then []
    else
      var n := |log| - 1;
      Of(log[..n], p) + if log[n].pid == p then [log[n]] else []
  }

  function Lengths(g: seq<Service>): (b: seq<int>)
    ensures |b| == |g| && forall i :: 0 <= i < |g| ==> b[i] == g[i].burst
  {
    seq(|g|, i requires 0 <= i < |g| => g[i].burst)
  }

  // The processor and the I/O device take turns, the processor first.
  predicate TakeTurns(g: seq<Service>) {
    forall i :: 0 <= i < |g| ==> g[i].io == (i % 2 == 1)
  }

  // One after the other.
  predicate Follows(g: seq<Service>) {
    forall i :: 0 <= i < |g| - 1 ==> End(g[i]) <= g[i + 1].time
  }

  // A device takes up a burst only when it is done with the one before.
  predicate OneAtATime(log: seq<Service>) {
    forall i, j :: 0 <= i < j < |log| && log[i].io == log[j].io ==> End(log[i]) <= log[j].time
  }

  // The I/O bursts in the order in which they were taken up.
  function IoJobs(log: seq<Service>): seq<Job> {
    if log == [] then []
    else
      var n := |log| - 1;
      IoJobs(log[..n]) + if log[n].io then [Job(log[n].burst, log[n].pid)] else []
  }

  // The I/O bursts that follow the processor bursts of the log, in their order.
  function ToIo(log: seq<Service>, bursts: seq<seq<int>>): seq<Job> {
    if log == [] then []
    else
      var n := |log| - 1;
      ToIo(log[..n], bursts) + if log[n].io then [] else Following(log[..n], log[n].pid, bursts)
  }

  // The burst of p after the one that comes next to those in the log.
  function Following(log: seq<Service>, p: nat, bursts: seq<seq<int>>): seq<Job> {
    var i := |Of(log, p)| + 1;
    if p < |bursts| && i < |bursts[p]| then [Job(bursts[p][i], p)] else []
  }

  lemma LogNext(log: seq<Service>, e: Service, bursts: seq<seq<int>>)
    ensures IoJobs(log + [e]) == IoJobs(log) + if e.io then [Job(e.burst, e.pid)] else []
    ensures ToIo(log + [e], bursts) == ToIo(log, bursts) + if e.io then [] else Following(log, e.pid, bursts)
  {
    assert (log + [e])[..|log|] == log;
  }

  lemma OfNext(log: seq<Service>, e: Service, p: nat)
    ensures Of(log + [e], p) == Of(log, p) + if e.pid == p then [e] else []
  {
    assert (log + [e])[..|log|] == log;
  }

  // The bursts of p in a queue.
  function QueueOf(q: seq<Job>, p: nat): seq<int> {
    if q == [] then [] else (if q[0].pid == p then [q[0].burst] else []) + QueueOf(q[1..], p)
  }

  lemma {:induction false} QueueOfNone(q: seq<Job>, p: nat)
    requires Entries(q, p) == 0
    ensures QueueOf(q, p) == []
  {
    if q != [] { QueueOfNone(q[1..], p); }
  }

  lemma {:induction false} QueueOfInsert(q: seq<Job>, j: Job, p: nat)
    requires j.pid == p ==> Entries(q, p) == 0
    ensures QueueOf(Insert(q, j), p) == if j.pid == p then [j.burst] else QueueOf(q, p)
  {
    if q != [] && !Leq(j, q[0]) {
      QueueOfInsert(q[1..], j, p);
      assert Insert(q, j)[1..] == Insert(q[1..], j);
    } else {
      assert ([j] + q)[1..] == q;
      if j.pid == p { QueueOfNone(q, p); }
    }
  }

  lemma {:induction false} QueueOfAppend(q: seq<Job>, j: Job, p: nat)
    ensures QueueOf(q + [j], p) == QueueOf(q, p) + if j.pid == p then [j.burst] else []
  {
    if q == [] {
      assert [j][1..] == [];
    } else {
      QueueOfAppend(q[1..], j, p);
      assert (q + [j])[1..] == q[1..] + [j];
    }
  }

  /** --- What the log says of one process --- */

  // g: the services of p; b: its bursts; now: the ticks accounted for.
  ghost predicate Told(s: Sim, arr: seq<nat>, b: seq<int>, g: seq<Service>, now: nat, p: nat)
    requires Shape(s, arr) && p < |arr|
  {
    && Whole(s, b, g, p)
    && TakeTurns(g) && Follows(g)
    && s.response[p] == (if g == [] then -1 else g[0].time - arr[p]) && (g != [] ==> g[0].time >= arr[p])
    && Standing(s, arr, g, now, p)
  }

  ghost predicate Standing(s: Sim, arr: seq<nat>, g: seq<Service>, now: nat, p: nat)
    requires Shape(s, arr) && p < |arr|
  {
    && (Entries(s.ready, p) > 0 ==> |g| % 2 == 0)
    && (Entries(s.ioq, p) > 0 ==> |g| % 2 == 1)
    && (Holds(s.cpu, p) ==> |g| % 2 == 1 && End(g[|g| - 1]) == now + s.cpu.left)
    && (Holds(s.io, p) ==> |g| % 2 == 0 && g != [] && End(g[|g| - 1]) == now + s.io.left)
    && (g != [] && !Holds(s.cpu, p) && !Holds(s.io, p) ==> End(g[|g| - 1]) <= now)
    && (s.turnaround[p] != 0 ==> g != [] && s.bursts[p] == [] && s.turnaround[p] == End(g[|g| - 1]) - arr[p])
    && (s.turnaround[p] == 0 && Places(s, p) == 0 ==> g == [])
  }

  // What p has had and is to have is its input.
  ghost predicate Whole(s: Sim, b: seq<int>, g: seq<Service>, p: nat)
    requires p < |s.bursts|
  {
    Lengths(g) + QueueOf(s.ready, p) + QueueOf(s.ioq, p) + s.bursts[p] == b
  }

  lemma PushWhole(s: Sim, arr: seq<nat>, b: seq<int>, g: seq<Service>, p0: nat, p: nat)
    requires Shape(s, arr) && p0 < |arr| && s.bursts[p0] != [] && p < |arr| && Whole(s, b, g, p)
    requires Entries(s.ready, p0) == 0 && Entries(s.ioq, p0) == 0
    ensures Whole(Push(s, arr, p0), b, g, p)
  {
    hide Entries, QueueOf, Insert, Queue, Lengths, Shape;
    ShapeLengths(s, arr);
    var j, s' := Job(s.bursts[p0][0], p0), Push(s, arr, p0);
    QueueOfInsert(s.ready, j, p);
    if p == p0 {
      QueueOfNone(s.ready, p);
      QueueOfNone(s.ioq, p);
      assert s.bursts[p] == [j.burst] + s'.bursts[p];
      assert Lengths(g) + [] + [] + ([j.burst] + s'.bursts[p]) == Lengths(g) + [j.burst] + [] + s'.bursts[p];
    }
  }

  lemma ShapeLengths(s: Sim, arr: seq<nat>)
    requires Shape(s, arr)
    ensures |s.bursts| == |s.used| == |s.response| == |s.turnaround| == |s.waits| == |s.queued| == |arr|
    ensures s.cpu.Busy? ==> s.cpu.pid < |arr| && s.cpu.left >= 0
    ensures s.io.Busy? ==> s.io.pid < |arr| && s.io.left >= 0
    ensures s.ready != [] ==> s.ready[0].pid < |arr| && s.ready[0].burst >= 1
    ensures s.ioq != [] ==> s.ioq[0].pid < |arr| && s.ioq[0].burst >= 1
  {
  }

  lemma PushTold(s: Sim, arr: seq<nat>, b: seq<int>, g: seq<Service>, now: nat, p0: nat, p: nat)
    requires Shape(s, arr) && p0 < |arr| && s.bursts[p0] != [] && p < |arr| && Told(s, arr, b, g, now, p)
    requires Entries(s.ready, p0) == 0 && Entries(s.ioq, p0) == 0 && s.turnaround[p0] == 0
    requires p == p0 ==> |g| % 2 == 0
    ensures Told(Push(s, arr, p0), arr, b, g, now, p)
  {
    hide Entries, QueueOf, Insert, Queue, Lengths, Shape, Whole, TakeTurns, Follows;
    ShapeLengths(s, arr);
    PushWhole(s, arr, b, g, p0, p);
    EntriesInsert(s.ready, Job(s.bursts[p0][0], p0), p);
  }

  // The device is done with p0, which is somewhere else now, or at its end.
  lemma IdleTold(s: Sim, arr: seq<nat>, b: seq<int>, g: seq<Service>, now: nat, p: nat, s': Sim)
    requires Shape(s, arr) && p < |arr| && Told(s, arr, b, g, now, p)
    requires (s' == s.(io := Idle) && s.io.Busy? && s.io.left == 0) || (s' == s.(cpu := Idle) && s.cpu.Busy? && s.cpu.left == 0)
    requires var p0 := if s' == s.(io := Idle) then s.io.pid else s.cpu.pid;
             p0 < |arr| && (s.turnaround[p0] != 0 || Entries(s.ready, p0) > 0 || Entries(s.ioq, p0) > 0)
    ensures Shape(s', arr) && Told(s', arr, b, g, now, p)
  {
    hide Entries, QueueOf, Insert, Queue, Lengths, TakeTurns, Follows;
  }

  lemma SendTold(s: Sim, arr: seq<nat>, b: seq<int>, g: seq<Service>, now: nat, p0: nat, p: nat)
    requires Shape(s, arr) && p0 < |arr| && s.bursts[p0] != [] && p < |arr| && Told(s, arr, b, g, now, p)
    requires s.turnaround[p0] == 0
    requires p == p0 ==> |g| % 2 == 1
    ensures Told(Send(s, arr, p0), arr, b, g, now, p)
  {
    hide Entries, QueueOf, Queue, Lengths, Shape, TakeTurns, Follows;
    ShapeLengths(s, arr);
    var j, s' := Job(s.bursts[p0][0], p0), Send(s, arr, p0);
    EntriesAppend(s.ioq, j, p);
    QueueOfAppend(s.ioq, j, p);
    if p == p0 {
      assert s.bursts[p] == [j.burst] + s'.bursts[p];
      assert Lengths(g) + QueueOf(s.ready, p) + QueueOf(s.ioq, p) + ([j.burst] + s'.bursts[p])
          == Lengths(g) + QueueOf(s.ready, p) + (QueueOf(s.ioq, p) + [j.burst]) + s'.bursts[p];
    }
  }

  // The end of p0's last burst, at the end of the tick that now accounts for.
  lemma CompleteTold(s: Sim, arr: seq<nat>, b: seq<int>, g: seq<Service>, p0: nat, p: nat)
    requires Shape(s, arr) && p0 < |arr| && s.bursts[p0] == [] && p < |arr| && Told(s, arr, b, g, s.time + 1, p)
    requires Entries(s.ready, p0) == 0 && Entries(s.ioq, p0) == 0
    requires (Holds(s.cpu, p0) && s.cpu.left == 0) || (Holds(s.io, p0) && s.io.left == 0)
    ensures Told(Complete(s, arr, p0), arr, b, g, s.time + 1, p)
  {
    hide Entries, QueueOf, Queue, Lengths, Shape, TakeTurns, Follows;
    ShapeLengths(s, arr);
  }

  lemma TurnsNext(g: seq<Service>, e: Service)
    requires TakeTurns(g) && Follows(g) && e.io == (|g| % 2 == 1) && (g != [] ==> End(g[|g| - 1]) <= e.time)
    ensures TakeTurns(g + [e]) && Follows(g + [e])
  {
  }

  // The log of a device that may have been given work at this tick.
  function Taken(was: Device, d: Device, time: nat, io: bool): seq<Service> {
    if was.Idle? && d.Busy? then [Service(time, d.pid, d.left, io)] else []
  }

  lemma LengthsNext(g: seq<Service>, e: Service, rest: seq<int>)
    ensures Lengths(g + [e]) + rest == Lengths(g) + ([e.burst] + rest)
  {
    assert Lengths(g + [e]) == Lengths(g) + [e.burst];
  }

  lemma QueueFirst(q: seq<Job>, p: nat)
    requires q != []
    ensures QueueOf(q, p) == (if q[0].pid == p then [q[0].burst] else []) + QueueOf(q[1..], p)
    ensures Entries(q, p) == Entries(q[1..], p) + if q[0].pid == p then 1 else 0
  {
  }

  // p is the one that the processor takes.
  lemma StartCpuOwn(s: Sim, arr: seq<nat>, b: seq<int>, g: seq<Service>, p: nat)
    requires Shape(s, arr) && p < |arr| && Told(s, arr, b, g, s.time, p) && arr[p] <= s.time
    requires s.cpu.Idle? && s.ready != [] && s.ready[0].pid == p && Places(s, p) <= 1 && s.turnaround[p] == 0
    ensures Told(StartCpu(s, arr), arr, b, g + [Service(s.time, p, s.ready[0].burst, false)], s.time, p)
  {
    hide QueueOf, Queue, Lengths, Shape, TakeTurns, Follows, Entries;
    ShapeLengths(s, arr);
    var e := Service(s.time, p, s.ready[0].burst, false);
    QueueFirst(s.ready, p);
    LengthsNext(g, e, QueueOf(s.ready[1..], p));
    TurnsNext(g, e);
  }

  lemma StartCpuOther(s: Sim, arr: seq<nat>, b: seq<int>, g: seq<Service>, p: nat)
    requires Shape(s, arr) && p < |arr| && Told(s, arr, b, g, s.time, p)
    requires s.cpu.Idle? && s.ready != [] && s.ready[0].pid != p
    ensures Told(StartCpu(s, arr), arr, b, g, s.time, p)
  {
    hide QueueOf, Queue, Lengths, Shape, TakeTurns, Follows, Entries;
    ShapeLengths(s, arr);
    QueueFirst(s.ready, p);
    assert [] + QueueOf(s.ready[1..], p) == QueueOf(s.ready[1..], p);
  }

  lemma StartCpuTold(s: Sim, arr: seq<nat>, b: seq<int>, log: seq<Service>, p: nat)
    requires Shape(s, arr) && p < |arr| && Told(s, arr, b, Of(log, p), s.time, p)
    requires Places(s, p) <= 1 && (Places(s, p) == 1 ==> s.turnaround[p] == 0 && arr[p] <= s.time)
    ensures var s' := StartCpu(s, arr); Told(s', arr, b, Of(log + Taken(s.cpu, s'.cpu, s.time, false), p), s.time, p)
  {
    hide QueueOf, Queue, Lengths, Shape, Of, Told;
    var s' := StartCpu(s, arr);
    if s.cpu.Idle? && s.ready != [] {
      var e := Service(s.time, s.ready[0].pid, s.ready[0].burst, false);
      assert Taken(s.cpu, s'.cpu, s.time, false) == [e];
      OfNext(log, e, p);
      if p == e.pid { StartCpuOwn(s, arr, b, Of(log, p), p); } else { StartCpuOther(s, arr, b, Of(log, p), p); }
      assert Of(log, p) + [] == Of(log, p);
    } else {
      assert log + [] == log;
    }
  }

  lemma StartIoOwn(s: Sim, arr: seq<nat>, b: seq<int>, g: seq<Service>, p: nat)
    requires Shape(s, arr) && p < |arr| && Told(s, arr, b, g, s.time, p)
    requires s.io.Idle? && s.ioq != [] && s.ioq[0].pid == p && Places(s, p) <= 1 && s.turnaround[p] == 0
    ensures Told(StartIo(s, arr), arr, b, g + [Service(s.time, p, s.ioq[0].burst, true)], s.time, p)
  {
    hide QueueOf, Queue, Lengths, Shape, TakeTurns, Follows, Entries;
    ShapeLengths(s, arr);
    var e, rest := Service(s.time, p, s.ioq[0].burst, true), QueueOf(s.ioq[1..], p);
    QueueFirst(s.ioq, p);
    QueueOfNone(s.ready, p);
    assert Lengths(g) + [] + ([e.burst] + rest) == Lengths(g) + ([e.burst] + rest);
    assert Lengths(g + [e]) + [] + rest == Lengths(g + [e]) + rest;
    LengthsNext(g, e, rest);
    TurnsNext(g, e);
  }

  lemma StartIoOther(s: Sim, arr: seq<nat>, b: seq<int>, g: seq<Service>, p: nat)
    requires Shape(s, arr) && p < |arr| && Told(s, arr, b, g, s.time, p)
    requires s.io.Idle? && s.ioq != [] && s.ioq[0].pid != p
    ensures Told(StartIo(s, arr), arr, b, g, s.time, p)
  {
    hide QueueOf, Queue, Lengths, Shape, TakeTurns, Follows, Entries;
    ShapeLengths(s, arr);
    QueueFirst(s.ioq, p);
    assert [] + QueueOf(s.ioq[1..], p) == QueueOf(s.ioq[1..], p);
  }

  lemma StartIoTold(s: Sim, arr: seq<nat>, b: seq<int>, log: seq<Service>, p: nat)
    requires Shape(s, arr) && p < |arr| && Told(s, arr, b, Of(log, p), s.time, p)
    requires Places(s, p) <= 1 && (Places(s, p) == 1 ==> s.turnaround[p] == 0)
    ensures var s' := StartIo(s, arr); Told(s', arr, b, Of(log + Taken(s.io, s'.io, s.time, true), p), s.time, p)
  {
    hide QueueOf, Queue, Lengths, Shape, Of, Told;
    var s' := StartIo(s, arr);
    if s.io.Idle? && s.ioq != [] {
      var e := Service(s.time, s.ioq[0].pid, s.ioq[0].burst, true);
      assert Taken(s.io, s'.io, s.time, true) == [e];
      OfNext(log, e, p);
      if p == e.pid { StartIoOwn(s, arr, b, Of(log, p), p); } else { StartIoOther(s, arr, b, Of(log, p), p); }
      assert Of(log, p) + [] == Of(log, p);
    } else {
      assert log + [] == log;
    }
  }

  lemma WorkTold(s: Sim, arr: seq<nat>, b: seq<int>, g: seq<Service>, now: nat, p: nat)
    requires Shape(s, arr) && p < |arr| && Told(s, arr, b, g, now, p) && Live(s)
    ensures Told(Work(s, arr), arr, b, g, now + 1, p)
  {
    hide Entries, QueueOf, Queue, Lengths, TakeTurns, Follows;
  }

  /** --- What the log says of the devices --- */

  function LeftOn(s: Sim, io: bool): int {
    var d := if io then s.io else s.cpu;
    if d.Busy? then d.left else 0
  }

  // Nothing in the log ends later than its device is busy.
  ghost predicate Timely(s: Sim, n: nat, log: seq<Service>, now: nat) {
    && OneAtATime(log)
    && forall i :: 0 <= i < |log| ==> log[i].pid < n && End(log[i]) <= now + LeftOn(s, log[i].io)
  }

  // The I/O burst that follows the one on the processor.
  function InHand(s: Sim): seq<Job>
    requires s.cpu.Busy? ==> s.cpu.pid < |s.bursts|
  {
    if s.cpu.Busy? && s.bursts[s.cpu.pid] != [] then [Job(s.bursts[s.cpu.pid][0], s.cpu.pid)] else []
  }

  /** The I/O bursts taken up, those in the queue and the one to come are, in this order,
      those that follow the processor bursts of the log. */
  ghost predicate InLine(s: Sim, input: seq<seq<int>>, log: seq<Service>)
    requires s.cpu.Busy? ==> s.cpu.pid < |s.bursts|
  {
    ToIo(log, input) == IoJobs(log) + s.ioq + InHand(s)
  }

  ghost predicate Ledger(s: Sim, arr: seq<nat>, input: seq<seq<int>>, log: seq<Service>, now: nat)
    requires Shape(s, arr) && |input| == |arr|
  {
    && (forall p :: 0 <= p < |arr| ==> Told(s, arr, input[p], Of(log, p), now, p))
    && Timely(s, |arr|, log, now) && InLine(s, input, log)
  }

  lemma TimelyNext(s: Sim, n: nat, log: seq<Service>, e: Service, s': Sim, now: nat)
    requires Timely(s, n, log, now) && e.time == now && e.pid < n && LeftOn(s, e.io) == 0 && e.burst >= 0
    requires LeftOn(s', e.io) == e.burst && LeftOn(s', !e.io) == LeftOn(s, !e.io)
    ensures Timely(s', n, log + [e], now)
  {
    hide LeftOn;
  }

  // p is in at most one place, and there only while it is not finished.
  ghost predicate Somewhere(s: Sim, arr: seq<nat>, p: nat)
    requires p < |s.turnaround| && p < |arr|
  {
    Places(s, p) <= 1 && (Places(s, p) == 1 ==> s.turnaround[p] == 0 && arr[p] <= s.time)
  }

  lemma PlacedOnce(s: Sim, arr: seq<nat>, k: nat, now: nat, p: nat)
    requires Books(s, arr, s.time, k, now) && p < |arr|
    ensures Shape(s, arr) && |s.turnaround| == |s.bursts| == |arr| && Somewhere(s, arr, p)
    ensures (arr[p] > s.time || (arr[p] == s.time && p >= k)) ==> Places(s, p) == 0 && s.turnaround[p] == 0
  {
    assert Fine(s, arr, s.time, k, now, p);
  }

  lemma PushLedger(s: Sim, arr: seq<nat>, input: seq<seq<int>>, log: seq<Service>, now: nat, p0: nat)
    requires Shape(s, arr) && |input| == |arr| && p0 < |arr| && s.bursts[p0] != [] && Ledger(s, arr, input, log, now)
    requires Entries(s.ready, p0) == 0 && Entries(s.ioq, p0) == 0 && !Holds(s.cpu, p0) && s.turnaround[p0] == 0
    requires |Of(log, p0)| % 2 == 0
    ensures Ledger(Push(s, arr, p0), arr, input, log, now)
  {
    hide Told, Shape, Of, Insert, Entries, Timely, ToIo, IoJobs;
    ShapeLengths(s, arr);
    forall p | 0 <= p < |arr| ensures Told(Push(s, arr, p0), arr, input[p], Of(log, p), now, p) {
      PushTold(s, arr, input[p], Of(log, p), now, p0, p);
    }
    SameDevices(s, Push(s, arr, p0), |arr|, log, now);
  }

  lemma SameDevices(s: Sim, s': Sim, n: nat, log: seq<Service>, now: nat)
    requires Timely(s, n, log, now) && s'.cpu == s.cpu && s'.io == s.io
    ensures Timely(s', n, log, now)
  {
  }

  lemma {:induction false} ArriveLedger(s: Sim, arr: seq<nat>, input: seq<seq<int>>, log: seq<Service>, k: nat)
    requires Books(s, arr, s.time, 0, s.time) && Shape(s, arr) && |input| == |arr| && k <= |arr|
    requires forall p :: 0 <= p < |arr| && arr[p] == s.time ==> s.bursts[p] != []
    requires Ledger(s, arr, input, log, s.time)
    ensures Ledger(Arrive(s, arr, k), arr, input, log, s.time)
    decreases k
  {
    hide Ledger, Books, Shape, Push, Entries, Of;
    if k > 0 {
      ArriveLedger(s, arr, input, log, k - 1);
      ArriveKeeps(s, arr, k - 1);
      var s1 := Arrive(s, arr, k - 1);
      if arr[k - 1] == s.time {
        PlacedOnce(s1, arr, k - 1, s.time, k - 1);
        NotComeYet(s1, arr, input, log, s.time, k - 1);
        PushLedger(s1, arr, input, log, s.time, k - 1);
      }
    }
  }

  lemma NotComeYet(s: Sim, arr: seq<nat>, input: seq<seq<int>>, log: seq<Service>, now: nat, p: nat)
    requires Shape(s, arr) && |input| == |arr| && p < |arr| && Ledger(s, arr, input, log, now)
    requires s.turnaround[p] == 0 && Places(s, p) == 0
    ensures Of(log, p) == []
  {
    hide Timely, InLine, Entries;
    assert Told(s, arr, input[p], Of(log, p), now, p);
  }

  lemma StartCpuLedger(s: Sim, arr: seq<nat>, input: seq<seq<int>>, log: seq<Service>)
    requires Books(s, arr, s.time, |arr|, s.time) && Shape(s, arr) && |input| == |arr|
    requires Ledger(s, arr, input, log, s.time)
    ensures var s' := StartCpu(s, arr); Ledger(s', arr, input, log + Taken(s.cpu, s'.cpu, s.time, false), s.time)
  {
    hide Told, Shape, Of, Entries, Timely, Books, InLine;
    ShapeLengths(s, arr);
    var s' := StartCpu(s, arr);
    var log' := log + Taken(s.cpu, s'.cpu, s.time, false);
    forall p | 0 <= p < |arr| ensures Told(s', arr, input[p], Of(log', p), s.time, p) {
      PlacedOnce(s, arr, |arr|, s.time, p);
      StartCpuTold(s, arr, input[p], log, p);
    }
    if s.cpu.Idle? && s.ready != [] {
      var e := Service(s.time, s.ready[0].pid, s.ready[0].burst, false);
      assert log' == log + [e];
      TimelyNext(s, |arr|, log, e, s', s.time);
      PlacedOnce(s, arr, |arr|, s.time, e.pid);
      StartCpuInLine(s, arr, input, log);
    } else {
      assert log' == log;
    }
  }

  lemma StartCpuInLine(s: Sim, arr: seq<nat>, input: seq<seq<int>>, log: seq<Service>)
    requires Shape(s, arr) && |input| == |arr| && s.cpu.Idle? && s.ready != [] && InLine(s, input, log)
    requires var p := s.ready[0].pid;
             p < |arr| && Somewhere(s, arr, p) && Told(s, arr, input[p], Of(log, p), s.time, p)
    ensures var s', e := StartCpu(s, arr), Service(s.time, s.ready[0].pid, s.ready[0].burst, false);
            s'.cpu.pid < |s'.bursts| && InLine(s', input, log + [e])
  {
    hide Shape, Of, Entries, Standing, TakeTurns, Follows, ToIo, IoJobs, Lengths, QueueOf;
    ShapeLengths(s, arr);
    var p, e, g := s.ready[0].pid, Service(s.time, s.ready[0].pid, s.ready[0].burst, false), Of(log, s.ready[0].pid);
    LogNext(log, e, input);
    QueueFirst(s.ready, p);
    QueueOfNone(s.ready[1..], p);
    QueueOfNone(s.ioq, p);
    assert Lengths(g) + ([e.burst] + []) + [] + s.bursts[p] == Lengths(g) + [e.burst] + s.bursts[p];
    NextInput(Lengths(g), e.burst, s.bursts[p], input[p]);
    assert Following(log, p, input) == InHand(StartCpu(s, arr));
    assert IoJobs(log) + s.ioq + [] == IoJobs(log) + s.ioq;
  }

  lemma NextInput(g: seq<int>, x: int, rest: seq<int>, b: seq<int>)
    requires g + [x] + rest == b
    ensures |g| + 1 < |b| <==> rest != []
    ensures rest != [] ==> b[|g| + 1] == rest[0]
  {
  }

  lemma StartIoLedger(s: Sim, arr: seq<nat>, input: seq<seq<int>>, log: seq<Service>)
    requires Books(s, arr, s.time, |arr|, s.time) && Shape(s, arr) && |input| == |arr|
    requires Ledger(s, arr, input, log, s.time)
    ensures var s' := StartIo(s, arr); Ledger(s', arr, input, log + Taken(s.io, s'.io, s.time, true), s.time)
  {
    hide Told, Shape, Of, Entries, Timely, Books, ToIo, IoJobs;
    ShapeLengths(s, arr);
    var s' := StartIo(s, arr);
    var log' := log + Taken(s.io, s'.io, s.time, true);
    forall p | 0 <= p < |arr| ensures Told(s', arr, input[p], Of(log', p), s.time, p) {
      PlacedOnce(s, arr, |arr|, s.time, p);
      StartIoTold(s, arr, input[p], log, p);
    }
    if s.io.Idle? && s.ioq != [] {
      var e := Service(s.time, s.ioq[0].pid, s.ioq[0].burst, true);
      assert log' == log + [e];
      TimelyNext(s, |arr|, log, e, s', s.time);
      LogNext(log, e, input);
      assert s.ioq == [Job(e.burst, e.pid)] + s'.ioq;
      assert IoJobs(log) + ([Job(e.burst, e.pid)] + s'.ioq) + InHand(s)
          == IoJobs(log) + [Job(e.burst, e.pid)] + s'.ioq + InHand(s);
      assert ToIo(log, input) + [] == ToIo(log, input);
    } else {
      assert log' == log;
    }
  }

  lemma WorkLedger(s: Sim, arr: seq<nat>, input: seq<seq<int>>, log: seq<Service>, now: nat)
    requires Shape(s, arr) && |input| == |arr| && Live(s) && Ledger(s, arr, input, log, now)
    ensures Ledger(Work(s, arr), arr, input, log, now + 1)
  {
    hide Told, Shape, Of, Entries, OneAtATime, ToIo, IoJobs;
    ShapeLengths(s, arr);
    forall p | 0 <= p < |arr| ensures Told(Work(s, arr), arr, input[p], Of(log, p), now + 1, p) {
      WorkTold(s, arr, input[p], Of(log, p), now, p);
    }
  }

  // The books of a device that holds a process whose burst is over.
  lemma HolderFacts(s: Sim, arr: seq<nat>, input: seq<seq<int>>, log: seq<Service>, now: nat, p: nat)
    requires Books(s, arr, s.time, |arr|, now) && Shape(s, arr) && |input| == |arr| && p < |arr|
    requires Ledger(s, arr, input, log, now) && (Holds(s.io, p) || Holds(s.cpu, p))
    ensures |s.turnaround| == |s.bursts| == |arr| && s.turnaround[p] == 0
    ensures Entries(s.ready, p) == 0 && Entries(s.ioq, p) == 0 && !(Holds(s.io, p) && Holds(s.cpu, p))
    ensures |Of(log, p)| % 2 == if Holds(s.cpu, p) then 1 else 0
  {
    hide Timely, InLine, Of, Books;
    assert Told(s, arr, input[p], Of(log, p), now, p);
    PlacedOnce(s, arr, |arr|, now, p);
  }

  lemma CompleteLedger(s: Sim, arr: seq<nat>, input: seq<seq<int>>, log: seq<Service>, p0: nat)
    requires Shape(s, arr) && |input| == |arr| && p0 < |arr| && s.bursts[p0] == [] && Ledger(s, arr, input, log, s.time + 1)
    requires Entries(s.ready, p0) == 0 && Entries(s.ioq, p0) == 0
    requires (Holds(s.cpu, p0) && s.cpu.left == 0) || (Holds(s.io, p0) && s.io.left == 0)
    ensures Ledger(Complete(s, arr, p0), arr, input, log, s.time + 1)
  {
    hide Told, Shape, Of, Entries, Timely, ToIo, IoJobs;
    ShapeLengths(s, arr);
    forall p | 0 <= p < |arr| ensures Told(Complete(s, arr, p0), arr, input[p], Of(log, p), s.time + 1, p) {
      CompleteTold(s, arr, input[p], Of(log, p), p0, p);
    }
    SameDevices(s, Complete(s, arr, p0), |arr|, log, s.time + 1);
  }

  // The I/O device is idle again.
  lemma IoIdleLedger(s: Sim, arr: seq<nat>, input: seq<seq<int>>, log: seq<Service>, now: nat)
    requires Shape(s, arr) && |input| == |arr| && Ledger(s, arr, input, log, now) && s.io.Busy? && s.io.left == 0
    requires s.io.pid < |arr| && (s.turnaround[s.io.pid] != 0 || Entries(s.ready, s.io.pid) > 0)
    ensures Shape(s.(io := Idle), arr) && Ledger(s.(io := Idle), arr, input, log, now)
  {
    hide Told, Of, Entries, OneAtATime, ToIo, IoJobs;
    forall p | 0 <= p < |arr| ensures Shape(s.(io := Idle), arr) && Told(s.(io := Idle), arr, input[p], Of(log, p), now, p) {
      IdleTold(s, arr, input[p], Of(log, p), now, p, s.(io := Idle));
    }
  }

  // The processor is idle again: the I/O burst that follows is in the queue.
  lemma CpuIdleLedger(s: Sim, s1: Sim, arr: seq<nat>, input: seq<seq<int>>, log: seq<Service>, now: nat)
    requires Shape(s, arr) && |input| == |arr| && Ledger(s, arr, input, log, now) && s.cpu.Busy? && s.cpu.left == 0
    requires Shape(s1, arr) && s1.cpu == s.cpu && s1.io == s.io && s.cpu.pid < |arr|
    requires s1.ioq == s.ioq + InHand(s)
    requires s1.turnaround[s.cpu.pid] != 0 || Entries(s1.ioq, s.cpu.pid) > 0
    requires forall p :: 0 <= p < |arr| ==> Told(s1, arr, input[p], Of(log, p), now, p)
    ensures Shape(s1.(cpu := Idle), arr) && Ledger(s1.(cpu := Idle), arr, input, log, now)
  {
    hide Told, Of, Entries, OneAtATime, ToIo, IoJobs, InHand;
    forall p | 0 <= p < |arr| ensures Shape(s1.(cpu := Idle), arr) && Told(s1.(cpu := Idle), arr, input[p], Of(log, p), now, p) {
      IdleTold(s1, arr, input[p], Of(log, p), now, p, s1.(cpu := Idle));
    }
    var s' := s1.(cpu := Idle);
    NothingInHand(s');
    assert IoJobs(log) + s'.ioq + InHand(s') == IoJobs(log) + (s.ioq + InHand(s));
    assert IoJobs(log) + (s.ioq + InHand(s)) == IoJobs(log) + s.ioq + InHand(s);
  }

  lemma NothingInHand(s: Sim)
    ensures s.cpu.Idle? ==> InHand(s) == []
    ensures s.cpu.Busy? && s.cpu.pid < |s.bursts| && s.bursts[s.cpu.pid] == [] ==> InHand(s) == []
  {
  }

  lemma EndIoLedger(s: Sim, arr: seq<nat>, input: seq<seq<int>>, log: seq<Service>)
    requires Books(s, arr, s.time, |arr|, s.time + 1) && Shape(s, arr) && |input| == |arr|
    requires Ledger(s, arr, input, log, s.time + 1)
    requires !s.over
    ensures Ledger(EndIo(s, arr), arr, input, log, s.time + 1)
  {
    hide Ledger, Shape, Of, Entries, Books, Push, Complete;
    ShapeLengths(s, arr);
    if s.io.Busy? && s.io.left == 0 {
      var p := s.io.pid;
      HolderFacts(s, arr, input, log, s.time + 1, p);
      if s.bursts[p] != [] {
        PushLedger(s, arr, input, log, s.time + 1, p);
        PushPlaces(s, arr, p);
        IoIdleLedger(Push(s, arr, p), arr, input, log, s.time + 1);
      } else {
        CompleteLedger(s, arr, input, log, p);
        CompleteEnds(s, arr, p);
        DoneIs(s, arr, input, log, p);
        if EndIo(s, arr).over {
          OverLedger(Complete(s, arr, p), arr, input, log, s.time + 1);
        } else {
          IoIdleLedger(Complete(s, arr, p), arr, input, log, s.time + 1);
        }
      }
    }
  }

  lemma OverLedger(s: Sim, arr: seq<nat>, input: seq<seq<int>>, log: seq<Service>, now: nat)
    requires Shape(s, arr) && |input| == |arr| && Ledger(s, arr, input, log, now)
    ensures Shape(s.(over := true), arr) && Ledger(s.(over := true), arr, input, log, now)
  {
    hide Of, Entries, OneAtATime, ToIo, IoJobs, TakeTurns, Follows, QueueOf, Lengths;
    var s' := s.(over := true);
    forall p | 0 <= p < |arr| ensures Shape(s', arr) && Told(s', arr, input[p], Of(log, p), now, p) {
      assert Told(s, arr, input[p], Of(log, p), now, p);
    }
  }

  lemma TimeLedger(s: Sim, arr: seq<nat>, input: seq<seq<int>>, log: seq<Service>, now: nat, t: nat)
    requires Shape(s, arr) && |input| == |arr| && Ledger(s, arr, input, log, now)
    ensures Shape(s.(time := t), arr) && Ledger(s.(time := t), arr, input, log, now)
  {
    hide Of, Entries, OneAtATime, ToIo, IoJobs, TakeTurns, Follows, QueueOf, Lengths;
    var s' := s.(time := t);
    forall p | 0 <= p < |arr| ensures Shape(s', arr) && Told(s', arr, input[p], Of(log, p), now, p) {
      assert Told(s, arr, input[p], Of(log, p), now, p);
    }
  }

  lemma PushPlaces(s: Sim, arr: seq<nat>, p: nat)
    requires Shape(s, arr) && p < |arr| && s.bursts[p] != []
    ensures var s' := Push(s, arr, p);
            Entries(s'.ready, p) > 0 && s'.ready != [] && s'.io == s.io && s'.cpu == s.cpu && s'.ioq == s.ioq
  {
    EntriesInsert(s.ready, Job(s.bursts[p][0], p), p);
    hide Entries, Insert, Queue;
  }

  lemma CompleteEnds(s: Sim, arr: seq<nat>, p: nat)
    requires Shape(s, arr) && p < |arr|
    ensures var s' := Complete(s, arr, p);
            && s'.io == s.io && s'.cpu == s.cpu && s'.ready == s.ready && s'.ioq == s.ioq && s'.bursts == s.bursts
            && |s'.turnaround| == |arr| && s'.turnaround[p] == s.time - arr[p] + 1 && s'.over == s.over
  {
  }

  // The end of p comes after its arrival.
  lemma DoneIs(s: Sim, arr: seq<nat>, input: seq<seq<int>>, log: seq<Service>, p: nat)
    requires Books(s, arr, s.time, |arr|, s.time + 1) && Shape(s, arr) && p < |arr| && (Holds(s.io, p) || Holds(s.cpu, p))
    ensures arr[p] <= s.time
  {
    hide Books;
    PlacedOnce(s, arr, |arr|, s.time + 1, p);
  }

  lemma EndCpuLedger(s: Sim, arr: seq<nat>, input: seq<seq<int>>, log: seq<Service>)
    requires Books(s, arr, s.time, |arr|, s.time + 1) && Shape(s, arr) && |input| == |arr|
    requires Ledger(s, arr, input, log, s.time + 1)
    requires !s.over
    ensures Ledger(EndCpu(s, arr), arr, input, log, s.time + 1)
  {
    hide Shape, Of, Entries, Books, Send, Complete, Told, Timely, InLine, InHand;
    ShapeLengths(s, arr);
    if s.cpu.Busy? && s.cpu.left == 0 {
      var p0, now := s.cpu.pid, s.time + 1;
      HolderFacts(s, arr, input, log, now, p0);
      if s.bursts[p0] != [] {
        forall p | 0 <= p < |arr| ensures Told(Send(s, arr, p0), arr, input[p], Of(log, p), now, p) {
          SendTold(s, arr, input[p], Of(log, p), now, p0, p);
        }
        SendPlaces(s, arr, p0);
        CpuIdleLedger(s, Send(s, arr, p0), arr, input, log, now);
      } else {
        CompleteLedger(s, arr, input, log, p0);
        CompleteEnds(s, arr, p0);
        DoneIs(s, arr, input, log, p0);
        NothingInHand(s);
        if EndCpu(s, arr).over {
          OverLedger(Complete(s, arr, p0), arr, input, log, now);
        } else {
          assert s.ioq + [] == s.ioq;
          CpuIdleLedger(s, Complete(s, arr, p0), arr, input, log, now);
        }
      }
    }
  }

  lemma SendPlaces(s: Sim, arr: seq<nat>, p: nat)
    requires Shape(s, arr) && p < |arr| && s.bursts[p] != [] && Holds(s.cpu, p)
    ensures var s' := Send(s, arr, p);
            && Entries(s'.ioq, p) > 0 && s'.ioq != [] && s'.io == s.io && s'.cpu == s.cpu && s'.ready == s.ready
            && s'.ioq == s.ioq + InHand(s)
  {
    EntriesAppend(s.ioq, Job(s.bursts[p][0], p), p);
    hide Entries, Queue;
  }

  /** --- Runs --- */

  // What is taken up in one turn of the loop.
  ghost function TurnLog(s: Sim, arr: seq<nat>): seq<Service>
    requires Shape(s, arr)
    requires forall p :: 0 <= p < |arr| && arr[p] == s.time ==> s.bursts[p] != []
  {
    var a := Arrive(s, arr, |arr|);
    var c := StartCpu(a, arr);
    Taken(a.cpu, c.cpu, s.time, false) + Taken(c.io, StartIo(c, arr).io, s.time, true)
  }

  // From a state to the end of the loop.
  ghost function RunLog(s: Sim, arr: seq<nat>): seq<Service>
    requires Started(s, arr)
    decreases if s.over then 0 else 1, WorkLeft(s), Delay(s, arr)
  {
    if s.over then []
    else
      NextIs(s, arr);
      TurnLog(s, arr) + RunLog(Next(s, arr), arr)
  }

  lemma RunLogNext(s: Sim, arr: seq<nat>)
    requires Between(s, arr)
    ensures Shape(s, arr) && forall p :: 0 <= p < |arr| && arr[p] == s.time ==> s.bursts[p] != []
    ensures Started(Next(s, arr), arr) && RunLog(s, arr) == TurnLog(s, arr) + RunLog(Next(s, arr), arr)
  {
    NextIs(s, arr);
  }

  lemma EndedLedger(w: Sim, arr: seq<nat>, input: seq<seq<int>>, log: seq<Service>)
    requires Books(w, arr, w.time, |arr|, w.time + 1) && Shape(w, arr) && |input| == |arr| && !w.over
    requires Ledger(w, arr, input, log, w.time + 1)
    ensures var s' := Ended(w, arr); Shape(s', arr) && Ledger(s', arr, input, log, w.time + 1)
  {
    hide Ledger, Books, Shape, EndIo, EndCpu;
    EndIoLedger(w, arr, input, log);
    EndIoKeeps(w, arr, |arr|);
    var s1 := EndIo(w, arr);
    if !s1.over {
      NotReleased(s1);
      EndCpuLedger(s1, arr, input, log);
      var s2 := EndCpu(s1, arr);
      if !s2.over { TimeLedger(s2, arr, input, log, w.time + 1, s2.time + 1); }
    }
  }

  lemma NotReleased(s: Sim)
    ensures !s.over ==> Released(s) == s
  {
  }

  lemma StepLedger(s: Sim, arr: seq<nat>, input: seq<seq<int>>, log: seq<Service>)
    requires Between(s, arr) && Shape(s, arr) && |input| == |arr| && Ledger(s, arr, input, log, s.time)
    requires forall p :: 0 <= p < |arr| && arr[p] == s.time ==> s.bursts[p] != []
    ensures Ledger(Next(s, arr), arr, input, log + TurnLog(s, arr), s.time + 1)
  {
    hide Ledger, Books, Between, Live, Shape, Worked, Ended, Next, Arrive, StartCpu, StartIo, Work, Taken, Stopped;
    NextIs(s, arr);
    NotOver(s, arr);
    var a := Arrive(s, arr, |arr|);
    ArriveLedger(s, arr, input, log, |arr|);
    ArriveKeeps(s, arr, |arr|);
    StartCpuLedger(a, arr, input, log);
    StartCpuKeeps(a, arr, |arr|);
    var c := StartCpu(a, arr);
    var log1 := log + Taken(a.cpu, c.cpu, s.time, false);
    StartTimes(a, arr);
    StartIoLedger(c, arr, input, log1);
    var m := StartIo(c, arr);
    assert log + TurnLog(s, arr) == log1 + Taken(c.io, m.io, s.time, true);
    LiveToo(s, a);
    StartWork(a, arr);
    StartTimes(c, arr);
    WorkLedger(m, arr, input, log + TurnLog(s, arr), s.time);
    WorkedIs(s, arr);
    EndedLedger(Worked(s, arr), arr, input, log + TurnLog(s, arr));
  }

  lemma StartTimes(s: Sim, arr: seq<nat>)
    requires Shape(s, arr)
    ensures StartCpu(s, arr).time == StartIo(s, arr).time == s.time
  {
  }

  lemma {:induction false} FinishLedger(s: Sim, arr: seq<nat>, input: seq<seq<int>>, log: seq<Service>)
    requires Between(s, arr) && Shape(s, arr) && |input| == |arr| && Ledger(s, arr, input, log, s.time)
    ensures var f := Finish(s, arr); Shape(f, arr) && Ledger(f, arr, input, log + RunLog(s, arr), f.time + 1)
    decreases WorkLeft(s), Delay(s, arr)
  {
    hide Ledger, Books, Between, Next, Finish, WorkLeft, Delay, Stopped, Shape, TurnLog;
    RunLogNext(s, arr);
    NextIs(s, arr);
    FinishNext(s, arr);
    StepLedger(s, arr, input, log);
    var s', log' := Next(s, arr), log + TurnLog(s, arr);
    assert log + RunLog(s, arr) == log' + RunLog(s', arr);
    if !s'.over {
      NextLess(s, arr);
      FinishLedger(s', arr, input, log');
    } else {
      assert log' + [] == log';
    }
  }

  /** What can be seen of a process: its services are its bursts, as far as it got, in
      their order, one after the other and in turns; what is reported is when it was
      first and last served. */
  ghost predicate ServedAsGiven(b: seq<int>, arrival: nat, g: seq<Service>, turnaround: int, response: int) {
    && Lengths(g) <= b && TakeTurns(g) && Follows(g)
    && response == (if g == [] then -1 else g[0].time - arrival) && (g != [] ==> g[0].time >= arrival)
    && (turnaround != 0 ==> g != [] && Lengths(g) == b && turnaround == End(g[|g| - 1]) - arrival)
  }

  /** And of the devices: each serves one at a time, and the I/O device in the order in
      which the processor bursts before were served; at most one I/O burst is to come. */
  ghost predicate Consistent(arr: seq<nat>, bursts: seq<seq<int>>, log: seq<Service>, turnaround: seq<int>, response: seq<int>) {
    && |turnaround| == |response| == |bursts| == |arr|
    && (forall i :: 0 <= i < |log| ==> log[i].pid < |arr|)
    && OneAtATime(log)
    && (forall p :: 0 <= p < |arr| ==> ServedAsGiven(bursts[p], arr[p], Of(log, p), turnaround[p], response[p]))
    && IoJobs(log) <= ToIo(log, bursts) && |ToIo(log, bursts)| <= |IoJobs(log)| + 1
  }

  lemma RunIsConsistent(arr: seq<nat>, bursts: seq<seq<int>>)
    requires Proper(arr, bursts)
    ensures Started(Start(arr, bursts), arr)
    ensures var s := Start(arr, bursts);
            var f := Finish(s, arr);
            Consistent(arr, bursts, RunLog(s, arr), f.turnaround, f.response)
  {
    hide Between, Finish, Stopped, RunLog, Ledger, Start, Consistent, Books;
    StartBetween(arr, bursts);
    var s := Start(arr, bursts);
    StartLedger(arr, bursts);
    FinishLedger(s, arr, bursts, []);
    assert [] + RunLog(s, arr) == RunLog(s, arr);
    StoppedEmpty(s, arr);
    LedgerMeans(Finish(s, arr), arr, bursts, RunLog(s, arr));
  }

  lemma StoppedEmpty(s: Sim, arr: seq<nat>)
    requires Started(s, arr)
    ensures var f := Finish(s, arr); f.ready == [] && f.ioq == []
  {
  }

  lemma StartLedger(arr: seq<nat>, bursts: seq<seq<int>>)
    requires Proper(arr, bursts)
    ensures var s := Start(arr, bursts); s.time == 0 && Shape(s, arr) && |bursts| == |arr| && Ledger(s, arr, bursts, [], 0)
  {
    StartBetween(arr, bursts);
    var s := Start(arr, bursts);
    BetweenBooks(s, arr);
    forall p | 0 <= p < |arr| ensures Told(s, arr, bursts[p], Of([], p), 0, p) {
      assert Lengths([]) + QueueOf([], p) + QueueOf([], p) + bursts[p] == bursts[p];
    }
  }

  lemma LedgerMeans(f: Sim, arr: seq<nat>, bursts: seq<seq<int>>, log: seq<Service>)
    requires Shape(f, arr) && |bursts| == |arr| && f.ready == [] && f.ioq == [] && Ledger(f, arr, bursts, log, f.time + 1)
    ensures Consistent(arr, bursts, log, f.turnaround, f.response)
  {
    hide Of, OneAtATime, ToIo, IoJobs, TakeTurns, Follows, Shape, Entries;
    ShapeLengths(f, arr);
    forall p | 0 <= p < |arr| ensures ServedAsGiven(bursts[p], arr[p], Of(log, p), f.turnaround[p], f.response[p]) {
      assert Told(f, arr, bursts[p], Of(log, p), f.time + 1, p);
      var g := Of(log, p);
      assert Lengths(g) + [] + [] + f.bursts[p] == Lengths(g) + f.bursts[p];
    }
    assert IoJobs(log) + [] + InHand(f) == IoJobs(log) + InHand(f);
  }
}
