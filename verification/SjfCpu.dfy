/** Workloads whose processor bursts are at least as long as their I/O: the loop is
    left only when everyone who has come is done. */
module SjfCpu {
  import opened SjfSpec
  import opened SjfRun
  import opened SjfOrder
  import opened SjfBest

  // Processor bursts of at least c ticks and I/O bursts of at most c take turns; io:
  // which is next. The last is for the processor.
  predicate Turns(b: seq<int>, c: int, io: bool) {
    if b == [] then io
    else if io then b[0] <= c && Turns(b[1..], c, false)
    else b[0] >= c && Turns(b[1..], c, true)
  }

  ghost predicate CpuBound(arr: seq<nat>, bursts: seq<seq<int>>, c: int) {
    Proper(arr, bursts) && forall p :: 0 <= p < |arr| ==> Turns(bursts[p], c, false)
  }

  predicate AtCpu(s: Sim, p: nat) {
    Entries(s.ready, p) > 0 || Holds(s.cpu, p)
  }

  // What p has to do after the burst it is at begins with the other device; p has
  // something for the processor to do when it comes.
  ghost predicate InTurn(s: Sim, arr: seq<nat>, c: int, p: nat)
    requires Shape(s, arr) && p < |arr|
  {
    AtCpu(s, p) || s.bursts[p] != [] ==> Turns(s.bursts[p], c, AtCpu(s, p))
  }

  ghost predicate Paced(s: Sim, arr: seq<nat>, c: int)
    requires Shape(s, arr)
  {
    && (forall p :: 0 <= p < |arr| ==> InTurn(s, arr, c, p))
    && (forall p :: 0 <= p < |arr| && (Entries(s.ioq, p) > 0 || Holds(s.io, p)) ==> s.bursts[p] != [])
    && (forall i :: 0 <= i < |s.ready| ==> s.ready[i].burst >= c)
    && (forall i :: 0 <= i < |s.ioq| ==> s.ioq[i].burst <= c)
    && (s.io.Busy? ==> s.io.left <= c)
  }

  // While the processor is busy nobody waits for the I/O device, and what is on it
  // will be done no later.
  predicate Behind(s: Sim) {
    && (s.ioq != [] ==> |s.ioq| == 1 && s.cpu.Idle? && s.io.Idle?)
    && (s.cpu.Busy? && s.io.Busy? ==> s.io.left <= s.cpu.left)
  }

  lemma {:induction false} InsertLong(q: seq<Job>, j: Job, c: int)
    requires j.burst >= c && forall i :: 0 <= i < |q| ==> q[i].burst >= c
    ensures forall i :: 0 <= i < |q| + 1 ==> Insert(q, j)[i].burst >= c
  {
    if q != [] && !Leq(j, q[0]) { InsertLong(q[1..], j, c); }
  }

  // A process that is nowhere gets in line for the processor; so does, if io is let
  // go, the one whose I/O is done.
  lemma PushPaced(s: Sim, arr: seq<nat>, c: int, p0: nat, s': Sim)
    requires Shape(s, arr) && p0 < |arr| && s.bursts[p0] != [] && Paced(s, arr, c) && !AtCpu(s, p0) && Entries(s.ioq, p0) == 0
    requires s' == Push(s, arr, p0).(io := s'.io)
    requires if Holds(s.io, p0) then s'.io == Idle else s'.io == s.io
    ensures Shape(s', arr) && Paced(s', arr, c)
  {
    var j := Job(s.bursts[p0][0], p0);
    assert InTurn(s, arr, c, p0);
    InsertLong(s.ready, j, c);
    forall p | 0 <= p < |arr| ensures InTurn(s', arr, c, p) {
      assert InTurn(s, arr, c, p);
      EntriesInsert(s.ready, j, p);
    }
  }

  lemma {:induction false} ArrivePaced(s: Sim, arr: seq<nat>, c: int, k: nat)
    requires Books(s, arr, s.time, 0, s.time) && Paced(s, arr, c) && k <= |arr|
    requires forall p :: 0 <= p < |arr| && arr[p] == s.time ==> s.bursts[p] != []
    ensures var a := Arrive(s, arr, k); Paced(a, arr, c) && a.ioq == s.ioq
    decreases k
  {
    if k > 0 {
      ArrivePaced(s, arr, c, k - 1);
      ArriveKeeps(s, arr, k - 1);
      var s1 := Arrive(s, arr, k - 1);
      if arr[k - 1] == s.time {
        assert Fine(s1, arr, s.time, k - 1, s.time, k - 1);
        assert Places(s1, k - 1) == 0;
        hide Books, Entries, Insert, Queue;
        PushPaced(s1, arr, c, k - 1, Push(s1, arr, k - 1));
      }
    }
  }

  lemma StartCpuPaced(s: Sim, arr: seq<nat>, c: int)
    requires Shape(s, arr) && Paced(s, arr, c)
    ensures Paced(StartCpu(s, arr), arr, c)
  {
    var s' := StartCpu(s, arr);
    forall p | 0 <= p < |arr| ensures InTurn(s', arr, c, p) {
      assert InTurn(s, arr, c, p);
      if s.cpu.Idle? && s.ready != [] { StartCpuView(s, arr, p); }
    }
  }

  lemma StartIoPaced(s: Sim, arr: seq<nat>, c: int)
    requires Shape(s, arr) && Paced(s, arr, c)
    ensures Paced(StartIo(s, arr), arr, c)
  {
    var s' := StartIo(s, arr);
    forall p | 0 <= p < |arr| ensures InTurn(s', arr, c, p) && (Entries(s'.ioq, p) > 0 || Holds(s'.io, p) ==> s'.bursts[p] != []) {
      assert InTurn(s, arr, c, p);
      if s.io.Idle? && s.ioq != [] { StartIoView(s, arr, p); }
    }
  }

  lemma WorkPaced(s: Sim, arr: seq<nat>, c: int)
    requires Shape(s, arr) && Paced(s, arr, c)
    ensures Paced(Work(s, arr), arr, c)
  {
    hide Entries;
    forall p | 0 <= p < |arr| ensures InTurn(Work(s, arr), arr, c, p) {
      assert InTurn(s, arr, c, p);
    }
  }

  // When both devices have been given work nobody waits for I/O.
  predicate Level(s: Sim) {
    s.ioq == [] && (s.cpu.Busy? && s.io.Busy? ==> s.io.left <= s.cpu.left)
  }

  lemma StartLevel(s: Sim, arr: seq<nat>, c: int)
    requires Shape(s, arr) && Paced(s, arr, c) && Behind(s) && Live(s)
    ensures var m := StartIo(StartCpu(s, arr), arr); Level(m) && Live(m)
  {
    hide Entries, InTurn;
    StartWork(s, arr);
  }

  lemma WorkLevel(m: Sim, arr: seq<nat>)
    requires Shape(m, arr) && Level(m) && Live(m)
    ensures Level(Work(m, arr))
  {
    hide Entries;
  }

  // After I/O there is always something for the processor to do.
  lemma EndIoPaced(w: Sim, arr: seq<nat>, c: int)
    requires Books(w, arr, w.time, |arr|, w.time + 1) && !w.over && Paced(w, arr, c) && Level(w)
    ensures Shape(w, arr)
    ensures var s1 := EndIo(w, arr);
            && !s1.over && Paced(s1, arr, c) && s1.ioq == [] && s1.cpu == w.cpu
            && (s1.io.Busy? ==> s1.io.left >= 1 && (s1.cpu.Busy? ==> s1.io.left <= s1.cpu.left))
  {
    if w.io.Busy? && w.io.left == 0 {
      var p := w.io.pid;
      assert Fine(w, arr, w.time, |arr|, w.time + 1, p);
      assert Holds(w.io, p) && Places(w, p) >= 1;
      assert InTurn(w, arr, c, p) && w.bursts[p] != [];
      PushPaced(w, arr, c, p, Push(w, arr, p).(io := Idle));
    }
  }

  // A processor burst that is not the last is followed by I/O and that by another.
  lemma SendPaced(s: Sim, arr: seq<nat>, c: int)
    requires Shape(s, arr) && Paced(s, arr, c) && s.ioq == [] && s.cpu.Busy? && s.bursts[s.cpu.pid] != []
    requires Places(s, s.cpu.pid) == 1
    ensures var s' := Send(s, arr, s.cpu.pid).(cpu := Idle); Paced(s', arr, c) && |s'.ioq| == 1
  {
    var p0 := s.cpu.pid;
    var s' := Send(s, arr, p0).(cpu := Idle);
    assert InTurn(s, arr, c, p0) && Holds(s.cpu, p0);
    assert Turns(s.bursts[p0][1..], c, false) && s.bursts[p0][1..] != [];
    forall p | 0 <= p < |arr| ensures InTurn(s', arr, c, p) && (Entries(s'.ioq, p) > 0 || Holds(s'.io, p) ==> s'.bursts[p] != []) {
      assert InTurn(s, arr, c, p);
      assert Holds(s.io, p) ==> s.bursts[p] != [];
      EntriesAppend(s.ioq, Job(s.bursts[p0][0], p0), p);
    }
  }

  lemma CompletePaced(s: Sim, arr: seq<nat>, c: int)
    requires Shape(s, arr) && Paced(s, arr, c) && s.cpu.Busy? && s.bursts[s.cpu.pid] == []
    ensures Paced(Complete(s, arr, s.cpu.pid).(cpu := Idle), arr, c)
  {
    var s' := Complete(s, arr, s.cpu.pid).(cpu := Idle);
    hide Entries;
    forall p | 0 <= p < |arr| ensures InTurn(s', arr, c, p) {
      assert InTurn(s, arr, c, p);
    }
  }

  // If the end of a processor burst ends the loop, the I/O device is idle.
  lemma EndCpuPaced(s: Sim, arr: seq<nat>, c: int)
    requires Books(s, arr, s.time, |arr|, s.time + 1) && !s.over && Paced(s, arr, c) && s.ioq == []
    requires s.io.Busy? ==> s.io.left >= 1 && (s.cpu.Busy? ==> s.io.left <= s.cpu.left)
    ensures Shape(s, arr)
    ensures var s' := EndCpu(s, arr);
            && (s'.over ==> s'.io == Idle && s'.cpu.Busy? && s'.cpu.left == 0 && s'.turnaround[s'.cpu.pid] != 0)
            && (!s'.over ==> Paced(s', arr, c) && Behind(s'))
  {
    if s.cpu.Busy? && s.cpu.left == 0 {
      var p0 := s.cpu.pid;
      assert Fine(s, arr, s.time, |arr|, s.time + 1, p0);
      assert Places(s, p0) >= 1 && InTurn(s, arr, c, p0);
      if s.bursts[p0] != [] { SendPaced(s, arr, c); } else { CompletePaced(s, arr, c); }
    }
  }

  /** --- Runs --- */

  // The loop was left at the end of a last processor burst, with no I/O going on.
  predicate CleanEnd(s: Sim) {
    s.over && s.io == Idle && s.cpu.Busy? && s.cpu.left == 0 && s.cpu.pid < |s.turnaround| && s.turnaround[s.cpu.pid] != 0
  }

  lemma EndedPaced(w: Sim, arr: seq<nat>, c: int)
    requires Books(w, arr, w.time, |arr|, w.time + 1) && Shape(w, arr) && !w.over && Paced(w, arr, c) && Level(w)
    ensures var s' := Ended(w, arr);
            && Shape(s', arr)
            && (s'.over ==> CleanEnd(s'))
            && (!s'.over ==> Paced(s', arr, c) && Behind(s'))
  {
    hide EndIo, EndCpu, Paced, Behind, Books, Shape, Level;
    EndIoPaced(w, arr, c);
    EndIoKeeps(w, arr, |arr|);
    var s1 := EndIo(w, arr);
    EndCpuPaced(s1, arr, c);
    var s2 := EndCpu(s1, arr);
    PidsInside(s2, arr);
    if !s2.over { SameButTime(s2, arr, c); }
  }

  lemma PidsInside(s: Sim, arr: seq<nat>)
    requires Shape(s, arr)
    ensures s.cpu.Busy? ==> s.cpu.pid < |s.turnaround|
  {
  }

  lemma SameButTime(s: Sim, arr: seq<nat>, c: int)
    requires Shape(s, arr) && Paced(s, arr, c) && Behind(s)
    ensures var s' := s.(time := s.time + 1); Shape(s', arr) && Paced(s', arr, c) && Behind(s')
  {
    hide Entries;
    var s' := s.(time := s.time + 1);
    forall p | 0 <= p < |arr| ensures InTurn(s', arr, c, p) {
      assert InTurn(s, arr, c, p);
    }
  }

  lemma StepPaced(s: Sim, arr: seq<nat>, c: int)
    requires Between(s, arr) && Shape(s, arr) && Paced(s, arr, c) && Behind(s)
    ensures var s' := Next(s, arr);
            && (!s'.over ==> Between(s', arr) && Shape(s', arr) && Paced(s', arr, c) && Behind(s'))
            && (s'.over ==> CleanEnd(s'))
  {
    hide Worked, Ended, Arrive, StartCpu, StartIo, Work, EndIo, EndCpu, Next, Paced, Behind, Books, Between, Live,
         Shape, Level, Stopped, CleanEnd;
    NextIs(s, arr);
    NotOver(s, arr);
    var a, w := Arrive(s, arr, |arr|), Worked(s, arr);
    ArrivePaced(s, arr, c, |arr|);
    ArriveKeeps(s, arr, |arr|);
    StillBehind(s, a);
    LiveToo(s, a);
    StartCpuPaced(a, arr, c);
    StartIoPaced(StartCpu(a, arr), arr, c);
    StartLevel(a, arr, c);
    var m := StartIo(StartCpu(a, arr), arr);
    WorkPaced(m, arr, c);
    WorkLevel(m, arr);
    WorkedIs(s, arr);
    EndedPaced(w, arr, c);
  }

  lemma StillBehind(s: Sim, a: Sim)
    requires Behind(s) && a.ioq == s.ioq && a.cpu == s.cpu && a.io == s.io
    ensures Behind(a)
  {
  }

  lemma {:induction false} FinishPaced(s: Sim, arr: seq<nat>, c: int)
    requires Between(s, arr) && Shape(s, arr) && Paced(s, arr, c) && Behind(s)
    ensures CleanEnd(Finish(s, arr))
    decreases WorkLeft(s), Delay(s, arr)
  {
    hide Books, Between, Next, Finish, WorkLeft, Delay, Stopped, Paced, Behind, Shape, CleanEnd;
    StepPaced(s, arr, c);
    FinishNext(s, arr);
    if !Next(s, arr).over {
      NextLess(s, arr);
      FinishPaced(Next(s, arr), arr, c);
    }
  }

  lemma StartPaced(arr: seq<nat>, bursts: seq<seq<int>>, c: int)
    requires CpuBound(arr, bursts, c)
    ensures var s := Start(arr, bursts);
            Between(s, arr) && Shape(s, arr) && Paced(s, arr, c) && Behind(s)
  {
    StartBetween(arr, bursts);
    var s := Start(arr, bursts);
    BetweenBooks(s, arr);
    forall p | 0 <= p < |arr| ensures InTurn(s, arr, c, p) { }
  }

  /** If everyone ends with a processor burst and no I/O burst is longer than any
      processor burst, exactly those are unfinished that have not come. */
  lemma CpuBoundFinishes(arr: seq<nat>, bursts: seq<seq<int>>, c: int, p: nat)
    requires CpuBound(arr, bursts, c) && p < |arr|
    ensures Started(Start(arr, bursts), arr)
    ensures var f := Finish(Start(arr, bursts), arr);
            p < |f.turnaround| && (f.turnaround[p] == 0 <==> arr[p] > f.time) && Earliest(arr) <= f.time
  {
    StartPaced(arr, bursts, c);
    FinishPaced(Start(arr, bursts), arr, c);
    LoopResult(arr, bursts, p);
    var f := Finish(Start(arr, bursts), arr);
    hide Finish, Start, Between, Books, Paced, Stopped;
    LoopResult(arr, bursts, f.cpu.pid);
  }

  // Exactly those are unfinished that come after tick end.
  ghost predicate DoneBy(arr: seq<nat>, turnaround: seq<int>, end: nat) {
    && |turnaround| == |arr| > 0 && Earliest(arr) <= end
    && forall p :: 0 <= p < |arr| ==> (turnaround[p] == 0 <==> arr[p] > end)
  }

  lemma CpuBoundDone(arr: seq<nat>, bursts: seq<seq<int>>, c: int)
    requires CpuBound(arr, bursts, c)
    ensures Started(Start(arr, bursts), arr)
    ensures var f := Finish(Start(arr, bursts), arr); DoneBy(arr, f.turnaround, f.time)
  {
    hide Finish, Start, Between, Turns, Earliest, Shape;
    CpuBoundFinishes(arr, bursts, c, 0);
    LoopResult(arr, bursts, 0);
    var f := Finish(Start(arr, bursts), arr);
    forall p | 0 <= p < |arr| ensures p < |f.turnaround| && (f.turnaround[p] == 0 <==> arr[p] > f.time) {
      CpuBoundFinishes(arr, bursts, c, p);
    }
    LengthIs(f, arr);
  }

  // Somebody has come by tick t who cannot be done by its end.
  ghost predicate CoveredAt(arr: seq<nat>, bursts: seq<seq<int>>, t: nat)
    requires |bursts| == |arr|
  {
    exists p: nat :: p < |arr| && Covers(arr, bursts, t, p)
  }

  predicate Covers(arr: seq<nat>, bursts: seq<seq<int>>, t: nat, p: nat)
    requires |bursts| == |arr| && p < |arr|
  {
    arr[p] <= t && arr[p] + Sum(bursts[p]) > t + 1
  }

  // The loop was not left before the last arrival.
  lemma CoveredUntil(arr: seq<nat>, bursts: seq<seq<int>>, c: int)
    requires CpuBound(arr, bursts, c)
    requires forall t: nat :: Earliest(arr) <= t < Latest(arr) ==> CoveredAt(arr, bursts, t)
    ensures Started(Start(arr, bursts), arr) && Finish(Start(arr, bursts), arr).time >= Latest(arr)
  {
    CpuBoundFinishes(arr, bursts, c, 0);
    var f := Finish(Start(arr, bursts), arr);
    if f.time < Latest(arr) {
      assert CoveredAt(arr, bursts, f.time);
      var q: nat :| q < |arr| && Covers(arr, bursts, f.time, q);
      NotCovered(arr, bursts, c, q);
    }
  }

  // Who had come by the end of the loop was done by its end.
  lemma NotCovered(arr: seq<nat>, bursts: seq<seq<int>>, c: int, q: nat)
    requires CpuBound(arr, bursts, c) && q < |arr|
    ensures Started(Start(arr, bursts), arr) && !Covers(arr, bursts, Finish(Start(arr, bursts), arr).time, q)
  {
    CpuBoundFinishes(arr, bursts, c, q);
    LoopResult(arr, bursts, q);
    FinishStopped(arr, bursts);
    var f := Finish(Start(arr, bursts), arr);
    hide Finish, Start, Between, Books, Paced, Turns, Sum, Stopped;
    OnTime(f, arr, q);
  }

  lemma FinishStopped(arr: seq<nat>, bursts: seq<seq<int>>)
    requires Proper(arr, bursts)
    ensures Started(Start(arr, bursts), arr) && Stopped(Finish(Start(arr, bursts), arr), arr)
  {
    StartBetween(arr, bursts);
    hide Stopped, Finish;
  }

  // A finished process was finished by the end.
  lemma OnTime(f: Sim, arr: seq<nat>, p: nat)
    requires Stopped(f, arr) && p < |arr|
    ensures Shape(f, arr) && (f.turnaround[p] != 0 ==> f.turnaround[p] <= f.time + 1 - arr[p])
  {
    assert Fine(Released(f), arr, f.time, |arr|, f.time + 1, p);
  }

  /** If, besides, at every tick between the first and the last arrival somebody has
      come who cannot be done by its end, everyone finishes. */
  lemma CoveredFinishes(arr: seq<nat>, bursts: seq<seq<int>>, c: int)
    requires CpuBound(arr, bursts, c)
    requires forall t: nat :: Earliest(arr) <= t < Latest(arr) ==> CoveredAt(arr, bursts, t)
    ensures Started(Start(arr, bursts), arr)
    ensures var f := Finish(Start(arr, bursts), arr);
            |f.turnaround| == |arr| && forall p :: 0 <= p < |arr| ==> f.turnaround[p] != 0
  {
    CoveredUntil(arr, bursts, c);
    CpuBoundDone(arr, bursts, c);
    hide Finish, Start, Between, Turns, CoveredAt, Earliest, Latest;
    forall p | 0 <= p < |arr| ensures arr[p] <= Latest(arr) { LatestIs(arr, p); }
  }

  lemma LengthIs(f: Sim, arr: seq<nat>)
    requires Shape(f, arr)
    ensures |f.turnaround| == |arr|
  {
  }

  /** --- The first input file that comes with the simulator --- */

  function FileArrivals(): seq<nat> {
    [0, 2, 3, 4, 5, 6, 10]
  }

  function FileBursts(): seq<seq<int>> {
    [[100, 2, 90, 2, 80, 3, 70, 2, 60, 2, 10],
     [80, 2, 80, 2, 50, 3, 70, 2, 40, 2, 10],
     [70, 2, 70, 2, 40, 3, 70, 2, 20, 2, 10],
     [10, 2, 60, 2, 30, 3, 70, 2, 10, 2, 10],
     [3, 2, 3, 2, 3],
     [5],
     [200, 2, 3]]
  }

  // Turns, place by place.
  lemma {:induction false} TurnsByPlace(b: seq<int>, c: int, io: bool)
    requires |b| % 2 == (if io then 0 else 1)
    requires forall i :: 0 <= i < |b| ==> if (i % 2 == 0) == io then b[i] <= c else b[i] >= c
    ensures Turns(b, c, io)
  {
    if b != [] {
      assert forall i :: 0 <= i < |b| - 1 ==> b[1..][i] == b[i + 1];
      TurnsByPlace(b[1..], c, !io);
    }
  }

  lemma FileTurns(p: nat)
    requires p < |FileArrivals()|
    ensures |FileBursts()| == |FileArrivals()| && Turns(FileBursts()[p], 3, false)
  {
    hide Turns;
    TurnsByPlace(FileBursts()[p], 3, false);
  }

  lemma FileCpuBound()
    ensures CpuBound(FileArrivals(), FileBursts(), 3) && |FileBursts()| == |FileArrivals()| > 0
  {
    hide Turns;
    forall p | 0 <= p < |FileArrivals()| ensures Turns(FileBursts()[p], 3, false) { FileTurns(p); }
  }

  // The first process needs its processor burst of 100 ticks, and the last comes at 10.
  lemma FileCovered(t: nat)
    requires t < Latest(FileArrivals())
    ensures CoveredAt(FileArrivals(), FileBursts(), t)
  {
    FileLatest();
    SumNat(FileBursts()[0][1..]);
    assert Sum(FileBursts()[0]) >= 100;
    assert Covers(FileArrivals(), FileBursts(), t, 0);
  }

  lemma FileLatest()
    ensures Latest(FileArrivals()) == 10
  {
    var arr := FileArrivals();
    assert arr[1..][1..][1..][1..][1..][1..] == [10];
  }

  /** Every process of it finishes. */
  lemma FileFinishes()
    ensures var arr := FileArrivals();
            && Started(Start(arr, FileBursts()), arr)
            && var f := Finish(Start(arr, FileBursts()), arr);
            |f.turnaround| == |arr| && forall p :: 0 <= p < |arr| ==> f.turnaround[p] != 0
  {
    hide CpuBound, CoveredAt, Start, Finish, Between, FileArrivals, FileBursts, Latest, Earliest;
    FileCpuBound();
    var arr, bursts := FileArrivals(), FileBursts();
    forall t: nat | Earliest(arr) <= t < Latest(arr) ensures CoveredAt(arr, bursts, t) { FileCovered(t); }
    CoveredFinishes(arr, bursts, 3);
  }
}
