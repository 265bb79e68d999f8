/** Workloads with I/O: one on which the simulation stops too early, and a condition
    under which it does not. */
module SjfIo {
  import opened SjfSpec
  import opened SjfRun
  import opened SjfOrder
  import opened SjfBest

  /** --- A device is busy when the loop ends --- */

  function BusyBursts(): (b: seq<seq<int>>)
    ensures |b| == 2
  {
    [[1, 5], [1]]
  }

  function Together(): (arr: seq<nat>)
    ensures |arr| == 2
  {
    [0, 0]
  }

  // Both have arrived.
  function BothReady(): Sim {
    Sim(0, [Job(1, 0), Job(1, 1)], [], Idle, Idle, [[5], []], [0, 0], [-1, -1], [0, 0], [0, 0], [0, 0], false)
  }

  // After the first tick process 0 waits for the I/O device.
  function AfterFirst(): Sim {
    Sim(1, [Job(1, 1)], [Job(5, 0)], Idle, Idle, [[], []], [1, 0], [0, -1], [0, 0], [0, 0], [0, 1], false)
  }

  // After the second process 1 is done, process 0 is not.
  function AfterSecond(): Sim {
    Sim(1, [], [], Busy(1, 0), Busy(0, 4), [[], []], [6, 1], [0, 1], [0, 2], [0, 1], [0, 1], true)
  }

  lemma BothArrive()
    ensures Proper(Together(), BusyBursts()) && Shape(Start(Together(), BusyBursts()), Together())
    ensures Shape(BothReady(), Together()) && Arrive(Start(Together(), BusyBursts()), Together(), 2) == BothReady()
  {
    var arr, s := Together(), Start(Together(), BusyBursts());
    OneArrives();
    var a1 := Arrive(s, arr, 1);
    assert s.bursts[1][1..] == [];
    assert Insert([Job(1, 0)], Job(1, 1)) == [Job(1, 0), Job(1, 1)] by { assert [Job(1, 0)][1..] == []; }
    assert Arrive(s, arr, 2) == Push(a1, arr, 1);
  }

  lemma OneArrives()
    ensures Shape(Start(Together(), BusyBursts()), Together())
    ensures Arrive(Start(Together(), BusyBursts()), Together(), 1)
         == Start(Together(), BusyBursts()).(ready := [Job(1, 0)], bursts := [[5], [1]])
  {
    var arr, s := Together(), Start(Together(), BusyBursts());
    assert s.bursts[0][1..] == [5];
    assert Arrive(s, arr, 1) == Push(Arrive(s, arr, 0), arr, 0);
  }

  function BothStarted(): Sim {
    Sim(0, [Job(1, 1)], [], Busy(0, 1), Idle, [[5], []], [1, 0], [0, -1], [0, 0], [0, 0], [0, 0], false)
  }

  lemma FirstTick()
    ensures Shape(BothReady(), Together())
    ensures var s := BothReady();
            Ended(Work(StartIo(StartCpu(s, Together()), Together()), Together()), Together()) == AfterFirst()
  {
    BothArrive();
    var arr, s := Together(), BothReady();
    assert StartIo(StartCpu(s, arr), arr) == BothStarted() by { assert s.ready[1..] == [Job(1, 1)]; }
    hide StartCpu, StartIo, Arrive, BothReady;
    FirstEnd();
  }

  lemma FirstEnd()
    requires Shape(BothStarted(), Together())
    ensures Ended(Work(BothStarted(), Together()), Together()) == AfterFirst()
  {
    var arr, m := Together(), BothStarted();
    var w := Work(m, arr);
    assert Entries(m.ready, 0) == 0 && Entries(m.ready, 1) == 1 by { assert m.ready[1..] == []; }
    assert w.queued == [0, 1] && w.cpu == Busy(0, 0);
    hide Work, Entries;
    assert EndIo(w, arr) == w;
    assert w.bursts[0][1..] == [] && w.bursts[0][0] == 5;
    assert EndCpu(w, arr).bursts == [[], []];
  }

  lemma SecondTick()
    ensures Shape(AfterFirst(), Together())
    ensures Ended(Work(StartIo(StartCpu(AfterFirst(), Together()), Together()), Together()), Together()) == AfterSecond()
  {
    var arr, s := Together(), AfterFirst();
    var m := StartIo(StartCpu(s, arr), arr);
    assert m.ready == [] && m.ioq == [] && m.cpu == Busy(1, 1) && m.io == Busy(0, 5);
    var w := Work(m, arr);
    assert w.queued == [0, 1] && w.cpu == Busy(1, 0) && w.io == Busy(0, 4);
    assert EndIo(w, arr) == w;
  }

  // One turn of the loop, its arrivals known.
  lemma TickIs(s: Sim, arr: seq<nat>, a: Sim, t: Sim)
    requires Between(s, arr) && Shape(s, arr) && (forall p :: 0 <= p < |arr| && arr[p] == s.time ==> s.bursts[p] != [])
    requires Shape(a, arr) && Arrive(s, arr, |arr|) == a && Ended(Work(StartIo(StartCpu(a, arr), arr), arr), arr) == t
    ensures !t.over ==> Between(t, arr)
    ensures Finish(s, arr) == if t.over then t else Finish(t, arr)
  {
    hide Between, Books, Arrive, StartCpu, StartIo, Work, Ended, Next, Shape, Stopped, Finish, Worked;
    NextIs(s, arr);
    WorkedIs(s, arr);
    FinishNext(s, arr);
  }

  // Process 0 is on the I/O device when the end of process 1 ends the loop.
  lemma StopsWhileBusy()
    ensures Started(Start(Together(), BusyBursts()), Together())
    ensures var f := Finish(Start(Together(), BusyBursts()), Together());
            f.turnaround == [0, 2] && f.io == Busy(0, 4)
  {
    hide Between, Books, Start, Arrive, StartCpu, StartIo, Work, Ended, Next, Stopped, Finish, BusyBursts, Together,
         Shape, AfterFirst, BothReady;
    var arr, s := Together(), Start(Together(), BusyBursts());
    BothArrive();
    FirstTick();
    SecondTick();
    BusyFacts();
    TickIs(s, arr, BothReady(), AfterFirst());
    TickIs(AfterFirst(), arr, AfterFirst(), AfterSecond());
  }

  lemma BusyFacts()
    ensures var arr, s := Together(), Start(Together(), BusyBursts());
            && |arr| == 2 && Between(s, arr) && forall p :: 0 <= p < |arr| && arr[p] == s.time ==> s.bursts[p] != []
    ensures var arr, s := Together(), AfterFirst();
            && !s.over && Shape(s, arr) && (forall p :: 0 <= p < |arr| ==> arr[p] != s.time) && Arrive(s, arr, 2) == s
  {
    var arr := Together();
    StartBetween(arr, BusyBursts());
    assert forall p :: 0 <= p < 2 ==> AfterFirst().time != arr[p];
    ArriveNone(AfterFirst(), arr, 2);
  }

  /** --- Leaving the loop at the end of an I/O burst --- */

  // The I/O device is done with somebody's last burst, and nobody is queued.
  ghost predicate LastIo(w: Sim, arr: seq<nat>)
    requires Shape(w, arr)
  {
    && w.io.Busy? && w.io.left == 0 && w.bursts[w.io.pid] == []
    && w.ready == [] && w.ioq == []
  }

  // Exactly then the loop is left before the processor is looked at, and a process that
  // has the processor is left on it, whatever it still needs.
  lemma StopsAtLastIo(s: Sim, arr: seq<nat>)
    requires Between(s, arr)
    ensures Shape(s, arr) && forall p :: 0 <= p < |arr| && arr[p] == s.time ==> s.bursts[p] != []
    ensures var w := Worked(s, arr);
            && (EndIo(w, arr).over <==> LastIo(w, arr))
            && (LastIo(w, arr) ==>
                  && Finish(s, arr) == EndIo(w, arr) && Finish(s, arr).cpu == w.cpu && Finish(s, arr).time == s.time
                  && (w.cpu.Busy? ==>
                        w.cpu.pid < |Finish(s, arr).turnaround| && Finish(s, arr).turnaround[w.cpu.pid] == 0))
  {
    hide Between, Books, Worked, Next, Finish, Shape, EndCpu;
    NextIs(s, arr);
    FinishNext(s, arr);
    var w := Worked(s, arr);
    EndIoLeaves(w, arr);
  }

  // The processor is done with somebody's last burst, and nobody is queued.
  ghost predicate LastCpu(w: Sim, arr: seq<nat>)
    requires Shape(w, arr)
  {
    && w.cpu.Busy? && w.cpu.left == 0 && w.bursts[w.cpu.pid] == []
    && w.ready == [] && w.ioq == []
  }

  // Otherwise it is left exactly at such an end, and a process that has the I/O device
  // is left on it.
  lemma StopsAtLastCpu(s: Sim, arr: seq<nat>)
    requires Between(s, arr)
    ensures Shape(s, arr) && forall p :: 0 <= p < |arr| && arr[p] == s.time ==> s.bursts[p] != []
    ensures var w := Worked(s, arr);
            var s1 := EndIo(w, arr);
            !LastIo(w, arr) ==>
              && (Next(s, arr).over <==> LastCpu(s1, arr))
              && (LastCpu(s1, arr) ==>
                    && Finish(s, arr) == EndCpu(s1, arr) && Finish(s, arr).io == s1.io && Finish(s, arr).time == s.time
                    && (s1.io.Busy? ==>
                          s1.io.pid < |Finish(s, arr).turnaround| && Finish(s, arr).turnaround[s1.io.pid] == 0))
  {
    hide Between, Books, Worked, Next, Finish, Shape, EndCpu, EndIo, LastIo, LastCpu, Ended;
    NextIs(s, arr);
    FinishNext(s, arr);
    var w := Worked(s, arr);
    EndIoLeaves(w, arr);
    EndIoKeeps(w, arr, |arr|);
    if !LastIo(w, arr) {
      EndCpuLeaves(w, arr);
    }
  }

  lemma EndCpuLeaves(w: Sim, arr: seq<nat>)
    requires Books(w, arr, w.time, |arr|, w.time + 1) && Shape(w, arr) && !EndIo(w, arr).over
    requires Books(Released(EndIo(w, arr)), arr, w.time, |arr|, w.time + 1)
    ensures var s1 := EndIo(w, arr);
            var s' := EndCpu(s1, arr);
            && (Ended(w, arr).over <==> LastCpu(s1, arr))
            && (LastCpu(s1, arr) ==>
                  && Ended(w, arr) == s' && s'.io == s1.io && s'.time == w.time
                  && (s1.io.Busy? ==> s1.io.pid < |s'.turnaround| && s'.turnaround[s1.io.pid] == 0))
  {
    hide Insert, Entries, EndIo;
    var s1 := EndIo(w, arr);
    if s1.io.Busy? { OnIoUnfinished(s1, arr, w.time); }
    EndIoTime(w, arr);
  }

  lemma EndIoTime(w: Sim, arr: seq<nat>)
    requires Shape(w, arr)
    ensures EndIo(w, arr).time == w.time
  {
    hide Insert, Entries;
  }

  lemma OnIoUnfinished(w: Sim, arr: seq<nat>, time: nat)
    requires Books(w, arr, time, |arr|, time + 1) && w.io.Busy?
    ensures Shape(w, arr) && w.turnaround[w.io.pid] == 0 && (w.cpu.Busy? ==> w.io.pid != w.cpu.pid)
  {
    assert Fine(w, arr, time, |arr|, time + 1, w.io.pid);
    assert Places(w, w.io.pid) >= 1;
  }

  lemma EndIoLeaves(w: Sim, arr: seq<nat>)
    requires Books(w, arr, w.time, |arr|, w.time + 1) && !w.over
    ensures Shape(w, arr)
    ensures EndIo(w, arr).over <==> LastIo(w, arr)
    ensures var s' := EndIo(w, arr);
            LastIo(w, arr) ==>
              && Ended(w, arr) == s' && s'.cpu == w.cpu && s'.time == w.time
              && (w.cpu.Busy? ==> w.cpu.pid < |s'.turnaround| && s'.turnaround[w.cpu.pid] == 0)
  {
    hide Insert, Entries;
    if w.cpu.Busy? { OnCpuUnfinished(w, arr); }
  }

  lemma OnCpuUnfinished(w: Sim, arr: seq<nat>)
    requires Books(w, arr, w.time, |arr|, w.time + 1) && w.cpu.Busy?
    ensures Shape(w, arr) && w.turnaround[w.cpu.pid] == 0 && (w.io.Busy? ==> w.io.pid != w.cpu.pid)
  {
    assert Fine(w, arr, w.time, |arr|, w.time + 1, w.cpu.pid);
    assert Places(w, w.cpu.pid) >= 1;
  }

  /** --- Input on which everyone finishes: all are there at tick 0, everyone's last
      burst is I/O, and every I/O burst is longer than every processor burst --- */

  // Processor bursts of at most c ticks and longer I/O bursts take turns; io: which
  // is next. The last is I/O.
  predicate Alternates(b: seq<int>, c: int, io: bool) {
    if b == [] then !io
    else if io then b[0] > c && Alternates(b[1..], c, false)
    else b[0] <= c && Alternates(b[1..], c, true)
  }

  ghost predicate IoBound(arr: seq<nat>, bursts: seq<seq<int>>, c: int) {
    Proper(arr, bursts) && AllAtZero(arr) && forall p :: 0 <= p < |arr| ==> Alternates(bursts[p], c, false)
  }

  // What p still has to do begins with I/O exactly if it has, or waits for, the processor.
  ghost predicate InTurn(s: Sim, arr: seq<nat>, c: int, p: nat)
    requires Shape(s, arr) && p < |arr|
  {
    Alternates(s.bursts[p], c, Entries(s.ready, p) > 0 || Holds(s.cpu, p))
  }

  ghost predicate Paced(s: Sim, arr: seq<nat>, c: int)
    requires Shape(s, arr)
  {
    && (forall p :: 0 <= p < |arr| ==> InTurn(s, arr, c, p))
    && (forall i :: 0 <= i < |s.ready| ==> s.ready[i].burst <= c)
    && (forall i :: 0 <= i < |s.ioq| ==> s.ioq[i].burst > c)
    && (s.cpu.Busy? ==> s.cpu.left <= c)
  }

  // While the I/O device is busy and nobody waits for it, the processor will be
  // done first, or has nothing to do.
  predicate Ahead(s: Sim) {
    s.io.Busy? && s.ioq == [] ==> if s.cpu.Busy? then s.cpu.left < s.io.left else s.ready == []
  }

  lemma {:induction false} InsertShort(q: seq<Job>, j: Job, c: int)
    requires j.burst <= c && forall i :: 0 <= i < |q| ==> q[i].burst <= c
    ensures forall i :: 0 <= i < |q| + 1 ==> Insert(q, j)[i].burst <= c
  {
    if q != [] && !Leq(j, q[0]) { InsertShort(q[1..], j, c); }
  }

  // A process that is nowhere, or has just done its I/O, gets in line for the processor.
  lemma PushPaced(s: Sim, arr: seq<nat>, c: int, p0: nat)
    requires Shape(s, arr) && p0 < |arr| && s.bursts[p0] != [] && Paced(s, arr, c)
    requires Entries(s.ready, p0) == 0 && !Holds(s.cpu, p0)
    ensures Paced(Push(s, arr, p0), arr, c)
  {
    var j, s' := Job(s.bursts[p0][0], p0), Push(s, arr, p0);
    assert InTurn(s, arr, c, p0);
    InsertShort(s.ready, j, c);
    forall p | 0 <= p < |arr| ensures InTurn(s', arr, c, p) {
      assert InTurn(s, arr, c, p);
      EntriesInsert(s.ready, j, p);
    }
  }

  lemma {:induction false} ArrivePaced(s: Sim, arr: seq<nat>, c: int, k: nat)
    requires Books(s, arr, s.time, 0, s.time) && Paced(s, arr, c) && k <= |arr|
    requires forall p :: 0 <= p < |arr| && arr[p] == s.time ==> s.bursts[p] != []
    ensures Paced(Arrive(s, arr, k), arr, c)
    decreases k
  {
    if k > 0 {
      ArrivePaced(s, arr, c, k - 1);
      ArriveKeeps(s, arr, k - 1);
      var s1 := Arrive(s, arr, k - 1);
      if arr[k - 1] == s.time {
        assert Fine(s1, arr, s.time, k - 1, s.time, k - 1);
        assert Places(s1, k - 1) == 0;
        hide Books, Entries, Insert, Queue;
        PushPaced(s1, arr, c, k - 1);
      }
    }
  }

  lemma StartCpuPaced(s: Sim, arr: seq<nat>, c: int)
    requires Shape(s, arr) && Paced(s, arr, c)
    ensures Paced(StartCpu(s, arr), arr, c)
  {
    var s' := StartCpu(s, arr);
    forall p | 0 <= p < |arr| ensures InTurn(s', arr, c, p) {
      assert InTurn(s, arr, c, p);
      if s.cpu.Idle? && s.ready != [] { StartCpuView(s, arr, p); }
    }
  }

  lemma StartIoPaced(s: Sim, arr: seq<nat>, c: int)
    requires Shape(s, arr) && Paced(s, arr, c)
    ensures Paced(StartIo(s, arr), arr, c) && Paced(Work(s, arr), arr, c)
  {
    hide Entries;
    forall p | 0 <= p < |arr| ensures InTurn(StartIo(s, arr), arr, c, p) && InTurn(Work(s, arr), arr, c, p) {
      assert InTurn(s, arr, c, p);
    }
  }

  // The I/O device starts on a burst that is longer than what the processor has left.
  lemma StartAhead(s: Sim, arr: seq<nat>, c: int)
    requires Shape(s, arr) && Paced(s, arr, c) && Ahead(s) && Live(s)
    ensures var m := StartIo(StartCpu(s, arr), arr); Ahead(m) && Live(m) && Manned(m)
  {
    hide Entries, InTurn;
    StartWork(s, arr);
  }

  lemma WorkAhead(m: Sim, arr: seq<nat>)
    requires Shape(m, arr) && Ahead(m) && Live(m) && Manned(m)
    ensures var w := Work(m, arr); Ahead(w) && Manned(w)
  {
    hide Entries;
  }

  lemma CompletePaced(s: Sim, arr: seq<nat>, c: int, p0: nat)
    requires Shape(s, arr) && Paced(s, arr, c) && p0 < |arr|
    ensures Paced(Complete(s, arr, p0), arr, c)
  {
    hide Entries;
    forall p | 0 <= p < |arr| ensures InTurn(Complete(s, arr, p0), arr, c, p) {
      assert InTurn(s, arr, c, p);
    }
  }

  lemma IdlePaced(s: Sim, arr: seq<nat>, c: int)
    requires Shape(s, arr) && Paced(s, arr, c)
    ensures Shape(s.(io := Idle), arr) && Paced(s.(io := Idle), arr, c)
  {
    hide Entries;
    forall p | 0 <= p < |arr| ensures InTurn(s.(io := Idle), arr, c, p) {
      assert InTurn(s, arr, c, p);
    }
  }

  // After an I/O burst either somebody waits or nobody is left.
  lemma EndIoPaced(w: Sim, arr: seq<nat>, c: int)
    requires Books(w, arr, w.time, |arr|, w.time + 1) && !w.over && Paced(w, arr, c) && Ahead(w) && Manned(w)
    ensures Shape(w, arr)
    ensures var s1 := EndIo(w, arr);
            && (s1.over ==> s1.cpu == Idle && s1.io.Busy? && s1.io.left == 0)
            && (!s1.over ==> Paced(s1, arr, c) && Ahead(s1) && s1.cpu == w.cpu)
  {
    if w.io.Busy? && w.io.left == 0 {
      var p := w.io.pid;
      assert Fine(w, arr, w.time, |arr|, w.time + 1, p);
      assert Places(w, p) >= 1;
      if w.bursts[p] != [] {
        PushPaced(w, arr, c, p);
        IdlePaced(Push(w, arr, p), arr, c);
      } else {
        CompletePaced(w, arr, c, p);
        IdlePaced(Complete(w, arr, p), arr, c);
      }
    }
  }

  // A processor burst is always followed by I/O.
  lemma EndCpuPaced(s: Sim, arr: seq<nat>, c: int)
    requires Books(s, arr, s.time, |arr|, s.time + 1) && !s.over && Paced(s, arr, c) && Ahead(s)
    ensures Shape(s, arr)
    ensures var s' := EndCpu(s, arr); !s'.over && Paced(s', arr, c) && Ahead(s')
  {
    if s.cpu.Busy? && s.cpu.left == 0 {
      var p0 := s.cpu.pid;
      assert Fine(s, arr, s.time, |arr|, s.time + 1, p0);
      assert Places(s, p0) >= 1 && InTurn(s, arr, c, p0);
      var s' := Send(s, arr, p0).(cpu := Idle);
      hide Entries;
      forall p | 0 <= p < |arr| ensures InTurn(s', arr, c, p) {
        assert InTurn(s, arr, c, p);
      }
    }
  }

  lemma StepPaced(s: Sim, arr: seq<nat>, c: int)
    requires Between(s, arr) && Shape(s, arr) && Paced(s, arr, c) && Ahead(s) && AllAtZero(arr)
    requires s.time == 0 ==> s.io == Idle
    ensures var s' := Next(s, arr);
            && (!s'.over ==> Between(s', arr) && Shape(s', arr) && Paced(s', arr, c) && Ahead(s') && s'.time > 0)
            && (s'.over ==> AllDone(s'))
  {
    hide Worked, Ended, Arrive, StartCpu, StartIo, Work, EndIo, EndCpu, Next, Paced, Ahead, Books, Between, Live,
         Shape, Manned, Stopped, AllAtZero;
    NextIs(s, arr);
    NotOver(s, arr);
    var a, w := Arrive(s, arr, |arr|), Worked(s, arr);
    ArrivePaced(s, arr, c, |arr|);
    ArriveKeeps(s, arr, |arr|);
    ArriveAhead(s, arr);
    LiveToo(s, a);
    StartCpuPaced(a, arr, c);
    StartIoPaced(StartCpu(a, arr), arr, c);
    StartAhead(a, arr, c);
    var m := StartIo(StartCpu(a, arr), arr);
    StartIoPaced(m, arr, c);
    WorkAhead(m, arr);
    WorkedIs(s, arr);
    EndedPaced(w, arr, c);
    NextStopped(s, arr);
  }

  ghost predicate AllDone(s: Sim) {
    forall p :: 0 <= p < |s.turnaround| ==> s.turnaround[p] != 0
  }

  lemma NextStopped(s: Sim, arr: seq<nat>)
    requires Between(s, arr) && AllAtZero(arr)
    ensures var s' := Next(s, arr);
            s'.over && s'.cpu == Idle && s'.io.Busy? && s'.io.left == 0 ==> AllDone(s')
  {
    var s' := Next(s, arr);
    if s'.over && s'.cpu == Idle && s'.io.Busy? && s'.io.left == 0 {
      forall p | 0 <= p < |arr| ensures s'.turnaround[p] != 0 {
        StoppedMeans(s', arr, p);
      }
    }
  }

  lemma ArriveAhead(s: Sim, arr: seq<nat>)
    requires Shape(s, arr) && Ahead(s) && AllAtZero(arr) && (s.time == 0 ==> s.io == Idle)
    requires forall p :: 0 <= p < |arr| && arr[p] == s.time ==> s.bursts[p] != []
    requires Arrive(s, arr, |arr|).io == s.io
    ensures Ahead(Arrive(s, arr, |arr|))
  {
    if s.time > 0 { ArriveNone(s, arr, |arr|); }
  }

  lemma EndedPaced(w: Sim, arr: seq<nat>, c: int)
    requires Books(w, arr, w.time, |arr|, w.time + 1) && Shape(w, arr) && !w.over && Paced(w, arr, c) && Ahead(w) && Manned(w)
    ensures var s' := Ended(w, arr);
            && Shape(s', arr)
            && (s'.over ==> s'.cpu == Idle && s'.io.Busy? && s'.io.left == 0)
            && (!s'.over ==> Paced(s', arr, c) && Ahead(s') && s'.time > 0)
  {
    hide EndIo, EndCpu, Paced, Ahead, Books, Shape, Manned;
    EndIoPaced(w, arr, c);
    EndIoKeeps(w, arr, |arr|);
    var s1 := EndIo(w, arr);
    if !s1.over {
      EndCpuPaced(s1, arr, c);
      SameButTime(EndCpu(s1, arr), arr, c);
    }
  }

  lemma SameButTime(s: Sim, arr: seq<nat>, c: int)
    requires Shape(s, arr) && Paced(s, arr, c) && Ahead(s)
    ensures var s' := s.(time := s.time + 1); Shape(s', arr) && Paced(s', arr, c) && Ahead(s')
  {
    hide Entries;
    var s' := s.(time := s.time + 1);
    forall p | 0 <= p < |arr| ensures InTurn(s', arr, c, p) {
      assert InTurn(s, arr, c, p);
    }
  }

  lemma {:induction false} FinishPaced(s: Sim, arr: seq<nat>, c: int)
    requires Between(s, arr) && Shape(s, arr) && Paced(s, arr, c) && Ahead(s) && AllAtZero(arr)
    requires s.time == 0 ==> s.io == Idle
    ensures AllDone(Finish(s, arr))
    decreases WorkLeft(s), Delay(s, arr)
  {
    hide Books, Between, Next, Finish, WorkLeft, Delay, Stopped, Paced, Ahead, Shape, AllDone, AllAtZero;
    StepPaced(s, arr, c);
    FinishNext(s, arr);
    if !Next(s, arr).over {
      NextLess(s, arr);
      FinishPaced(Next(s, arr), arr, c);
    }
  }

  /** If all are there at tick 0, everyone's last burst is I/O and every I/O burst is
      longer than every processor burst, everyone finishes. */
  lemma IoBoundFinishes(arr: seq<nat>, bursts: seq<seq<int>>, c: int)
    requires IoBound(arr, bursts, c)
    ensures Started(Start(arr, bursts), arr) && AllDone(Finish(Start(arr, bursts), arr))
  {
    StartBetween(arr, bursts);
    var s := Start(arr, bursts);
    BetweenBooks(s, arr);
    forall p | 0 <= p < |arr| ensures InTurn(s, arr, c, p) { }
    assert Paced(s, arr, c);
    hide Finish, Paced, Books, Between;
    FinishPaced(s, arr, c);
  }
}
