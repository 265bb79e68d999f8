/** The simulator: its counters and queues, changed tick by tick. */
module Sjf {
  import opened SjfSpec
  import opened SjfRun
  import opened SjfOrder
  import opened SjfBest
  import opened SjfCpu
  import opened SjfIo
  import opened SjfLog

  class Simulator {
    const arr: seq<nat>            // when each process arrives
    var time: nat
    var pq: seq<Job>               // the priority queue, in the order of its pops
    var ioq: seq<Job>
    var processGoingOn: bool
    var waitProcessGoingOn: int    // what is left of the burst on the processor
    var ongoingPid: nat            // read only while processGoingOn
    var ioProcessGoingOn: bool
    var ioWaitProcessGoingOn: int
    var ioOngoingPid: nat
    var process: seq<seq<int>>     // the bursts not yet queued
    var ptimeTotal: seq<int>
    var rtimeTotal: seq<int>
    var trTime: seq<int>
    var waitTime: seq<int>
    var over: bool                 // the loop has been left
    ghost var queued: seq<int>     // ticks spent in the queues
    ghost var log: seq<Service>    // what the devices took up

    ghost function State(): Sim
      reads this
    {
      Sim(time, pq, ioq, Cpu(), Io(), process, ptimeTotal, rtimeTotal, trTime, waitTime, queued, over)
    }

    ghost function Cpu(): Device
      reads this`processGoingOn, this`ongoingPid, this`waitProcessGoingOn
    {
      if processGoingOn then Busy(ongoingPid, waitProcessGoingOn) else Idle
    }

    ghost function Io(): Device
      reads this`ioProcessGoingOn, this`ioOngoingPid, this`ioWaitProcessGoingOn
    {
      if ioProcessGoingOn then Busy(ioOngoingPid, ioWaitProcessGoingOn) else Idle
    }

    constructor (arrivals: seq<nat>, bursts: seq<seq<int>>)
      requires |bursts| == |arrivals|
      ensures arr == arrivals && State() == Start(arrivals, bursts) && log == []
    {
      arr := arrivals;
      time, pq, ioq, over := 0, [], [], false;
      processGoingOn, waitProcessGoingOn, ongoingPid := false, 0, 0;
      ioProcessGoingOn, ioWaitProcessGoingOn, ioOngoingPid := false, 0, 0;
      process := bursts;
      ptimeTotal := seq(|arrivals|, i => 0);
      rtimeTotal := seq(|arrivals|, i => -1);
      trTime := seq(|arrivals|, i => 0);
      waitTime := seq(|arrivals|, i => 0);
      queued := seq(|arrivals|, i => 0);
      log := [];
    }

    // Every pid the state mentions is one of the processes.
    lemma Bounds(s: Sim)
      requires Shape(s, arr)
      ensures |s.bursts| == |s.used| == |s.response| == |s.turnaround| == |s.waits| == |s.queued| == |arr|
      ensures (s.ready != [] ==> s.ready[0].pid < |arr|) && (s.ioq != [] ==> s.ioq[0].pid < |arr|)
      ensures (s.cpu.Busy? ==> s.cpu.pid < |arr|) && (s.io.Busy? ==> s.io.pid < |arr|)
    {
    }

    // The processes that arrive now enter the priority queue.
    method TakeArrivals()
      requires Shape(State(), arr)
      requires forall p :: 0 <= p < |arr| && arr[p] == time ==> process[p] != []
      modifies this`pq, this`process
      ensures State() == Arrive(old(State()), arr, |arr|) && Shape(State(), arr)
    {
      ghost var s := State();
      hide Shape, Insert, Queue;
      Bounds(s);
      for prc := 0 to |arr|
        invariant |process| == |arr| && State() == Arrive(s, arr, prc) && Shape(State(), arr)
      {
        if arr[prc] == time {
          pq := Insert(pq, Job(process[prc][0], prc));
          process := process[prc := process[prc][1..]];
        }
      }
    }

    // The first of the priority queue goes to the processor.
    method Dispatch() returns (top: Job)
      requires |pq| > 0
      modifies this`pq, this`processGoingOn, this`waitProcessGoingOn, this`ongoingPid, this`log
      ensures top == old(pq)[0] && log == old(log) + [Service(time, top.pid, top.burst, false)]
      ensures State() == old(State()).(ready := old(pq)[1..], cpu := Busy(top.pid, top.burst))
    {
      top := pq[0];
      waitProcessGoingOn, ongoingPid := top.burst, top.pid;
      pq, processGoingOn := pq[1..], true;
      log := log + [Service(time, top.pid, top.burst, false)];
    }

    // An idle device takes the first of its queue.
    method StartProcess()
      requires Shape(State(), arr)
      modifies this`pq, this`processGoingOn, this`waitProcessGoingOn, this`ongoingPid, this`ptimeTotal, this`rtimeTotal,
               this`log
      ensures State() == StartCpu(old(State()), arr) && Shape(State(), arr)
      ensures log == old(log) + Taken(old(Cpu()), Cpu(), time, false)
    {
      hide Shape, Cpu, Io;
      Bounds(State());
      Guard();
      assert log + [] == log;
      if !processGoingOn && |pq| > 0 {
        var top := Dispatch();
        ptimeTotal := ptimeTotal[top.pid := ptimeTotal[top.pid] + top.burst];
        if rtimeTotal[top.pid] == -1 {
          rtimeTotal := rtimeTotal[top.pid := time - arr[top.pid]];
        }
      }
    }

    lemma Guard()
      ensures processGoingOn == Cpu().Busy? && ioProcessGoingOn == Io().Busy?
    {
    }

    // The first of the I/O queue goes to the I/O device.
    method TakeFront() returns (front: Job)
      requires |ioq| > 0
      modifies this`ioq, this`ioProcessGoingOn, this`ioWaitProcessGoingOn, this`ioOngoingPid, this`log
      ensures front == old(ioq)[0] && log == old(log) + [Service(time, front.pid, front.burst, true)]
      ensures State() == old(State()).(ioq := old(ioq)[1..], io := Busy(front.pid, front.burst))
    {
      front := ioq[0];
      ioWaitProcessGoingOn, ioOngoingPid := front.burst, front.pid;
      ioq, ioProcessGoingOn := ioq[1..], true;
      log := log + [Service(time, front.pid, front.burst, true)];
    }

    method StartIoProcess()
      requires Shape(State(), arr)
      modifies this`ioq, this`ioProcessGoingOn, this`ioWaitProcessGoingOn, this`ioOngoingPid, this`ptimeTotal, this`log
      ensures State() == StartIo(old(State()), arr) && Shape(State(), arr)
      ensures log == old(log) + Taken(old(Io()), Io(), time, true)
    {
      hide Shape, Cpu, Io;
      Bounds(State());
      Guard();
      assert log + [] == log;
      if !ioProcessGoingOn && |ioq| > 0 {
        var front := TakeFront();
        ptimeTotal := ptimeTotal[front.pid := ptimeTotal[front.pid] + front.burst];
      }
    }

    method CountDown()
      requires Shape(State(), arr)
      modifies this`waitProcessGoingOn, this`ioWaitProcessGoingOn, this`queued
      ensures State() == Work(old(State()), arr) && Shape(State(), arr)
    {
      hide Shape;
      queued := Work(State(), arr).queued;
      if waitProcessGoingOn >= 1 {
        waitProcessGoingOn := waitProcessGoingOn - 1;
      }
      if ioWaitProcessGoingOn >= 1 {
        ioWaitProcessGoingOn := ioWaitProcessGoingOn - 1;
      }
    }

    // An I/O burst may be over: the process goes to the priority queue or is done.
    method FinishIo()
      requires Shape(State(), arr) && !over
      modifies this`pq, this`process, this`trTime, this`waitTime, this`ioProcessGoingOn, this`over
      ensures State() == EndIo(old(State()), arr) && Shape(State(), arr)
    {
      hide Insert, Shape;
      Bounds(State());
      if ioProcessGoingOn && ioWaitProcessGoingOn == 0 {
        var p := ioOngoingPid;
        if |process[p]| > 0 {
          pq := Insert(pq, Job(process[p][0], p));
          process := process[p := process[p][1..]];
        } else {
          trTime := trTime[p := time - arr[p] + 1];
          waitTime := waitTime[p := trTime[p] - ptimeTotal[p]];
        }
        if |pq| == 0 && |ioq| == 0 {
          over := true;
        } else {
          ioProcessGoingOn := false;
        }
      }
    }

    // A processor burst may be over: the process goes to the I/O queue or is done.
    method FinishCpu()
      requires Shape(State(), arr) && !over
      modifies this`ioq, this`process, this`trTime, this`waitTime, this`processGoingOn, this`over
      ensures State() == EndCpu(old(State()), arr) && Shape(State(), arr)
    {
      hide Shape;
      Bounds(State());
      if processGoingOn && waitProcessGoingOn == 0 {
        var p := ongoingPid;
        if |process[p]| > 0 {
          ioq := ioq + [Job(process[p][0], p)];
          process := process[p := process[p][1..]];
        } else {
          trTime := trTime[p := time - arr[p] + 1];
          waitTime := waitTime[p := trTime[p] - ptimeTotal[p]];
        }
        if |pq| == 0 && |ioq| == 0 {
          over := true;
        } else {
          processGoingOn := false;
        }
      }
    }

    method WorkTick()
      requires Shape(State(), arr)
      requires forall p :: 0 <= p < |arr| && arr[p] == time ==> process[p] != []
      modifies this
      ensures State() == Worked(old(State()), arr) && Shape(State(), arr)
      ensures log == old(log) + TurnLog(old(State()), arr)
    {
      hide Shape, Arrive, StartCpu, StartIo, Work, Taken;
      ghost var s, log0 := State(), log;
      TakeArrivals();
      ghost var a := State();
      StartProcess();
      ghost var c := State();
      StartIoProcess();
      StartTimes(a, arr);
      StartTimes(c, arr);
      assert log == log0 + (Taken(a.cpu, c.cpu, s.time, false) + Taken(c.io, Io(), s.time, true));
      CountDown();
    }

    // One turn of the loop, up to its breaks.
    method Tick()
      requires Between(State(), arr)
      modifies this
      ensures State() == Next(old(State()), arr)
      ensures Shape(old(State()), arr) && forall p :: 0 <= p < |arr| && arr[p] == old(time) ==> old(process)[p] != []
      ensures log == old(log) + TurnLog(old(State()), arr)
    {
      hide Between, Books, Live, Shape, Worked, EndIo, EndCpu, Next, Unfinished, Stopped, TurnLog;
      ghost var s := State();
      NextIs(s, arr);
      WorkTick();
      FinishIo();
      if !over {
        FinishCpu();
        if !over {
          time := time + 1;
        }
      }
    }

    // The whole loop. That it ends is part of what is proved.
    method StartEvent()
      requires Between(State(), arr)
      modifies this
      ensures Started(old(State()), arr) && State() == Finish(old(State()), arr)
      ensures log == old(log) + RunLog(old(State()), arr)
    {
      hide Between, Books, Next, Finish, WorkLeft, Delay, Stopped, RunLog, TurnLog;
      ghost var s0, log0 := State(), log;
      while true
        invariant Between(State(), arr) && Finish(State(), arr) == Finish(s0, arr)
        invariant log + RunLog(State(), arr) == log0 + RunLog(s0, arr)
        decreases WorkLeft(State()), Delay(State(), arr)
      {
        ghost var s := State();
        ghost var before := log;
        FinishNext(s, arr);
        NextIs(s, arr);
        RunLogNext(s, arr);
        Tick();
        assert before + (TurnLog(s, arr) + RunLog(State(), arr)) == log + RunLog(State(), arr);
        if over {
          NothingMore(State(), arr);
          assert log + [] == log;
          break;
        }
        NextLess(s, arr);
      }
    }
  }

  lemma NothingMore(s: Sim, arr: seq<nat>)
    requires Started(s, arr) && s.over
    ensures RunLog(s, arr) == []
  {
  }

  /** A simulation of given processes: what it reports for each, when with one
      processor burst each all are finished, that their waiting is then least,
      that all are finished if I/O takes long enough, and that with short I/O all are
      that come before some tick. */
  method Simulate(arr: seq<nat>, bursts: seq<seq<int>>)
    returns (turnaround: seq<int>, waits: seq<int>, response: seq<int>, ghost log: seq<Service>)
    requires Proper(arr, bursts)
    ensures |turnaround| == |waits| == |response| == |arr|
    ensures forall p :: 0 <= p < |arr| && turnaround[p] != 0 ==>
              turnaround[p] == waits[p] + Sum(bursts[p]) && 0 <= response[p] <= waits[p]
    ensures Consistent(arr, bursts, log, turnaround, response)
    ensures forall b | Single(arr, b) && bursts == Alone(b) ::
              (forall p :: 0 <= p < |arr| ==> turnaround[p] != 0) <==> (forall t: nat :: t < Latest(arr) ==> !Gap(arr, b, t))
    ensures forall b, order, starts | Single(arr, b) && bursts == Alone(b) && AllAtZero(arr)
                && multiset(order) == multiset(b) && Serves(order, starts, 0) ::
              Sum(waits) <= Sum(starts)
    ensures (exists c :: IoBound(arr, bursts, c)) ==> forall p :: 0 <= p < |arr| ==> turnaround[p] != 0
    ensures (exists c :: CpuBound(arr, bursts, c)) ==> exists end: nat :: DoneBy(arr, turnaround, end)
  {
    hide Start, Finish, Sum, Gap, Serves, AllAtZero, Between, Books, Single, IoBound, CpuBound, DoneBy,
         Alone, Latest, Earliest, Stopped, Turns, RunLog, Consistent;
    var sim := new Simulator(arr, bursts);
    StartBetween(arr, bursts);
    sim.StartEvent();
    turnaround, waits, response, log := sim.trTime, sim.waitTime, sim.rtimeTotal, sim.log;
    assert [] + RunLog(Start(arr, bursts), arr) == RunLog(Start(arr, bursts), arr);
    RunIsConsistent(arr, bursts);
    forall p | 0 <= p < |arr| { LoopResult(arr, bursts, p); }
    LoopResult(arr, bursts, 0);
    if c :| IoBound(arr, bursts, c) { IoBoundFinishes(arr, bursts, c); }
    if c :| CpuBound(arr, bursts, c) { CpuBoundDone(arr, bursts, c); }
    forall b | Single(arr, b) && bursts == Alone(b) { AllFinishedIffNoGap(arr, b); }
    forall b, order, starts | Single(arr, b) && bursts == Alone(b) && AllAtZero(arr)
        && multiset(order) == multiset(b) && Serves(order, starts, 0)
    {
      ShortestFirstIsBest(arr, b, order, starts);
    }
  }
}
