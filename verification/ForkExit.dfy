/** Creating, ending and waiting for processes. */
module ForkExit {
  import opened Errno
  import opened ProcTable

  const LAST_FEW: int := 2

  // The status a parent sees: exit() keeps the low byte, as a signed char.
  function CharOf(status: int): (c: int)
    ensures -128 <= c < 128 && (status - c) % 256 == 0
  {
    (status + 128) % 256 - 128
  }

  // A request to the server, a reply of VFS, or something that happens to a process.
  datatype Event =
    | Fork(who: int, superuser: bool, traceFork: bool, vmResult: int, newPid: int)
    | Exit(who: int, status: int, dumpCore: bool, setuid: bool)
    | Waitpid(who: int, pid: int, wnohang: bool)
    | Replied(c: int)
    | Attach(c: int, newTracer: int)
    | TraceExit(c: int, status: int)
    | Interrupt(p: int)
    | Catch(p: int, on: bool)

  // What is on record stays on record.
  ghost predicate Extends<T>(m: map<nat, T>, m': map<nat, T>) {
    forall s :: s in m ==> s in m' && m'[s] == m[s]
  }

  // How the slots other than c may differ after c's death was dealt with.
  ghost predicate Undisturbed(t: Table, t': Table, c: nat) {
    |t'| == |t| && forall i :: 0 <= i < |t| && i != c ==> t'[i] == t[i] || t'[i] == Awake(t[i])
  }

  lemma UndisturbedTrans(t: Table, t1: Table, t2: Table, c: nat)
    requires Undisturbed(t, t1, c) && Undisturbed(t1, t2, c)
    ensures Undisturbed(t, t2, c)
  {
  }

  predicate Fresh(t: Table, init: nat, i: nat)
    requires i < |t|
  {
    && Ok(t[i]) && !t[i].exiting && !t[i].waiting && t[i].tracer == NO_TRACER
    && (t[i].inUse ==>
          && 0 < t[i].parent < |t| && t[t[i].parent].inUse && (i != init ==> t[i].parent != i)
          && t[i].serial < Count(t))
  }

  // Some running processes, each with a living parent; none is exiting, waiting
  // or traced.
  predicate Boot(t: Table, init: nat) {
    && 0 < init < |t| && t[init].inUse
    && (forall i :: 0 <= i < |t| ==> Fresh(t, init, i))
    && (forall i, j :: 0 <= i < j < |t| && t[i].inUse && t[j].inUse ==> t[i].serial != t[j].serial)
  }

  lemma BootGood(t: Table, init: nat)
    requires Boot(t, init)
    ensures Good(t, init, -1, -1, 0, -1) && init < |t|
  {
    hide Count;
    forall i | 0 <= i < |t| ensures Linked(t, init, i, -1, 0) && Ok(t[i]) && Settled(t[i]) {
      assert Fresh(t, init, i);
      if t[i].inUse { assert Fresh(t, init, t[i].parent); }
    }
    forall p, c | 0 <= p < |t| && 0 <= c < |t| ensures !Lost(t, p, c) { assert Fresh(t, init, p) && Fresh(t, init, c); }
    assert Fresh(t, init, init);
  }

  function ParentOf(t: Table, i: nat): nat
    requires i < |t|
  {
    if 0 <= t[i].parent < |t| then t[t[i].parent].serial else t[i].serial
  }

  // Before the first request a process of the first n slots counts as forked by its parent.
  function MakersOf(t: Table, n: nat): map<nat, nat>
    requires n <= |t|
  {
    if n == 0 then map[]
    else if t[n - 1].inUse then MakersOf(t, n - 1)[t[n - 1].serial := ParentOf(t, n - 1)]
    else MakersOf(t, n - 1)
  }

  lemma {:induction false} MakerIs(t: Table, init: nat, n: nat)
    requires Boot(t, init) && n <= |t|
    ensures forall i :: 0 <= i < n && t[i].inUse ==> t[i].serial in MakersOf(t, n) && MakersOf(t, n)[t[i].serial] == ParentOf(t, i)
    ensures forall s :: s in MakersOf(t, n) ==> s < Count(t)
  {
    hide Count, ParentOf;
    if n > 0 {
      MakerIs(t, init, n - 1);
      assert Fresh(t, init, n - 1);
    }
  }

  lemma BootHist(t: Table, init: nat)
    requires Boot(t, init)
    ensures Hist(t, init, Count(t), [], [], map[], MakersOf(t, |t|))
  {
    hide Count, MakersOf, Recorded;
    assert Serials([]) == {};
    MakerIs(t, init, |t|);
    var makers := MakersOf(t, |t|);
    forall i | 0 <= i < |t| ensures Recorded(t, init, map[], makers, i) && (t[i].inUse ==> t[i].serial < Count(t) && !t[i].toldParent) {
      BootRecorded(t, init, makers, i);
    }
    assert Annals(t, init, Count(t), [], map[], makers);
  }

  lemma BootRecorded(t: Table, init: nat, makers: map<nat, nat>, i: nat)
    requires Boot(t, init) && i < |t|
    requires t[i].inUse ==> t[i].serial in makers && makers[t[i].serial] == ParentOf(t, i)
    ensures Recorded(t, init, map[], makers, i) && (t[i].inUse ==> t[i].serial < Count(t) && !t[i].toldParent)
  {
    hide Count;
    assert Fresh(t, init, i);
  }

  class ProcessManager {
    const init: nat                  // the slot of INIT
    var mproc: Table
    var procsInUse: int
    var nextChild: nat
    var births: nat                  // how many processes there ever were
    var told: seq<Notice>            // the exit statuses given to parents
    var cleaned: seq<nat>            // the processes whose slots were given up
    var exits: map<nat, int>         // the statuses of the processes that have ended
    var makers: map<nat, nat>        // the process that forked each
    var catches: set<int>            // the slots whose process catches SIGCHLD

    ghost predicate Inv(y: int, x: int, k: int, skip: int)
      reads this
    {
      && Good(mproc, init, y, x, k, skip)
      && Hist(mproc, init, births, told, cleaned, exits, makers)
      && procsInUse == Count(mproc)
      && 0 <= nextChild < |mproc|
    }

    // What holds between requests.
    ghost predicate Valid()
      reads this
    {
      Inv(-1, -1, 0, -1)
    }

    // A table as the server finds it at start-up.
    constructor (table: Table, initSlot: nat)
      requires Boot(table, initSlot)
      ensures Valid() && mproc == table && init == initSlot && told == [] && cleaned == [] && births == Count(table)
      ensures catches == {} && exits == map[] && makers == MakersOf(table, |table|)
    {
      hide Good, Hist, Count, Boot, Ok, MakersOf;
      BootGood(table, initSlot);
      BootHist(table, initSlot);
      init := initSlot;
      mproc, procsInUse, nextChild := table, Count(table), 0;
      births, told, cleaned, catches := Count(table), [], [], {};
      exits, makers := map[], MakersOf(table, |table|);
    }

    /** --- Signals, as far as they matter here --- */

    // SIGCHLD interrupts a wait if it is caught.
    method SigChld(p: nat, ghost y: int, ghost x: int, ghost k: int, ghost skip: int)
      requires Inv(y, x, k, skip) && p < |mproc|
      modifies this`mproc
      ensures Inv(y, x, k, skip)
      ensures mproc == if p in catches then old(mproc)[p := Awake(old(mproc)[p])] else old(mproc)
    {
      hide Good, Hist;
      if p in catches {
        Woken(p, y, x, k, skip);
        mproc := mproc[p := Awake(mproc[p])];
      }
    }

    lemma Woken(p: nat, y: int, x: int, k: int, skip: int)
      requires Inv(y, x, k, skip) && p < |mproc|
      ensures var t := mproc[p := Awake(mproc[p])];
              Good(t, init, y, x, k, skip) && Hist(t, init, births, told, cleaned, exits, makers) && Count(t) == procsInUse
    {
      hide Good, Hist;
      var t := mproc[p := Awake(mproc[p])];
      QuietKeeps(mproc, t, init, y, x, k, skip);
      HistSame(mproc, t, init, births, told, cleaned, exits, makers);
    }

    // SIGKILL is recorded; the process exits when it is delivered.
    method SigKill(p: nat, ghost x: int, ghost k: int)
      requires Inv(-1, x, k, -1) && p < |mproc| && !mproc[p].exiting
      modifies this`mproc
      ensures Inv(-1, x, k, -1) && mproc == old(mproc)[p := old(mproc)[p].(killed := true)]
    {
      hide Good, Hist;
      ghost var t := mproc[p := mproc[p].(killed := true)];
      QuietKeeps(mproc, t, init, -1, x, k, -1);
      HistSame(mproc, t, init, births, told, cleaned, exits, makers);
      mproc := mproc[p := mproc[p].(killed := true)];
    }

    /** --- Telling parents and tracers --- */

    // The requires are the server's panics.
    method TellParent(c: nat, ghost x: int, ghost k: int)
      requires Inv(-1, x, k, c) && c < |mproc|
      requires mproc[c].parent > 0 && mproc[c].zombie && !mproc[c].toldParent
      modifies this`mproc, this`told
      ensures |mproc| == |old(mproc)| && Inv(if Settled(mproc[c]) then -1 else c, x, k, -1)
      ensures var t, p := old(mproc), old(mproc)[c].parent;
              p < |t| && p != c && mproc == t[p := Awake(t[p])][c := Told(t[c])]
      ensures var m, p := old(mproc)[c], old(mproc)[c].parent;
              told == old(told) + [Notice(m.serial, m.exitStatus, p, old(mproc)[p].serial)]
    {
      hide Good, Hist;
      ToldFacts(c, x, k);
      var p := mproc[c].parent;
      told := told + [Notice(mproc[c].serial, mproc[c].exitStatus, p, mproc[p].serial)];
      mproc := mproc[p := Awake(mproc[p])];
      mproc := mproc[c := Told(mproc[c])];
    }

    lemma ToldFacts(c: nat, x: int, k: int)
      requires Inv(-1, x, k, c) && c < |mproc| && mproc[c].zombie
      ensures var p := mproc[c].parent;
              && 0 < p < |mproc| && p != c
              && var t := mproc[p := Awake(mproc[p])][c := Told(mproc[c])];
              && Good(t, init, if Settled(Told(mproc[c])) then -1 else c, x, k, -1)
              && Hist(t, init, births, told + [Notice(mproc[c].serial, mproc[c].exitStatus, p, mproc[p].serial)], cleaned, exits, makers)
              && Count(t) == procsInUse
    {
      assert Ok(mproc[c]) && Ok(Told(mproc[c]));
      hide Good, Hist;
      RefFacts(mproc, init, -1, x, k, c, c);
      var p := mproc[c].parent;
      var t1 := mproc[p := Awake(mproc[p])];
      QuietKeeps(mproc, t1, init, -1, x, k, c);
      HistSame(mproc, t1, init, births, told, cleaned, exits, makers);
      StatusKeeps(t1, init, -1, x, k, c, c, Told(mproc[c]), if Settled(Told(mproc[c])) then -1 else c, -1);
      HistTold(t1, init, births, told, cleaned, exits, makers, c, Told(mproc[c]), Notice(mproc[c].serial, mproc[c].exitStatus, p, mproc[p].serial));
    }

    method TellTracer(c: nat, ghost x: int, ghost k: int, ghost skip: int)
      requires Inv(-1, x, k, skip) && c < |mproc| && (skip == c || skip == -1)
      requires mproc[c].tracer > 0 && mproc[c].traceZombie
      modifies this`mproc
      ensures Inv(-1, x, k, c) && |mproc| == |old(mproc)|
      ensures var t, r := old(mproc), old(mproc)[c].tracer;
              r < |t| && r != c && mproc == t[r := Awake(t[r])][c := Handed(t[c])]
    {
      hide Good, Hist;
      HandedFacts(c, x, k, skip);
      var r := mproc[c].tracer;
      mproc := mproc[r := Awake(mproc[r])];
      mproc := mproc[c := Handed(mproc[c])];
    }

    lemma HandedFacts(c: nat, x: int, k: int, skip: int)
      requires Inv(-1, x, k, skip) && c < |mproc| && (skip == c || skip == -1)
      requires mproc[c].traceZombie
      ensures var r, m := mproc[c].tracer, Handed(mproc[c]);
              && 0 < r < |mproc| && r != c
              && var t := mproc[r := Awake(mproc[r])][c := m];
              && Good(t, init, -1, x, k, c) && Hist(t, init, births, told, cleaned, exits, makers) && Count(t) == procsInUse
    {
      assert Ok(mproc[c]);
      hide Good, Hist;
      RefFacts(mproc, init, -1, x, k, skip, c);
      var r, m := mproc[c].tracer, Handed(mproc[c]);
      var t1 := mproc[r := Awake(mproc[r])];
      QuietKeeps(mproc, t1, init, -1, x, k, skip);
      StatusKeeps(t1, init, -1, x, k, skip, c, m, -1, c);
      HistSame(mproc, t1[c := m], init, births, told, cleaned, exits, makers);
    }

    // Only when VFS has replied and the parent has been told, in either order.
    method Cleanup(c: nat, ghost y: int, ghost x: int, ghost k: int)
      requires Inv(y, x, k, -1) && c < |mproc| && (y == -1 || y == c) && c != x
      requires mproc[c].toldParent && !mproc[c].vfsCall
      modifies this`mproc, this`procsInUse, this`cleaned
      ensures Inv(-1, x, k, -1)
      ensures mproc == old(mproc)[c := Freed(old(mproc)[c])]
      ensures cleaned == old(cleaned) + [old(mproc)[c].serial]
    {
      hide Good, Hist;
      EachOk(mproc, init, y, x, k, -1, c);
      CleanKeeps(mproc, init, y, x, k, c);
      NoChildren(mproc, init, y, x, k, c);
      HistCleaned(mproc, init, births, told, cleaned, exits, makers, c, Freed(mproc[c]));
      cleaned := cleaned + [mproc[c].serial];
      mproc := mproc[c := Freed(mproc[c])];
      procsInUse := procsInUse - 1;
    }

    // What check_parent may make of c.
    ghost predicate Checked(m: Mproc, m': Mproc) {
      m' == m || m' == Told(m) || m' == Freed(Told(m))
    }

    method CheckParent(c: nat, tryCleanup: bool, ghost x: int, ghost k: int)
      requires Inv(-1, x, k, c) && c < |mproc| && mproc[c].zombie
      requires tryCleanup ==> c != x
      modifies this`mproc, this`told, this`procsInUse, this`cleaned
      ensures old(told) <= told && old(cleaned) <= cleaned
      ensures |mproc| == |old(mproc)| && Inv(if Settled(mproc[c]) then -1 else c, x, k, -1)
      ensures Undisturbed(old(mproc), mproc, c)
      ensures Checked(old(mproc)[c], mproc[c]) && (tryCleanup ==> Settled(mproc[c]))
      ensures var m, p := old(mproc)[c], old(mproc)[c].parent;
              0 < p < |mproc| &&
              if old(mproc)[p].exiting then
                mproc == old(mproc) && told == old(told) && cleaned == old(cleaned)
              else if WaitTest(old(mproc)[p], m) then
                && told == old(told) + [Notice(m.serial, m.exitStatus, p, old(mproc)[p].serial)]
                && mproc[c] == (if tryCleanup && !m.vfsCall then Freed(Told(m)) else Told(m))
                && (cleaned == if tryCleanup && !m.vfsCall then old(cleaned) + [m.serial] else old(cleaned))
              else
                && mproc == (if p in catches then old(mproc)[p := Awake(old(mproc)[p])] else old(mproc)) && mproc[c] == m
                && told == old(told) && cleaned == old(cleaned)
    {
      hide Good, Hist, Told, Freed, Awake, Settled, WaitTest;
      CheckFacts(c, x, k);
      var p := mproc[c].parent;
      if mproc[p].exiting {
      } else if WaitTest(mproc[p], mproc[c]) {
        TellParent(c, x, k);
        ToldSettled(old(mproc)[c]);
        if tryCleanup && !mproc[c].vfsCall {
          Cleanup(c, if Settled(mproc[c]) then -1 else c, x, k);
          FreedSettled(Told(old(mproc)[c]));
        }
      } else {
        SigChld(p, -1, x, k, -1);
      }
    }

    lemma CheckFacts(c: nat, x: int, k: int)
      requires Inv(-1, x, k, c) && c < |mproc| && mproc[c].zombie
      ensures var p := mproc[c].parent;
              && 0 < p < |mproc| && p != c && !mproc[c].toldParent && Settled(mproc[c])
              && (mproc[p].exiting || !WaitTest(mproc[p], mproc[c]) ==> Inv(-1, x, k, -1))
    {
      assert Ok(mproc[c]) && Settled(mproc[c]);
      RefFacts(mproc, init, -1, x, k, c, c);
      var p := mproc[c].parent;
      assert Ok(mproc[p]);
      hide Good, Hist;
      if mproc[p].exiting || !WaitTest(mproc[p], mproc[c]) {
        NobodyWaits(mproc, init, -1, x, k, c);
      }
    }

    lemma ToldSettled(m: Mproc)
      requires Settled(m) && m.zombie
      ensures Told(m).toldParent && !Told(m).zombie && Told(m).vfsCall == m.vfsCall
      ensures Told(m).serial == m.serial && Told(m).exitStatus == m.exitStatus && Told(m).parent == m.parent
      ensures m.traceZombie == Told(m).traceZombie
      ensures Settled(Told(m)) <==> !m.exiting || m.vfsCall
    {
    }

    lemma FreedSettled(m: Mproc)
      ensures Settled(Freed(m))
    {
    }

    // zombify up to the point where the parent is to be told; stop if a tracer has
    // to wait for the status first.
    method MarkDead(c: nat, ghost y: int, ghost x: int, ghost k: int) returns (stop: bool)
      requires Inv(y, x, k, -1) && c < |mproc| && (y == -1 || y == c)
      requires mproc[c].inUse && mproc[c].exiting && !mproc[c].toldParent
      requires !mproc[c].zombie && !mproc[c].traceZombie && !(mproc[c].vfsCall && mproc[c].dumping)
      modifies this`mproc
      ensures |mproc| == |old(mproc)| && Inv(-1, x, k, if stop then -1 else c)
      ensures Undisturbed(old(mproc), mproc, c)
      ensures mproc[c] == if stop then AsTraceZombie(old(mproc)[c]) else AsZombie(old(mproc)[c])
      ensures old(mproc)[c].tracer == NO_TRACER ==> mproc == old(mproc)[c := AsZombie(old(mproc)[c])]
      ensures stop <==> FirstTracer(old(mproc), c)
      ensures !stop ==> mproc[c].zombie && TellNow(mproc, c) == TellNow(old(mproc), c)
      ensures stop ==> Settled(mproc[c])
    {
      hide Good, Hist, Awake, AsZombie, AsTraceZombie, Handed, Settled, WaitTest, TellNow;
      TracerFacts(c, y, x, k);
      HandedZombie(mproc[c]);
      if mproc[c].tracer != NO_TRACER && mproc[c].tracer != mproc[c].parent {
        MarkFacts(c, AsTraceZombie(mproc[c]), y, x, k);
        mproc := mproc[c := AsTraceZombie(mproc[c])];
        var r := mproc[c].tracer;
        MarkedTests(mproc[r], old(mproc)[c]);
        TraceZombieFacts(c, x, k);
        if !WaitTest(mproc[r], mproc[c]) {
          return true;
        }
        TellTracer(c, x, k, c);
        TellNowSame(old(mproc), mproc, c);
        return false;
      } else {
        MarkFacts(c, AsZombie(mproc[c]), y, x, k);
        mproc := mproc[c := AsZombie(mproc[c])];
        TellNowSame(old(mproc), mproc, c);
        return false;
      }
    }

    // A tracer that is not the parent and does not wait has to be asked first.
    ghost predicate FirstTracer(t: Table, c: nat)
      requires c < |t|
    {
      var r := t[c].tracer;
      r != NO_TRACER && r != t[c].parent && 0 < r < |t| && !WaitTest(t[r], t[c])
    }

    // The parent waits for c, so it can be told at once.
    ghost predicate TellNow(t: Table, c: nat)
      requires c < |t|
    {
      var p := t[c].parent;
      0 < p < |t| && !t[p].exiting && WaitTest(t[p], t[c])
    }

    lemma MarkedTests(p: Mproc, m: Mproc)
      ensures WaitTest(p, AsTraceZombie(m)) == WaitTest(p, m)
      ensures AsZombie(m).parent == AsTraceZombie(m).parent == m.parent
    {
    }

    lemma TellNowSame(t: Table, t': Table, c: nat)
      requires c < |t| == |t'| && 0 < t[c].parent < |t| && t[c].parent != c && t'[c] == AsZombie(t[c])
      requires t'[t[c].parent] == t[t[c].parent]
      ensures TellNow(t', c) == TellNow(t, c)
    {
    }

    method Zombify(c: nat, ghost y: int, ghost x: int, ghost k: int)
      requires Inv(y, x, k, -1) && c < |mproc| && (y == -1 || y == c)
      requires mproc[c].inUse && mproc[c].exiting && !mproc[c].toldParent
      requires !mproc[c].zombie && !mproc[c].traceZombie && !(mproc[c].vfsCall && mproc[c].dumping)
      modifies this`mproc, this`told, this`procsInUse, this`cleaned
      ensures old(told) <= told && old(cleaned) <= cleaned
      ensures |mproc| == |old(mproc)| && Inv(if Settled(mproc[c]) then -1 else c, x, k, -1)
      ensures Undisturbed(old(mproc), mproc, c)
      ensures mproc[c] == (if FirstTracer(old(mproc), c) then AsTraceZombie(old(mproc)[c])
                           else if TellNow(old(mproc), c) then Told(AsZombie(old(mproc)[c]))
                           else AsZombie(old(mproc)[c]))
      ensures cleaned == old(cleaned)
      ensures old(mproc)[c].tracer == NO_TRACER && !TellNow(old(mproc), c) && old(mproc)[c].parent !in catches ==>
                mproc == old(mproc)[c := AsZombie(old(mproc)[c])] && told == old(told)
    {
      hide Inv, Told, Freed, Awake, AsZombie, AsTraceZombie, Settled, Checked;
      var stop := MarkDead(c, y, x, k);
      if stop {
        return;
      }
      ghost var t := mproc;
      MarkedTests(old(mproc)[c], old(mproc)[c]);
      CheckParent(c, false, x, k);
      UndisturbedTrans(old(mproc), t, mproc, c);
    }

    lemma TracerFacts(c: nat, y: int, x: int, k: int)
      requires Inv(y, x, k, -1) && c < |mproc| && mproc[c].inUse
      ensures mproc[c].tracer != NO_TRACER ==> 0 < mproc[c].tracer < |mproc| && (mproc[c].tracer != c || c == init)
      ensures mproc[c].exiting ==> c != init
      ensures 0 < mproc[c].parent < |mproc| && (mproc[c].parent != c || c == init)
      ensures mproc[c].traceZombie == AsZombie(mproc[c]).traceZombie
      ensures AsTraceZombie(mproc[c]).tracer == mproc[c].tracer
    {
      hide Good, Hist;
      RefFacts(mproc, init, y, x, k, -1, c);
    }

    lemma TraceZombieFacts(c: nat, x: int, k: int)
      requires Inv(-1, x, k, c) && c < |mproc| && mproc[c].traceZombie
      ensures Settled(mproc[c])
      ensures var r := mproc[c].tracer;
              0 < r < |mproc| && (!WaitTest(mproc[r], mproc[c]) ==> Inv(-1, x, k, -1))
    {
      assert Ok(mproc[c]);
      RefFacts(mproc, init, -1, x, k, c, c);
      hide Good, Hist;
      if !WaitTest(mproc[mproc[c].tracer], mproc[c]) {
        NobodyWaits(mproc, init, -1, x, k, c);
      }
    }

    lemma HandedZombie(m: Mproc)
      requires !m.traceZombie
      ensures Handed(AsTraceZombie(m)) == AsZombie(m) && AsZombie(m).zombie
    {
    }

    lemma MarkFacts(c: nat, m: Mproc, y: int, x: int, k: int)
      requires Inv(y, x, k, -1) && c < |mproc| && (y == -1 || y == c)
      requires mproc[c].inUse && mproc[c].exiting && !mproc[c].toldParent
      requires !mproc[c].zombie && !mproc[c].traceZombie && !(mproc[c].vfsCall && mproc[c].dumping)
      requires m == AsZombie(mproc[c]) || (m == AsTraceZombie(mproc[c]) && mproc[c].tracer != NO_TRACER)
      ensures Good(mproc[c := m], init, -1, x, k, c) && Hist(mproc[c := m], init, births, told, cleaned, exits, makers)
      ensures Count(mproc[c := m]) == procsInUse
      ensures m == AsTraceZombie(mproc[c]) ==> m.traceZombie
    {
      assert Ok(mproc[c]);
      hide Good, Hist;
      StatusKeeps(mproc, init, y, x, k, -1, c, m, -1, c);
      HistSame(mproc, mproc[c := m], init, births, told, cleaned, exits, makers);
    }

    /** --- Exit --- */

    function Exiting(m: Mproc, status: int, dump: bool): Mproc {
      m.(exiting := true, waiting := false, zombie := false, toldParent := false, traceZombie := false,
         newParent := false, vfsCall := true, exitStatus := CharOf(status), dumping := dump, killed := false)
    }

    lemma ExitFacts(x: nat, m: Mproc, status: int, dump: bool)
      requires Valid() && x < |mproc| && x != init && mproc[x].inUse && !mproc[x].exiting
      requires m == Exiting(mproc[x], status, dump)
      ensures Good(mproc[x := m], init, x, x, 0, -1)
      ensures Hist(mproc[x := m], init, births, told, cleaned, exits[m.serial := m.exitStatus], makers)
      ensures mproc[x].serial !in exits
      ensures Count(mproc[x := m]) == procsInUse
      ensures m.inUse && m.exiting && m.vfsCall && !m.toldParent && !m.zombie && !m.traceZombie
      ensures m.serial == mproc[x].serial && m.exitStatus == CharOf(status) && m.dumping == dump
      ensures Settled(m) <==> dump
    {
      assert Ok(mproc[x]);
      hide Good, Hist;
      ExitKeeps(mproc, init, x, m);
      HistExit(mproc, init, births, told, cleaned, exits, makers, x, m);
    }

    // An exit whose status is with VFS or with the parent is settled.
    lemma DeadSettled(m: Mproc)
      requires m.vfsCall && !m.dumping
      ensures Settled(AsZombie(m)) && Settled(AsTraceZombie(m)) && Settled(Told(AsZombie(m)))
    {
    }

    lemma SettledNow(y: nat, x: int, k: int)
      requires Inv(y, x, k, -1) && y < |mproc| && Settled(mproc[y])
      ensures Inv(-1, x, k, -1)
    {
    }

    // The same process, or its slot after cleanup, which only an exiting process has.
    ghost predicate Kin(m: Mproc, m': Mproc) {
      && m'.serial == m.serial
      && (m'.inUse ==> m.inUse && m'.pid == m.pid && m'.exiting == m.exiting)
      && (m.inUse && !m'.inUse ==> m.exiting)
      && (m'.vfsCall ==> m.vfsCall)
    }

    // What x's exit makes of another slot: its children become INIT's, its tracees
    // lose their tracer and, if they are still running, are to be killed.
    ghost predicate Inherited(m: Mproc, m': Mproc, x: nat) {
      && Kin(m, m')
      && (m.inUse ==> && m'.parent == (if m.parent == x then init else m.parent)
                      && m'.tracer == (if m.tracer == x then NO_TRACER else m.tracer))
      && (m.inUse && m.tracer == x && !m.exiting ==> m'.killed)
    }

    lemma InheritedAwake(m: Mproc, m': Mproc, x: nat)
      ensures Inherited(m, m', x) ==> Inherited(m, Awake(m'), x)
    {
    }

    lemma AwakeAwake(m: Mproc)
      ensures Awake(Awake(m)) == Awake(m)
    {
    }

    // What the loop over x's children and tracees keeps of x itself.
    ghost predicate Gone(m: Mproc, m': Mproc) {
      m.inUse && m.exiting && m.vfsCall && m'.inUse && m'.exiting && m'.vfsCall && m'.serial == m.serial
    }

    // x, the tracer of k, has died.
    method TracerDied(x: nat, k: nat)
      requires Inv(-1, x, k, -1) && k < |mproc| && x < |mproc| && k != x
      requires mproc[k].inUse && mproc[k].tracer == x && mproc[x].exiting
      modifies this`mproc, this`told, this`procsInUse, this`cleaned
      ensures old(told) <= told && old(cleaned) <= cleaned
      ensures |mproc| == |old(mproc)| && Inv(-1, x, k, -1)
      ensures Undisturbed(old(mproc), mproc, k)
      ensures mproc[k].parent == old(mproc)[k].parent && mproc[k].tracer == NO_TRACER
      ensures mproc[k].inUse || mproc[k].parent != x
      ensures Kin(old(mproc)[k], mproc[k]) && (!old(mproc)[k].exiting ==> mproc[k].killed)
    {
      hide Good, Hist, Told, Freed, Awake, Settled, Checked, Untraced, Handed, Kin;
      UntraceFacts(x, k);
      var m := mproc[k];
      UntracedKin(m);
      if !m.exiting {
        mproc := mproc[k := Untraced(m)];
        SigKill(k, x, k);
      } else if m.traceZombie {
        mproc := mproc[k := Handed(Untraced(m))];
        CheckParent(k, true, x, k);
        CheckedKin(m, Handed(Untraced(m)), mproc[k]);
      } else {
        mproc := mproc[k := Untraced(m)];
      }
    }

    function Untraced(m: Mproc): Mproc {
      m.(tracer := NO_TRACER, traceExit := false)
    }

    lemma UntracedKin(m: Mproc)
      requires m.inUse
      ensures Survivor(m, Untraced(m)) && Survivor(m, Handed(Untraced(m))) && Survivor(m, Untraced(m).(killed := true))
      ensures Handed(Untraced(m)).zombie
    {
    }

    // The same process, still there, without a tracer.
    ghost predicate Survivor(m: Mproc, d: Mproc) {
      Kin(m, d) && d.inUse && d.parent == m.parent && d.tracer == NO_TRACER && d.exiting == m.exiting
    }

    lemma CheckedKin(m: Mproc, m1: Mproc, m2: Mproc)
      requires Kin(m, m1) && m1.inUse && m1.exiting && m.inUse && Checked(m1, m2)
      ensures Kin(m, m2) && m2.parent == m1.parent && m2.tracer == m1.tracer
      ensures m2 == m1 ==> m2.inUse
    {
      if m2 == m1 {
      } else if m2 == Told(m1) {
      } else {
        assert m2 == Freed(Told(m1)) && m.exiting;
      }
    }

    lemma UntraceFacts(x: nat, k: nat)
      requires Inv(-1, x, k, -1) && k < |mproc| && mproc[k].inUse
      ensures var m := mproc[k];
              var m' := if m.traceZombie then Handed(Untraced(m)) else Untraced(m);
              && Good(mproc[k := m'], init, -1, x, k, if m.traceZombie then k else -1)
              && Hist(mproc[k := m'], init, births, told, cleaned, exits, makers) && Count(mproc[k := m']) == procsInUse
              && (m.traceZombie ==> m.exiting)
    {
      assert Ok(mproc[k]);
      hide Good, Hist;
      var m := mproc[k];
      var m' := if m.traceZombie then Handed(Untraced(m)) else Untraced(m);
      UntraceKeeps(mproc, init, x, k, m');
      HistSame(mproc, mproc[k := m'], init, births, told, cleaned, exits, makers);
    }

    // k, a child of x, becomes a child of INIT.
    method Reparent(x: nat, k: nat)
      requires Inv(-1, x, k, -1) && k < |mproc| && x < |mproc| && k != x
      requires mproc[k].inUse && mproc[k].parent == x && mproc[k].tracer != x && mproc[x].exiting
      modifies this`mproc, this`told, this`procsInUse, this`cleaned
      ensures old(told) <= told && old(cleaned) <= cleaned
      ensures |mproc| == |old(mproc)| && Inv(-1, x, k, -1)
      ensures Undisturbed(old(mproc), mproc, k)
      ensures mproc[k].parent == init != x && mproc[k].tracer == old(mproc)[k].tracer
      ensures Kin(old(mproc)[k], mproc[k]) && (!old(mproc)[k].exiting ==> mproc[k].killed == old(mproc)[k].killed)
    {
      hide Good, Hist, Told, Freed, Awake, Settled, Checked, WaitTest;
      var m := mproc[k].(parent := init);
      if m.vfsCall {
        m := m.(newParent := true);
      }
      InitAlive(x, k);
      ReparentFacts(x, k, m);
      mproc := mproc[k := m];
      if m.zombie {
        CheckParent(k, true, x, k);
        CheckedKin(old(mproc)[k], m, mproc[k]);
      }
    }

    lemma ReparentFacts(x: nat, k: nat, m: Mproc)
      requires Inv(-1, x, k, -1) && k < |mproc| && mproc[k].inUse
      requires mproc[k].parent == x && x < |mproc| && mproc[x].exiting
      requires m == mproc[k].(parent := init) || m == mproc[k].(parent := init, newParent := true)
      ensures Good(mproc[k := m], init, -1, x, k, if m.zombie then k else -1)
      ensures Hist(mproc[k := m], init, births, told, cleaned, exits, makers) && Count(mproc[k := m]) == procsInUse
    {
      hide Good, Hist, Ok;
      ReparentKeeps(mproc, init, x, k, m);
      RefFacts(mproc, init, -1, x, k, -1, k);
      InitInUse(mproc, init, -1, x, k, -1);
      HistReparented(mproc, init, births, told, cleaned, exits, makers, x, k, m);
    }

    lemma InitAlive(x: nat, k: nat)
      requires Inv(-1, x, k, -1) && k < |mproc| && x < |mproc| && mproc[k].inUse && mproc[x].exiting
      ensures init != x && (mproc[k].zombie ==> mproc[k].exiting)
    {
      hide Good, Hist, RefOk, Linked;
      RefFacts(mproc, init, -1, x, k, -1, k);
    }

    // One slot of the loop.
    method DisinheritOne(x: nat, k: nat)
      requires Inv(-1, x, k, -1) && k < |mproc| && 0 < x < |mproc| && mproc[x].inUse && mproc[x].exiting
      modifies this`mproc, this`told, this`procsInUse, this`cleaned
      ensures old(told) <= told && old(cleaned) <= cleaned
      ensures |mproc| == |old(mproc)| && Inv(-1, x, k + 1, -1)
      ensures Undisturbed(old(mproc), mproc, k)
      ensures k != x ==> Inherited(old(mproc)[k], mproc[k], x)
      ensures k == x || !old(mproc)[k].inUse || (old(mproc)[k].parent != x && old(mproc)[k].tracer != x) ==>
                mproc == old(mproc) && told == old(told)
    {
      hide Good, Hist, Awake;
      SelfFacts(x, k);
      if mproc[k].inUse {
        if mproc[k].tracer == x {
          TracerDied(x, k);
        }
        ghost var t := mproc;
        if mproc[k].parent == x {
          SelfStays(old(mproc)[x], mproc[x]);
          Reparent(x, k);
          UndisturbedTrans(old(mproc), t, mproc, k);
        }
      }
      PassedFacts(x, k);
    }

    lemma SelfStays(m: Mproc, m': Mproc)
      requires m' == m || m' == Awake(m)
      ensures m'.exiting == m.exiting && m'.inUse == m.inUse
    {
    }

    // x has no children and traces nobody.
    ghost predicate Alone(t: Table, x: nat) {
      forall i :: 0 <= i < |t| && i != x && t[i].inUse ==> t[i].parent != x && t[i].tracer != x
    }

    // Nobody is there to be told of x's death, to be woken by it or to be handed on.
    ghost predicate Unnoticed(t: Table, x: nat)
      requires x < |t|
      reads this`catches
    {
      t[x].tracer == NO_TRACER && !TellNow(t, x) && t[x].parent !in catches && Alone(t, x)
    }

    // The loop of exit_proc over the children and tracees of x.
    method Disinherit(x: nat)
      requires Inv(-1, x, 0, -1) && 0 < x < |mproc| && Gone(mproc[x], mproc[x])
      modifies this`mproc, this`told, this`procsInUse, this`cleaned
      ensures old(told) <= told && old(cleaned) <= cleaned
      ensures Valid() && |mproc| == |old(mproc)| && Gone(old(mproc)[x], mproc[x])
      ensures mproc[x] == old(mproc)[x] || mproc[x] == Awake(old(mproc)[x])
      ensures forall i :: 0 <= i < |mproc| && mproc[i].inUse ==> mproc[i].parent != x && mproc[i].tracer != x
      ensures forall i :: 0 <= i < |mproc| && i != x ==> Inherited(old(mproc)[i], mproc[i], x)
      ensures Alone(old(mproc), x) ==> mproc == old(mproc) && told == old(told)
    {
      hide Good, Hist, Awake, Inherited;
      var k := 0;
      while k < |mproc|
        invariant 0 <= k <= |mproc| == |old(mproc)|
        invariant Inv(-1, x, k, -1) && Gone(old(mproc)[x], mproc[x])
        invariant old(told) <= told && old(cleaned) <= cleaned
        invariant mproc[x] == old(mproc)[x] || mproc[x] == Awake(old(mproc)[x])
        invariant forall i :: 0 <= i < k && i != x ==> Inherited(old(mproc)[i], mproc[i], x)
        invariant forall i :: k <= i < |mproc| ==> mproc[i] == old(mproc)[i] || mproc[i] == Awake(old(mproc)[i])
        invariant Alone(old(mproc), x) ==> mproc == old(mproc) && told == old(told)
      {
        ghost var t := mproc;
        DisinheritOne(x, k);
        StillGone(old(mproc)[x], t[x], mproc[x]);
        AwakeTwice(old(mproc), t, mproc, k, x);
        k := k + 1;
      }
      AllPassedFacts(x);
    }

    lemma AwakeTwice(t0: Table, t: Table, t': Table, k: nat, x: nat)
      requires |t0| == |t| && k < |t| && Undisturbed(t, t', k)
      requires k != x ==> Inherited(t[k], t'[k], x)
      requires k == x ==> t' == t
      requires forall i :: 0 <= i < k && i != x ==> Inherited(t0[i], t[i], x)
      requires forall i :: k <= i < |t| ==> t[i] == t0[i] || t[i] == Awake(t0[i])
      requires x < |t| && (t[x] == t0[x] || t[x] == Awake(t0[x]))
      ensures forall i :: 0 <= i < k + 1 && i != x ==> Inherited(t0[i], t'[i], x)
      ensures forall i :: k + 1 <= i < |t| ==> t'[i] == t0[i] || t'[i] == Awake(t0[i])
      ensures t'[x] == t0[x] || t'[x] == Awake(t0[x])
    {
      forall i | 0 <= i < |t| { InheritedAwake(t0[i], t[i], x); }
      forall i | 0 <= i < |t| { AwakeAwake(t0[i]); }
      if k != x { InheritedFrom(t0[k], t[k], t'[k], x); }
      hide Inherited, Awake;
    }

    lemma InheritedFrom(m0: Mproc, m: Mproc, m': Mproc, x: nat)
      requires (m == m0 || m == Awake(m0)) && Inherited(m, m', x)
      ensures Inherited(m0, m', x)
    {
    }

    lemma StillGone(m: Mproc, m1: Mproc, m2: Mproc)
      requires Gone(m, m1) && (m2 == m1 || m2 == Awake(m1))
      ensures Gone(m, m2)
    {
    }

    lemma SelfFacts(x: nat, k: nat)
      requires Inv(-1, x, k, -1) && 0 < x < |mproc| && mproc[x].inUse && mproc[x].exiting
      ensures mproc[x].parent != x && mproc[x].tracer != x
    {
      RefFacts(mproc, init, -1, x, k, -1, x);
    }

    lemma PassedFacts(x: nat, k: nat)
      requires Inv(-1, x, k, -1) && k < |mproc|
      requires mproc[k].inUse ==> mproc[k].parent != x && mproc[k].tracer != x
      ensures Inv(-1, x, k + 1, -1)
    {
      hide Good, Hist;
      PassedKeeps(mproc, init, x, k);
    }

    lemma AllPassedFacts(x: nat)
      requires Inv(-1, x, |mproc|, -1) && 0 < x < |mproc| && mproc[x].exiting
      ensures Valid()
      ensures forall i :: 0 <= i < |mproc| && mproc[i].inUse ==> mproc[i].parent != x && mproc[i].tracer != x
    {
      AllPassed(mproc, init, x);
      forall i | 0 <= i < |mproc| && mproc[i].inUse ensures mproc[i].parent != x && mproc[i].tracer != x {
        ReusedSlotHasNoChildren(mproc, init, x, i);
        RefFacts(mproc, init, -1, -1, 0, -1, i);
      }
    }

    // Where the exit status of x is when exit_proc is done.
    ghost predicate StatusPlaced(m: Mproc, dump: bool) {
      if dump then m.dumping && !m.zombie && !m.traceZombie && !m.toldParent
      else m.zombie || m.traceZombie || m.toldParent
    }

    // A process ends. It must have no request at VFS: tell_vfs would panic. Slot 0
    // is the process manager itself.
    method ExitProc(x: nat, exitStatus: int, dumpCore: bool, setuid: bool)
      requires Valid() && 0 < x < |mproc| && mproc[x].inUse && !mproc[x].exiting && !mproc[x].vfsCall
      modifies this`mproc, this`told, this`procsInUse, this`cleaned, this`exits
      ensures old(told) <= told && old(cleaned) <= cleaned
      ensures Valid() && |mproc| == |old(mproc)|
      ensures x == init ==> mproc == old(mproc) && exits == old(exits)
      ensures x != init ==>
                && old(mproc)[x].serial !in old(exits) && exits == old(exits)[old(mproc)[x].serial := CharOf(exitStatus)]
                && Gone(Exiting(old(mproc)[x], exitStatus, dumpCore && !setuid && !old(mproc)[x].privProc), mproc[x])
                && mproc[x].exitStatus == CharOf(exitStatus)
                && StatusPlaced(mproc[x], dumpCore && !setuid && !old(mproc)[x].privProc)
                && (forall i :: 0 <= i < |mproc| && mproc[i].inUse ==> mproc[i].parent != x && mproc[i].tracer != x)
                && (forall i :: 0 <= i < |mproc| && i != x ==> Inherited(old(mproc)[i], mproc[i], x))
      ensures x != init && !dumpCore && Unnoticed(old(mproc), x) ==>
                mproc == old(mproc)[x := AsZombie(Exiting(old(mproc)[x], exitStatus, false))] && told == old(told)
    {
      hide Good, Hist, Settled, Exiting, Inherited, Awake, Unnoticed, Alone, AsZombie, StatusPlaced, Gone;
      var dump := dumpCore && !setuid && !mproc[x].privProc;
      if x == init {
        return;
      }
      BeginExit(x, exitStatus, dump);
      ghost var t := mproc;
      GoneAwake(Exiting(old(mproc)[x], exitStatus, dump), t[x]);
      Disinherit(x);
      AwakeStatus(t[x]);
      forall i | 0 <= i < |mproc| && i != x ensures Inherited(old(mproc)[i], mproc[i], x) {
        InheritedFrom(old(mproc)[i], t[i], mproc[i], x);
      }
    }

    lemma GoneAwake(m: Mproc, m': Mproc)
      ensures Gone(m, m') ==> Gone(m, Awake(m')) && Gone(m', m')
    {
    }

    // The first half: the process is marked, and without a core dump its death reported.
    method BeginExit(x: nat, exitStatus: int, dump: bool)
      requires Valid() && 0 < x < |mproc| && x != init && mproc[x].inUse && !mproc[x].exiting && !mproc[x].vfsCall
      modifies this`mproc, this`told, this`procsInUse, this`cleaned, this`exits
      ensures old(told) <= told && old(cleaned) <= cleaned
      ensures old(mproc)[x].serial !in old(exits) && exits == old(exits)[old(mproc)[x].serial := CharOf(exitStatus)]
      ensures |mproc| == |old(mproc)| && Inv(-1, x, 0, -1) && Undisturbed(old(mproc), mproc, x)
      ensures Gone(Exiting(old(mproc)[x], exitStatus, dump), mproc[x]) && StatusPlaced(mproc[x], dump)
      ensures mproc[x].exitStatus == CharOf(exitStatus)
      ensures !dump && Unnoticed(old(mproc), x) ==>
                && mproc == old(mproc)[x := AsZombie(Exiting(old(mproc)[x], exitStatus, false))] && Alone(mproc, x)
                && told == old(told)
    {
      hide Good, Hist, Settled, Exiting, Awake, Unnoticed, TellNow, FirstTracer, Alone, AsZombie, AsTraceZombie, Told,
           Gone, StatusPlaced;
      var m := Exiting(mproc[x], exitStatus, dump);
      ExitFacts(x, m, exitStatus, dump);
      SelfFactsNow(x);
      UnnoticedKept(mproc, x, exitStatus);
      DeadGone(m);
      mproc := mproc[x := m];
      exits := exits[m.serial := m.exitStatus];
      if dump {
        SettledNow(x, x, 0);
      } else {
        DeadSettled(m);
        Zombify(x, x, x, 0);
      }
    }

    lemma DeadGone(m: Mproc)
      requires m.inUse && m.exiting && m.vfsCall && !m.zombie && !m.traceZombie && !m.toldParent
      ensures Gone(m, m) && Gone(m, AsZombie(m)) && Gone(m, AsTraceZombie(m)) && Gone(m, Told(AsZombie(m)))
      ensures StatusPlaced(AsZombie(m), false) && StatusPlaced(AsTraceZombie(m), false) && StatusPlaced(Told(AsZombie(m)), false)
      ensures m.dumping ==> StatusPlaced(m, true)
      ensures AsZombie(m).exitStatus == AsTraceZombie(m).exitStatus == Told(AsZombie(m)).exitStatus == m.exitStatus
    {
    }

    lemma SelfFactsNow(x: nat)
      requires Valid() && x < |mproc| && mproc[x].inUse && x != init
      ensures mproc[x].parent != x
    {
      hide Good, Hist;
      RefFacts(mproc, init, -1, -1, 0, -1, x);
    }

    // Nobody notices the exiting process either.
    lemma UnnoticedKept(t: Table, x: nat, status: int)
      requires x < |t| && t[x].parent != x
      ensures Unnoticed(t, x) ==>
                var m := Exiting(t[x], status, false);
                && m.tracer == NO_TRACER && !TellNow(t[x := m], x) && m.parent !in catches
                && Alone(t[x := m][x := AsZombie(m)], x)
    {
    }

    lemma AwakeStatus(m: Mproc)
      ensures Awake(m).exitStatus == m.exitStatus
      ensures forall dump :: StatusPlaced(Awake(m), dump) == StatusPlaced(m, dump)
    {
    }

    // The second half of an exit, when VFS has replied: with a core dump this is
    // the time to report the death. A status already collected frees the slot.
    method ExitRestart(c: nat, dumpCore: bool)
      requires Inv(c, -1, 0, -1) && c < |mproc| && mproc[c].inUse && mproc[c].exiting && !mproc[c].vfsCall
      requires StatusPlaced(mproc[c], dumpCore)
      modifies this`mproc, this`told, this`procsInUse, this`cleaned
      ensures old(told) <= told && old(cleaned) <= cleaned
      ensures Valid() && |mproc| == |old(mproc)|
      ensures forall i :: 0 <= i < |mproc| && i != c ==> mproc[i] == old(mproc)[i] || mproc[i] == Awake(old(mproc)[i])
      ensures Kin(old(mproc)[c], mproc[c])
      ensures mproc[c].inUse ==> mproc[c].zombie || mproc[c].traceZombie
      ensures !mproc[c].inUse ==> cleaned == old(cleaned) + [old(mproc)[c].serial]
      ensures old(mproc)[c].toldParent ==> !mproc[c].inUse
    {
      hide Good, Hist, Settled, Told, AsZombie, AsTraceZombie, Freed, Awake;
      if dumpCore {
        Zombify(c, c, -1, 0);
        DeadKinds(old(mproc)[c]);
      }
      if mproc[c].toldParent {
        NotSettled(mproc[c]);
        Cleanup(c, c, -1, 0);
        FreedKin(old(mproc)[c]);
      } else {
        DeadNow(c, -1, 0);
      }
    }

    lemma DeadKinds(m: Mproc)
      requires m.inUse && !m.toldParent && !m.zombie && !m.traceZombie
      ensures forall d :: d == AsTraceZombie(m) || d == AsZombie(m) ==>
                Kin(m, d) && !d.toldParent && (d.zombie || d.traceZombie) && d.inUse
      ensures var d := Told(AsZombie(m));
              d.toldParent && d.exiting == m.exiting && d.vfsCall == m.vfsCall && d.serial == m.serial && Freed(d) == Freed(m)
    {
    }

    lemma NotSettled(m: Mproc)
      requires m.exiting && m.toldParent && !m.vfsCall
      ensures !Settled(m)
    {
    }

    lemma FreedKin(m: Mproc)
      requires m.exiting
      ensures !Freed(m).inUse && Kin(m, Freed(m))
    {
    }

    lemma DeadNow(c: nat, x: int, k: int)
      requires c < |mproc| && (mproc[c].zombie || mproc[c].traceZombie) && !mproc[c].vfsCall
      requires Inv(if Settled(mproc[c]) then -1 else c, x, k, -1) || Inv(c, x, k, -1)
      ensures Inv(-1, x, k, -1)
    {
      assert Ok(mproc[c]);
    }

    // VFS has answered the request about slot c: an exit goes on, anything else
    // (here: a fork) is just over.
    method VfsReplied(c: nat)
      requires Valid() && c < |mproc| && mproc[c].vfsCall
      modifies this`mproc, this`told, this`procsInUse, this`cleaned
      ensures old(told) <= told && old(cleaned) <= cleaned
      ensures Valid() && |mproc| == |old(mproc)|
      ensures forall i :: 0 <= i < |mproc| && i != c ==> mproc[i] == old(mproc)[i] || mproc[i] == Awake(old(mproc)[i])
      ensures Kin(old(mproc)[c], mproc[c])
      ensures !old(mproc)[c].exiting ==> mproc[c] == old(mproc)[c].(vfsCall := false, newParent := false)
      ensures old(mproc)[c].exiting && old(mproc)[c].toldParent ==>
                !mproc[c].inUse && cleaned == old(cleaned) + [old(mproc)[c].serial]
      ensures mproc[c].inUse ==> !mproc[c].vfsCall
    {
      hide Good, Hist, Settled;
      ReplyFacts(c);
      if mproc[c].exiting {
        mproc := mproc[c := mproc[c].(vfsCall := false)];
        ExitRestart(c, mproc[c].dumping);
      } else {
        mproc := mproc[c := mproc[c].(vfsCall := false, newParent := false)];
      }
    }

    lemma ReplyFacts(c: nat)
      requires Valid() && c < |mproc| && mproc[c].vfsCall
      ensures var m := mproc[c];
              && m.inUse
              && (m.exiting ==> var m' := m.(vfsCall := false);
                    Good(mproc[c := m'], init, c, -1, 0, -1) && Hist(mproc[c := m'], init, births, told, cleaned, exits, makers)
                    && Count(mproc[c := m']) == procsInUse
                    && StatusPlaced(m', m'.dumping))
              && (!m.exiting ==> var m' := m.(vfsCall := false, newParent := false);
                    Good(mproc[c := m'], init, -1, -1, 0, -1) && Hist(mproc[c := m'], init, births, told, cleaned, exits, makers)
                    && Count(mproc[c := m']) == procsInUse)
    {
      var m := mproc[c];
      assert Ok(m) && Settled(m);
      hide Good, Hist;
      var m' := if m.exiting then m.(vfsCall := false) else m.(vfsCall := false, newParent := false);
      FlagsKeep(mproc, init, c, m', if m.exiting then c else -1);
      HistSame(mproc, mproc[c := m'], init, births, told, cleaned, exits, makers);
    }

    /** --- Waiting --- */

    // An unreported child or tracee of w that waitpid(pid) of w is about. A tracee that
    // is a zombie is its parent's alone.
    ghost predicate Candidate(t: Table, w: nat, pid: int, c: int)
      requires 0 <= c < |t| && w < |t|
    {
      && t[c].inUse && !t[c].toldParent
      && (t[c].parent == w || t[c].tracer == w)
      && !(t[c].parent != w && t[c].zombie)
      && Selected(t[w].procgrp, pid, t[c])
    }

    // Its death can be reported to w now.
    ghost predicate Collectable(t: Table, w: nat, pid: int, c: int)
      requires 0 <= c < |t| && w < |t|
    {
      && Candidate(t, w, pid, c)
      && ((t[c].tracer == w && t[c].traceZombie) || (t[c].parent == w && t[c].zombie))
    }

    ghost predicate NoneBefore(t: Table, w: nat, pid: int, n: int)
      requires n <= |t| && w < |t|
    {
      forall i :: 0 <= i < n ==> !Collectable(t, w, pid, i)
    }

    // pid 0 stands for the caller's own process group.
    function PidArg(m: Mproc, pid: int): int {
      if pid == 0 then -m.procgrp else pid
    }

    // The tests of the argument made of pid let through what pid selects.
    lemma ArgumentSelects(t: Table, w: nat, pid: int, c: nat)
      requires w < |t| && c < |t| && Ok(t[w]) && Ok(t[c]) && t[w].inUse && t[c].inUse
      ensures Qualifies(PidArg(t[w], pid), t[c]) <==> Selected(t[w].procgrp, pid, t[c])
    {
    }

    method DoWaitpid(w: nat, pid: int, wnohang: bool) returns (r: int, ghost found: int)
      requires Valid() && 0 < w < |mproc| && mproc[w].inUse && !mproc[w].exiting && !mproc[w].waiting
      modifies this`mproc, this`told, this`procsInUse, this`cleaned
      ensures old(told) <= told && old(cleaned) <= cleaned
      ensures Valid() && |mproc| == |old(mproc)|
      ensures var t, g := old(mproc), old(mproc)[w].procgrp;
              if exists c :: 0 <= c < |t| && Collectable(t, w, pid, c) then
                && r == SUSPEND && 0 <= found < |t|
                && Collectable(t, w, pid, found) && NoneBefore(t, w, pid, found)
                && !mproc[w].waiting && Collected(old(mproc)[found], mproc[found], w)
                && (old(mproc)[found].zombie ==>
                      told == old(told) + [Notice(old(mproc)[found].serial, old(mproc)[found].exitStatus, w, old(mproc)[w].serial)])
              else if exists c :: 0 <= c < |t| && Candidate(t, w, pid, c) then
                && told == old(told) && cleaned == old(cleaned)
                && (if wnohang then r == 0 && mproc == t
                    else r == SUSPEND && mproc == t[w := t[w].(waiting := true, wpid := if pid == 0 then -g else pid)])
              else
                r == ECHILD && mproc == t && told == old(told) && cleaned == old(cleaned)
      // Spelled out for the caller's own process group.
      ensures var t, g := old(mproc), old(mproc)[w].procgrp;
              pid == 0 && g > 1 ==>
                && (r == ECHILD <==> forall c :: 0 <= c < |t| && t[c].inUse && !t[c].toldParent && t[c].procgrp == g ==>
                      t[c].parent != w && (t[c].tracer != w || t[c].zombie))
                && (0 <= found < |t| ==> t[found].procgrp == g)
                && (mproc[w].waiting ==> mproc[w].wpid == -g)
    {
      hide Good, Hist, Settled, Awake, Ok, Selected, Candidate;
      AllOk();
      OwnGroupMeant(mproc, w, pid);
      var pidarg := PidArg(mproc[w], pid);
      var children := 0;
      var rp := 0;
      found := -1;
      while rp < |mproc|
        invariant unchanged(this) && 0 <= rp <= |mproc|
        invariant NoneBefore(mproc, w, pid, rp)
        invariant children >= 0
        invariant children > 0 <==> exists c :: 0 <= c < rp && Candidate(mproc, w, pid, c)
      {
        var m := mproc[rp];
        TestedAs(mproc, w, pid, rp);
        if m.inUse && !m.toldParent && (m.parent == w || m.tracer == w) && !(m.parent != w && m.zombie)
           && !(pidarg > 0 && pidarg != m.pid) && !(pidarg < -1 && -pidarg != m.procgrp) {
          assert Candidate(mproc, w, pid, rp);
          children := children + 1;
          if m.tracer == w && m.traceZombie {
            found := rp;
            assert Collectable(mproc, w, pid, rp);
            CollectTraced(w, rp);
            return SUSPEND, found;
          }
          if m.parent == w && m.zombie {
            found := rp;
            assert Collectable(mproc, w, pid, rp);
            CollectChild(w, rp);
            return SUSPEND, found;
          }
        }
        rp := rp + 1;
      }
      if children > 0 {
        if wnohang {
          return 0, found;
        }
        WaitFacts(w, pid);
        mproc := mproc[w := mproc[w].(waiting := true, wpid := pidarg)];
        return SUSPEND, found;
      } else {
        return ECHILD, found;
      }
    }

    // What collecting does to the dead process: a tracer hands it on to the
    // parent, the parent finishes with it.
    ghost predicate Collected(m: Mproc, m': Mproc, w: nat) {
      if m.traceZombie then Checked(Handed(m), m')
      else m' == if m.vfsCall then Told(m) else Freed(Told(m))
    }

    method CollectTraced(w: nat, c: nat)
      requires Valid() && c < |mproc| && 0 < w < |mproc|
      requires mproc[c].inUse && mproc[c].tracer == w && mproc[c].traceZombie && !mproc[w].waiting && !mproc[w].exiting
      modifies this`mproc, this`told, this`procsInUse, this`cleaned
      ensures old(told) <= told && old(cleaned) <= cleaned
      ensures Valid() && |mproc| == |old(mproc)| && !mproc[w].waiting
      ensures Collected(old(mproc)[c], mproc[c], w) && !old(mproc)[c].zombie
    {
      hide Good, Hist, Settled, Awake, Told, Freed, Handed, Checked;
      TraceZombieOnly(c);
      TellTracer(c, -1, 0, -1);
      AwakeNot(old(mproc)[w]);
      AwakeNot(mproc[w]);
      HandedIs(old(mproc)[c]);
      CheckParent(c, true, -1, 0);
    }

    lemma AwakeNot(m: Mproc)
      ensures !Awake(m).waiting
    {
    }

    lemma HandedIs(m: Mproc)
      ensures Handed(m).zombie
    {
    }

    lemma TraceZombieOnly(c: nat)
      requires Valid() && c < |mproc|
      ensures mproc[c].traceZombie ==> !mproc[c].zombie && mproc[c].exiting
      ensures mproc[c].zombie ==> !mproc[c].traceZombie && !mproc[c].toldParent && mproc[c].exiting && Settled(mproc[c])
    {
      assert Ok(mproc[c]) && Settled(mproc[c]);
    }

    method CollectChild(w: nat, c: nat)
      requires Valid() && c < |mproc| && 0 < w < |mproc|
      requires mproc[c].inUse && mproc[c].parent == w && mproc[c].zombie && !mproc[w].waiting && !mproc[w].exiting
      modifies this`mproc, this`told, this`procsInUse, this`cleaned
      ensures old(told) <= told && old(cleaned) <= cleaned
      ensures Valid() && |mproc| == |old(mproc)| && !mproc[w].waiting
      ensures Collected(old(mproc)[c], mproc[c], w)
      ensures told == old(told) + [Notice(old(mproc)[c].serial, old(mproc)[c].exitStatus, w, old(mproc)[w].serial)]
    {
      hide Good, Hist, Settled, Awake, Freed;
      TraceZombieOnly(c);
      SkipOne(c);
      TellParent(c, -1, 0);
      AwakeNot(old(mproc)[w]);
      ToldSettled(old(mproc)[c]);
      if !mproc[c].vfsCall {
        Cleanup(c, if Settled(mproc[c]) then -1 else c, -1, 0);
      }
    }

    lemma SkipOne(c: nat)
      requires Valid()
      ensures Inv(-1, -1, 0, c)
    {
    }

    lemma TestedAs(t: Table, w: nat, pid: int, c: nat)
      requires w < |t| && c < |t| && Ok(t[w]) && Ok(t[c]) && t[w].inUse
      ensures var m, pidarg := t[c], PidArg(t[w], pid);
              Candidate(t, w, pid, c) <==>
                && m.inUse && !m.toldParent && (m.parent == w || m.tracer == w) && !(m.parent != w && m.zombie)
                && !(pidarg > 0 && pidarg != m.pid) && !(pidarg < -1 && -pidarg != m.procgrp)
    {
      if t[c].inUse { ArgumentSelects(t, w, pid, c); }
    }

    // What the cases come to for the caller's own process group.
    lemma OwnGroupMeant(t: Table, w: nat, pid: int)
      requires w < |t|
      ensures pid == 0 && t[w].procgrp > 1 ==>
                forall c :: 0 <= c < |t| ==>
                  (Candidate(t, w, pid, c) <==>
                     && t[c].inUse && !t[c].toldParent
                     && (t[c].parent == w || (t[c].tracer == w && !t[c].zombie)) && t[c].procgrp == t[w].procgrp)
    {
    }

    lemma AllOk()
      requires Valid()
      ensures forall i :: 0 <= i < |mproc| ==> Ok(mproc[i])
    {
    }

    lemma WaitFacts(w: nat, pid: int)
      requires Valid() && 0 < w < |mproc| && mproc[w].inUse && !mproc[w].exiting
      requires NoneBefore(mproc, w, pid, |mproc|)
      ensures var pidarg := PidArg(mproc[w], pid);
              var t := mproc[w := mproc[w].(waiting := true, wpid := pidarg)];
              Good(t, init, -1, -1, 0, -1) && Hist(t, init, births, told, cleaned, exits, makers) && Count(t) == procsInUse
    {
      var pidarg := PidArg(mproc[w], pid);
      forall c | 0 <= c < |mproc| && mproc[c].inUse && Qualifies(pidarg, mproc[c])
        ensures !(mproc[c].parent == w && mproc[c].zombie) && !(mproc[c].tracer == w && mproc[c].traceZombie)
      {
        assert Ok(mproc[c]) && Ok(mproc[w]) && !Collectable(mproc, w, pid, c);
        ArgumentSelects(mproc, w, pid, c);
      }
      hide Good, Hist;
      WaitKeeps(mproc, init, w, pidarg);
      HistSame(mproc, mproc[w := mproc[w].(waiting := true, wpid := pidarg)], init, births, told, cleaned, exits, makers);
    }

    /** --- Fork --- */

    // The slots from nextChild + 1 on, going round, until one is free.
    method FindSlot(ghost start: nat) returns (ghost probes: nat)
      requires Valid() && start == nextChild && procsInUse < |mproc|
      modifies this`nextChild
      ensures nextChild < |mproc| && !mproc[nextChild].inUse
      ensures 1 <= probes <= |mproc| && nextChild == Around(start, probes, |mproc|)
      ensures forall j :: 1 <= j < probes ==> mproc[Around(start, j, |mproc|)].inUse
    {
      hide Good, Hist;
      var n := 1;
      OneFurther(start, 0, |mproc|);
      nextChild := (nextChild + 1) % |mproc|;
      while mproc[nextChild].inUse && n <= |mproc|
        invariant 1 <= n <= |mproc| + 1 && nextChild < |mproc|
        invariant n <= |mproc| ==> nextChild == Around(start, n, |mproc|)
        invariant forall j :: 1 <= j < n ==> mproc[Around(start, j, |mproc|)].inUse
        decreases |mproc| + 1 - n
      {
        if n < |mproc| { OneFurther(start, n, |mproc|); }
        nextChild := (nextChild + 1) % |mproc|;
        n := n + 1;
      }
      if n > |mproc| {
        AllInUse(mproc, start);
        assert false;
      }
      probes := n;
    }

    // The slot of a new child: a copy of its parent's but for what follows.
    function Child(m: Mproc, who: int, inherit: bool, pid: int, serial: nat): Mproc {
      m.(parent := who, tracer := if inherit then m.tracer else NO_TRACER, pid := pid, exitStatus := 0, serial := serial,
         waiting := false, zombie := false, exiting := false, toldParent := false, traceZombie := false,
         traceExit := false, newParent := false, privProc := false, vfsCall := true, dumping := false, killed := false)
    }

    method DoFork(who: nat, superuser: bool, traceFork: bool, vmResult: int, newPid: int)
      returns (r: int, ghost probes: nat)
      requires Valid() && 0 < who < |mproc| && mproc[who].inUse && !mproc[who].exiting && newPid > 0
      modifies this`mproc, this`procsInUse, this`nextChild, this`births, this`makers
      ensures Valid() && |mproc| == |old(mproc)|
      ensures if old(procsInUse) == |mproc| || (old(procsInUse) >= |mproc| - LAST_FEW && !superuser) then
                r == EAGAIN && mproc == old(mproc) && births == old(births) && makers == old(makers)
              else if vmResult != OK then
                r == vmResult && mproc == old(mproc) && births == old(births) && makers == old(makers)
              else
                && r == SUSPEND && births == old(births) + 1 && procsInUse == old(procsInUse) + 1
                && 1 <= probes <= |mproc| && nextChild == Around(old(nextChild), probes, |mproc|)
                && !old(mproc)[nextChild].inUse
                && old(births) !in old(makers) && makers == old(makers)[old(births) := old(mproc)[who].serial]
                && mproc == old(mproc)[nextChild := Child(old(mproc)[who], who, traceFork, newPid, old(births))]
                && var m, p := mproc[nextChild], old(mproc)[who];
                && m.inUse && m.parent == who && m.procgrp == p.procgrp && m.pid == newPid && m.serial == old(births)
                && m.tracer == (if traceFork then p.tracer else NO_TRACER)
                && m.vfsCall && !m.exiting && !m.waiting && !m.zombie && !m.traceZombie && !m.toldParent && !m.killed
                && !m.privProc && m.exitStatus == 0
    {
      hide Good, Hist, Child;
      probes := 0;
      if procsInUse == |mproc| || (procsInUse >= |mproc| - LAST_FEW && !superuser) {
        return EAGAIN, probes;
      }
      NotOverfull();
      probes := FindSlot(nextChild);
      if vmResult != OK {
        return vmResult, probes;
      }
      ChildFacts(who, nextChild, traceFork, newPid);
      ChildIs(mproc[who], who, traceFork, newPid, births);
      procsInUse := procsInUse + 1;
      makers := makers[births := mproc[who].serial];
      mproc := mproc[nextChild := Child(mproc[who], who, traceFork, newPid, births)];
      births := births + 1;
      return SUSPEND, probes;
    }

    lemma ChildIs(p: Mproc, who: int, inherit: bool, pid: int, serial: nat)
      requires p.inUse
      ensures var m := Child(p, who, inherit, pid, serial);
              && m.inUse && m.parent == who && m.procgrp == p.procgrp && m.pid == pid && m.serial == serial
              && m.tracer == (if inherit then p.tracer else NO_TRACER)
              && m.vfsCall && !m.exiting && !m.waiting && !m.zombie && !m.traceZombie && !m.toldParent && !m.killed
              && !m.privProc && m.exitStatus == 0
    {
    }

    lemma NotOverfull()
      requires Valid()
      ensures procsInUse <= |mproc|
    {
      CountFull(mproc);
    }

    lemma ChildFacts(who: nat, c: nat, inherit: bool, pid: int)
      requires Valid() && 0 < who < |mproc| && mproc[who].inUse && !mproc[who].exiting && pid > 0
      requires c < |mproc| && !mproc[c].inUse
      ensures var t := mproc[c := Child(mproc[who], who, inherit, pid, births)];
              && Good(t, init, -1, -1, 0, -1) && Count(t) == procsInUse + 1
              && Hist(t, init, births + 1, told, cleaned, exits, makers[births := mproc[who].serial])
      ensures births !in makers
    {
      hide Good, Hist;
      EachOk(mproc, init, -1, -1, 0, -1, who);
      InitInUse(mproc, init, -1, -1, 0, -1);
      var m := Child(mproc[who], who, inherit, pid, births);
      ForkKeeps(mproc, init, who, c, m);
      HistBorn(mproc, init, births, told, cleaned, exits, makers, c, m, mproc[who].serial);
    }

    /** --- Runs --- */

    // When the server takes a request up: from a live process that is not blocked
    // in a wait or in a call to VFS. A pending kill is delivered as an Exit.
    ghost predicate Enabled(e: Event)
      reads this
    {
      match e
      case Fork(who, _, _, _, newPid) => Running(who) && newPid > 0
      case Exit(who, _, _, _) => Alive(who) && !mproc[who].vfsCall
      case Waitpid(who, _, _) => Running(who)
      case Replied(c) => 0 <= c < |mproc| && mproc[c].vfsCall
      case Attach(c, tracer) => Alive(c) && Alive(tracer) && c != tracer
      case TraceExit(c, _) => Alive(c) && !mproc[c].vfsCall && mproc[c].tracer != NO_TRACER
      case Interrupt(p) => Alive(p)
      case Catch(p, _) => Alive(p)
    }

    predicate Alive(p: int)
      reads this
    {
      0 < p < |mproc| && mproc[p].inUse && !mproc[p].exiting
    }

    predicate Running(p: int)
      reads this
    {
      Alive(p) && !mproc[p].waiting && !mproc[p].vfsCall
    }

    // A debugger attaches to c.
    method Attach(c: nat, tracer: nat)
      requires Valid() && Enabled(Event.Attach(c, tracer))
      modifies this`mproc
      ensures Valid() && mproc == old(mproc)[c := old(mproc)[c].(tracer := tracer)]
    {
      hide Good, Hist;
      ghost var t := mproc[c := mproc[c].(tracer := tracer)];
      AttachKeeps(mproc, init, c, tracer);
      HistSame(mproc, t, init, births, told, cleaned, exits, makers);
      mproc := mproc[c := mproc[c].(tracer := tracer)];
    }

    // A signal interrupts a wait.
    method Interrupt(p: nat)
      requires Valid() && Enabled(Event.Interrupt(p))
      modifies this`mproc
      ensures Valid() && mproc == old(mproc)[p := Awake(old(mproc)[p])]
    {
      hide Good, Hist;
      Woken(p, -1, -1, 0, -1);
      mproc := mproc[p := Awake(mproc[p])];
    }

    // The tracer orders c to exit.
    method TraceExit(c: nat, status: int)
      requires Valid() && Enabled(Event.TraceExit(c, status))
      modifies this`mproc, this`told, this`procsInUse, this`cleaned, this`exits
      ensures Valid() && old(told) <= told && old(cleaned) <= cleaned && |mproc| == |old(mproc)|
      ensures Extends(old(exits), exits)
      ensures c != init ==> mproc[c].exiting && mproc[c].exitStatus == CharOf(status)
    {
      hide Good, Hist;
      TraceExitFacts(c);
      mproc := mproc[c := mproc[c].(traceExit := true)];
      ExitProc(c, status, false, false);
    }

    lemma TraceExitFacts(c: nat)
      requires Valid() && Alive(c) && mproc[c].tracer != NO_TRACER
      ensures var t := mproc[c := mproc[c].(traceExit := true)];
              Good(t, init, -1, -1, 0, -1) && Hist(t, init, births, told, cleaned, exits, makers) && Count(t) == procsInUse
    {
      assert Ok(mproc[c]);
      hide Good, Hist;
      var m := mproc[c].(traceExit := true);
      FlagsKeep(mproc, init, c, m, -1);
      HistSame(mproc, mproc[c := m], init, births, told, cleaned, exits, makers);
    }

    // One request; those that are not enabled are discarded.
    method Handle(e: Event)
      requires Valid()
      modifies this
      ensures Valid() && old(told) <= told && old(cleaned) <= cleaned
      ensures Extends(old(exits), exits) && Extends(old(makers), makers)
    {
      hide Good, Hist, Inherited, Settled, Exiting;
      match e
      case Fork(who, superuser, traceFork, vmResult, newPid) =>
        if Running(who) && newPid > 0 {
          var r, _ := DoFork(who, superuser, traceFork, vmResult, newPid);
        }
      case Exit(who, status, dump, setuid) =>
        if Alive(who) && !mproc[who].vfsCall { ExitProc(who, status, dump, setuid); }
      case Waitpid(who, pid, wnohang) =>
        if Running(who) {
          var r, _ := DoWaitpid(who, pid, wnohang);
        }
      case Replied(c) =>
        if 0 <= c < |mproc| && mproc[c].vfsCall { VfsReplied(c); }
      case Attach(c, tracer) =>
        if Alive(c) && Alive(tracer) && c != tracer { Attach(c, tracer); }
      case TraceExit(c, status) =>
        if Alive(c) && !mproc[c].vfsCall && mproc[c].tracer != NO_TRACER { TraceExit(c, status); }
      case Interrupt(p) =>
        if Alive(p) { Interrupt(p); }
      case Catch(p, on) =>
        if Alive(p) { catches := if on then catches + {p} else catches - {p}; }
    }

    // What holds of the server after any run.
    ghost predicate Sound()
      reads this
    {
      NobodyWaitsInVain() && TheDeadAreExpected() && RelativesAlive() && ReportedOnce() && ReportedRightly()
    }

    // No process waits for a death that is there to be reported to it.
    ghost predicate NobodyWaitsInVain()
      reads this
    {
      forall p, c :: 0 <= p < |mproc| && 0 <= c < |mproc| ==>
        (mproc[p].waiting && mproc[c].inUse && Qualifies(mproc[p].wpid, mproc[c])
         && (mproc[p].wpid == 0 ==> mproc[c].procgrp == 0) ==>
           !(mproc[c].parent == p && mproc[c].zombie) && !(mproc[c].tracer == p && mproc[c].traceZombie))
    }

    // A dead process that VFS has finished with waits for its tracer or its parent.
    ghost predicate TheDeadAreExpected()
      reads this
    {
      forall c :: 0 <= c < |mproc| && mproc[c].inUse && mproc[c].exiting && !mproc[c].vfsCall ==>
        !mproc[c].toldParent && mproc[c].zombie != mproc[c].traceZombie
    }

    ghost predicate RelativesAlive()
      reads this
    {
      forall c :: 0 <= c < |mproc| && mproc[c].inUse ==>
        Alive(mproc[c].parent) && (mproc[c].tracer != NO_TRACER ==> Alive(mproc[c].tracer))
    }

    // No status is reported twice, no slot given up twice or before the report.
    ghost predicate ReportedOnce()
      reads this
    {
      && (forall a, b :: 0 <= a < b < |told| ==> told[a].serial != told[b].serial)
      && (forall a, b :: 0 <= a < b < |cleaned| ==> cleaned[a] != cleaned[b])
      && (forall s :: s in cleaned ==> exists n :: n in told && n.serial == s)
      && procsInUse == Count(mproc) == births - |cleaned|
    }

    // A status reported is the one its process ended with, and it went to the process
    // that forked it or, after that one's end, to INIT.
    ghost predicate ReportedRightly()
      reads this
    {
      && (forall n :: n in told ==> RightStatus(init, exits, makers, n))
      && (forall c :: 0 <= c < |mproc| && mproc[c].inUse ==> (mproc[c].exiting <==> mproc[c].serial in exits))
    }

    // Any sequence of requests, in any order.
    method Run(events: seq<Event>)
      requires Valid()
      modifies this
      ensures Valid() && Sound() && old(told) <= told && old(cleaned) <= cleaned
      ensures Extends(old(exits), exits) && Extends(old(makers), makers)
    {
      hide Valid, Sound;
      for i := 0 to |events|
        invariant Valid() && old(told) <= told && old(cleaned) <= cleaned
        invariant Extends(old(exits), exits) && Extends(old(makers), makers)
      {
        Handle(events[i]);
      }
      ValidIsSound();
    }

    lemma ValidIsSound()
      requires Valid()
      ensures Sound()
    {
      WaitsInVain();
      DeadExpected();
      AliveRelatives();
      Rightly();
      hide Good, NobodyWaitsInVain, TheDeadAreExpected, RelativesAlive, ReportedRightly, Annals;
    }

    lemma WaitsInVain()
      requires Valid()
      ensures NobodyWaitsInVain()
    {
      hide Good, Hist;
      forall p, c | 0 <= p < |mproc| && 0 <= c < |mproc|
        ensures mproc[p].waiting && mproc[c].inUse && Qualifies(mproc[p].wpid, mproc[c])
                && (mproc[p].wpid == 0 ==> mproc[c].procgrp == 0) ==>
                  !(mproc[c].parent == p && mproc[c].zombie) && !(mproc[c].tracer == p && mproc[c].traceZombie)
      {
        if mproc[p].waiting && mproc[c].inUse && Qualifies(mproc[p].wpid, mproc[c])
           && (mproc[p].wpid == 0 ==> mproc[c].procgrp == 0) {
          NoLostWakeup(mproc, init, p, c);
        }
      }
    }

    lemma Rightly()
      requires Valid()
      ensures ReportedRightly()
    {
      hide Good;
      forall c | 0 <= c < |mproc| && mproc[c].inUse ensures mproc[c].exiting <==> mproc[c].serial in exits {
        assert Recorded(mproc, init, exits, makers, c);
      }
    }

    lemma DeadExpected()
      requires Valid()
      ensures TheDeadAreExpected()
    {
      hide Hist, NoLost, Linked;
      forall c | 0 <= c < |mproc| && mproc[c].inUse && mproc[c].exiting && !mproc[c].vfsCall
        ensures !mproc[c].toldParent && mproc[c].zombie != mproc[c].traceZombie
      {
        assert Ok(mproc[c]) && Settled(mproc[c]);
      }
    }

    lemma AliveRelatives()
      requires Valid()
      ensures RelativesAlive()
    {
      hide Good, Hist;
      forall c | 0 <= c < |mproc| && mproc[c].inUse
        ensures Alive(mproc[c].parent) && (mproc[c].tracer != NO_TRACER ==> Alive(mproc[c].tracer))
      {
        RefFacts(mproc, init, -1, -1, 0, -1, c);
      }
    }
  }

  /** --- Wakeups that are lost --- */

  /** When p waits with argument 0 and does not catch SIGCHLD, and a child of it outside
      process group 0, with no tracer and nobody to be orphaned, exits without a core
      dump, the child qualifies for the wait, and the two wait for each other. */
  method LoseWakeup(pm: ProcessManager, p: nat, c: nat, status: int, setuid: bool)
    requires pm.Valid() && p < |pm.mproc| && 0 < c < |pm.mproc| && c != pm.init
    requires pm.mproc[p].waiting && pm.mproc[p].wpid == 0 && p !in pm.catches
    requires var m := pm.mproc[c];
             m.inUse && !m.exiting && !m.vfsCall && m.parent == p && m.tracer == NO_TRACER && m.procgrp != 0
    requires pm.Alone(pm.mproc, c)
    modifies pm
    ensures pm.Valid() && |pm.mproc| == |old(pm.mproc)| && pm.mproc[p] == old(pm.mproc)[p] && pm.told == old(pm.told)
    ensures pm.mproc[p].waiting && pm.mproc[c].inUse && pm.mproc[c].zombie && pm.mproc[c].parent == p
    ensures Qualifies(pm.mproc[p].wpid, pm.mproc[c])
  {
    hide Good, Hist, Settled, Count, ProcessManager.Alone;
    NotNoticed(pm, p, c, status);
    pm.ExitProc(c, status, false, setuid);
  }

  lemma NotNoticed(pm: ProcessManager, p: nat, c: nat, status: int)
    requires pm.Valid() && p < |pm.mproc| && c < |pm.mproc| && c != pm.init
    requires pm.mproc[p].waiting && pm.mproc[p].wpid == 0 && p !in pm.catches
    requires var m := pm.mproc[c]; m.inUse && m.parent == p && m.tracer == NO_TRACER && m.procgrp != 0
    requires pm.Alone(pm.mproc, c)
    ensures pm.Unnoticed(pm.mproc, c) && p != c
    ensures var m := AsZombie(pm.Exiting(pm.mproc[c], status, false));
            m.inUse && m.zombie && m.parent == p && Qualifies(0, m)
  {
    assert Ok(pm.mproc[c]);
    hide ProcessManager.Alone;
    RefFacts(pm.mproc, pm.init, -1, -1, 0, -1, c);
  }

  // INIT, in process group 0, and a child of another group.
  function GroupZero(): Table {
    var m := Mproc(true, false, false, false, false, false, false, false, false, false,
                   1, NO_TRACER, 1, 0, 0, 0, false, false, 0);
    [Freed(m), m, m.(pid := 2, procgrp := 5, serial := 1)]
  }

  lemma GroupZeroBoots()
    ensures Boot(GroupZero(), 1) && Count(GroupZero()) == 2
  {
    var t := GroupZero();
    assert t[..2][..1] == t[..1] && t[..1][..0] == [] && t[..2][1] == t[1];
    assert Count(t) == Count(t[..2]) + 1 && Count(t[..2]) == Count(t[..1]) + 1 && Count(t[..1]) == 0;
  }

  /** Process 1 calls waitpid(0), which the child in slot 2 qualifies for, and then the
      child exits: the server ends up with both waiting for each other. */
  method WaitForEachOther() returns (pm: ProcessManager)
    ensures fresh(pm) && pm.Valid() && |pm.mproc| == 3
    ensures var p, c := pm.mproc[1], pm.mproc[2];
            && p.waiting && c.inUse && c.zombie && c.parent == 1 && Qualifies(p.wpid, c)
  {
    hide Boot, Count, Good, Hist, Settled, MakersOf, GroupZero, ProcessManager.Candidate, ProcessManager.Collectable,
         ProcessManager.Alone, Qualifies;
    GroupZeroBoots();
    var t := GroupZero();
    pm := new ProcessManager(t, 1);
    WaitsForTwo(pm, t);
    var r, _ := pm.DoWaitpid(1, 0, false);
    LoseWakeup(pm, 1, 2, 0, false);
  }

  lemma WaitsForTwo(pm: ProcessManager, t: Table)
    requires t == GroupZero()
    ensures |t| == 3 && t[1].inUse && !t[1].exiting && !t[1].waiting
    ensures t[1].procgrp == 0 && pm.Candidate(t, 1, 0, 2)
    ensures forall c :: 0 <= c < |t| ==> !pm.Collectable(t, 1, 0, c)
    ensures var m := t[2]; m.inUse && !m.exiting && !m.vfsCall && m.parent == 1 && m.tracer == NO_TRACER && m.procgrp != 0
    ensures pm.Alone(t[1 := t[1].(waiting := true, wpid := 0)], 2)
  {
  }
}
