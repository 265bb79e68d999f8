/** The process table of the process manager, as a value, and the invariant of
    its parent, tracer and exit bookkeeping. */
module ProcTable {

  const NO_TRACER: int := 0

  /** A slot of mproc; the flags are those of mp_flags that exit and wait use.
      dumping: VFS was asked for a core dump (VFS_PM_DUMPCORE), not just told of
      the exit. killed: a SIGKILL is pending. serial numbers the processes in the
      order of their creation; the server has no such field. */
  datatype Mproc = Mproc(
    inUse: bool, waiting: bool, zombie: bool, exiting: bool, toldParent: bool,
    traceZombie: bool, traceExit: bool, vfsCall: bool, newParent: bool, privProc: bool,
    parent: int, tracer: int, pid: int, procgrp: int, wpid: int, exitStatus: int,
    dumping: bool, killed: bool, serial: nat)

  type Table = seq<Mproc>

  /** --- What do_waitpid and wait_test look for --- */

  // The children a waitpid argument selects, as do_waitpid tests it.
  predicate Qualifies(pidarg: int, c: Mproc) {
    !(pidarg > 0 && pidarg != c.pid) && !(pidarg < -1 && -pidarg != c.procgrp)
  }

  /** What waitpid(pid) of a caller in process group g is about: a positive pid one
      process, 0 the caller's group, -1 any child, and less the group of that number. In
      groups 0 and 1, 0 is any child too. */
  predicate Selected(g: int, pid: int, m: Mproc) {
    if pid > 0 then m.pid == pid
    else if pid == 0 then g <= 1 || m.procgrp == g
    else pid == -1 || m.procgrp == -pid
  }

  // The test wait_test makes when a child dies.
  predicate RightChild(pidarg: int, c: Mproc) {
    pidarg == -1 || pidarg == c.pid || -pidarg == c.procgrp
  }

  predicate WaitTest(p: Mproc, c: Mproc) {
    p.waiting && RightChild(p.wpid, c)
  }

  // The two tests select the same children exactly for an argument other than 0,
  // which only a caller in process group 0 can produce.
  lemma TestsAgree(pidarg: int)
    ensures (forall c: Mproc | c.pid > 0 && c.procgrp >= 0 :: Qualifies(pidarg, c) <==> RightChild(pidarg, c))
       <==> pidarg != 0
  {
    if pidarg == 0 {
      var c := Mproc(true, false, false, false, false, false, false, false, false, false,
                     1, 0, 1, 1, 0, 0, false, false, 0);
      assert Qualifies(pidarg, c) && !RightChild(pidarg, c);
    }
  }

  // waitpid(0) of a caller in process group g passes -g on. What then qualifies are the
  // children of the group exactly if g is more than 1: -1 stands for any child.
  lemma OwnGroup(g: int)
    requires g >= 0
    ensures (forall c: Mproc | c.pid > 0 && c.procgrp >= 0 :: Qualifies(-g, c) <==> c.procgrp == g) <==> g > 1
    ensures (forall c: Mproc | c.pid > 0 && c.procgrp >= 0 :: RightChild(-g, c) <==> c.procgrp == g) <==> g != 1
  {
    if g <= 1 {
      var c := Mproc(true, false, false, false, false, false, false, false, false, false,
                     1, 0, 1, 2, 0, 0, false, false, 0);
      assert Qualifies(-g, c) && c.procgrp != g;
      assert g == 1 ==> RightChild(-g, c);
    }
  }

  /** --- Invariant --- */

  // A slot by itself: at most one of ZOMBIE, TRACE_ZOMBIE and TOLD_PARENT, and
  // these only on a process that is exiting.
  predicate Ok(m: Mproc) {
    && (!m.inUse ==> !m.waiting && !m.zombie && !m.exiting && !m.toldParent && !m.traceZombie && !m.traceExit && !m.vfsCall)
    && (m.exiting ==> !m.waiting)
    && (m.zombie || m.traceZombie || m.toldParent ==> m.exiting)
    && !(m.zombie && m.traceZombie) && !(m.zombie && m.toldParent) && !(m.traceZombie && m.toldParent)
    && (m.traceZombie || m.traceExit ==> m.tracer != NO_TRACER)
    && (m.inUse ==> m.pid > 0 && m.procgrp >= 0)
  }

  // Nothing is left to do for an exiting process but what VFS or its parent
  // will start: its parent has been told only if VFS has not replied yet, and it
  // has no status yet exactly while VFS is dumping core.
  predicate Settled(m: Mproc) {
    m.exiting ==>
      && (m.toldParent ==> m.vfsCall)
      && (!m.zombie && !m.traceZombie && !m.toldParent ==> m.vfsCall && m.dumping)
      && (m.zombie || m.traceZombie || m.toldParent ==> !(m.vfsCall && m.dumping))
  }

  // The parent or tracer r of slot i is alive, or it is x, whose exit has not
  // come to slot i yet.
  predicate RefOk(t: Table, init: nat, i: int, r: int, x: int, k: int) {
    && 0 < r < |t| && t[r].inUse && (i != init ==> r != i)
    && (!t[r].exiting || (r == x && i >= k))
  }

  predicate Linked(t: Table, init: nat, i: int, x: int, k: int)
    requires 0 <= i < |t|
  {
    t[i].inUse ==>
      && RefOk(t, init, i, t[i].parent, x, k)
      && (t[i].tracer != NO_TRACER ==> RefOk(t, init, i, t[i].tracer, x, k))
  }

  // p waits for a child like c, and c's death is there to be reported to p.
  predicate Lost(t: Table, p: int, c: int)
    requires 0 <= p < |t| && 0 <= c < |t|
  {
    && WaitTest(t[p], t[c])
    && ((t[c].parent == p && t[c].zombie) || (t[c].tracer == p && t[c].traceZombie))
  }

  ghost predicate NoLost(t: Table, skip: int) {
    forall p, c :: 0 <= p < |t| && 0 <= c < |t| && c != skip ==> !Lost(t, p, c)
  }

  /** y: a slot in transition, whose exit is not settled; x, k: slots from k on
      may still refer to the exiting process x; skip: a zombie whose parent has
      not been looked at. -1 for none. */
  ghost predicate Good(t: Table, init: nat, y: int, x: int, k: int, skip: int) {
    && 0 < init < |t| && t[init].inUse && !t[init].exiting
    && (forall i :: 0 <= i < |t| ==> Ok(t[i]))
    && (forall i :: 0 <= i < |t| && i != y ==> Settled(t[i]))
    && (forall i :: 0 <= i < |t| ==> Linked(t, init, i, x, k))
    && NoLost(t, skip)
  }

  /** --- Changes that keep it --- */

  function Awake(m: Mproc): Mproc {
    m.(waiting := false)
  }

  function AsZombie(m: Mproc): Mproc {
    m.(zombie := true)
  }

  function AsTraceZombie(m: Mproc): Mproc {
    m.(traceZombie := true)
  }

  // The tracer has been told; the parent is next.
  function Handed(m: Mproc): Mproc {
    m.(traceZombie := false, zombie := true)
  }

  function Told(m: Mproc): Mproc {
    m.(zombie := false, toldParent := true)
  }

  // b is a, perhaps woken up or with a pending SIGKILL.
  predicate Quieter(a: Mproc, b: Mproc) {
    b == a || b == Awake(a) || (!a.exiting && b == a.(killed := true))
  }

  lemma QuietKeeps(t: Table, t': Table, init: nat, y: int, x: int, k: int, skip: int)
    requires Good(t, init, y, x, k, skip) && |t'| == |t|
    requires forall i :: 0 <= i < |t| ==> Quieter(t[i], t'[i])
    ensures Good(t', init, y, x, k, skip)
  {
    forall i | 0 <= i < |t| ensures Linked(t', init, i, x, k) {
      assert Linked(t, init, i, x, k);
    }
    forall p, c | 0 <= p < |t| && 0 <= c < |t| && c != skip ensures !Lost(t', p, c) {
      assert !Lost(t, p, c);
    }
  }

  // m' may replace m: the same process with other status flags.
  predicate SameProcess(m: Mproc, m': Mproc) {
    && m'.inUse == m.inUse && m'.exiting == m.exiting && m'.parent == m.parent && m'.tracer == m.tracer
    && m'.pid == m.pid && m'.procgrp == m.procgrp && m'.waiting == m.waiting && m'.wpid == m.wpid
  }

  lemma StatusKeeps(t: Table, init: nat, y: int, x: int, k: int, skip: int, c: nat, m: Mproc, y': int, skip': int)
    requires Good(t, init, y, x, k, skip) && c < |t| && SameProcess(t[c], m) && Ok(m)
    requires (y == -1 || y == c) && (y' == c || (y' == -1 && Settled(m)))
    requires skip == -1 || skip == c
    requires skip' == c || (skip' == -1 && !m.zombie && !m.traceZombie)
    ensures Good(t[c := m], init, y', x, k, skip')
  {
    var t' := t[c := m];
    forall i | 0 <= i < |t| ensures Linked(t', init, i, x, k) {
      assert Linked(t, init, i, x, k);
    }
    forall p, d | 0 <= p < |t| && 0 <= d < |t| && d != skip' ensures !Lost(t', p, d) {
      if d != c { assert !Lost(t, p, d); }
    }
  }

  // The process a dead one is reported to next does not wait for it.
  lemma NobodyWaits(t: Table, init: nat, y: int, x: int, k: int, c: nat)
    requires Good(t, init, y, x, k, c) && c < |t|
    requires t[c].zombie ==> 0 <= t[c].parent < |t| && !WaitTest(t[t[c].parent], t[c])
    requires t[c].traceZombie ==> 0 <= t[c].tracer < |t| && !WaitTest(t[t[c].tracer], t[c])
    ensures Good(t, init, y, x, k, -1)
  {
    forall p, d | 0 <= p < |t| && 0 <= d < |t| ensures !Lost(t, p, d) {
      if d != c { assert !Lost(t, p, d); } else { assert Ok(t[c]); }
    }
  }

  lemma RefFacts(t: Table, init: nat, y: int, x: int, k: int, skip: int, c: nat)
    requires Good(t, init, y, x, k, skip) && c < |t| && t[c].inUse
    ensures 0 < t[c].parent < |t| && t[t[c].parent].inUse && (c != init ==> t[c].parent != c)
    ensures t[c].tracer != NO_TRACER ==>
              0 < t[c].tracer < |t| && t[t[c].tracer].inUse && (c != init ==> t[c].tracer != c)
    ensures t[t[c].parent].exiting ==> t[c].parent == x
    ensures Ok(t[c]) && (t[c].exiting ==> c != init) && init < |t| && !t[init].exiting
    ensures x == -1 ==> !t[t[c].parent].exiting && (t[c].tracer != NO_TRACER ==> !t[t[c].tracer].exiting)
  {
    assert Linked(t, init, c, x, k);
  }

  lemma EachOk(t: Table, init: nat, y: int, x: int, k: int, skip: int, c: nat)
    requires Good(t, init, y, x, k, skip) && c < |t|
    ensures Ok(t[c])
  {
  }

  // A tracer is attached to a running process.
  lemma AttachKeeps(t: Table, init: nat, c: nat, r: nat)
    requires Good(t, init, -1, -1, 0, -1) && c < |t| && t[c].inUse && !t[c].exiting
    requires 0 < r < |t| && r != c && t[r].inUse && !t[r].exiting
    ensures Good(t[c := t[c].(tracer := r)], init, -1, -1, 0, -1)
  {
    var t' := t[c := t[c].(tracer := r)];
    forall i | 0 <= i < |t| ensures Linked(t', init, i, -1, 0) {
      assert Linked(t, init, i, -1, 0);
    }
    forall p, d | 0 <= p < |t| && 0 <= d < |t| ensures !Lost(t', p, d) {
      assert !Lost(t, p, d) && Ok(t[d]);
    }
  }

  /** --- Slots in use --- */

  function Count(t: Table): nat {
    if t == [] then 0 else Count(t[..|t| - 1]) + if t[|t| - 1].inUse then 1 else 0
  }

  lemma {:induction false} CountUpdate(t: Table, c: nat, m: Mproc)
    requires c < |t|
    ensures Count(t[c := m]) == Count(t) + (if m.inUse then 1 else 0) - (if t[c].inUse then 1 else 0)
  {
    var last, t' := |t| - 1, t[c := m];
    if c == last {
      assert t'[..last] == t[..last];
    } else {
      assert t'[..last] == t[..last][c := m];
      CountUpdate(t[..last], c, m);
    }
  }

  lemma {:induction false} CountFull(t: Table)
    ensures Count(t) <= |t|
    ensures Count(t) == |t| <==> forall i :: 0 <= i < |t| ==> t[i].inUse
  {
    if t != [] {
      var rest := t[..|t| - 1];
      CountFull(rest);
      assert forall i :: 0 <= i < |rest| ==> rest[i] == t[i];
    }
  }

  lemma {:induction false} CountSame(t: Table, t': Table)
    requires |t'| == |t| && forall i :: 0 <= i < |t| ==> t'[i].inUse == t[i].inUse
    ensures Count(t') == Count(t)
  {
    if t != [] { CountSame(t[..|t| - 1], t'[..|t| - 1]); }
  }

  // The slot j steps after start, going round a table of m slots.
  function Around(start: nat, j: nat, m: nat): (i: nat)
    requires start < m && j <= m
    ensures i < m
  {
    if start + j < m then start + j else start + j - m
  }

  lemma OneFurther(start: nat, j: nat, m: nat)
    requires start < m && j < m
    ensures (Around(start, j, m) + 1) % m == Around(start, j + 1, m)
  {
    if Around(start, j, m) + 1 < m { SmallMod(Around(start, j, m) + 1, m); }
  }

  lemma SmallMod(x: nat, m: nat)
    requires x < m
    ensures x % m == x
  {
  }

  // m steps visit every slot.
  lemma AllInUse(t: Table, start: nat)
    requires start < |t| && forall j :: 1 <= j < |t| + 1 ==> t[Around(start, j, |t|)].inUse
    ensures Count(t) == |t|
  {
    forall i | 0 <= i < |t| ensures t[i].inUse {
      assert Around(start, if i > start then i - start else i + |t| - start, |t|) == i;
    }
    CountFull(t);
  }

  /** --- History --- */

  // A parent was given the status of a child; toSerial: the process in slot to then.
  datatype Notice = Notice(serial: nat, status: int, to: int, toSerial: nat)

  function Serials(told: seq<Notice>): set<nat> {
    set n | n in told :: n.serial
  }

  // What has been reported and cleaned up so far: each process at most once, the
  // report before the cleanup, and every process ever created is accounted for.
  ghost predicate Hist(t: Table, init: nat, births: nat, told: seq<Notice>, cleaned: seq<nat>,
                       exits: map<nat, int>, makers: map<nat, nat>) {
    && (forall i :: 0 <= i < |t| && t[i].inUse ==>
          t[i].serial < births && t[i].serial !in cleaned && (t[i].toldParent <==> t[i].serial in Serials(told)))
    && (forall i, j :: 0 <= i < j < |t| && t[i].inUse && t[j].inUse ==> t[i].serial != t[j].serial)
    && (forall a, b :: 0 <= a < b < |told| ==> told[a].serial != told[b].serial)
    && (forall a, b :: 0 <= a < b < |cleaned| ==> cleaned[a] != cleaned[b])
    && (forall s :: s in cleaned ==> s in Serials(told))
    && (forall s :: s in Serials(told) ==> s < births)
    && births == |cleaned| + Count(t)
    && Annals(t, init, births, told, exits, makers)
  }

  /** exits: the statuses processes have ended with; makers: who forked each. The
      processes are those of the table, a status reported is the one recorded, and it
      went to the maker or, after the maker's end, to INIT. */
  ghost predicate Annals(t: Table, init: nat, births: nat, told: seq<Notice>, exits: map<nat, int>, makers: map<nat, nat>) {
    && (forall i :: 0 <= i < |t| ==> Recorded(t, init, exits, makers, i))
    && (forall n :: n in told ==> RightStatus(init, exits, makers, n))
    && (forall s :: s in exits || s in makers ==> s < births)
  }

  predicate Recorded(t: Table, init: nat, exits: map<nat, int>, makers: map<nat, nat>, i: nat)
    requires i < |t|
  {
    t[i].inUse ==>
      && (t[i].exiting <==> t[i].serial in exits) && (t[i].exiting ==> exits[t[i].serial] == t[i].exitStatus)
      && 0 <= t[i].parent < |t| && t[t[i].parent].inUse
      && Rightful(init, exits, makers, t[i].serial, t[i].parent, t[t[i].parent].serial)
  }

  // The process with number toSerial, in slot to, has a right to the status of s.
  predicate Rightful(init: nat, exits: map<nat, int>, makers: map<nat, nat>, s: nat, to: int, toSerial: nat) {
    s in makers && (toSerial == makers[s] || (to == init && makers[s] in exits))
  }

  predicate RightStatus(init: nat, exits: map<nat, int>, makers: map<nat, nat>, n: Notice) {
    && n.serial in exits && n.status == exits[n.serial]
    && Rightful(init, exits, makers, n.serial, n.to, n.toSerial)
  }

  lemma HistSame(t: Table, t': Table, init: nat, births: nat, told: seq<Notice>, cleaned: seq<nat>,
                 exits: map<nat, int>, makers: map<nat, nat>)
    requires Hist(t, init, births, told, cleaned, exits, makers) && |t'| == |t|
    requires forall i :: 0 <= i < |t| ==>
               && t'[i].inUse == t[i].inUse && t'[i].serial == t[i].serial && t'[i].toldParent == t[i].toldParent
               && t'[i].exiting == t[i].exiting && t'[i].exitStatus == t[i].exitStatus && t'[i].parent == t[i].parent
    ensures Hist(t', init, births, told, cleaned, exits, makers)
    ensures Count(t') == Count(t)
  {
    CountSame(t, t');
    forall i | 0 <= i < |t| ensures Recorded(t', init, exits, makers, i) {
      assert Recorded(t, init, exits, makers, i);
    }
  }

  lemma HistTold(t: Table, init: nat, births: nat, told: seq<Notice>, cleaned: seq<nat>,
                 exits: map<nat, int>, makers: map<nat, nat>, c: nat, m: Mproc, n: Notice)
    requires Hist(t, init, births, told, cleaned, exits, makers) && c < |t| && t[c].inUse && !t[c].toldParent
    requires m == t[c].(toldParent := true, zombie := m.zombie) && t[c].exiting
    requires n.serial == m.serial && n.status == m.exitStatus && n.to == m.parent
    requires 0 <= m.parent < |t| && n.toSerial == t[m.parent].serial
    ensures Hist(t[c := m], init, births, told + [n], cleaned, exits, makers)
    ensures Count(t[c := m]) == Count(t)
  {
    CountUpdate(t, c, m);
    assert Serials(told + [n]) == Serials(told) + {n.serial};
    forall a | 0 <= a < |told| ensures told[a].serial != n.serial {
      assert told[a].serial in Serials(told);
    }
    AnnalsSame(t, init, births, told, exits, makers, c, m);
    assert Recorded(t, init, exits, makers, c);
  }

  // A slot changes in nothing that is on record.
  lemma AnnalsSame(t: Table, init: nat, births: nat, told: seq<Notice>, exits: map<nat, int>, makers: map<nat, nat>,
                   c: nat, m: Mproc)
    requires Annals(t, init, births, told, exits, makers) && c < |t|
    requires m.inUse == t[c].inUse && m.serial == t[c].serial && m.parent == t[c].parent
    requires m.exiting == t[c].exiting && m.exitStatus == t[c].exitStatus
    ensures Annals(t[c := m], init, births, told, exits, makers)
  {
    var t' := t[c := m];
    forall i | 0 <= i < |t| ensures Recorded(t', init, exits, makers, i) {
      assert Recorded(t, init, exits, makers, i);
    }
  }

  lemma HistCleaned(t: Table, init: nat, births: nat, told: seq<Notice>, cleaned: seq<nat>,
                    exits: map<nat, int>, makers: map<nat, nat>, c: nat, m: Mproc)
    requires Hist(t, init, births, told, cleaned, exits, makers) && c < |t| && t[c].inUse && t[c].toldParent && !m.inUse
    requires forall i :: 0 <= i < |t| && i != c && t[i].inUse ==> t[i].parent != c
    ensures Hist(t[c := m], init, births, told, cleaned + [t[c].serial], exits, makers)
    ensures Count(t[c := m]) == Count(t) - 1
  {
    CountUpdate(t, c, m);
    var t' := t[c := m];
    forall i | 0 <= i < |t| ensures Recorded(t', init, exits, makers, i) {
      assert Recorded(t, init, exits, makers, i);
    }
  }

  lemma HistBorn(t: Table, init: nat, births: nat, told: seq<Notice>, cleaned: seq<nat>,
                 exits: map<nat, int>, makers: map<nat, nat>, c: nat, m: Mproc, maker: nat)
    requires Hist(t, init, births, told, cleaned, exits, makers) && c < |t| && !t[c].inUse
    requires m.inUse && !m.toldParent && !m.exiting && m.serial == births
    requires 0 <= m.parent < |t| && t[m.parent].inUse && t[m.parent].serial == maker
    ensures Hist(t[c := m], init, births + 1, told, cleaned, exits, makers[births := maker])
    ensures Count(t[c := m]) == Count(t) + 1 && births !in makers
  {
    CountUpdate(t, c, m);
    assert births !in Serials(told);
    var t', makers' := t[c := m], makers[births := maker];
    forall i | 0 <= i < |t| ensures Recorded(t', init, exits, makers', i) {
      assert Recorded(t, init, exits, makers, i);
    }
  }

  // A process has ended with its status.
  lemma HistExit(t: Table, init: nat, births: nat, told: seq<Notice>, cleaned: seq<nat>,
                 exits: map<nat, int>, makers: map<nat, nat>, c: nat, m: Mproc)
    requires Hist(t, init, births, told, cleaned, exits, makers) && c < |t| && t[c].inUse && !t[c].exiting
    requires m.inUse && m.exiting && m.serial == t[c].serial && m.parent == t[c].parent && m.toldParent == t[c].toldParent
    ensures t[c].serial !in exits
    ensures Hist(t[c := m], init, births, told, cleaned, exits[m.serial := m.exitStatus], makers)
    ensures Count(t[c := m]) == Count(t)
  {
    CountUpdate(t, c, m);
    assert Recorded(t, init, exits, makers, c);
    var t', exits' := t[c := m], exits[m.serial := m.exitStatus];
    forall i | 0 <= i < |t| ensures Recorded(t', init, exits', makers, i)
    {
      assert Recorded(t, init, exits, makers, i);
    }
  }

  // A child of one that has ended becomes INIT's.
  lemma HistReparented(t: Table, init: nat, births: nat, told: seq<Notice>, cleaned: seq<nat>,
                       exits: map<nat, int>, makers: map<nat, nat>, x: nat, k: nat, m: Mproc)
    requires Hist(t, init, births, told, cleaned, exits, makers) && k < |t| && t[k].inUse && x < |t|
    requires t[k].parent == x && t[x].inUse && t[x].exiting && init < |t| && t[init].inUse
    requires m == t[k].(parent := init, newParent := m.newParent)
    ensures Hist(t[k := m], init, births, told, cleaned, exits, makers)
    ensures Count(t[k := m]) == Count(t)
  {
    CountUpdate(t, k, m);
    assert Recorded(t, init, exits, makers, x);
    var t' := t[k := m];
    forall i | 0 <= i < |t| ensures Recorded(t', init, exits, makers, i) {
      assert Recorded(t, init, exits, makers, i);
    }
  }

  // What cleanup leaves of a slot: parent and tracer are not reset.
  function Freed(m: Mproc): Mproc {
    m.(pid := 0, inUse := false, waiting := false, zombie := false, exiting := false, toldParent := false,
       traceZombie := false, traceExit := false, vfsCall := false, newParent := false, privProc := false, killed := false)
  }

  // Flags that neither waiting nor relations depend on.
  lemma FlagsKeep(t: Table, init: nat, c: nat, m: Mproc, y': int)
    requires Good(t, init, -1, -1, 0, -1) && c < |t| && SameProcess(t[c], m) && Ok(m)
    requires m.zombie == t[c].zombie && m.traceZombie == t[c].traceZombie
    requires y' == c || (y' == -1 && Settled(m))
    ensures Good(t[c := m], init, y', -1, 0, -1)
  {
    var t' := t[c := m];
    forall i | 0 <= i < |t| ensures Linked(t', init, i, -1, 0) {
      assert Linked(t, init, i, -1, 0);
    }
    forall p, d | 0 <= p < |t| && 0 <= d < |t| ensures !Lost(t', p, d) {
      assert !Lost(t, p, d);
    }
  }

  // An exiting process has no children and traces nobody, so its slot can go.
  lemma CleanKeeps(t: Table, init: nat, y: int, x: int, k: int, c: nat)
    requires Good(t, init, y, x, k, -1) && c < |t| && t[c].exiting && c != x
    requires y == -1 || y == c
    ensures Good(t[c := Freed(t[c])], init, -1, x, k, -1)
  {
    var t' := t[c := Freed(t[c])];
    forall i | 0 <= i < |t| ensures Linked(t', init, i, x, k) {
      assert Linked(t, init, i, x, k);
    }
    forall p, d | 0 <= p < |t| && 0 <= d < |t| ensures !Lost(t', p, d) {
      assert !Lost(t, p, d);
    }
  }

  lemma InitInUse(t: Table, init: nat, y: int, x: int, k: int, skip: int)
    requires Good(t, init, y, x, k, skip)
    ensures init < |t| && t[init].inUse
  {
  }

  lemma NoChildren(t: Table, init: nat, y: int, x: int, k: int, c: nat)
    requires Good(t, init, y, x, k, -1) && c < |t| && t[c].exiting && c != x
    ensures forall i :: 0 <= i < |t| && t[i].inUse ==> t[i].parent != c
  {
    forall i | 0 <= i < |t| && t[i].inUse ensures t[i].parent != c {
      assert Linked(t, init, i, x, k);
    }
  }

  // A process begins to exit: from here its children and tracees are orphans.
  lemma ExitKeeps(t: Table, init: nat, x: nat, m: Mproc)
    requires Good(t, init, -1, -1, 0, -1) && x < |t| && x != init && t[x].inUse && !t[x].exiting
    requires m.inUse && m.exiting && m.parent == t[x].parent && m.tracer == t[x].tracer
    requires m.pid == t[x].pid && m.procgrp == t[x].procgrp
    requires !m.waiting && !m.zombie && !m.traceZombie && !m.toldParent && (m.traceExit ==> t[x].traceExit)
    ensures Good(t[x := m], init, x, x, 0, -1)
  {
    var t' := t[x := m];
    forall i | 0 <= i < |t| ensures Linked(t', init, i, x, 0) {
      assert Linked(t, init, i, -1, 0);
    }
    forall p, d | 0 <= p < |t| && 0 <= d < |t| ensures !Lost(t', p, d) {
      assert !Lost(t, p, d);
    }
  }

  // The disinheriting loop has passed slot k.
  lemma PassedKeeps(t: Table, init: nat, x: nat, k: nat)
    requires Good(t, init, -1, x, k, -1) && k < |t|
    requires t[k].inUse ==> t[k].parent != x && t[k].tracer != x
    ensures Good(t, init, -1, x, k + 1, -1)
  {
    var k1 := k + 1;
    forall i | 0 <= i < |t| ensures Linked(t, init, i, x, k1) {
      assert Linked(t, init, i, x, k);
    }
  }

  // It has passed them all.
  lemma AllPassed(t: Table, init: nat, x: nat)
    requires Good(t, init, -1, x, |t|, -1)
    ensures Good(t, init, -1, -1, 0, -1)
  {
    forall i | 0 <= i < |t| ensures Linked(t, init, i, -1, 0) {
      assert Linked(t, init, i, x, |t|);
    }
  }

  // A child goes to INIT; if it is a zombie INIT has to be looked at.
  lemma ReparentKeeps(t: Table, init: nat, x: nat, k: nat, m: Mproc)
    requires Good(t, init, -1, x, k, -1) && k < |t| && t[k].inUse
    requires m == t[k].(parent := init) || m == t[k].(parent := init, newParent := true)
    ensures Good(t[k := m], init, -1, x, k, if m.zombie then k else -1)
  {
    var t' := t[k := m];
    forall i | 0 <= i < |t| ensures Linked(t', init, i, x, k) {
      assert Linked(t, init, i, x, k);
    }
    forall p, d | 0 <= p < |t| && 0 <= d < |t| && (d != k || !m.zombie) ensures !Lost(t', p, d) {
      assert !Lost(t, p, d);
    }
  }

  // A tracee loses its tracer; its death, if the tracer was to be told of it, is
  // now the parent's business.
  lemma UntraceKeeps(t: Table, init: nat, x: nat, k: nat, m: Mproc)
    requires Good(t, init, -1, x, k, -1) && k < |t| && t[k].inUse
    requires m == (if t[k].traceZombie
                   then t[k].(tracer := NO_TRACER, traceExit := false, traceZombie := false, zombie := true)
                   else t[k].(tracer := NO_TRACER, traceExit := false))
    ensures Good(t[k := m], init, -1, x, k, if t[k].traceZombie then k else -1)
  {
    var t' := t[k := m];
    forall i | 0 <= i < |t| ensures Linked(t', init, i, x, k) {
      assert Linked(t, init, i, x, k);
    }
    forall p, d | 0 <= p < |t| && 0 <= d < |t| && (d != k || !t[k].traceZombie) ensures !Lost(t', p, d) {
      assert !Lost(t, p, d);
    }
  }

  // A process begins to wait, having found nothing to collect.
  lemma WaitKeeps(t: Table, init: nat, w: nat, pidarg: int)
    requires Good(t, init, -1, -1, 0, -1) && w < |t| && t[w].inUse && !t[w].exiting
    requires forall c :: 0 <= c < |t| && t[c].inUse && Qualifies(pidarg, t[c]) ==>
               !(t[c].parent == w && t[c].zombie) && !(t[c].tracer == w && t[c].traceZombie)
    ensures Good(t[w := t[w].(waiting := true, wpid := pidarg)], init, -1, -1, 0, -1)
  {
    var t' := t[w := t[w].(waiting := true, wpid := pidarg)];
    forall i | 0 <= i < |t| ensures Linked(t', init, i, -1, 0) {
      assert Linked(t, init, i, -1, 0);
    }
    forall p, d | 0 <= p < |t| && 0 <= d < |t| ensures !Lost(t', p, d) {
      assert !Lost(t, p, d);
      if t[d].zombie || t[d].traceZombie { assert Ok(t[d]) && t[d].inUse; }
    }
  }

  // A slot that is free becomes a child of a live process.
  lemma ForkKeeps(t: Table, init: nat, who: nat, c: nat, m: Mproc)
    requires Good(t, init, -1, -1, 0, -1) && c < |t| && !t[c].inUse
    requires 0 < who < |t| && t[who].inUse && !t[who].exiting && c != init
    requires m.inUse && m.parent == who && (m.tracer == NO_TRACER || m.tracer == t[who].tracer)
    requires m.pid > 0 && m.procgrp >= 0
    requires !m.waiting && !m.zombie && !m.exiting && !m.toldParent && !m.traceZombie && !m.traceExit
    ensures Good(t[c := m], init, -1, -1, 0, -1)
  {
    var t' := t[c := m];
    assert Linked(t, init, who, -1, 0);
    forall i | 0 <= i < |t| ensures Linked(t', init, i, -1, 0) {
      assert Linked(t, init, i, -1, 0);
    }
    forall p, d | 0 <= p < |t| && 0 <= d < |t| ensures !Lost(t', p, d) {
      assert !Lost(t, p, d);
    }
  }

  // No wakeup is ever lost: what the invariant says in the words of waitpid. Only a
  // wait argument of 0 does not cover children outside process group 0.
  lemma NoLostWakeup(t: Table, init: nat, p: nat, c: nat)
    requires Good(t, init, -1, -1, 0, -1) && p < |t| && c < |t|
    requires t[p].waiting && t[c].inUse && Qualifies(t[p].wpid, t[c]) && (t[p].wpid == 0 ==> t[c].procgrp == 0)
    ensures !(t[c].parent == p && t[c].zombie) && !(t[c].tracer == p && t[c].traceZombie)
  {
    assert !Lost(t, p, c) && Ok(t[c]);
  }

  // Parents and tracers are alive, so a slot that is reused has no old children.
  lemma ReusedSlotHasNoChildren(t: Table, init: nat, s: nat, i: nat)
    requires Good(t, init, -1, -1, 0, -1) && s < |t| && i < |t| && t[i].inUse
    requires !t[s].inUse || t[s].exiting
    ensures t[i].parent != s && (s != NO_TRACER ==> t[i].tracer != s)
  {
    assert Linked(t, init, i, -1, 0);
  }
}
