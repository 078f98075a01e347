/** Parallel waits for one container's processes, the reaper, and the sandbox lock they share. */
module ProcessWait {
  import opened Wrappers

  /** Whether a process is in the container's table, was collected by a waiter, or is not in the table for any other
      reason: it never was, or its entry was dropped. */
  datatype Fate = Listed | Collected | Dropped

  /** An exit code on record, and the process whose end it tells of. */
  datatype Mark = Mark(code: int, whose: nat)

  /** What a waiter is told: a status, and the process it is the status of, if that has ended. */
  datatype Answer = Answer(code: int, about: Option<nat>)

  /** `ended` is the kernel's view, `exit` what the reaper recorded; recording it also drops the exit sender. */
  datatype Proc = Proc(pid: int, ended: Option<int>, exit: Option<Mark>, watchers: seq<nat>, fate: Fate)

  datatype Phase = Waiting | Returned(answer: Answer) | Failed

  datatype Waiter = Waiter(proc: nat, channel: seq<Answer>, phase: Phase)

  /** What `waitpid` returned and the reaper has not recorded yet. */
  datatype Report = Report(proc: nat, status: int)

  datatype State = State(alive: bool, table: map<int, nat>, procs: seq<Proc>, waiters: seq<Waiter>,
                         pending: Option<Report>)

  /** `Fork` is any process the agent may reap that is not in the table; `End` is the return of `waitpid`, which frees
      the pid; `Record` is what the reaper then does under the sandbox lock, or `Misfile` if it meets another
      container's entry under that pid first. */
  datatype Step =
    | Create
    | Destroy
    | Start(pid: int)
    | Fork(pid: int)
    | Register(pid: int)
    | End(proc: nat, status: int)
    | Record
    | Misfile
    | Wake(waiter: nat)

  const START := State(false, map[], [], [], None)

  /** What a process's entry says: the code on record, or zero before there is one. */
  function AnswerOf(p: Proc): Answer {
    if p.exit.Some? then Answer(p.exit.value.code, Some(p.exit.value.whose)) else Answer(0, None)
  }

  ghost predicate Indexed(s: State) {
    && (forall pid <- s.table :: s.table[pid] < |s.procs|)
    && (forall w :: 0 <= w < |s.waiters| ==> s.waiters[w].proc < |s.procs|)
    && (forall k, i :: 0 <= k < |s.procs| && 0 <= i < |s.procs[k].watchers| ==> s.procs[k].watchers[i] < |s.waiters|)
    && (s.pending.Some? ==> s.pending.value.proc < |s.procs|)
  }

  /** The kernel may give out a pid that no process has which was not waited for. */
  predicate PidFree(s: State, pid: int) {
    forall k :: 0 <= k < |s.procs| && s.procs[k].pid == pid ==> s.procs[k].ended.Some?
  }

  /** There is one reaper; a waiter moves on once its process's exit sender is dropped. */
  ghost predicate Enabled(s: State, step: Step)
    requires Indexed(s)
  {
    match step
    case Create => !s.alive
    case Destroy => s.alive
    case Start(pid) => s.alive && PidFree(s, pid)
    case Fork(pid) => PidFree(s, pid)
    case Register(pid) => s.alive && pid in s.table
    case End(k, _) => k < |s.procs| && s.procs[k].ended.None? && s.pending.None?
    case Record => s.pending.Some?
    case Misfile => s.pending.Some?
    case Wake(w) =>
      w < |s.waiters| && s.waiters[w].phase.Waiting? &&
      var p := s.procs[s.waiters[w].proc];
      p.exit.Some? || !p.fate.Listed?
  }

  function Shed(procs: seq<Proc>): seq<Proc> {
    seq(|procs|, k requires 0 <= k < |procs| => if procs[k].fate.Listed? then procs[k].(fate := Dropped) else procs[k])
  }

  /** Send an answer to every waiter listed that still holds its receiver. */
  function Broadcast(waiters: seq<Waiter>, to: seq<nat>, a: Answer): seq<Waiter> {
    seq(|waiters|, w requires 0 <= w < |waiters| =>
      if w in to && waiters[w].phase.Waiting? then waiters[w].(channel := waiters[w].channel + [a])
      else waiters[w])
  }

  function Settle(waiters: seq<Waiter>, w: nat, p: Phase): seq<Waiter>
    requires w < |waiters|
  {
    waiters[w := waiters[w].(phase := p)]
  }

  function Emptied(s: State): (r: State)
    requires Indexed(s)
    ensures Indexed(r)
  {
    s.(alive := false, table := map[], procs := Shed(s.procs))
  }

  function Started(s: State, pid: int): (r: State)
    requires Indexed(s)
    ensures Indexed(r)
  {
    var left := if pid in s.table then s.procs[s.table[pid] := s.procs[s.table[pid]].(fate := Dropped)] else s.procs;
    s.(table := s.table[pid := |s.procs|], procs := left + [Proc(pid, None, None, [], Listed)])
  }

  function Forked(s: State, pid: int): (r: State)
    requires Indexed(s)
    ensures Indexed(r)
  {
    s.(procs := s.procs + [Proc(pid, None, None, [], Dropped)])
  }

  function Registered(s: State, pid: int): (r: State)
    requires Indexed(s) && pid in s.table
    ensures Indexed(r)
  {
    var k := s.table[pid];
    var p := s.procs[k];
    s.(procs := s.procs[k := p.(watchers := p.watchers + [|s.waiters|])],
       waiters := s.waiters + [Waiter(k, [], Waiting)])
  }

  function Ended(s: State, k: nat, status: int): (r: State)
    requires Indexed(s) && k < |s.procs|
    ensures Indexed(r)
  {
    s.(procs := s.procs[k := s.procs[k].(ended := Some(status))], pending := Some(Report(k, status)))
  }

  /** The reaper knows no more than the pid: it records with whatever entry has that. */
  function Recorded(s: State): (r: State)
    requires Indexed(s) && s.pending.Some?
    ensures Indexed(r)
  {
    var report := s.pending.value;
    var pid := s.procs[report.proc].pid;
    if pid !in s.table then s.(pending := None)
    else
      var k := s.table[pid];
      s.(procs := s.procs[k := s.procs[k].(exit := Some(Mark(report.status, report.proc)))], pending := None)
  }

  /** Under the lock again: collect by pid, or take the answer from the own channel. */
  function Woken(s: State, w: nat): (r: State)
    requires Indexed(s) && w < |s.waiters|
    ensures Indexed(r)
  {
    var pid := s.procs[s.waiters[w].proc].pid;
    if !s.alive then s.(waiters := Settle(s.waiters, w, Failed))
    else if pid in s.table then
      var k := s.table[pid];
      var p := s.procs[k];
      s.(waiters := Settle(Broadcast(s.waiters, p.watchers, AnswerOf(p)), w, Returned(AnswerOf(p))),
         procs := s.procs[k := p.(fate := Collected)], table := s.table - {pid})
    else if s.waiters[w].channel != [] then s.(waiters := Settle(s.waiters, w, Returned(s.waiters[w].channel[0])))
    else s.(waiters := Settle(s.waiters, w, Failed))
  }

  ghost function Next(s: State, step: Step): (r: State)
    requires Indexed(s) && Enabled(s, step)
    ensures Indexed(r)
  {
    match step
    case Create => s.(alive := true)
    case Destroy => Emptied(s)
    case Start(pid) => Started(s, pid)
    case Fork(pid) => Forked(s, pid)
    case Register(pid) => Registered(s, pid)
    case End(k, status) => Ended(s, k, status)
    case Record => Recorded(s)
    case Misfile => s.(pending := None)
    case Wake(w) => Woken(s, w)
  }

  /** `code` is how process `k` ended. */
  ghost predicate EndedWith(s: State, code: int, k: nat) {
    k < |s.procs| && s.procs[k].ended == Some(code)
  }

  ghost predicate EntryOk(s: State, pid: int)
    requires Indexed(s) && pid in s.table
  {
    s.alive && s.procs[s.table[pid]].pid == pid && s.procs[s.table[pid]].fate.Listed?
  }

  ghost predicate ProcOk(s: State, k: nat)
    requires Indexed(s) && k < |s.procs|
  {
    var p := s.procs[k];
    && (p.fate.Listed? ==> p.pid in s.table && s.table[p.pid] == k)
    && (p.exit.Some? ==> EndedWith(s, p.exit.value.code, p.exit.value.whose))
    && (forall j :: 0 <= j < k && s.procs[j].pid == p.pid ==> s.procs[j].ended.Some?)
    && (forall i :: 0 <= i < |p.watchers| ==> s.waiters[p.watchers[i]].proc == k)
    && (forall i, j :: 0 <= i < j < |p.watchers| ==> p.watchers[i] != p.watchers[j])
  }

  /** A waiter is among its process's watchers, and has the answer in its channel just when it was collected. What a
      waiter was told is true of the process it is about. */
  ghost predicate WaiterOk(s: State, w: nat)
    requires Indexed(s) && w < |s.waiters|
  {
    var x := s.waiters[w];
    var p := s.procs[x.proc];
    && w in p.watchers
    && (x.phase.Waiting? ==> x.channel == if p.fate.Collected? then [AnswerOf(p)] else [])
    && (x.phase.Returned? && x.phase.answer.about.Some? ==>
        EndedWith(s, x.phase.answer.code, x.phase.answer.about.value))
  }

  /** What every reachable state satisfies. */
  ghost predicate Inv(s: State) {
    && Indexed(s)
    && (s.pending.Some? ==> EndedWith(s, s.pending.value.status, s.pending.value.proc))
    && (forall pid <- s.table :: EntryOk(s, pid))
    && (forall k: nat :: k < |s.procs| ==> ProcOk(s, k))
    && (forall w: nat :: w < |s.waiters| ==> WaiterOk(s, w))
  }

  lemma CreateKeeps(s: State)
    requires Inv(s) && Enabled(s, Create)
    ensures Inv(Next(s, Create))
  {
    var r := Next(s, Create);
    assert forall k: nat :: k < |r.procs| ==> ProcOk(s, k) ==> ProcOk(r, k);
    assert forall w: nat :: w < |r.waiters| ==> WaiterOk(s, w) ==> WaiterOk(r, w);
  }

  lemma DestroyKeeps(s: State)
    requires Inv(s)
    ensures Inv(Emptied(s))
  {
    var r := Emptied(s);
    forall k: nat | k < |r.procs|
      ensures ProcOk(r, k)
    {
      assert ProcOk(s, k);
    }
    forall w: nat | w < |r.waiters|
      ensures WaiterOk(r, w)
    {
      assert WaiterOk(s, w);
    }
  }

  lemma StartKeeps(s: State, pid: int)
    requires Inv(s) && Enabled(s, Start(pid))
    ensures Inv(Started(s, pid))
  {
    var r := Started(s, pid);
    assert pid in s.table ==> EntryOk(s, pid);
    forall q <- r.table
      ensures EntryOk(r, q)
    {
      assert q != pid ==> EntryOk(s, q);
    }
    forall k: nat | k < |r.procs|
      ensures ProcOk(r, k)
    {
      assert k < |s.procs| ==> ProcOk(s, k);
    }
    forall w: nat | w < |r.waiters|
      ensures WaiterOk(r, w)
    {
      assert WaiterOk(s, w);
    }
  }

  lemma ForkKeeps(s: State, pid: int)
    requires Inv(s) && Enabled(s, Fork(pid))
    ensures Inv(Forked(s, pid))
  {
    var r := Forked(s, pid);
    forall q <- r.table
      ensures EntryOk(r, q)
    {
      assert EntryOk(s, q);
    }
    forall k: nat | k < |r.procs|
      ensures ProcOk(r, k)
    {
      assert k < |s.procs| ==> ProcOk(s, k);
    }
    forall w: nat | w < |r.waiters|
      ensures WaiterOk(r, w)
    {
      assert WaiterOk(s, w);
    }
  }

  lemma RegisterKeeps(s: State, pid: int)
    requires Inv(s) && Enabled(s, Register(pid))
    ensures Inv(Registered(s, pid))
  {
    var r := Registered(s, pid);
    assert EntryOk(s, pid);
    forall q <- r.table
      ensures EntryOk(r, q)
    {
      assert EntryOk(s, q);
    }
    forall k: nat | k < |r.procs|
      ensures ProcOk(r, k)
    {
      assert ProcOk(s, k);
    }
    forall w: nat | w < |r.waiters|
      ensures WaiterOk(r, w)
    {
      assert w < |s.waiters| ==> WaiterOk(s, w);
    }
  }

  lemma EndKeeps(s: State, k: nat, status: int)
    requires Inv(s) && Enabled(s, End(k, status))
    ensures Inv(Ended(s, k, status))
  {
    var r := Ended(s, k, status);
    forall q <- r.table
      ensures EntryOk(r, q)
    {
      assert EntryOk(s, q);
    }
    forall j: nat | j < |r.procs|
      ensures ProcOk(r, j)
    {
      assert ProcOk(s, j);
    }
    forall w: nat | w < |r.waiters|
      ensures WaiterOk(r, w)
    {
      assert WaiterOk(s, w);
    }
  }

  lemma RecordKeeps(s: State)
    requires Inv(s) && Enabled(s, Record)
    ensures Inv(Recorded(s))
  {
    var r := Recorded(s);
    forall q <- r.table
      ensures EntryOk(r, q)
    {
      assert EntryOk(s, q);
    }
    forall k: nat | k < |r.procs|
      ensures ProcOk(r, k)
    {
      assert ProcOk(s, k);
    }
    forall w: nat | w < |r.waiters|
      ensures WaiterOk(r, w)
    {
      assert WaiterOk(s, w);
    }
  }

  lemma MisfileKeeps(s: State)
    requires Inv(s) && Enabled(s, Misfile)
    ensures Inv(Next(s, Misfile))
  {
    var r := Next(s, Misfile);
    assert forall pid <- r.table :: EntryOk(s, pid) ==> EntryOk(r, pid);
    assert forall k: nat :: k < |r.procs| ==> ProcOk(s, k) ==> ProcOk(r, k);
    assert forall w: nat :: w < |r.waiters| ==> WaiterOk(s, w) ==> WaiterOk(r, w);
  }

  lemma CollectReaches(s: State, w: nat, v: nat)
    requires Inv(s) && Enabled(s, Wake(w)) && s.procs[s.waiters[w].proc].pid in s.table && v < |s.waiters|
    ensures WaiterOk(Woken(s, w), v)
  {
    var k := s.table[s.procs[s.waiters[w].proc].pid];
    assert EntryOk(s, s.procs[s.waiters[w].proc].pid);
    assert WaiterOk(s, v) && WaiterOk(s, w) && ProcOk(s, k) && ProcOk(s, s.waiters[v].proc);
    if v == w || s.waiters[v].proc != k {
      assert v in s.procs[k].watchers ==> s.waiters[v].proc == k;
    }
  }

  lemma WakeKeeps(s: State, w: nat)
    requires Inv(s) && Enabled(s, Wake(w))
    ensures Inv(Woken(s, w))
  {
    hide WaiterOk;
    var r := Woken(s, w);
    forall q <- r.table
      ensures EntryOk(r, q)
    {
      assert EntryOk(s, q);
    }
    forall k: nat | k < |r.procs|
      ensures ProcOk(r, k)
    {
      assert ProcOk(s, k);
      assert s.procs[s.waiters[w].proc].pid in s.table ==> EntryOk(s, s.procs[s.waiters[w].proc].pid);
    }
    forall v: nat | v < |r.waiters|
      ensures WaiterOk(r, v)
    {
      if s.procs[s.waiters[w].proc].pid in s.table {
        CollectReaches(s, w, v);
      } else {
        LateReaches(s, w, v);
      }
    }
  }

  lemma LateReaches(s: State, w: nat, v: nat)
    requires Inv(s) && Enabled(s, Wake(w)) && s.procs[s.waiters[w].proc].pid !in s.table && v < |s.waiters|
    ensures WaiterOk(Woken(s, w), v)
  {
    assert WaiterOk(s, v) && WaiterOk(s, w) && ProcOk(s, s.waiters[w].proc);
  }

  lemma StepKeeps(s: State, step: Step)
    requires Inv(s) && Enabled(s, step)
    ensures Inv(Next(s, step))
  {
    hide Inv, Started, Forked, Registered, Ended, Recorded, Woken, Emptied;
    match step
    case Create => CreateKeeps(s);
    case Destroy => DestroyKeeps(s);
    case Start(pid) => StartKeeps(s, pid);
    case Fork(pid) => ForkKeeps(s, pid);
    case Register(pid) => RegisterKeeps(s, pid);
    case End(k, status) => EndKeeps(s, k, status);
    case Record => RecordKeeps(s);
    case Misfile => MisfileKeeps(s);
    case Wake(w) => WakeKeeps(s, w);
  }

  /** A pid comes into use again too early: for a new process while an older one of that pid is waited for or its
      report is not recorded, or outside the table while the table has an entry under it. */
  ghost predicate Reuses(s: State, step: Step)
    requires Indexed(s)
  {
    match step
    case Start(pid) =>
      || (exists w :: 0 <= w < |s.waiters| && s.waiters[w].phase.Waiting? && s.procs[s.waiters[w].proc].pid == pid)
      || (s.pending.Some? && s.procs[s.pending.value.proc].pid == pid)
    case Fork(pid) => pid in s.table
    case _ => false
  }

  /** A process has only its own end on record, and a pid in use is not that of another entry. */
  ghost predicate ProcClean(s: State, k: nat)
    requires Indexed(s) && k < |s.procs|
  {
    var p := s.procs[k];
    && (p.exit.Some? ==> p.exit.value.whose == k)
    && (p.fate.Collected? ==> p.exit.Some?)
    && (p.ended.None? && p.pid in s.table ==> s.table[p.pid] == k)
  }

  /** What a waiter was told is about its own process. */
  ghost predicate Own(s: State, w: nat)
    requires Indexed(s) && w < |s.waiters|
  {
    s.waiters[w].phase.Returned? ==> s.waiters[w].phase.answer.about == Some(s.waiters[w].proc)
  }

  ghost predicate WaiterClean(s: State, w: nat)
    requires Indexed(s) && w < |s.waiters|
  {
    var x := s.waiters[w];
    var pid := s.procs[x.proc].pid;
    Own(s, w) && (x.phase.Waiting? && pid in s.table ==> s.table[pid] == x.proc)
  }

  ghost predicate PendingClean(s: State)
    requires Indexed(s) && s.pending.Some?
  {
    var k := s.pending.value.proc;
    s.procs[k].pid in s.table ==> s.table[s.procs[k].pid] == k
  }

  ghost predicate Clean(s: State)
    requires Indexed(s)
  {
    && (s.pending.Some? ==> PendingClean(s))
    && (forall k: nat :: k < |s.procs| ==> ProcClean(s, k))
    && (forall w: nat :: w < |s.waiters| ==> WaiterClean(s, w))
  }

  lemma StartClean(s: State, pid: int)
    requires Inv(s) && Clean(s) && Enabled(s, Start(pid)) && !Reuses(s, Start(pid))
    ensures Clean(Started(s, pid))
  {
    var r := Started(s, pid);
    assert pid in s.table ==> EntryOk(s, pid);
    forall k: nat | k < |r.procs|
      ensures ProcClean(r, k)
    {
      assert k < |s.procs| ==> ProcClean(s, k);
    }
    forall w: nat | w < |r.waiters|
      ensures WaiterClean(r, w)
    {
      assert WaiterClean(s, w);
    }
  }

  lemma ForkClean(s: State, pid: int)
    requires Inv(s) && Clean(s) && Enabled(s, Fork(pid)) && !Reuses(s, Fork(pid))
    ensures Clean(Forked(s, pid))
  {
    var r := Forked(s, pid);
    forall k: nat | k < |r.procs|
      ensures ProcClean(r, k)
    {
      assert k < |s.procs| ==> ProcClean(s, k);
    }
    forall w: nat | w < |r.waiters|
      ensures WaiterClean(r, w)
    {
      assert WaiterClean(s, w);
    }
  }

  lemma RegisterClean(s: State, pid: int)
    requires Inv(s) && Clean(s) && Enabled(s, Register(pid))
    ensures Clean(Registered(s, pid))
  {
    var r := Registered(s, pid);
    assert EntryOk(s, pid);
    forall k: nat | k < |r.procs|
      ensures ProcClean(r, k)
    {
      assert ProcClean(s, k);
    }
    forall w: nat | w < |r.waiters|
      ensures WaiterClean(r, w)
    {
      assert w < |s.waiters| ==> WaiterClean(s, w);
    }
  }

  lemma EndClean(s: State, k: nat, status: int)
    requires Inv(s) && Clean(s) && Enabled(s, End(k, status))
    ensures Clean(Ended(s, k, status))
  {
    var r := Ended(s, k, status);
    assert ProcClean(s, k);
    forall j: nat | j < |r.procs|
      ensures ProcClean(r, j)
    {
      assert ProcClean(s, j);
    }
    forall w: nat | w < |r.waiters|
      ensures WaiterClean(r, w)
    {
      assert WaiterClean(s, w);
    }
  }

  lemma RecordClean(s: State)
    requires Inv(s) && Clean(s) && Enabled(s, Record)
    ensures Clean(Recorded(s))
  {
    var r := Recorded(s);
    forall k: nat | k < |r.procs|
      ensures ProcClean(r, k)
    {
      assert ProcClean(s, k);
    }
    forall w: nat | w < |r.waiters|
      ensures WaiterClean(r, w)
    {
      assert WaiterClean(s, w);
    }
  }

  lemma DestroyClean(s: State)
    requires Inv(s) && Clean(s)
    ensures Clean(Emptied(s))
  {
    var r := Emptied(s);
    forall k: nat | k < |r.procs|
      ensures ProcClean(r, k)
    {
      assert ProcClean(s, k);
    }
    forall w: nat | w < |r.waiters|
      ensures WaiterClean(r, w)
    {
      assert WaiterClean(s, w);
    }
  }

  /** A waiter that finds an entry under its pid finds its own process, with its own end on record. */
  lemma WakeFinds(s: State, w: nat)
    requires Inv(s) && Clean(s) && Enabled(s, Wake(w)) && s.procs[s.waiters[w].proc].pid in s.table
    ensures var k := s.waiters[w].proc;
            s.alive && s.table[s.procs[k].pid] == k && AnswerOf(s.procs[k]).about == Some(k)
  {
    var k := s.waiters[w].proc;
    assert WaiterClean(s, w) && EntryOk(s, s.procs[k].pid) && ProcClean(s, k);
  }

  lemma WakeClean(s: State, w: nat)
    requires Inv(s) && Clean(s) && Enabled(s, Wake(w))
    ensures Clean(Woken(s, w))
  {
    var r := Woken(s, w);
    if s.procs[s.waiters[w].proc].pid in s.table {
      WakeFinds(s, w);
    }
    assert WaiterOk(s, w) && ProcClean(s, s.waiters[w].proc);
    forall k: nat | k < |r.procs|
      ensures ProcClean(r, k)
    {
      assert ProcClean(s, k);
    }
    forall v: nat | v < |r.waiters|
      ensures WaiterClean(r, v)
    {
      assert WaiterClean(s, v);
    }
  }

  lemma SameClean(s: State, r: State)
    requires Indexed(s) && Indexed(r) && Clean(s)
    requires r.table == s.table && r.procs == s.procs && r.waiters == s.waiters && (r.pending in {s.pending, None})
    ensures Clean(r)
  {
    assert forall k: nat :: k < |s.procs| ==> ProcClean(s, k) ==> ProcClean(r, k);
    assert forall w: nat :: w < |s.waiters| ==> WaiterClean(s, w) ==> WaiterClean(r, w);
  }

  lemma StepClean(s: State, step: Step)
    requires Inv(s) && Clean(s) && Enabled(s, step) && !Reuses(s, step)
    ensures Clean(Next(s, step))
  {
    hide ProcOk, WaiterOk, EntryOk, Started, Forked, Registered, Ended, Recorded, Woken, Emptied;
    match step
    case Create => SameClean(s, Next(s, Create));
    case Destroy => DestroyClean(s);
    case Start(pid) => StartClean(s, pid);
    case Fork(pid) => ForkClean(s, pid);
    case Register(pid) => RegisterClean(s, pid);
    case End(k, status) => EndClean(s, k, status);
    case Record => RecordClean(s);
    case Misfile => SameClean(s, Next(s, Misfile));
    case Wake(w) => WakeClean(s, w);
  }

  ghost predicate Runs(s: State, steps: seq<Step>)
    requires Indexed(s)
    decreases |steps|
  {
    steps == [] || (Enabled(s, steps[0]) && Runs(Next(s, steps[0]), steps[1..]))
  }

  ghost function After(s: State, steps: seq<Step>): (r: State)
    requires Indexed(s) && Runs(s, steps)
    ensures Indexed(r)
    decreases |steps|
  {
    if steps == [] then s else After(Next(s, steps[0]), steps[1..])
  }

  ghost predicate NoReuse(s: State, steps: seq<Step>)
    requires Indexed(s) && Runs(s, steps)
    decreases |steps|
  {
    steps == [] || (!Reuses(s, steps[0]) && NoReuse(Next(s, steps[0]), steps[1..]))
  }

  lemma {:induction false} RunKeeps(s: State, steps: seq<Step>)
    requires Inv(s) && Runs(s, steps)
    ensures Inv(After(s, steps))
    decreases |steps|
  {
    hide EntryOk, ProcOk, WaiterOk, Next;
    if steps != [] {
      StepKeeps(s, steps[0]);
      RunKeeps(Next(s, steps[0]), steps[1..]);
    }
  }

  lemma {:induction false} RunClean(s: State, steps: seq<Step>)
    requires Inv(s) && Clean(s) && Runs(s, steps) && NoReuse(s, steps)
    ensures Clean(After(s, steps))
    decreases |steps|
  {
    hide EntryOk, ProcOk, WaiterOk, Next, Clean, Reuses, Enabled;
    if steps != [] {
      StepKeeps(s, steps[0]);
      StepClean(s, steps[0]);
      RunClean(Next(s, steps[0]), steps[1..]);
    }
  }

  lemma StartIsClean()
    ensures Inv(START) && Clean(START)
  {
  }

  ghost predicate OnlyOwn(s: State)
    requires Indexed(s)
  {
    forall w: nat :: w < |s.waiters| ==> Own(s, w)
  }

  /** In every run without reuse, all waits that return for one process return the status it ended with. */
  lemma WaitsAgree(steps: seq<Step>, v: nat, w: nat)
    requires Runs(START, steps) && NoReuse(START, steps)
    requires var s := After(START, steps);
             v < |s.waiters| && w < |s.waiters| && s.waiters[v].proc == s.waiters[w].proc
             && s.waiters[v].phase.Returned? && s.waiters[w].phase.Returned?
    ensures var s := After(START, steps);
            && s.waiters[v].phase == s.waiters[w].phase
            && s.procs[s.waiters[w].proc].ended == Some(s.waiters[w].phase.answer.code)
  {
    StartIsClean();
    RunKeeps(START, steps);
    RunClean(START, steps);
    var s := After(START, steps);
    assert WaiterOk(s, v) && WaiterOk(s, w) && WaiterClean(s, v) && WaiterClean(s, w);
  }

  /** In every run, once a process is collected every waiter for it is done or has exactly what its entry said, once,
      in its own channel; without reuse that is its own status. */
  lemma CodeIsInHand(steps: seq<Step>, w: nat)
    requires Runs(START, steps)
    requires var s := After(START, steps); w < |s.waiters| && s.procs[s.waiters[w].proc].fate.Collected?
    ensures var s := After(START, steps);
            var p := s.procs[s.waiters[w].proc];
            && (s.waiters[w].phase.Waiting? ==> s.waiters[w].channel == [AnswerOf(p)])
            && (NoReuse(START, steps) ==>
                p.ended.Some? && AnswerOf(p) == Answer(p.ended.value, Some(s.waiters[w].proc)))
  {
    StartIsClean();
    RunKeeps(START, steps);
    var s := After(START, steps);
    var k := s.waiters[w].proc;
    assert WaiterOk(s, w) && ProcOk(s, k);
    if NoReuse(START, steps) {
      RunClean(START, steps);
      assert ProcClean(s, k);
    }
  }

  /** What the waiter is told when it moves on, in every run: what the entry under its pid says, or else what its own
      process's entry said when it was collected, or else nothing. */
  ghost function Told(s: State, w: nat): Phase
    requires Indexed(s) && w < |s.waiters|
  {
    var p := s.procs[s.waiters[w].proc];
    if !s.alive then Failed
    else if p.pid in s.table then Returned(AnswerOf(s.procs[s.table[p.pid]]))
    else if p.fate.Collected? then Returned(AnswerOf(p))
    else Failed
  }

  /** The entry a waiter goes by says how its own process ended. */
  ghost predicate RightEntry(s: State, w: nat)
    requires Indexed(s) && w < |s.waiters|
  {
    var k := s.waiters[w].proc;
    var pid := s.procs[k].pid;
    s.alive && AnswerOf(s.procs[if pid in s.table then s.table[pid] else k]).about == Some(k) &&
    (pid in s.table || s.procs[k].fate.Collected?)
  }

  /** In every run a waiter is told just that, it is told about its own process just when the entry it goes by is right,
      it is true of whichever process it is about, and reading its channel under the lock never blocks: the senders
      are gone when there is nothing in it. */
  lemma WakeAnswers(steps: seq<Step>, w: nat)
    requires Runs(START, steps) && Enabled(After(START, steps), Wake(w))
    ensures var s := After(START, steps);
            var k := s.waiters[w].proc;
            var now := Woken(s, w).waiters[w].phase;
            && now == Told(s, w)
            && (now.Returned? && now.answer.about == Some(k) <==> RightEntry(s, w))
            && (RightEntry(s, w) ==> s.procs[k].ended == Some(now.answer.code))
            && (s.alive && s.procs[k].pid !in s.table && s.waiters[w].channel == [] ==> s.procs[k].fate.Dropped?)
  {
    StartIsClean();
    RunKeeps(START, steps);
    var s := After(START, steps);
    var k := s.waiters[w].proc;
    assert WaiterOk(s, w) && ProcOk(s, k);
    if s.procs[k].pid in s.table {
      assert EntryOk(s, s.procs[k].pid) && ProcOk(s, s.table[s.procs[k].pid]);
    }
  }

  /** No process comes up. */
  ghost predicate Quiet(steps: seq<Step>) {
    forall i :: 0 <= i < |steps| ==> !steps[i].Start? && !steps[i].Fork?
  }

  /** However things go on from here, as long as no process comes up, nobody is told about another process. */
  ghost predicate SafeFrom(s: State)
    requires Indexed(s)
  {
    forall steps :: Runs(s, steps) && Quiet(steps) ==> OnlyOwn(After(s, steps))
  }

  lemma {:induction false} QuietIsNoReuse(s: State, steps: seq<Step>)
    requires Indexed(s) && Runs(s, steps) && Quiet(steps)
    ensures NoReuse(s, steps)
    decreases |steps|
  {
    if steps != [] {
      assert !steps[0].Start? && !steps[0].Fork?;
      QuietIsNoReuse(Next(s, steps[0]), steps[1..]);
    }
  }

  lemma CleanIsSafe(s: State)
    requires Inv(s) && Clean(s)
    ensures SafeFrom(s)
  {
    forall steps | Runs(s, steps) && Quiet(steps)
      ensures OnlyOwn(After(s, steps))
    {
      QuietIsNoReuse(s, steps);
      RunClean(s, steps);
      forall w: nat | w < |After(s, steps).waiters|
        ensures Own(After(s, steps), w)
      {
        assert WaiterClean(After(s, steps), w);
      }
    }
  }

  lemma OneStep(s: State, step: Step, r: State)
    requires Indexed(s) && Enabled(s, step) && Next(s, step) == r
    requires !step.Start? && !step.Fork?
    ensures !SafeFrom(r) ==> !SafeFrom(s)
    ensures !OnlyOwn(r) ==> !SafeFrom(s)
  {
    if !SafeFrom(r) {
      var steps :| Runs(r, steps) && Quiet(steps) && !OnlyOwn(After(r, steps));
      assert ([step] + steps)[1..] == steps;
      assert Runs(s, [step] + steps) && Quiet([step] + steps);
    }
    if !OnlyOwn(r) {
      assert Runs(r, [step][1..]) && After(r, [step][1..]) == r;
      assert Runs(s, [step]) && Quiet([step]);
    }
  }

  /** An old waiter goes by the new entry. */
  lemma StaleWaiter(s: State, pid: int, w: nat)
    requires Inv(s) && Enabled(s, Start(pid)) && w < |s.waiters| && s.waiters[w].phase.Waiting?
    requires s.procs[s.waiters[w].proc].pid == pid
    ensures !SafeFrom(Started(s, pid))
  {
    var r := Started(s, pid);
    StartKeeps(s, pid);
    assert EntryOk(r, pid) && WaiterOk(s, w) && ProcOk(r, s.waiters[w].proc);
    assert Enabled(r, Wake(w));
    assert !Own(Woken(r, w), w);
    OneStep(r, Wake(w), Woken(r, w));
  }

  /** Whoever waits on an entry that has another's end on record is told so. */
  lemma WrongMark(s: State, w: nat)
    requires Inv(s) && w < |s.waiters| && s.waiters[w].phase.Waiting? && s.procs[s.waiters[w].proc].fate.Listed?
    requires s.procs[s.waiters[w].proc].exit.Some? && s.procs[s.waiters[w].proc].exit.value.whose != s.waiters[w].proc
    ensures !SafeFrom(s)
  {
    var k := s.waiters[w].proc;
    assert ProcOk(s, k) && EntryOk(s, s.procs[k].pid);
    assert !Own(Woken(s, w), w);
    OneStep(s, Wake(w), Woken(s, w));
  }

  /** A report for another process of that pid lands in the entry of whoever is waited for. */
  lemma LateReport(s: State, pid: int, w: nat)
    requires Inv(s) && s.pending.Some? && s.procs[s.pending.value.proc].pid == pid && pid in s.table
    requires s.table[pid] != s.pending.value.proc
    requires w < |s.waiters| && s.waiters[w].phase.Waiting? && s.waiters[w].proc == s.table[pid]
    ensures !SafeFrom(s)
  {
    RecordKeeps(s);
    assert EntryOk(s, pid);
    WrongMark(Recorded(s), w);
    OneStep(s, Record, Recorded(s));
  }

  lemma StaleReport(s: State, pid: int)
    requires Inv(s) && Enabled(s, Start(pid)) && s.pending.Some? && s.procs[s.pending.value.proc].pid == pid
    ensures !SafeFrom(Started(s, pid))
  {
    var r := Started(s, pid);
    StartKeeps(s, pid);
    assert EntryOk(r, pid);
    RegisterKeeps(r, pid);
    LateReport(Registered(r, pid), pid, |s.waiters|);
    OneStep(r, Register(pid), Registered(r, pid));
  }

  /** The end of a process outside the table is taken for that of the entry with its pid. */
  lemma StrangerEnds(s: State, pid: int, u: nat)
    requires Inv(s) && pid in s.table && u < |s.procs| && s.procs[u].pid == pid && s.procs[u].ended.None?
    requires s.table[pid] != u && s.pending.None?
    ensures !SafeFrom(s)
  {
    var r := Registered(s, pid);
    assert EntryOk(s, pid);
    RegisterKeeps(s, pid);
    EndKeeps(r, u, 0);
    LateReport(Ended(r, u, 0), pid, |s.waiters|);
    OneStep(r, End(u, 0), Ended(r, u, 0));
    OneStep(s, Register(pid), r);
  }

  lemma Stranger(s: State, pid: int)
    requires Inv(s) && Enabled(s, Fork(pid)) && pid in s.table
    ensures !SafeFrom(Forked(s, pid))
  {
    var r := Forked(s, pid);
    ForkKeeps(s, pid);
    if r.pending.Some? {
      RecordKeeps(r);
      StrangerEnds(Recorded(r), pid, |s.procs|);
      OneStep(r, Record, Recorded(r));
    } else {
      StrangerEnds(r, pid, |s.procs|);
    }
  }

  /** After any reuse things can go on so that a waiter is told about another process. */
  lemma ReuseIsFatal(s: State, step: Step)
    requires Inv(s) && Enabled(s, step) && Reuses(s, step)
    ensures !SafeFrom(Next(s, step))
  {
    hide EntryOk, ProcOk, WaiterOk, Started, Forked, SafeFrom, PidFree;
    match step
    case Fork(pid) => Stranger(s, pid);
    case Start(pid) =>
      if w: nat :| w < |s.waiters| && s.waiters[w].phase.Waiting? && s.procs[s.waiters[w].proc].pid == pid {
        StaleWaiter(s, pid, w);
      } else {
        StaleReport(s, pid);
      }
  }

  /** The state of a run after its first `i` steps. */
  ghost function At(s: State, steps: seq<Step>, i: nat): (r: State)
    requires Indexed(s) && Runs(s, steps) && i <= |steps|
    ensures Indexed(r)
    decreases i
  {
    if i == 0 then s else At(Next(s, steps[0]), steps[1..], i - 1)
  }

  ghost predicate AlwaysSafe(s: State, steps: seq<Step>)
    requires Indexed(s) && Runs(s, steps)
  {
    forall i: nat :: i <= |steps| ==> SafeFrom(At(s, steps, i))
  }

  lemma AlwaysSafeSplits(s: State, steps: seq<Step>)
    requires Indexed(s) && steps != [] && Runs(s, steps)
    ensures AlwaysSafe(s, steps) <==> SafeFrom(s) && AlwaysSafe(Next(s, steps[0]), steps[1..])
  {
    hide SafeFrom, Next, Enabled, Indexed;
    var r := Next(s, steps[0]);
    if AlwaysSafe(s, steps) {
      assert At(s, steps, 0) == s;
      forall i: nat | i <= |steps[1..]|
        ensures SafeFrom(At(r, steps[1..], i))
      {
        assert At(s, steps, i + 1) == At(r, steps[1..], i);
      }
    }
    if SafeFrom(s) && AlwaysSafe(r, steps[1..]) {
      forall i: nat | i <= |steps|
        ensures SafeFrom(At(s, steps, i))
      {
        if i > 0 {
          assert At(s, steps, i) == At(r, steps[1..], i - 1);
        }
      }
    }
  }

  lemma {:induction false} SafeSteps(s: State, steps: seq<Step>)
    requires Inv(s) && Clean(s) && Runs(s, steps)
    ensures NoReuse(s, steps) <==> AlwaysSafe(s, steps)
    decreases |steps|
  {
    hide EntryOk, ProcOk, WaiterOk, Next, Clean, Reuses, Enabled, SafeFrom, AlwaysSafe;
    CleanIsSafe(s);
    if steps == [] {
      OnlyHere(s);
    } else {
      var r := Next(s, steps[0]);
      StepKeeps(s, steps[0]);
      AlwaysSafeSplits(s, steps);
      if Reuses(s, steps[0]) {
        ReuseIsFatal(s, steps[0]);
        SafeAtOnce(r, steps[1..]);
      } else {
        StepClean(s, steps[0]);
        SafeSteps(r, steps[1..]);
      }
    }
  }

  lemma OnlyHere(s: State)
    requires Indexed(s)
    ensures Runs(s, []) && (AlwaysSafe(s, []) <==> SafeFrom(s))
  {
    hide SafeFrom;
    assert At(s, [], 0) == s;
  }

  lemma SafeAtOnce(s: State, steps: seq<Step>)
    requires Indexed(s) && Runs(s, steps)
    ensures AlwaysSafe(s, steps) ==> SafeFrom(s)
  {
    hide SafeFrom;
    assert At(s, steps, 0) == s;
  }

  /** Reuse is exactly what endangers the waits: a run is without it just when at no point of it waiters, reaper and
      container removals could go on so that somebody is told about another process. */
  lemma SafeExactly(steps: seq<Step>)
    requires Runs(START, steps)
    ensures NoReuse(START, steps) <==> AlwaysSafe(START, steps)
  {
    StartIsClean();
    SafeSteps(START, steps);
  }

  lemma OneMore(s: State, steps: seq<Step>, r: State)
    requires Indexed(s) && steps != [] && Enabled(s, steps[0]) && Next(s, steps[0]) == r && Runs(r, steps[1..])
    ensures Runs(s, steps) && After(s, steps) == After(r, steps[1..])
    ensures !Reuses(s, steps[0]) && NoReuse(r, steps[1..]) ==> NoReuse(s, steps)
  {
  }

  lemma LastOne(s: State, steps: seq<Step>, r: State)
    requires Indexed(s) && |steps| == 1 && Enabled(s, steps[0]) && Next(s, steps[0]) == r
    ensures Runs(s, steps) && After(s, steps) == r && (!Reuses(s, steps[0]) ==> NoReuse(s, steps))
  {
  }

  /** A process on its own: started, waited for, ended and recorded. */
  lemma OneLife(pid: int, status: int)
    ensures var p := Proc(pid, None, None, [], Listed);
            var q := p.(watchers := [0]);
            var e := q.(ended := Some(status));
            var w := Waiter(0, [], Waiting);
            var s1 := State(true, map[pid := 0], [p], [], None);
            var s2 := State(true, map[pid := 0], [q], [w], None);
            var s3 := State(true, map[pid := 0], [e], [w], Some(Report(0, status)));
            && Started(State(true, map[], [], [], None), pid) == s1 && Registered(s1, pid) == s2
            && Ended(s2, 0, status) == s3
            && Recorded(s3) == State(true, map[pid := 0], [e.(exit := Some(Mark(status, 0)))], [w], None)
  {
    assert [] + [0] == [0];
  }

  lemma TakenOver(pid: int, status: int)
    ensures var d := Proc(pid, Some(status), Some(Mark(status, 0)), [0], Listed);
            var p := Proc(pid, None, None, [], Listed);
            var w := Waiter(0, [], Waiting);
            var s1 := State(true, map[pid := 0], [d], [w], None);
            var s2 := State(true, map[pid := 1], [d.(fate := Dropped), p], [w], None);
            && Started(s1, pid) == s2
            && Woken(s2, 0) == State(true, map[], [d.(fate := Dropped), p.(fate := Collected)],
                                     [w.(phase := Returned(Answer(0, None)))], None)
  {
    assert Broadcast([Waiter(0, [], Waiting)], [], Answer(0, None)) == [Waiter(0, [], Waiting)];
    assert map[pid := 1] - {pid} == map[];
  }

  lemma TakenOverRun(pid: int, status: int)
    ensures var d := Proc(pid, Some(status), Some(Mark(status, 0)), [0], Listed);
            var s := State(true, map[pid := 0], [d], [Waiter(0, [], Waiting)], None);
            var steps := [Start(pid), Wake(0)];
            && Indexed(s) && Runs(s, steps)
            && After(s, steps) == State(true, map[], [d.(fate := Dropped), Proc(pid, None, None, [], Collected)],
                                        [Waiter(0, [], Returned(Answer(0, None)))], None)
  {
    hide Started, Woken, Runs, After;
    TakenOver(pid, status);
    var d := Proc(pid, Some(status), Some(Mark(status, 0)), [0], Listed);
    var p, w := Proc(pid, None, None, [], Listed), Waiter(0, [], Waiting);
    var s := State(true, map[pid := 0], [d], [w], None);
    var r := State(true, map[pid := 1], [d.(fate := Dropped), p], [w], None);
    var steps := [Start(pid), Wake(0)];
    LastOne(r, steps[1..], Woken(r, 0));
    OneMore(s, steps, r);
  }

  /** A pid given to a new process while the old one is waited for: the old waiter is told that the new one, which runs,
      ended with zero, and takes its entry away. */
  lemma ReuseMisleads(pid: int, status: int)
    ensures var steps := [Create, Start(pid), Register(pid), End(0, status), Record, Start(pid), Wake(0)];
            && Runs(START, steps)
            && After(START, steps) ==
               State(true, map[],
                     [Proc(pid, Some(status), Some(Mark(status, 0)), [0], Dropped),
                      Proc(pid, None, None, [], Collected)],
                     [Waiter(0, [], Returned(Answer(0, None)))], None)
  {
    hide Started, Registered, Ended, Recorded, Runs, After;
    var steps := [Create, Start(pid), Register(pid), End(0, status), Record, Start(pid), Wake(0)];
    OneLife(pid, status);
    TakenOverRun(pid, status);
    var p := Proc(pid, None, None, [], Listed);
    var q := p.(watchers := [0]);
    var e := q.(ended := Some(status));
    var w := Waiter(0, [], Waiting);
    var s1 := State(true, map[], [], [], None);
    var s2 := State(true, map[pid := 0], [p], [], None);
    var s3 := State(true, map[pid := 0], [q], [w], None);
    var s4 := State(true, map[pid := 0], [e], [w], Some(Report(0, status)));
    var s5 := State(true, map[pid := 0], [e.(exit := Some(Mark(status, 0)))], [w], None);
    assert steps[1..][1..][1..][1..][1..] == [Start(pid), Wake(0)];
    OneMore(s4, steps[1..][1..][1..][1..], s5);
    OneMore(s3, steps[1..][1..][1..], s4);
    OneMore(s2, steps[1..][1..], s3);
    OneMore(s1, steps[1..], s2);
    OneMore(START, steps, s1);
  }

  lemma ReportPending(pid: int, status: int)
    ensures var p := Proc(pid, None, None, [], Listed);
            var e := p.(ended := Some(status));
            var late := Some(Report(0, status));
            var s1 := State(true, map[pid := 0], [p], [], None);
            var s2 := State(true, map[pid := 0], [e], [], late);
            && Started(State(true, map[], [], [], None), pid) == s1 && Ended(s1, 0, status) == s2
            && Started(s2, pid) == State(true, map[pid := 1], [e.(fate := Dropped), p], [], late)
  {
  }

  lemma ReportMisplaced(pid: int, status: int)
    ensures var a := Answer(status, Some(0));
            var d := Proc(pid, Some(status), None, [], Dropped);
            var p := Proc(pid, None, None, [], Listed);
            var q := p.(watchers := [0]);
            var m := q.(exit := Some(Mark(status, 0)));
            var w := Waiter(1, [], Waiting);
            var late := Some(Report(0, status));
            var s1 := State(true, map[pid := 1], [d, p], [], late);
            var s2 := State(true, map[pid := 1], [d, q], [w], late);
            var s3 := State(true, map[pid := 1], [d, m], [w], None);
            && Registered(s1, pid) == s2 && Recorded(s2) == s3
            && Woken(s3, 0) == State(true, map[], [d, m.(fate := Collected)], [Waiter(1, [a], Returned(a))], None)
  {
    var a, w := Answer(status, Some(0)), Waiter(1, [], Waiting);
    assert [] + [0] == [0] && [] + [a] == [a];
    assert Broadcast([w], [0], a) == [w.(channel := [a])];
    assert map[pid := 1] - {pid} == map[];
  }

  lemma MisplacedRun(pid: int, status: int)
    ensures var a := Answer(status, Some(0));
            var d := Proc(pid, Some(status), None, [], Dropped);
            var s := State(true, map[pid := 1], [d, Proc(pid, None, None, [], Listed)], [], Some(Report(0, status)));
            var steps := [Register(pid), Record, Wake(0)];
            && Indexed(s) && Runs(s, steps)
            && After(s, steps) == State(true, map[], [d, Proc(pid, None, Some(Mark(status, 0)), [0], Collected)],
                                        [Waiter(1, [a], Returned(a))], None)
  {
    hide Registered, Recorded, Woken, Runs, After;
    ReportMisplaced(pid, status);
    var d := Proc(pid, Some(status), None, [], Dropped);
    var p := Proc(pid, None, None, [], Listed);
    var q := p.(watchers := [0]);
    var w, late := Waiter(1, [], Waiting), Some(Report(0, status));
    var s1 := State(true, map[pid := 1], [d, p], [], late);
    var s2 := State(true, map[pid := 1], [d, q], [w], late);
    var s3 := State(true, map[pid := 1], [d, q.(exit := Some(Mark(status, 0)))], [w], None);
    var steps := [Register(pid), Record, Wake(0)];
    LastOne(s3, steps[1..][1..], Woken(s3, 0));
    OneMore(s2, steps[1..], s3);
    OneMore(s1, steps, s2);
  }

  /** Nobody waits for the old process, but its report is recorded late: the new one's waiter is told the old status
      while the new process runs. */
  lemma LateRecordMisleads(pid: int, status: int)
    ensures var steps := [Create, Start(pid), End(0, status), Start(pid), Register(pid), Record, Wake(0)];
            var a := Answer(status, Some(0));
            && Runs(START, steps)
            && After(START, steps) ==
               State(true, map[],
                     [Proc(pid, Some(status), None, [], Dropped),
                      Proc(pid, None, Some(Mark(status, 0)), [0], Collected)],
                     [Waiter(1, [a], Returned(a))], None)
  {
    hide Started, Ended, Runs, After;
    var steps := [Create, Start(pid), End(0, status), Start(pid), Register(pid), Record, Wake(0)];
    ReportPending(pid, status);
    MisplacedRun(pid, status);
    var p := Proc(pid, None, None, [], Listed);
    var e := p.(ended := Some(status));
    var late := Some(Report(0, status));
    var s1 := State(true, map[], [], [], None);
    var s2 := State(true, map[pid := 0], [p], [], None);
    var s3 := State(true, map[pid := 0], [e], [], late);
    var s4 := State(true, map[pid := 1], [e.(fate := Dropped), p], [], late);
    assert steps[1..][1..][1..][1..] == [Register(pid), Record, Wake(0)];
    OneMore(s3, steps[1..][1..][1..], s4);
    OneMore(s2, steps[1..][1..], s3);
    OneMore(s1, steps[1..], s2);
    OneMore(START, steps, s1);
  }

  /** Once the container is removed it has no entries, and everybody who waits can move on, and fails. */
  lemma RemovalFails(s: State, w: nat)
    requires Inv(s) && s.alive && w < |s.waiters| && s.waiters[w].phase.Waiting?
    ensures var r := Next(s, Destroy);
            !r.alive && r.table == map[] && Enabled(r, Wake(w)) && Next(r, Wake(w)).waiters[w].phase == Failed
  {
    assert WaiterOk(s, w) && ProcOk(s, s.waiters[w].proc);
  }

  /** Every process in the table that has ended has its code on record, or its report is on the way. */
  ghost predicate Prompt(s: State)
    requires Indexed(s)
  {
    forall k: nat :: k < |s.procs| ==> ProcPrompt(s, k)
  }

  ghost predicate ProcPrompt(s: State, k: nat)
    requires Indexed(s) && k < |s.procs|
  {
    s.procs[k].fate.Listed? && s.procs[k].ended.Some? ==>
      s.procs[k].exit.Some? || (s.pending.Some? && s.pending.value.proc == k)
  }

  lemma StepPrompt(s: State, step: Step)
    requires Inv(s) && Prompt(s) && Enabled(s, step) && step != Misfile
    ensures Prompt(Next(s, step))
  {
    hide WaiterOk, EntryOk, PidFree;
    var r := Next(s, step);
    forall k: nat | k < |r.procs|
      ensures ProcPrompt(r, k)
    {
      assert k < |s.procs| ==> ProcPrompt(s, k) && ProcOk(s, k);
    }
  }

  lemma {:induction false} RunPrompt(s: State, steps: seq<Step>)
    requires Inv(s) && Prompt(s) && Runs(s, steps) && Misfile !in steps
    ensures Prompt(After(s, steps))
    decreases |steps|
  {
    hide EntryOk, ProcOk, WaiterOk, Next, Enabled, Prompt;
    if steps != [] {
      StepKeeps(s, steps[0]);
      StepPrompt(s, steps[0]);
      RunPrompt(Next(s, steps[0]), steps[1..]);
    }
  }

  /** In every run in which no report goes astray, whoever waits for a process that has ended can move on as soon as the
      reaper is done with it. */
  lemma ReportsWake(steps: seq<Step>, w: nat)
    requires Runs(START, steps) && Misfile !in steps
    requires var s := After(START, steps);
             w < |s.waiters| && s.waiters[w].phase.Waiting? && s.procs[s.waiters[w].proc].ended.Some?
    ensures var s := After(START, steps);
            Enabled(s, Wake(w)) || (s.pending.Some? && s.pending.value.proc == s.waiters[w].proc)
  {
    StartIsClean();
    RunPrompt(START, steps);
    assert ProcPrompt(After(START, steps), After(START, steps).waiters[w].proc);
  }

  /** Waiting for a process that has ended and whose report went astray. */
  ghost predicate Stranded(s: State, w: nat)
    requires Indexed(s)
  {
    w < |s.waiters| && s.waiters[w].phase.Waiting? &&
    var k := s.waiters[w].proc;
    var p := s.procs[k];
    && p.fate.Listed? && p.ended.Some? && p.exit.None?
    && (s.pending.Some? ==> s.pending.value.proc != k)
  }

  /** Such a waiter can do nothing, and no step of the reaper or of other waiters helps. */
  lemma StrandedStep(s: State, step: Step, w: nat)
    requires Inv(s) && Clean(s) && Stranded(s, w) && Enabled(s, step) && !Reuses(s, step) && step != Destroy
    ensures step != Wake(w) && Stranded(Next(s, step), w)
  {
    hide WaiterOk, PidFree;
    var k := s.waiters[w].proc;
    assert ProcOk(s, k);
    match step {
      case Start(pid) => assert pid != s.procs[k].pid;
      case Wake(v) =>
        if s.procs[s.waiters[v].proc].pid in s.table {
          WakeFinds(s, v);
        }
      case _ =>
    }
  }

  /** Short of the container's end or a reuse, it waits forever. */
  lemma {:induction false} StrandedStays(s: State, steps: seq<Step>, w: nat)
    requires Inv(s) && Clean(s) && Stranded(s, w) && Runs(s, steps) && NoReuse(s, steps) && Destroy !in steps
    ensures Wake(w) !in steps && Stranded(After(s, steps), w)
    decreases |steps|
  {
    hide EntryOk, ProcOk, WaiterOk, Next, Enabled, Clean, Reuses, Stranded;
    if steps != [] {
      StrandedStep(s, steps[0], w);
      StepKeeps(s, steps[0]);
      StepClean(s, steps[0]);
      StrandedStays(Next(s, steps[0]), steps[1..], w);
    }
  }

  lemma LostOnTheWay(pid: int, status: int)
    ensures var q := Proc(pid, None, None, [0], Listed);
            var w := Waiter(0, [], Waiting);
            var s := State(true, map[pid := 0], [q], [w], None);
            var steps := [End(0, status), Misfile];
            && Indexed(s) && Runs(s, steps) && NoReuse(s, steps)
            && After(s, steps) == State(true, map[pid := 0], [q.(ended := Some(status))], [w], None)
  {
    hide Ended, Runs, After, NoReuse;
    OneLife(pid, status);
    var q, w := Proc(pid, None, None, [0], Listed), Waiter(0, [], Waiting);
    var s := State(true, map[pid := 0], [q], [w], None);
    var r := State(true, map[pid := 0], [q.(ended := Some(status))], [w], Some(Report(0, status)));
    var steps := [End(0, status), Misfile];
    LastOne(r, steps[1..], r.(pending := None));
    OneMore(s, steps, r);
  }

  /** A report that another container's entry takes, with no pid used twice here: the waiter is left waiting. */
  lemma MisfiledStrands(pid: int, status: int)
    ensures var steps := [Create, Start(pid), Register(pid), End(0, status), Misfile];
            && Runs(START, steps) && NoReuse(START, steps)
            && Stranded(After(START, steps), 0)
  {
    hide Started, Registered, Ended, Recorded, Runs, After, NoReuse;
    var steps := [Create, Start(pid), Register(pid), End(0, status), Misfile];
    OneLife(pid, status);
    LostOnTheWay(pid, status);
    var p := Proc(pid, None, None, [], Listed);
    var s1 := State(true, map[], [], [], None);
    var s2 := State(true, map[pid := 0], [p], [], None);
    var s3 := State(true, map[pid := 0], [p.(watchers := [0])], [Waiter(0, [], Waiting)], None);
    assert steps[1..][1..][1..] == [End(0, status), Misfile];
    OneMore(s2, steps[1..][1..], s3);
    OneMore(s1, steps[1..], s2);
    OneMore(START, steps, s1);
  }

  lemma {:induction false} RunsSplit(s: State, a: seq<Step>, b: seq<Step>)
    requires Indexed(s) && Runs(s, a + b)
    ensures Runs(s, a) && Runs(After(s, a), b) && After(s, a + b) == After(After(s, a), b)
    decreases |a|
  {
    hide Next, Enabled;
    if a == [] {
      assert a + b == b;
    } else {
      assert (a + b)[1..] == a[1..] + b;
      RunsSplit(Next(s, a[0]), a[1..], b);
    }
  }

  datatype WaitStatus = Exited(code: int) | Signaled(sig: int) | Other

  /** One turn of the reaper's loop: what `waitpid` returns, and what others do before it and between it and the
      sandbox lock; `elsewhere` is whether another container's entry under the pid is met first. */
  datatype Turn = Turn(before: seq<Step>, proc: nat, status: WaitStatus, between: seq<Step>, elsewhere: bool)

  function Filing(elsewhere: bool): Step {
    if elsewhere then Misfile else Record
  }

  /** What a turn comes to: other statuses than an end are passed over. */
  function Steps(t: Turn): seq<Step> {
    match t.status
    case Exited(code) => t.before + [End(t.proc, code)] + t.between + [Filing(t.elsewhere)]
    case Signaled(sig) => t.before + [End(t.proc, sig)] + t.between + [Filing(t.elsewhere)]
    case Other => t.before + t.between
  }

  function AllSteps(turns: seq<Turn>): seq<Step> {
    if turns == [] then [] else Steps(turns[0]) + AllSteps(turns[1..])
  }

  lemma Unmoved(s: State)
    requires Indexed(s)
    ensures Runs(s, []) && After(s, []) == s
  {
  }

  lemma FirstStep(s: State, steps: seq<Step>)
    requires Indexed(s) && steps != [] && Runs(s, steps)
    ensures Enabled(s, steps[0]) && Runs(Next(s, steps[0]), steps[1..])
    ensures After(s, steps) == After(Next(s, steps[0]), steps[1..])
  {
  }

  lemma StepEnds(s: State, step: Step, k: nat)
    requires Indexed(s) && Enabled(s, step) && k < |s.procs|
    ensures var r := Next(s, step);
            && k < |r.procs| && r.procs[k].pid == s.procs[k].pid
            && (s.procs[k].ended.Some? ==> r.procs[k].ended == s.procs[k].ended)
            && (step.End? && step.proc == k ==> r.procs[k].ended == Some(step.status))
  {
  }

  /** How a process ended does not change. */
  lemma {:induction false} EndedStays(s: State, steps: seq<Step>, k: nat)
    requires Indexed(s) && Runs(s, steps) && k < |s.procs| && s.procs[k].ended.Some?
    ensures k < |After(s, steps).procs| && After(s, steps).procs[k].pid == s.procs[k].pid
    ensures After(s, steps).procs[k].ended == s.procs[k].ended
    decreases |steps|
  {
    hide Next, Enabled;
    if steps != [] {
      StepEnds(s, steps[0], k);
      EndedStays(Next(s, steps[0]), steps[1..], k);
    }
  }

  /** Steps that are not the reaper's. */
  ghost predicate Others(steps: seq<Step>) {
    forall i :: 0 <= i < |steps| ==> !steps[i].End? && !steps[i].Record? && !steps[i].Misfile?
  }

  lemma {:induction false} PendingStays(s: State, steps: seq<Step>)
    requires Indexed(s) && Runs(s, steps) && Others(steps)
    ensures After(s, steps).pending == s.pending
    decreases |steps|
  {
    hide Enabled;
    if steps != [] {
      assert !steps[0].End?;
      PendingStays(Next(s, steps[0]), steps[1..]);
    }
  }

  /** A process that ended with `code`, and the entry that has it on record. */
  ghost predicate Filed(s: State, k: nat, code: int) {
    && k < |s.procs| && s.procs[k].ended == Some(code)
    && var pid := s.procs[k].pid;
       pid in s.table && s.table[pid] < |s.procs| ==> s.procs[s.table[pid]].exit == Some(Mark(code, k))
  }

  lemma OnlyStep(s: State, step: Step)
    requires Indexed(s) && Runs(s, [step])
    ensures Enabled(s, step) && After(s, [step]) == Next(s, step)
  {
    assert [step][1..] == [];
  }

  lemma {:induction false} ReportEnds(s: State, before: seq<Step>, k: nat, code: int, rest: seq<Step>)
    requires Indexed(s) && Runs(s, before + [End(k, code)] + rest)
    ensures var r := After(s, before + [End(k, code)] + rest); k < |r.procs| && r.procs[k].ended == Some(code)
  {
    hide Next, Enabled, Runs, After;
    RunsSplit(s, before + [End(k, code)], rest);
    RunsSplit(s, before, [End(k, code)]);
    var s1 := After(s, before);
    OnlyStep(s1, End(k, code));
    EndEnds(s1, k, code);
    EndedStays(Next(s1, End(k, code)), rest, k);
  }

  lemma EndEnds(s: State, k: nat, code: int)
    requires Indexed(s) && Enabled(s, End(k, code))
    ensures var r := Next(s, End(k, code));
            k < |r.procs| && r.procs[k].ended == Some(code) && r.pending == Some(Report(k, code))
  {
  }

  /** The reaper's turn as a whole: with only others in between, the code goes to the entry that has the pid then. */
  lemma ReportFiled(s: State, before: seq<Step>, k: nat, code: int, between: seq<Step>)
    requires Indexed(s) && Runs(s, before + [End(k, code)] + between + [Record]) && Others(between)
    ensures Filed(After(s, before + [End(k, code)] + between + [Record]), k, code)
  {
    hide Enabled, Runs, After, Next;
    RunsSplit(s, before + [End(k, code)] + between, [Record]);
    ReportEnds(s, before, k, code, between);
    RunsSplit(s, before + [End(k, code)], between);
    RunsSplit(s, before, [End(k, code)]);
    OnlyStep(After(s, before), End(k, code));
    EndEnds(After(s, before), k, code);
    var s2 := After(s, before + [End(k, code)]);
    PendingStays(s2, between);
    var s3 := After(s2, between);
    OnlyStep(s3, Record);
    RecordFiles(s3, k, code);
  }

  lemma RecordFiles(s: State, k: nat, code: int)
    requires Indexed(s) && s.pending == Some(Report(k, code)) && s.procs[k].ended == Some(code)
    ensures Filed(Next(s, Record), k, code)
  {
  }

  lemma {:induction false} AllStepsSplit(a: seq<Turn>, b: seq<Turn>)
    ensures AllSteps(a + b) == AllSteps(a) + AllSteps(b)
  {
    hide Steps;
    if a == [] {
      assert a + b == b;
    } else {
      AllStepsSplit(a[1..], b);
      assert (a + b)[1..] == a[1..] + b && (a + b)[0] == a[0];
      Regroup(Steps(a[0]), AllSteps(a[1..]), AllSteps(b));
    }
  }

  lemma Regroup(a: seq<Step>, b: seq<Step>, c: seq<Step>)
    ensures a + (b + c) == (a + b) + c
  {
  }

  /** The turn with index `i` among all the steps. */
  lemma TurnAmong(turns: seq<Turn>, i: nat, code: int) returns (ahead: seq<Step>, rest: seq<Step>)
    requires i < |turns| && turns[i].status in {Exited(code), Signaled(code)}
    ensures AllSteps(turns) == ahead + [End(turns[i].proc, code)] + rest
  {
    hide AllSteps;
    var t, all, tail := turns[i], AllSteps(turns[..i]), AllSteps(turns[i + 1..]);
    AllStepsSplit(turns[..i], turns[i..]);
    AllStepsSplit([t], turns[i + 1..]);
    assert turns == turns[..i] + turns[i..] && turns[i..] == [t] + turns[i + 1..];
    OneTurn(t);
    ahead, rest := all + t.before, t.between + [Filing(t.elsewhere)] + tail;
    hide Steps, Filing;
    assert AllSteps(turns) == all + (Steps(t) + tail);
    RegroupTurn(all, t.before, [End(t.proc, code)], t.between + [Filing(t.elsewhere)], tail);
    Regroup(t.before + [End(t.proc, code)], t.between, [Filing(t.elsewhere)]);
  }

  lemma OneTurn(t: Turn)
    ensures AllSteps([t]) == Steps(t)
  {
    assert [t][1..] == [];
  }

  lemma RegroupTurn(a: seq<Step>, b: seq<Step>, c: seq<Step>, d: seq<Step>, e: seq<Step>)
    ensures a + ((b + c + d) + e) == (a + b) + c + (d + e)
  {
  }

  /** Every process the reaper got a status for has ended with the exit code, or with the number of the signal. */
  lemma TurnsEnd(s: State, turns: seq<Turn>, more: seq<Step>, i: nat)
    requires Indexed(s) && Runs(s, AllSteps(turns) + more) && i < |turns| && !turns[i].status.Other?
    ensures var r, k := After(s, AllSteps(turns) + more), turns[i].proc;
            k < |r.procs| && r.procs[k].ended ==
              if turns[i].status.Exited? then Some(turns[i].status.code) else Some(turns[i].status.sig)
  {
    hide Next, Enabled, Runs, After, AllSteps;
    var t := turns[i];
    var code := if t.status.Exited? then t.status.code else t.status.sig;
    var ahead, rest := TurnAmong(turns, i, code);
    Regroup(ahead + [End(t.proc, code)], rest, more);
    ReportEnds(s, ahead, t.proc, code, rest + more);
  }

  /** In every run of the reaper and everybody else without reuse, whoever waited for such a process is told that. */
  lemma TurnsTold(turns: seq<Turn>, more: seq<Step>, i: nat, w: nat)
    requires Runs(START, AllSteps(turns) + more) && NoReuse(START, AllSteps(turns) + more) && i < |turns|
    requires var s := After(START, AllSteps(turns) + more);
             w < |s.waiters| && s.waiters[w].proc == turns[i].proc && s.waiters[w].phase.Returned?
    ensures var code := After(START, AllSteps(turns) + more).waiters[w].phase.answer.code;
            match turns[i].status
            case Exited(c) => code == c
            case Signaled(sig) => code == sig
            case Other => true
  {
    hide Runs, After, NoReuse, AllSteps;
    if !turns[i].status.Other? {
      TurnsEnd(START, turns, more, i);
      WaitsAgree(AllSteps(turns) + more, w, w);
    }
  }

  /** The container as the agent holds it, changed under the sandbox lock. */
  class ProcessTable {
    var alive: bool
    var table: map<int, nat>
    var procs: seq<Proc>
    var waiters: seq<Waiter>
    var pending: Option<Report>

    ghost function View(): State
      reads this
    {
      State(alive, table, procs, waiters, pending)
    }

    /** The first half of a wait: leave a sender with the process. */
    method Enlist(pid: int) returns (w: Option<nat>)
      requires Inv(View())
      modifies this
      ensures Inv(View()) && (w.Some? <==> old(alive) && pid in old(table))
      ensures w.Some? ==> View() == Next(old(View()), Register(pid)) && w.value == |old(waiters)|
      ensures w.None? ==> View() == old(View())
    {
      hide ProcOk, WaiterOk, EntryOk;
      if !alive || pid !in table {
        return None;
      }
      RegisterKeeps(View(), pid);
      var k := table[pid];
      w := Some(|waiters|);
      procs := procs[k := procs[k].(watchers := procs[k].watchers + [|waiters|])];
      waiters := waiters + [Waiter(k, [], Waiting)];
    }

    /** What `waitpid` returned waits for the sandbox lock. */
    method WaitPid(k: nat, status: int)
      requires Inv(View()) && Enabled(View(), End(k, status))
      modifies this
      ensures View() == Next(old(View()), End(k, status)) && Inv(View())
    {
      hide ProcOk, WaiterOk, EntryOk;
      EndKeeps(View(), k, status);
      procs, pending := procs[k := procs[k].(ended := Some(status))], Some(Report(k, status));
    }

    /** The locked part of the reaper's turn: find an entry by pid, here or elsewhere, and record the code there. */
    method RecordExit(elsewhere: bool)
      requires Inv(View()) && Enabled(View(), Filing(elsewhere))
      modifies this
      ensures View() == Next(old(View()), Filing(elsewhere)) && Inv(View())
    {
      hide ProcOk, WaiterOk, EntryOk;
      StepKeeps(View(), Filing(elsewhere));
      var report := pending.value;
      var pid := procs[report.proc].pid;
      if !elsewhere && pid in table {
        procs := procs[table[pid] := procs[table[pid]].(exit := Some(Mark(report.status, report.proc)))];
      }
      pending := None;
    }

    /** A process is started in the container and takes the entry under its pid. */
    method StartProcess(pid: int)
      requires Inv(View()) && Enabled(View(), Start(pid))
      modifies this
      ensures View() == Next(old(View()), Start(pid)) && Inv(View())
    {
      hide ProcOk, WaiterOk, EntryOk;
      StartKeeps(View(), pid);
      if pid in table {
        procs := procs[table[pid] := procs[table[pid]].(fate := Dropped)];
      }
      table, procs := table[pid := |procs|], procs + [Proc(pid, None, None, [], Listed)];
    }

    /** Any step of anybody. */
    method Perform(step: Step)
      requires Inv(View()) && Enabled(View(), step)
      modifies this
      ensures View() == Next(old(View()), step) && Inv(View())
    {
      hide ProcOk, WaiterOk, EntryOk, Started, Registered, Ended, Recorded, Woken;
      StepKeeps(View(), step);
      match step {
        case Create => alive := true;
        case Destroy => alive, table, procs := false, map[], Shed(procs);
        case Start(pid) => StartProcess(pid);
        case Fork(pid) => procs := procs + [Proc(pid, None, None, [], Dropped)];
        case Register(pid) => var _ := Enlist(pid);
        case End(k, status) => WaitPid(k, status);
        case Record => RecordExit(false);
        case Misfile => RecordExit(true);
        case Wake(w) => var _ := Finish(w);
      }
    }

    method PerformAll(steps: seq<Step>)
      requires Inv(View()) && Runs(View(), steps)
      modifies this
      ensures View() == After(old(View()), steps) && Inv(View())
    {
      hide ProcOk, WaiterOk, EntryOk, Enabled, Next, Runs, After;
      ghost var left := steps;
      for i := 0 to |steps|
        invariant left == steps[i..]
        invariant Inv(View()) && Runs(View(), left) && After(View(), left) == After(old(View()), steps)
      {
        FirstStep(View(), left);
        Perform(steps[i]);
        left := left[1..];
      }
      Unmoved(View());
    }

    /** The reaper's loop, with everybody else in between: record every end reported, pass over other statuses. */
    method HandleSigchild(turns: seq<Turn>)
      requires Inv(View()) && Runs(View(), AllSteps(turns))
      modifies this
      ensures View() == After(old(View()), AllSteps(turns)) && Inv(View())
      ensures forall i :: 0 <= i < |turns| && turns[i].status.Exited? ==>
        turns[i].proc < |procs| && procs[turns[i].proc].ended == Some(turns[i].status.code)
      ensures forall i :: 0 <= i < |turns| && turns[i].status.Signaled? ==>
        turns[i].proc < |procs| && procs[turns[i].proc].ended == Some(turns[i].status.sig)
    {
      hide ProcOk, WaiterOk, EntryOk, Enabled, Next, Runs, After, Steps;
      ghost var left := turns;
      for i := 0 to |turns|
        invariant left == turns[i..]
        invariant Inv(View()) && Runs(View(), AllSteps(left))
        invariant After(View(), AllSteps(left)) == After(old(View()), AllSteps(turns))
      {
        RunsSplit(View(), Steps(left[0]), AllSteps(left[1..]));
        TakeTurn(turns[i]);
        left := left[1..];
      }
      Unmoved(View());
      assert AllSteps(turns) + [] == AllSteps(turns);
      forall i: nat | i < |turns| && !turns[i].status.Other?
        ensures turns[i].proc < |procs|
        ensures procs[turns[i].proc].ended ==
          if turns[i].status.Exited? then Some(turns[i].status.code) else Some(turns[i].status.sig)
      {
        TurnsEnd(old(View()), turns, [], i);
      }
    }

    method TakeTurn(t: Turn)
      requires Inv(View()) && Runs(View(), Steps(t))
      modifies this
      ensures View() == After(old(View()), Steps(t)) && Inv(View())
      ensures t.status.Exited? && !t.elsewhere && Others(t.between) ==> Filed(View(), t.proc, t.status.code)
      ensures t.status.Signaled? && !t.elsewhere && Others(t.between) ==> Filed(View(), t.proc, t.status.sig)
      ensures t.status.Other? ==>
        Runs(old(View()), t.before + t.between) && View() == After(old(View()), t.before + t.between)
    {
      hide ProcOk, WaiterOk, EntryOk, Enabled, Next, Runs, After;
      match t.status {
        case Exited(code) => ReapOne(t.before, t.proc, code, t.between, t.elsewhere);
        case Signaled(sig) => ReapOne(t.before, t.proc, sig, t.between, t.elsewhere);
        case Other =>
          RunsSplit(View(), t.before, t.between);
          PerformAll(t.before);
          PerformAll(t.between);
      }
    }

    method ReapOne(before: seq<Step>, k: nat, status: int, between: seq<Step>, elsewhere: bool)
      requires Inv(View()) && Runs(View(), before + [End(k, status)] + between + [Filing(elsewhere)])
      modifies this
      ensures View() == After(old(View()), before + [End(k, status)] + between + [Filing(elsewhere)]) && Inv(View())
      ensures !elsewhere && Others(between) ==> Filed(View(), k, status)
    {
      hide ProcOk, WaiterOk, EntryOk, Enabled, Next, Runs, After, Filing;
      RunsSplit(View(), before + [End(k, status)] + between, [Filing(elsewhere)]);
      RunsSplit(View(), before + [End(k, status)], between);
      RunsSplit(View(), before, [End(k, status)]);
      PerformAll(before);
      OnlyStep(View(), End(k, status));
      WaitPid(k, status);
      PerformAll(between);
      OnlyStep(View(), Filing(elsewhere));
      RecordExit(elsewhere);
      if !elsewhere && Others(between) {
        HereIsRecord();
        ReportFiled(old(View()), before, k, status, between);
      }
    }

    static lemma HereIsRecord()
      ensures Filing(false) == Record
    {
    }

    /** The second half of a wait, with the lock held to the end. */
    method Finish(w: nat) returns (status: Option<int>)
      requires Inv(View()) && Enabled(View(), Wake(w))
      modifies this
      ensures View() == Next(old(View()), Wake(w)) && Inv(View())
      ensures status == (if waiters[w].phase.Returned? then Some(waiters[w].phase.answer.code) else None)
      ensures var pid := old(procs[waiters[w].proc].pid);
              status ==
              if !old(alive) then None
              else if pid in old(table) then
                Some(if old(procs[table[pid]].exit.Some?) then old(procs[table[pid]].exit.value.code) else 0)
              else if old(waiters[w].channel) != [] then Some(old(waiters[w].channel[0].code))
              else None
    {
      hide WaiterOk, EntryOk;
      WakeKeeps(View(), w);
      var pid := procs[waiters[w].proc].pid;
      if !alive {
        waiters := Settle(waiters, w, Failed);
        return None;
      }
      if pid !in table {
        if waiters[w].channel == [] {
          waiters := Settle(waiters, w, Failed);
          return None;
        }
        status := Some(waiters[w].channel[0].code);
        waiters := Settle(waiters, w, Returned(waiters[w].channel[0]));
        return;
      }
      var k := table[pid];
      var answer := AnswerOf(procs[k]);
      assert ProcOk(View(), k);
      SendToAll(procs[k].watchers, answer);
      waiters := Settle(waiters, w, Returned(answer));
      procs, table := procs[k := procs[k].(fate := Collected)], table - {pid};
      status := Some(answer.code);
    }

    method SendToAll(to: seq<nat>, a: Answer)
      requires forall i :: 0 <= i < |to| ==> to[i] < |waiters|
      requires forall i, j :: 0 <= i < j < |to| ==> to[i] != to[j]
      modifies this`waiters
      ensures waiters == Broadcast(old(waiters), to, a)
    {
      for i := 0 to |to|
        invariant waiters == Broadcast(old(waiters), to[..i], a)
      {
        if waiters[to[i]].phase.Waiting? {
          waiters := waiters[to[i] := waiters[to[i]].(channel := waiters[to[i]].channel + [a])];
        }
      }
      assert to[..|to|] == to;
    }
  }
}
