/** Device events and the waiters for them: the critical sections that share the sandbox lock, in any order. */
module Uevents {
  import opened Wrappers

  datatype Uevent = Uevent(action: string, devpath: string, devname: string, subsystem: string, seqnum: string,
                           interface: string)

  type Matcher = Uevent -> bool

  /** How far a registered waiter has come. An expired one has dropped its receiver and not yet retaken the lock. */
  datatype Phase = Waiting | Expired | Got(event: Uevent) | TimedOut | Panicked

  /** `slots` and `channels` run alongside the waiters, who keep the index they registered with. */
  datatype State = State(events: map<string, Uevent>, slots: seq<Option<Matcher>>, channels: seq<Option<Uevent>>,
                         phases: seq<Phase>, matchers: seq<Matcher>)
  {
    ghost predicate Shaped() {
      |slots| == |channels| == |phases| == |matchers|
    }
  }

  datatype Step =
    | Add(event: Uevent)
    | Remove(devpath: string)
    | Register(matcher: Matcher)
    | Receive(waiter: nat)
    | Expire(waiter: nat)
    | GiveUp(waiter: nat)

  const SYSFS_DIR := "/sys"
  const SYSFS_MEMORY_ONLINE_PATH := "/sys/devices/system/memory"

  predicate MemoryHotAdd(devpath: string) {
    SYSFS_MEMORY_ONLINE_PATH <= SYSFS_DIR + "/" + devpath + "/online"
  }

  /** The memory case takes a path without a leading slash; the kernel writes one. */
  lemma MemoryHotAddMeans(devpath: string)
    ensures MemoryHotAdd(devpath) <==> "devices/system/memory" <= devpath + "/online"
    ensures "/" <= devpath ==> !MemoryHotAdd(devpath)
  {
    var head, tail := SYSFS_DIR + "/", devpath + "/online";
    var rest := "devices/system/memory";
    assert SYSFS_MEMORY_ONLINE_PATH == head + rest && SYSFS_DIR + "/" + devpath + "/online" == head + tail;
    SharedPrefix(head, rest, tail);
    if "/" <= devpath {
      assert tail[0] == '/' && rest[0] == 'd';
    }
  }

  predicate Hears(slot: Option<Matcher>, e: Uevent) {
    slot.Some? && slot.value(e)
  }

  predicate Pending(events: map<string, Uevent>, m: Matcher) {
    exists p <- events :: m(events[p])
  }

  /** Whose turn the step is, and whether it can be taken. */
  ghost predicate Enabled(s: State, step: Step)
    requires s.Shaped()
  {
    match step
    case Receive(i) => i < |s.phases| && s.phases[i].Waiting? && s.channels[i].Some?
    case Expire(i) => i < |s.phases| && s.phases[i].Waiting? && s.channels[i].None?
    case GiveUp(i) => i < |s.phases| && s.phases[i].Expired?
    case _ => true
  }

  function Emptied(slots: seq<Option<Matcher>>, e: Uevent): seq<Option<Matcher>> {
    seq(|slots|, i requires 0 <= i < |slots| => if Hears(slots[i], e) then None else slots[i])
  }

  /** Send to everyone who hears; a dropped receiver makes the send fail quietly. */
  function Sent(slots: seq<Option<Matcher>>, channels: seq<Option<Uevent>>, phases: seq<Phase>, e: Uevent)
    : seq<Option<Uevent>>
    requires |slots| == |channels| == |phases|
  {
    seq(|channels|, i requires 0 <= i < |channels| =>
      if Hears(slots[i], e) && phases[i].Waiting? then Some(e) else channels[i])
  }

  ghost function Next(s: State, step: Step): (r: State)
    requires s.Shaped() && Enabled(s, step)
    ensures r.Shaped()
  {
    match step
    case Add(e) =>
      if MemoryHotAdd(e.devpath) then s
      else s.(events := s.events[e.devpath := e], slots := Emptied(s.slots, e),
          channels := Sent(s.slots, s.channels, s.phases, e))
    case Remove(p) => s.(events := s.events - {p})
    case Register(m) =>
      if Pending(s.events, m) then s
      else State(s.events, s.slots + [Some(m)], s.channels + [None], s.phases + [Waiting], s.matchers + [m])
    case Receive(i) => s.(phases := s.phases[i := Got(s.channels[i].value)])
    case Expire(i) => s.(phases := s.phases[i := Expired])
    case GiveUp(i) =>
      s.(slots := s.slots[i := None], phases := s.phases[i := if s.slots[i].Some? then TimedOut else Panicked])
  }

  /** What holds of waiter `i`: its slot is its own, and full until something is sent or it has given up. */
  ghost predicate WaiterOk(s: State, i: nat)
    requires s.Shaped() && i < |s.slots|
  {
    && (s.slots[i].Some? ==> s.slots[i].value == s.matchers[i])
    && (s.channels[i].Some? ==> s.slots[i].None? && s.matchers[i](s.channels[i].value))
    && match s.phases[i] {
         case Waiting => s.slots[i].Some? <==> s.channels[i].None?
         case Expired => s.channels[i].None?
         case Got(e) => s.channels[i] == Some(e)
         case TimedOut => s.channels[i].None? && s.slots[i].None?
         case Panicked => s.channels[i].None? && s.slots[i].None?
       }
  }

  /** No known event is one that a full slot waits for. */
  ghost predicate NothingMissed(s: State) {
    forall i, p :: 0 <= i < |s.slots| && p in s.events ==> !Hears(s.slots[i], s.events[p])
  }

  ghost predicate Inv(s: State) {
    && s.Shaped()
    && (forall i: nat :: i < |s.slots| ==> WaiterOk(s, i))
    && NothingMissed(s)
  }

  lemma InvStep(s: State, step: Step)
    requires Inv(s) && Enabled(s, step)
    ensures Inv(Next(s, step))
  {
    var r := Next(s, step);
    forall i: nat | i < |r.slots|
      ensures WaiterOk(r, i)
    {
      if i < |s.slots| {
        assert WaiterOk(s, i);
      }
    }
  }

  ghost predicate Runs(s: State, steps: seq<Step>)
    requires s.Shaped()
    decreases |steps|
  {
    steps == [] || (Enabled(s, steps[0]) && Runs(Next(s, steps[0]), steps[1..]))
  }

  ghost function After(s: State, steps: seq<Step>): (r: State)
    requires s.Shaped() && Runs(s, steps)
    ensures r.Shaped()
    decreases |steps|
  {
    if steps == [] then s else After(Next(s, steps[0]), steps[1..])
  }

  const START := State(map[], [], [], [], [])

  /** In every reachable state slots belong to their waiters, what was sent was asked for, and nothing was missed. */
  lemma {:induction false} RunsKeepInv(s: State, steps: seq<Step>)
    requires Inv(s) && Runs(s, steps)
    ensures Inv(After(s, steps))
    decreases |steps|
  {
    if steps != [] {
      InvStep(s, steps[0]);
      RunsKeepInv(Next(s, steps[0]), steps[1..]);
    }
  }

  lemma EveryRunIsSafe(steps: seq<Step>)
    requires Runs(START, steps)
    ensures Inv(After(START, steps))
  {
    RunsKeepInv(START, steps);
  }

  /** What is said about the device at `p`: it comes, and is no memory, or it goes. */
  predicate Concerns(step: Step, p: string) {
    match step
    case Add(e) => e.devpath == p && !("devices/system/memory" <= p + "/online")
    case Remove(q) => q == p
    case _ => false
  }

  /** The last word on the device at `p` is that it came, with the event `e`. */
  ghost predicate Present(steps: seq<Step>, p: string, e: Uevent) {
    exists i :: 0 <= i < |steps| && LastWord(steps, i, p) && steps[i] == Add(e)
  }

  ghost predicate LastWord(steps: seq<Step>, i: nat, p: string)
    requires i < |steps|
  {
    Concerns(steps[i], p) && forall j :: i < j < |steps| ==> !Concerns(steps[j], p)
  }

  lemma PresentStep(steps: seq<Step>, step: Step, p: string, e: Uevent)
    ensures Present(steps + [step], p, e) <==> if Concerns(step, p) then step == Add(e) else Present(steps, p, e)
  {
    var n, all := |steps|, steps + [step];
    assert all[n] == step && forall i :: 0 <= i < n ==> all[i] == steps[i];
    if Concerns(step, p) {
      assert LastWord(all, n, p);
      assert forall i: nat :: i < n ==> !LastWord(all, i, p);
    } else {
      assert !LastWord(all, n, p);
      assert forall i: nat :: i < n ==> LastWord(all, i, p) == LastWord(steps, i, p);
    }
  }

  lemma {:induction false} OneStepMore(s: State, steps: seq<Step>, step: Step)
    requires s.Shaped() && Runs(s, steps)
    ensures Runs(s, steps + [step]) <==> Enabled(After(s, steps), step)
    ensures Runs(s, steps + [step]) ==> After(s, steps + [step]) == Next(After(s, steps), step)
    decreases |steps|
  {
    hide Next, Enabled;
    if steps == [] {
      assert steps + [step] == [step] && [step][1..] == [];
    } else {
      assert (steps + [step])[1..] == steps[1..] + [step];
      OneStepMore(Next(s, steps[0]), steps[1..], step);
    }
  }

  lemma {:induction false} RunsPrefix(s: State, steps: seq<Step>, n: nat)
    requires s.Shaped() && Runs(s, steps) && n <= |steps|
    ensures Runs(s, steps[..n])
    decreases n
  {
    hide Next, Enabled;
    if n > 0 {
      RunsPrefix(Next(s, steps[0]), steps[1..], n - 1);
      assert steps[..n][1..] == steps[1..][..n - 1];
    }
  }

  /** In every run the map holds, under each device path, the event of the device that came there last and has not
      gone since, and nothing else. */
  lemma {:induction false} MapIsHistory(steps: seq<Step>, p: string, e: Uevent)
    requires Runs(START, steps)
    ensures var known := After(START, steps).events;
            p in known && known[p] == e <==> Present(steps, p, e)
    decreases |steps|
  {
    hide Present, Runs, After;
    if steps == [] {
      NothingPresent(p, e);
    } else {
      var n := |steps| - 1;
      RunsPrefix(START, steps, n);
      MapIsHistory(steps[..n], p, e);
      assert steps == steps[..n] + [steps[n]];
      OneStepMore(START, steps[..n], steps[n]);
      PresentStep(steps[..n], steps[n], p, e);
      if steps[n].Add? {
        MemoryHotAddMeans(steps[n].event.devpath);
      }
    }
  }

  lemma NothingPresent(p: string, e: Uevent)
    ensures Runs(START, []) && After(START, []) == START && !Present([], p, e)
  {
  }

  /** What an event means to a waiter. */
  predicate Wakes(m: Matcher, step: Step) {
    step.Add? && !MemoryHotAdd(step.event.devpath) && m(step.event)
  }

  /** The first event in a run that wakes a waiter. */
  function FirstWake(m: Matcher, steps: seq<Step>): Option<Uevent> {
    if steps == [] then None
    else if Wakes(m, steps[0]) then Some(steps[0].event)
    else FirstWake(m, steps[1..])
  }

  lemma StepGrows(s: State, step: Step, i: nat)
    requires Inv(s) && Enabled(s, step) && i < |s.slots|
    ensures i < |Next(s, step).slots| && Next(s, step).matchers[i] == s.matchers[i]
    ensures s.channels[i].Some? ==> Next(s, step).channels[i] == s.channels[i]
  {
    assert WaiterOk(s, i);
  }

  /** Once something was sent, nothing else ever is. */
  lemma {:induction false} SentOnce(s: State, steps: seq<Step>, i: nat)
    requires Inv(s) && Runs(s, steps) && i < |s.slots| && s.channels[i].Some?
    ensures i < |After(s, steps).slots| && After(s, steps).channels[i] == s.channels[i]
    decreases |steps|
  {
    if steps != [] {
      InvStep(s, steps[0]);
      StepGrows(s, steps[0], i);
      SentOnce(Next(s, steps[0]), steps[1..], i);
    }
  }

  /** A waiter whose timer does not fire is sent the first matching event after it registered, and no other. */
  lemma {:induction false} FirstMatchDelivered(s: State, steps: seq<Step>, i: nat)
    requires Inv(s) && Runs(s, steps) && i < |s.slots|
    requires s.phases[i].Waiting? && s.slots[i].Some?
    requires Expire(i) !in steps
    ensures i < |After(s, steps).slots| && After(s, steps).channels[i] == FirstWake(s.matchers[i], steps)
    decreases |steps|
  {
    assert WaiterOk(s, i);
    if steps != [] {
      var step, r := steps[0], Next(s, steps[0]);
      InvStep(s, step);
      StepGrows(s, step, i);
      if Wakes(s.matchers[i], step) {
        SentOnce(r, steps[1..], i);
      } else {
        assert step in steps && (step.Expire? ==> step.waiter != i);
        FirstMatchDelivered(r, steps[1..], i);
      }
    }
  }

  /** An expired waiter finds its slot empty exactly when a matching event came in before it got the lock back. */
  lemma {:induction false} ExpiredSlot(s: State, steps: seq<Step>, i: nat)
    requires Inv(s) && Runs(s, steps) && i < |s.slots| && s.phases[i].Expired?
    requires GiveUp(i) !in steps
    ensures i < |After(s, steps).slots| && After(s, steps).phases[i].Expired?
    ensures After(s, steps).slots[i].Some? <==> s.slots[i].Some? && FirstWake(s.matchers[i], steps).None?
    decreases |steps|
  {
    assert WaiterOk(s, i);
    if steps != [] {
      var step := steps[0];
      InvStep(s, step);
      StepGrows(s, step, i);
      assert step in steps && (step.GiveUp? ==> step.waiter != i);
      ExpiredSlot(Next(s, step), steps[1..], i);
    }
  }

  /** The `unwrap` after a timeout panics just when an event the waiter wanted was delivered between its timer and
      its retaking the lock. */
  lemma PanicsExactly(s: State, between: seq<Step>, i: nat)
    requires Inv(s) && i < |s.slots| && Enabled(s, Expire(i))
    requires Runs(Next(s, Expire(i)), between) && GiveUp(i) !in between
    ensures var t := After(Next(s, Expire(i)), between);
            && Enabled(t, GiveUp(i))
            && (Next(t, GiveUp(i)).phases[i].Panicked? <==> FirstWake(s.matchers[i], between).Some?)
  {
    assert WaiterOk(s, i);
    InvStep(s, Expire(i));
    ExpiredSlot(Next(s, Expire(i)), between, i);
  }

  /** A run that panics: register, time out, and let the device show up before the lock is retaken. */
  lemma PanicIsReachable(e: Uevent)
    requires !MemoryHotAdd(e.devpath)
    ensures var steps := [Register(_ => true), Expire(0), Add(e), GiveUp(0)];
            Runs(START, steps) && After(START, steps).phases == [Panicked]
  {
    var steps := [Register(_ => true), Expire(0), Add(e), GiveUp(0)];
    var s1 := Next(START, steps[0]);
    assert s1.phases == [Waiting] && s1.slots[0].Some?;
    var s2 := Next(s1, steps[1]);
    var s3 := Next(s2, steps[2]);
    assert s3.slots[0].None? && Enabled(s3, steps[3]);
    var s4 := Next(s3, steps[3]);
    OneMore(s3, steps[3], steps[4..]);
    OneMore(s2, steps[2], steps[3..]);
    OneMore(s1, steps[1], steps[2..]);
    OneMore(START, steps[0], steps[1..]);
    assert s4.phases == [Panicked];
  }

  lemma OneMore(s: State, step: Step, steps: seq<Step>)
    requires s.Shaped() && Enabled(s, step) && Runs(Next(s, step), steps)
    ensures Runs(s, [step] + steps) && After(s, [step] + steps) == After(Next(s, step), steps)
  {
    assert ([step] + steps)[1..] == steps;
  }

  /** The shared part of the sandbox, changed under its lock one critical section at a time. */
  class EventBoard {
    var events: map<string, Uevent>
    var slots: seq<Option<Matcher>>
    var channels: seq<Option<Uevent>>
    var phases: seq<Phase>
    ghost var matchers: seq<Matcher>
    /** The critical sections so far. */
    ghost var history: seq<Step>

    constructor ()
      ensures Valid() && history == []
    {
      events, slots, channels, phases, matchers, history := map[], [], [], [], [], [];
    }

    ghost function View(): State
      reads this
    {
      State(events, slots, channels, phases, matchers)
    }

    ghost predicate Valid()
      reads this
    {
      Runs(START, history) && After(START, history) == View()
    }

    /** The history with one more step, for a board that has just taken it. */
    twostate lemma Advanced(step: Step)
      requires old(Valid()) && Enabled(old(View()), step) && View() == Next(old(View()), step)
      requires history == old(history) + [step]
      ensures Valid()
    {
      OneStepMore(START, old(history), step);
    }

    method ProcessAdd(e: Uevent)
      requires Valid()
      modifies this
      ensures Valid() && history == old(history) + [Add(e)]
    {
      history := history + [Add(e)];
      if !MemoryHotAdd(e.devpath) {
        events := events[e.devpath := e];
        Notify(e);
      }
      Advanced(Add(e));
    }

    /** Hand the event to every watcher it matches, each taken out of its slot. */
    method Notify(e: Uevent)
      requires |slots| == |channels| == |phases|
      modifies this`slots, this`channels
      ensures slots == Emptied(old(slots), e)
      ensures channels == Sent(old(slots), old(channels), phases, e)
    {
      hide Hears;
      ghost var taken, sent := Emptied(slots, e), Sent(slots, channels, phases, e);
      for i := 0 to |slots|
        invariant |slots| == |channels| == |phases| == |taken| == |sent|
        invariant forall j :: 0 <= j < i ==> slots[j] == taken[j] && channels[j] == sent[j]
        invariant forall j :: i <= j < |slots| ==> slots[j] == old(slots[j]) && channels[j] == old(channels[j])
      {
        if Hears(slots[i], e) {
          slots := slots[i := None];
          if phases[i].Waiting? {
            channels := channels[i := Some(e)];
          }
        }
      }
    }

    method ProcessRemove(devpath: string)
      requires Valid()
      modifies this`events, this`history
      ensures Valid() && history == old(history) + [Remove(devpath)]
    {
      history, events := history + [Remove(devpath)], events - {devpath};
      Advanced(Remove(devpath));
    }

    /** The first half of a wait: the event of any device that is there and matches, whichever order the map yields them
        in, or else a slot. */
    method Enroll(m: Matcher) returns (found: Option<Uevent>)
      requires Valid()
      modifies this
      ensures Valid() && history == old(history) + [Register(m)]
      ensures found.Some? <==> exists p, e :: Present(old(history), p, e) && m(e)
      ensures found.Some? ==> m(found.value) && exists p :: Present(old(history), p, found.value)
      ensures found.None? ==> |slots| == |old(slots)| + 1 && slots[|old(slots)|] == Some(m)
    {
      hide Present, Runs, After;
      var left := events.Keys;
      history := history + [Register(m)];
      while left != {}
        invariant left <= events.Keys && View() == old(View()) && history == old(history) + [Register(m)]
        invariant forall p <- events.Keys - left :: !m(events[p])
      {
        var p :| p in left;
        if m(events[p]) {
          MapIsHistory(old(history), p, events[p]);
          Advanced(Register(m));
          return Some(events[p]);
        }
        left := left - {p};
      }
      forall p, e | Present(old(history), p, e)
        ensures !m(e)
      {
        MapIsHistory(old(history), p, e);
      }
      slots, channels, phases, matchers := slots + [Some(m)], channels + [None], phases + [Waiting], matchers + [m];
      Advanced(Register(m));
      found := None;
    }

    method Accept(i: nat) returns (e: Uevent)
      requires Valid() && Enabled(View(), Receive(i))
      modifies this`phases, this`history
      ensures Valid() && history == old(history) + [Receive(i)]
      ensures i < |channels| == |matchers| && channels[i] == Some(e) && matchers[i](e)
    {
      EveryRunIsSafe(history);
      assert WaiterOk(View(), i);
      e := channels[i].value;
      phases, history := phases[i := Got(e)], history + [Receive(i)];
      Advanced(Receive(i));
    }

    /** The timer fires: the receiver is dropped. */
    method TimeOut(i: nat)
      requires Valid() && Enabled(View(), Expire(i))
      modifies this`phases, this`history
      ensures Valid() && history == old(history) + [Expire(i)]
    {
      phases, history := phases[i := Expired], history + [Expire(i)];
      Advanced(Expire(i));
    }

    /** After the timer: take the slot back. `ok` is false where the `unwrap` panics. */
    method TakeSlot(i: nat) returns (ok: bool)
      requires Valid() && Enabled(View(), GiveUp(i))
      modifies this
      ensures Valid() && history == old(history) + [GiveUp(i)]
      ensures i < |phases| && phases[i] == if ok then TimedOut else Panicked
    {
      history := history + [GiveUp(i)];
      ok := slots[i].Some?;
      slots, phases := slots[i := None], phases[i := if ok then TimedOut else Panicked];
      Advanced(GiveUp(i));
    }
  }
}
