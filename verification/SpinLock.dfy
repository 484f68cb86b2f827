/** `CASLock` under its scoped guard, for any number of threads (nnysl/thread.h:31-61, 227-245;
    used as in test/test_thread.cpp:14-17): test-and-set and clear are atomic steps, and the guard
    notes that it is locked only after the one and after the other. */
module SpinLock {

  /** What a thread does with its guard; `Bump` loads the shared counter and then stores one more. */
  datatype Op = Construct | Lock | Unlock | Destroy | Bump

  datatype Pc = Ready | Spinning | Entered | Cleared | Loaded(value: int)

  /** `locked` is the guard's own flag. */
  datatype Thread = Thread(pc: Pc, locked: bool, todo: seq<Op>)

  datatype State = State(flag: bool, counter: int, threads: seq<Thread>)

  predicate Enabled(s: State, i: nat) {
    i < |s.threads| && (s.threads[i].pc == Ready ==> s.threads[i].todo != [])
  }

  /** The next step of a thread, with the lock's flag and the counter after it. */
  function Act(t: Thread, flag: bool, counter: int): (Thread, bool, int)
    requires t.pc == Ready ==> t.todo != []
  {
    match t.pc
    case Ready =>
      var next := t.(todo := t.todo[1..]);
      (match t.todo[0]
       case Construct => (next.(pc := Spinning), flag, counter)
       case Lock => (if t.locked then next else next.(pc := Spinning), flag, counter)
       case Unlock => if t.locked then (next.(pc := Cleared), false, counter) else (next, flag, counter)
       case Destroy => if t.locked then (next.(pc := Cleared), false, counter) else (next, flag, counter)
       case Bump => (next.(pc := Loaded(counter)), flag, counter))
    case Spinning => (if flag then t else t.(pc := Entered), true, counter)
    case Entered => (t.(pc := Ready, locked := true), flag, counter)
    case Cleared => (t.(pc := Ready, locked := false), flag, counter)
    case Loaded(v) => (t.(pc := Ready), flag, v + 1)
  }

  function Step(s: State, i: nat): State
    requires Enabled(s, i)
  {
    var (t, flag, counter) := Act(s.threads[i], s.flag, s.counter);
    State(flag, counter, s.threads[i := t])
  }

  // ----- How a guard is used -----

  /** The rest of a script, for a guard that is locked or not: a guard is constructed when the one
      before is gone, the counter is only touched under a locked guard, and a script ends with its
      guard destroyed or unlocked.  `Lock` and `Unlock` may be repeated at will. */
  predicate Guarded(todo: seq<Op>, locked: bool) {
    if todo == [] then !locked
    else
      match todo[0]
      case Construct => !locked && Guarded(todo[1..], true)
      case Lock => Guarded(todo[1..], true)
      case Unlock => Guarded(todo[1..], false)
      case Destroy => Guarded(todo[1..], false)
      case Bump => locked && Guarded(todo[1..], true)
  }

  /** Between the test-and-set that succeeds and the clear. */
  predicate Inside(t: Thread) {
    t.pc == Entered || (t.locked && t.pc != Cleared)
  }

  predicate ThreadOk(t: Thread, counter: int) {
    match t.pc
    case Ready => Guarded(t.todo, t.locked)
    case Spinning => !t.locked && Guarded(t.todo, true)
    case Entered => !t.locked && Guarded(t.todo, true)
    case Cleared => t.locked && Guarded(t.todo, false)
    case Loaded(v) => t.locked && v == counter && Guarded(t.todo, true)
  }

  function Insiders(ts: seq<Thread>): nat {
    if ts == [] then 0 else Insiders(ts[..|ts| - 1]) + if Inside(ts[|ts| - 1]) then 1 else 0
  }

  function Bumps(todo: seq<Op>): nat {
    if todo == [] then 0 else Bumps(todo[1..]) + if todo[0] == Bump then 1 else 0
  }

  /** The increments a thread has yet to store. */
  function Owed(t: Thread): nat {
    Bumps(t.todo) + if t.pc.Loaded? then 1 else 0
  }

  function AllOwed(ts: seq<Thread>): nat {
    if ts == [] then 0 else AllOwed(ts[..|ts| - 1]) + Owed(ts[|ts| - 1])
  }

  lemma {:induction false} SumsUpdate(ts: seq<Thread>, i: nat, t: Thread)
    requires i < |ts|
    ensures var us := ts[i := t];
            && Insiders(us) + (if Inside(ts[i]) then 1 else 0) == Insiders(ts) + (if Inside(t) then 1 else 0)
            && AllOwed(us) + Owed(ts[i]) == AllOwed(ts) + Owed(t)
  {
    var n, us := |ts| - 1, ts[i := t];
    if i < n {
      SumsUpdate(ts[..n], i, t);
      assert us[..n] == ts[..n][i := t];
    } else {
      assert us[..n] == ts[..n];
    }
  }

  lemma {:induction false} InsiderCounts(ts: seq<Thread>, i: nat)
    requires i < |ts| && Inside(ts[i])
    ensures Insiders(ts) >= 1
  {
    if i < |ts| - 1 {
      InsiderCounts(ts[..|ts| - 1], i);
    }
  }

  lemma {:induction false} TwoInsiders(ts: seq<Thread>, i: nat, j: nat)
    requires i < j < |ts| && Inside(ts[i]) && Inside(ts[j])
    ensures Insiders(ts) >= 2
  {
    if j < |ts| - 1 {
      TwoInsiders(ts[..|ts| - 1], i, j);
    } else {
      InsiderCounts(ts[..|ts| - 1], i);
    }
  }

  lemma {:induction false} FindInsider(ts: seq<Thread>) returns (i: nat)
    requires Insiders(ts) > 0
    ensures i < |ts| && Inside(ts[i])
  {
    if Inside(ts[|ts| - 1]) {
      i := |ts| - 1;
    } else {
      i := FindInsider(ts[..|ts| - 1]);
    }
  }

  /** `total` is what the counter ends at. */
  predicate Inv(s: State, total: int) {
    && Insiders(s.threads) == (if s.flag then 1 else 0)
    && s.counter + AllOwed(s.threads) == total
    && forall i :: 0 <= i < |s.threads| ==> ThreadOk(s.threads[i], s.counter)
  }

  lemma StepKeepsThreads(s: State, i: nat, total: int, j: nat)
    requires Inv(s, total) && Enabled(s, i) && j < |s.threads|
    ensures ThreadOk(Step(s, i).threads[j], Step(s, i).counter)
  {
    assert ThreadOk(s.threads[i], s.counter) && ThreadOk(s.threads[j], s.counter);
    if j != i && s.threads[i].pc.Loaded? && s.threads[j].pc.Loaded? {
      TwoInsiders(s.threads, if i < j then i else j, if i < j then j else i);
      assert false;
    }
  }

  lemma StepKeepsInv(s: State, i: nat, total: int)
    requires Inv(s, total) && Enabled(s, i)
    ensures Inv(Step(s, i), total)
  {
    var s' := Step(s, i);
    assert ThreadOk(s.threads[i], s.counter);
    SumsUpdate(s.threads, i, s'.threads[i]);
    if Inside(s.threads[i]) {
      InsiderCounts(s.threads, i);
    }
    forall j | 0 <= j < |s.threads| ensures ThreadOk(s'.threads[j], s'.counter) {
      StepKeepsThreads(s, i, total, j);
    }
  }

  // ----- Runs -----

  ghost predicate Runs(s: State, schedule: seq<nat>)
    decreases |schedule|
  {
    schedule == [] || (Enabled(s, schedule[0]) && Runs(Step(s, schedule[0]), schedule[1..]))
  }

  ghost function End(s: State, schedule: seq<nat>): State
    requires Runs(s, schedule)
    decreases |schedule|
  {
    if schedule == [] then s else End(Step(s, schedule[0]), schedule[1..])
  }

  function Start(scripts: seq<seq<Op>>): State {
    State(false, 0, seq(|scripts|, i requires 0 <= i < |scripts| => Thread(Ready, false, scripts[i])))
  }

  function Total(scripts: seq<seq<Op>>): nat {
    if scripts == [] then 0 else Total(scripts[..|scripts| - 1]) + Bumps(scripts[|scripts| - 1])
  }

  lemma {:induction false} StartSums(scripts: seq<seq<Op>>)
    ensures Insiders(Start(scripts).threads) == 0
    ensures AllOwed(Start(scripts).threads) == Total(scripts)
  {
    if scripts != [] {
      var n := |scripts| - 1;
      StartSums(scripts[..n]);
      assert Start(scripts).threads[..n] == Start(scripts[..n]).threads;
    }
  }

  lemma {:induction false} RunKeepsInv(s: State, schedule: seq<nat>, total: int)
    requires Inv(s, total) && Runs(s, schedule)
    ensures Inv(End(s, schedule), total)
    decreases |schedule|
  {
    if schedule != [] {
      StepKeepsInv(s, schedule[0], total);
      RunKeepsInv(Step(s, schedule[0]), schedule[1..], total);
    }
  }

  ghost predicate Reaches(scripts: seq<seq<Op>>, schedule: seq<nat>, s: State) {
    && (forall i :: 0 <= i < |scripts| ==> Guarded(scripts[i], false))
    && Runs(Start(scripts), schedule) && s == End(Start(scripts), schedule)
  }

  lemma ReachedInv(scripts: seq<seq<Op>>, schedule: seq<nat>, s: State)
    requires Reaches(scripts, schedule, s)
    ensures Inv(s, Total(scripts))
  {
    StartSums(scripts);
    RunKeepsInv(Start(scripts), schedule, Total(scripts));
  }

  /** Critical sections exclude each other, and the flag is set exactly while a thread is in one;
      whatever a guard is told, its own flag agrees except in between the two assignments. */
  lemma CriticalSectionsExclude(scripts: seq<seq<Op>>, schedule: seq<nat>, s: State)
    requires Reaches(scripts, schedule, s)
    ensures forall i, j :: 0 <= i < j < |s.threads| ==> !Inside(s.threads[i]) || !Inside(s.threads[j])
    ensures s.flag <==> exists i :: 0 <= i < |s.threads| && Inside(s.threads[i])
    ensures forall i :: 0 <= i < |s.threads| && (s.threads[i].pc == Ready || s.threads[i].pc.Loaded?) ==>
              (s.threads[i].locked <==> Inside(s.threads[i]))
  {
    ReachedInv(scripts, schedule, s);
    forall i, j | 0 <= i < j < |s.threads| ensures !Inside(s.threads[i]) || !Inside(s.threads[j]) {
      if Inside(s.threads[i]) && Inside(s.threads[j]) {
        TwoInsiders(s.threads, i, j);
      }
    }
    if s.flag {
      var i := FindInsider(s.threads);
    }
    forall i | 0 <= i < |s.threads| && Inside(s.threads[i]) ensures s.flag {
      InsiderCounts(s.threads, i);
    }
  }

  predicate Finished(s: State) {
    forall i :: 0 <= i < |s.threads| ==> s.threads[i].pc == Ready && s.threads[i].todo == []
  }

  lemma {:induction false} NothingOwed(ts: seq<Thread>)
    requires forall i :: 0 <= i < |ts| ==> ts[i].pc == Ready && ts[i].todo == []
    ensures AllOwed(ts) == 0
  {
    if ts != [] {
      NothingOwed(ts[..|ts| - 1]);
    }
  }

  /** No increment is lost, although each is a load and a later store: when all threads are through,
      the counter is the number of increments in all the scripts, and the lock is free. */
  lemma CounterIsExact(scripts: seq<seq<Op>>, schedule: seq<nat>, s: State)
    requires Reaches(scripts, schedule, s) && Finished(s)
    ensures s.counter == Total(scripts) && !s.flag
  {
    ReachedInv(scripts, schedule, s);
    NothingOwed(s.threads);
    forall i | 0 <= i < |s.threads| ensures !Inside(s.threads[i]) {
      assert ThreadOk(s.threads[i], s.counter);
    }
    if s.flag {
      var i := FindInsider(s.threads);
    }
  }

  // ----- Progress -----

  /** Steps a thread has yet to make, not counting failed test-and-sets. */
  function Work(t: Thread): nat {
    3 * |t.todo| + match t.pc case Ready => 0 case Spinning => 2 case Entered => 1 case Cleared => 1 case Loaded(_) => 1
  }

  /** The lock is never stuck: unless all threads are through, one of them has a step that takes it
      further, a failed test-and-set being the only step that does not. */
  lemma SomeoneGetsFurther(scripts: seq<seq<Op>>, schedule: seq<nat>, s: State) returns (i: nat)
    requires Reaches(scripts, schedule, s) && !Finished(s)
    ensures Enabled(s, i) && Work(Step(s, i).threads[i]) < Work(s.threads[i])
  {
    ReachedInv(scripts, schedule, s);
    if s.flag {
      i := FindInsider(s.threads);
      assert ThreadOk(s.threads[i], s.counter);
    } else {
      i :| 0 <= i < |s.threads| && !(s.threads[i].pc == Ready && s.threads[i].todo == []);
    }
  }
}
