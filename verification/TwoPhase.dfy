/** `ConfigVar::setValue` and `getValue` under every interleaving of any number of threads
    (nnysl/config.h:317-335, nnysl/thread.h:97-190): the callbacks run under the read lock, the
    value is written later under the write lock. */
module TwoPhase {
  import opened Chains

  datatype Request<T> = Set(value: T) | Get

  /** Where a thread is; `Calling` has called the first `k` listeners. */
  datatype Pc<T> =
    | Idle
    | Reading
    | Comparing(value: T)
    | Calling(value: T, old': T, k: nat)
    | Leaving
    | Between(value: T)
    | Writing(value: T)
    | Written

  datatype Thread<T> = Thread(pc: Pc<T>, todo: seq<Request<T>>)

  /** What a `getValue` returned, and how many writes had happened by then. */
  datatype Result<T> = Result(value: T, after: nat)

  /** `readers` and `writer` are the reader/writer lock; `calls[k]` is what listener `k` was told,
      `results` what `getValue` returned, `written` the values assigned. */
  datatype State<T> = State(val: T, readers: int, writer: bool, threads: seq<Thread<T>>,
                            calls: seq<seq<Change<T>>>, results: seq<Result<T>>, written: seq<T>)

  predicate Reads<T>(pc: Pc<T>) {
    pc.Reading? || pc.Comparing? || pc.Calling? || pc.Leaving?
  }

  predicate Writes<T>(pc: Pc<T>) {
    pc.Writing? || pc.Written?
  }

  predicate Enabled<T>(s: State<T>, i: nat) {
    && i < |s.threads|
    && match s.threads[i].pc
       case Idle => s.threads[i].todo != [] && !s.writer
       case Between(_) => !s.writer && s.readers == 0
       case _ => true
  }

  function Moved<T>(s: State<T>, i: nat, pc: Pc<T>): State<T>
    requires i < |s.threads|
  {
    s.(threads := s.threads[i := s.threads[i].(pc := pc)])
  }

  function Left<T>(s: State<T>, i: nat, pc: Pc<T>): State<T>
    requires i < |s.threads|
  {
    Moved(s, i, pc).(readers := s.readers - 1)
  }

  function Step<T(==)>(s: State<T>, i: nat): State<T>
    requires Enabled(s, i)
  {
    var t := s.threads[i];
    match t.pc
    case Idle =>
      var pc := match t.todo[0] case Set(v) => Comparing(v) case Get => Reading;
      s.(threads := s.threads[i := Thread(pc, t.todo[1..])], readers := s.readers + 1)
    case Reading => Moved(s, i, Leaving).(results := s.results + [Result(s.val, |s.written|)])
    case Comparing(v) => Moved(s, i, if v == s.val then Leaving else Calling(v, s.val, 0))
    case Calling(v, old', k) =>
      if k < |s.calls|
      then Moved(s, i, Calling(v, old', k + 1)).(calls := s.calls[k := s.calls[k] + [Change(s.val, v)]])
      else Left(s, i, Between(v))
    case Leaving => Left(s, i, Idle)
    case Between(v) => Moved(s, i, Writing(v)).(writer := true)
    case Writing(v) => Moved(s, i, Written).(val := v, written := s.written + [v])
    case Written => Moved(s, i, Idle).(writer := false)
  }

  // ----- The lock -----

  ghost function Readers<T>(ts: seq<Thread<T>>): nat {
    if ts == [] then 0 else Readers(ts[..|ts| - 1]) + if Reads(ts[|ts| - 1].pc) then 1 else 0
  }

  ghost function Writers<T>(ts: seq<Thread<T>>): nat {
    if ts == [] then 0 else Writers(ts[..|ts| - 1]) + if Writes(ts[|ts| - 1].pc) then 1 else 0
  }

  lemma {:induction false} CountsUpdate<T>(ts: seq<Thread<T>>, i: nat, t: Thread<T>)
    requires i < |ts|
    ensures var us := ts[i := t];
            && Readers(us) + (if Reads(ts[i].pc) then 1 else 0) == Readers(ts) + (if Reads(t.pc) then 1 else 0)
            && Writers(us) + (if Writes(ts[i].pc) then 1 else 0) == Writers(ts) + (if Writes(t.pc) then 1 else 0)
  {
    var n, us := |ts| - 1, ts[i := t];
    if i < n {
      CountsUpdate(ts[..n], i, t);
      assert us[..n] == ts[..n][i := t];
    } else {
      assert us[..n] == ts[..n];
    }
  }

  lemma {:induction false} OneCounts<T>(ts: seq<Thread<T>>, i: nat)
    requires i < |ts|
    ensures Reads(ts[i].pc) ==> Readers(ts) >= 1
    ensures Writes(ts[i].pc) ==> Writers(ts) >= 1
  {
    if i < |ts| - 1 {
      OneCounts(ts[..|ts| - 1], i);
    }
  }

  lemma {:induction false} TwoCount<T>(ts: seq<Thread<T>>, i: nat, j: nat)
    requires i < j < |ts| && Writes(ts[i].pc) && Writes(ts[j].pc)
    ensures Writers(ts) >= 2
  {
    OneCounts(ts[..|ts| - 1], i);
    if j < |ts| - 1 {
      TwoCount(ts[..|ts| - 1], i, j);
    }
  }

  ghost predicate LockInv<T>(s: State<T>) {
    && s.readers == Readers(s.threads)
    && Writers(s.threads) == (if s.writer then 1 else 0)
    && (s.writer ==> s.readers == 0)
  }

  /** What a thread in its callback phase has handed out is the current value. */
  ghost predicate PhaseInv<T>(s: State<T>) {
    forall i :: 0 <= i < |s.threads| ==> PhaseOk(s.threads[i].pc, s.val)
  }

  ghost predicate PhaseOk<T>(pc: Pc<T>, val: T) {
    pc.Calling? ==> pc.old' == val && pc.value != val
  }

  ghost predicate Inv<T>(s: State<T>) {
    LockInv(s) && PhaseInv(s)
  }

  lemma StepKeepsInv<T>(s: State<T>, i: nat)
    requires Inv(s) && Enabled(s, i)
    ensures Inv(Step(s, i))
  {
    var s' := Step(s, i);
    CountsUpdate(s.threads, i, s'.threads[i]);
    OneCounts(s.threads, i);
    forall j | 0 <= j < |s.threads| ensures PhaseOk(s'.threads[j].pc, s'.val) {
      assert PhaseOk(s.threads[j].pc, s.val);
      OneCounts(s.threads, j);
    }
  }

  // ----- Values -----

  ghost predicate Asks<T>(t: Thread<T>, allowed: set<T>) {
    && (forall r :: r in t.todo && r.Set? ==> r.value in allowed)
    && (t.pc.Comparing? || t.pc.Calling? || t.pc.Between? || t.pc.Writing? ==> t.pc.value in allowed)
  }

  /** The result is the value of the last of the writes before it. */
  ghost predicate Current<T>(r: Result<T>, written: seq<T>, default': T) {
    r.after <= |written| && r.value == if r.after == 0 then default' else written[r.after - 1]
  }

  ghost predicate ValueInv<T>(s: State<T>, default': T, allowed: set<T>) {
    && s.val == (if s.written == [] then default' else s.written[|s.written| - 1])
    && (forall v :: v in s.written ==> v in allowed)
    && (forall k :: 0 <= k < |s.results| ==> Current(s.results[k], s.written, default'))
    && (forall j, k :: 0 <= j < k < |s.results| ==> s.results[j].after <= s.results[k].after)
    && forall i :: 0 <= i < |s.threads| ==> Asks(s.threads[i], allowed)
  }

  lemma StepKeepsValues<T>(s: State<T>, i: nat, default': T, allowed: set<T>)
    requires ValueInv(s, default', allowed) && Enabled(s, i)
    ensures ValueInv(Step(s, i), default', allowed)
  {
    var s' := Step(s, i);
    assert Asks(s.threads[i], allowed);
    forall k | 0 <= k < |s.results| ensures Current(s'.results[k], s'.written, default') {
      assert Current(s.results[k], s.written, default');
    }
    forall j | 0 <= j < |s.threads| ensures Asks(s'.threads[j], allowed) {
      assert Asks(s.threads[j], allowed);
    }
  }

  // ----- Chains -----

  /** The thread has told listener `k` of a value that it has yet to write. */
  ghost predicate Owes<T>(pc: Pc<T>, k: nat) {
    (pc.Calling? && k < pc.k) || pc.Between? || pc.Writing?
  }

  /** Thread `i`, if it is about to call listener `k`, is the only one in the middle of a change. */
  ghost predicate Alone<T>(s: State<T>, i: nat, k: nat)
    requires i < |s.threads|
  {
    s.threads[i].pc.Calling? && s.threads[i].pc.k == k ==>
      forall j :: 0 <= j < |s.threads| && j != i ==> !Owes(s.threads[j].pc, k)
  }

  ghost predicate LinkInv<T>(s: State<T>, default': T, k: nat) {
    && k < |s.calls| && Unbroken(s.calls[k], default')
    && (forall i :: 0 <= i < |s.threads| && Owes(s.threads[i].pc, k) ==>
          s.threads[i].pc.value == Last(s.calls[k], default') && s.threads[i].pc.value != s.val)
    && (forall i, j :: 0 <= i < |s.threads| && 0 <= j < |s.threads| && i != j ==>
          !Owes(s.threads[i].pc, k) || !Owes(s.threads[j].pc, k))
    && ((forall i :: 0 <= i < |s.threads| ==> !Owes(s.threads[i].pc, k)) ==> Last(s.calls[k], default') == s.val)
  }

  /** Thread `i` calls listener `k`. */
  lemma CallLinks<T>(s: State<T>, i: nat, default': T, k: nat)
    requires Inv(s) && Enabled(s, i) && LinkInv(s, default', k) && Alone(s, i, k)
    requires s.threads[i].pc.Calling? && s.threads[i].pc.k == k
    ensures LinkInv(Step(s, i), default', k)
  {
    var s', pc := Step(s, i), s.threads[i].pc;
    assert PhaseOk(pc, s.val);
    UnbrokenGrows(s.calls[k], default', Change(s.val, pc.value));
    assert Owes(s'.threads[i].pc, k);
    forall j | 0 <= j < |s.threads| && j != i ensures !Owes(s'.threads[j].pc, k) {
      assert s'.threads[j] == s.threads[j];
    }
  }

  /** Thread `i` writes what it owes. */
  lemma WriteLinks<T>(s: State<T>, i: nat, default': T, k: nat)
    requires Enabled(s, i) && LinkInv(s, default', k) && s.threads[i].pc.Writing?
    ensures LinkInv(Step(s, i), default', k)
  {
    var s' := Step(s, i);
    forall j | 0 <= j < |s.threads| ensures !Owes(s'.threads[j].pc, k) {
      assert j != i ==> s'.threads[j] == s.threads[j];
    }
  }

  /** Thread `i` does nothing to listener `k` or to the value. */
  lemma OtherLinks<T>(s: State<T>, i: nat, default': T, k: nat)
    requires Enabled(s, i) && LinkInv(s, default', k)
    requires !s.threads[i].pc.Writing? && !(s.threads[i].pc.Calling? && s.threads[i].pc.k == k)
    ensures LinkInv(Step(s, i), default', k)
  {
    var s', pc := Step(s, i), s.threads[i].pc;
    assert s'.calls[k] == s.calls[k] && s'.val == s.val;
    forall j | 0 <= j < |s.threads|
      ensures Owes(s'.threads[j].pc, k) <==> Owes(s.threads[j].pc, k)
      ensures Owes(s.threads[j].pc, k) ==> s'.threads[j].pc.value == s.threads[j].pc.value
    {
      assert j != i ==> s'.threads[j] == s.threads[j];
    }
  }

  lemma StepKeepsLink<T>(s: State<T>, i: nat, default': T, k: nat)
    requires Inv(s) && Enabled(s, i) && LinkInv(s, default', k) && Alone(s, i, k)
    ensures LinkInv(Step(s, i), default', k)
  {
    if s.threads[i].pc.Calling? && s.threads[i].pc.k == k {
      CallLinks(s, i, default', k);
    } else if s.threads[i].pc.Writing? {
      WriteLinks(s, i, default', k);
    } else {
      OtherLinks(s, i, default', k);
    }
  }

  lemma DisturbedBreaks<T>(s: State<T>, i: nat, default': T, k: nat)
    requires Inv(s) && Enabled(s, i) && LinkInv(s, default', k) && !Alone(s, i, k)
    ensures k < |Step(s, i).calls| && !Unbroken(Step(s, i).calls[k], default')
  {
    UnbrokenGrows(s.calls[k], default', Change(s.val, s.threads[i].pc.value));
  }

  lemma BrokenStays<T>(s: State<T>, i: nat, default': T, k: nat)
    requires Enabled(s, i) && k < |s.calls| && !Unbroken(s.calls[k], default')
    ensures k < |Step(s, i).calls| && !Unbroken(Step(s, i).calls[k], default')
  {
    var pc := s.threads[i].pc;
    if pc.Calling? && pc.k == k {
      UnbrokenGrows(s.calls[k], default', Change(s.val, pc.value));
    }
  }

  // ----- Runs -----

  ghost predicate Runs<T>(s: State<T>, schedule: seq<nat>)
    decreases |schedule|
  {
    schedule == [] || (Enabled(s, schedule[0]) && Runs(Step(s, schedule[0]), schedule[1..]))
  }

  ghost function End<T>(s: State<T>, schedule: seq<nat>): State<T>
    requires Runs(s, schedule)
    decreases |schedule|
  {
    if schedule == [] then s else End(Step(s, schedule[0]), schedule[1..])
  }

  /** Whenever listener `k` is called, no other thread has a change of its own under way. */
  ghost predicate Undisturbed<T>(s: State<T>, schedule: seq<nat>, k: nat)
    requires Runs(s, schedule)
    decreases |schedule|
  {
    schedule == [] || (Alone(s, schedule[0], k) && Undisturbed(Step(s, schedule[0]), schedule[1..], k))
  }

  function Start<T>(default': T, listeners: nat, work: seq<seq<Request<T>>>): State<T> {
    State(default', 0, false, seq(|work|, i requires 0 <= i < |work| => Thread(Idle, work[i])),
          seq(listeners, _ => []), [], [])
  }

  lemma {:induction false} IdleCounts<T>(ts: seq<Thread<T>>)
    requires forall i :: 0 <= i < |ts| ==> ts[i].pc == Idle
    ensures Readers(ts) == 0 && Writers(ts) == 0
  {
    if ts != [] {
      IdleCounts(ts[..|ts| - 1]);
    }
  }

  lemma StartInv<T>(default': T, listeners: nat, work: seq<seq<Request<T>>>)
    ensures Inv(Start(default', listeners, work))
    ensures forall k :: 0 <= k < listeners ==> LinkInv(Start(default', listeners, work), default', k)
  {
    IdleCounts(Start(default', listeners, work).threads);
  }

  lemma {:induction false} RunKeepsInv<T>(s: State<T>, schedule: seq<nat>)
    requires Inv(s) && Runs(s, schedule)
    ensures Inv(End(s, schedule))
    decreases |schedule|
  {
    if schedule != [] {
      StepKeepsInv(s, schedule[0]);
      RunKeepsInv(Step(s, schedule[0]), schedule[1..]);
    }
  }

  lemma {:induction false} RunKeepsValues<T>(s: State<T>, schedule: seq<nat>, default': T, allowed: set<T>)
    requires ValueInv(s, default', allowed) && Runs(s, schedule)
    ensures ValueInv(End(s, schedule), default', allowed)
    decreases |schedule|
  {
    if schedule != [] {
      StepKeepsValues(s, schedule[0], default', allowed);
      RunKeepsValues(Step(s, schedule[0]), schedule[1..], default', allowed);
    }
  }

  lemma {:induction false} BrokenForEver<T>(s: State<T>, schedule: seq<nat>, default': T, k: nat)
    requires Runs(s, schedule) && k < |s.calls| && !Unbroken(s.calls[k], default')
    ensures k < |End(s, schedule).calls| && !Unbroken(End(s, schedule).calls[k], default')
    decreases |schedule|
  {
    if schedule != [] {
      BrokenStays(s, schedule[0], default', k);
      BrokenForEver(Step(s, schedule[0]), schedule[1..], default', k);
    }
  }

  lemma {:induction false} RunLinks<T>(s: State<T>, schedule: seq<nat>, default': T, k: nat)
    requires Inv(s) && LinkInv(s, default', k) && Runs(s, schedule)
    ensures Undisturbed(s, schedule, k) ==> LinkInv(End(s, schedule), default', k)
    ensures !Undisturbed(s, schedule, k) ==>
              k < |End(s, schedule).calls| && !Unbroken(End(s, schedule).calls[k], default')
    decreases |schedule|
  {
    if schedule != [] {
      var i, s' := schedule[0], Step(s, schedule[0]);
      StepKeepsInv(s, i);
      if Alone(s, i, k) {
        StepKeepsLink(s, i, default', k);
        RunLinks(s', schedule[1..], default', k);
      } else {
        DisturbedBreaks(s, i, default', k);
        BrokenForEver(s', schedule[1..], default', k);
      }
    }
  }

  // ----- What holds of every run -----

  /** Writers exclude readers and each other, and while any thread is in its callback phase the
      value stays the one it hands out as the old value, which differs from the new one. */
  lemma PhasesExclude<T>(default': T, listeners: nat, work: seq<seq<Request<T>>>, schedule: seq<nat>, i: nat, j: nat)
    requires Runs(Start(default', listeners, work), schedule)
    requires var s := End(Start(default', listeners, work), schedule); i < |s.threads| && j < |s.threads| && i != j
    ensures var s := End(Start(default', listeners, work), schedule);
            && (Writes(s.threads[i].pc) ==> !Reads(s.threads[j].pc) && !Writes(s.threads[j].pc))
            && (s.threads[i].pc.Calling? ==> s.threads[i].pc.old' == s.val && s.threads[i].pc.value != s.val)
  {
    StartInv(default', listeners, work);
    RunKeepsInv(Start(default', listeners, work), schedule);
    var s := End(Start(default', listeners, work), schedule);
    OneCounts(s.threads, i);
    OneCounts(s.threads, j);
    if Writes(s.threads[i].pc) && Writes(s.threads[j].pc) {
      TwoCount(s.threads, if i < j then i else j, if i < j then j else i);
    }
    assert PhaseOk(s.threads[i].pc, s.val);
  }

  /** `getValue` returns the value written last when it reads, the default if there was none yet, and
      later results are never older; every value written is one that some `setValue` was given. */
  lemma ResultsAreCurrent<T>(default': T, listeners: nat, work: seq<seq<Request<T>>>, schedule: seq<nat>)
    requires Runs(Start(default', listeners, work), schedule)
    ensures var s := End(Start(default', listeners, work), schedule);
            && (forall k :: 0 <= k < |s.results| ==> Current(s.results[k], s.written, default'))
            && (forall j, k :: 0 <= j < k < |s.results| ==> s.results[j].after <= s.results[k].after)
            && s.val == (if s.written == [] then default' else s.written[|s.written| - 1])
            && forall v :: v in s.written ==> exists i :: 0 <= i < |work| && Set(v) in work[i]
  {
    var allowed := set i, k | 0 <= i < |work| && 0 <= k < |work[i]| && work[i][k].Set? :: work[i][k].value;
    var s := Start(default', listeners, work);
    forall i | 0 <= i < |s.threads| ensures Asks(s.threads[i], allowed) {
      assert s.threads[i].todo == work[i];
    }
    RunKeepsValues(s, schedule, default', allowed);
  }

  /** Exactly when a listener is told an unbroken chain of changes: when no thread calls it while
      another has told it of a value that is not yet written. */
  lemma ChainIffUndisturbed<T>(default': T, listeners: nat, work: seq<seq<Request<T>>>, schedule: seq<nat>, k: nat)
    requires Runs(Start(default', listeners, work), schedule) && k < listeners
    ensures var s := End(Start(default', listeners, work), schedule);
            && k < |s.calls|
            && (Unbroken(s.calls[k], default') <==> Undisturbed(Start(default', listeners, work), schedule, k))
  {
    StartInv(default', listeners, work);
    RunLinks(Start(default', listeners, work), schedule, default', k);
  }

  /** Only thread `w` sets. */
  ghost predicate OnlySetter<T>(s: State<T>, w: nat) {
    forall i :: 0 <= i < |s.threads| && i != w ==>
      (s.threads[i].pc.Idle? || s.threads[i].pc.Reading? || s.threads[i].pc.Leaving?)
      && forall r :: r in s.threads[i].todo ==> r.Get?
  }

  lemma {:induction false} OnlySetterIsUndisturbed<T>(s: State<T>, schedule: seq<nat>, w: nat, k: nat)
    requires OnlySetter(s, w) && Runs(s, schedule)
    ensures Undisturbed(s, schedule, k) && OnlySetter(End(s, schedule), w)
    decreases |schedule|
  {
    if schedule != [] {
      var t, t' := s.threads[schedule[0]], Step(s, schedule[0]).threads[schedule[0]];
      assert t.pc.Idle? ==> t.todo[0] in t.todo && t'.todo == t.todo[1..];
      OnlySetterIsUndisturbed(Step(s, schedule[0]), schedule[1..], w, k);
    }
  }

  /** With a single writing thread the chains are unbroken, whatever the readers do, and end at
      the current value whenever that thread is not in the middle of a change. */
  lemma SingleSetterChains<T>(default': T, listeners: nat, work: seq<seq<Request<T>>>, schedule: seq<nat>,
                              w: nat, k: nat)
    requires forall i :: 0 <= i < |work| && i != w ==> forall r :: r in work[i] ==> r.Get?
    requires Runs(Start(default', listeners, work), schedule) && k < listeners
    ensures var s := End(Start(default', listeners, work), schedule);
            && k < |s.calls| && Unbroken(s.calls[k], default')
            && (w < |s.threads| && s.threads[w].pc.Idle? ==> Last(s.calls[k], default') == s.val)
  {
    StartInv(default', listeners, work);
    OnlySetterIsUndisturbed(Start(default', listeners, work), schedule, w, k);
    RunLinks(Start(default', listeners, work), schedule, default', k);
  }

  // ----- What a single writing thread leaves -----

  ghost function LastSet<T>(done: seq<Request<T>>, default': T): T {
    if done == [] then default'
    else if done[|done| - 1].Set? then done[|done| - 1].value
    else LastSet(done[..|done| - 1], default')
  }

  /** The value of thread `w`'s last `setValue`, which is in force or on its way. */
  ghost predicate SetInv<T>(s: State<T>, default': T, w: nat, all: seq<Request<T>>) {
    && w < |s.threads|
    && var t := s.threads[w];
       && |t.todo| <= |all| && t.todo == all[|all| - |t.todo|..]
       && var last := LastSet(all[..|all| - |t.todo|], default');
          if t.pc.Comparing? || t.pc.Calling? || t.pc.Between? || t.pc.Writing?
          then t.pc.value == last else s.val == last
  }

  lemma LastSetNext<T>(all: seq<Request<T>>, k: nat, default': T)
    requires k < |all|
    ensures LastSet(all[..k + 1], default') == if all[k].Set? then all[k].value else LastSet(all[..k], default')
  {
    assert all[..k + 1][..k] == all[..k];
  }

  lemma StepKeepsSet<T>(s: State<T>, i: nat, default': T, w: nat, all: seq<Request<T>>)
    requires OnlySetter(s, w) && Enabled(s, i) && SetInv(s, default', w, all)
    ensures SetInv(Step(s, i), default', w, all)
  {
    var s' := Step(s, i);
    if i == w && s.threads[w].pc.Idle? {
      var k := |all| - |s.threads[w].todo|;
      LastSetNext(all, k, default');
      assert all[k..][1..] == all[k + 1..];
    } else if i != w {
      assert s'.threads[w] == s.threads[w] && s'.val == s.val;
    }
  }

  lemma StepKeepsSetter<T>(s: State<T>, i: nat, w: nat)
    requires OnlySetter(s, w) && Enabled(s, i)
    ensures OnlySetter(Step(s, i), w)
  {
    var t, t' := s.threads[i], Step(s, i).threads[i];
    assert t.pc.Idle? ==> t.todo[0] in t.todo && t'.todo == t.todo[1..];
  }

  lemma {:induction false} RunKeepsSet<T>(s: State<T>, schedule: seq<nat>, default': T, w: nat, all: seq<Request<T>>)
    requires OnlySetter(s, w) && Runs(s, schedule) && SetInv(s, default', w, all)
    ensures SetInv(End(s, schedule), default', w, all)
    decreases |schedule|
  {
    if schedule != [] {
      StepKeepsSet(s, schedule[0], default', w, all);
      StepKeepsSetter(s, schedule[0], w);
      RunKeepsSet(Step(s, schedule[0]), schedule[1..], default', w, all);
    }
  }

  /** With a single writing thread the value is that of the last `setValue` it has been through. */
  lemma SingleSetterSets<T>(default': T, listeners: nat, work: seq<seq<Request<T>>>, schedule: seq<nat>, w: nat)
    requires w < |work| && forall i :: 0 <= i < |work| && i != w ==> forall r :: r in work[i] ==> r.Get?
    requires Runs(Start(default', listeners, work), schedule)
    ensures var s := End(Start(default', listeners, work), schedule);
            && w < |s.threads| && |s.threads[w].todo| <= |work[w]|
            && (s.threads[w].pc.Idle? ==> s.val == LastSet(work[w][..|work[w]| - |s.threads[w].todo|], default'))
  {
    var start := Start(default', listeners, work);
    assert work[w][0..] == work[w] && work[w][..0] == [];
    RunKeepsSet(start, schedule, default', w, work[w]);
  }

  // ----- At rest -----

  ghost predicate AtRest<T>(s: State<T>) {
    forall i :: 0 <= i < |s.threads| ==> s.threads[i].pc == Idle
  }

  ghost function TimesTold<T>(calls: seq<Change<T>>, v: T): nat {
    if calls == [] then 0 else TimesTold(calls[..|calls| - 1], v) + if calls[|calls| - 1].new' == v then 1 else 0
  }

  ghost function TimesWritten<T>(written: seq<T>, v: T): nat {
    if written == [] then 0
    else TimesWritten(written[..|written| - 1], v) + if written[|written| - 1] == v then 1 else 0
  }

  ghost function Owed<T>(pc: Pc<T>, k: nat, v: T): nat {
    if Owes(pc, k) && pc.value == v then 1 else 0
  }

  ghost function TimesOwed<T>(ts: seq<Thread<T>>, k: nat, v: T): nat {
    if ts == [] then 0 else TimesOwed(ts[..|ts| - 1], k, v) + Owed(ts[|ts| - 1].pc, k, v)
  }

  lemma {:induction false} OwedUpdate<T>(ts: seq<Thread<T>>, i: nat, t: Thread<T>, k: nat, v: T)
    requires i < |ts|
    ensures TimesOwed(ts[i := t], k, v) + Owed(ts[i].pc, k, v) == TimesOwed(ts, k, v) + Owed(t.pc, k, v)
  {
    var n, us := |ts| - 1, ts[i := t];
    if i < n {
      OwedUpdate(ts[..n], i, t, k, v);
      assert us[..n] == ts[..n][i := t];
    } else {
      assert us[..n] == ts[..n];
    }
  }

  lemma {:induction false} NobodyOwes<T>(ts: seq<Thread<T>>, k: nat, v: T)
    requires forall i :: 0 <= i < |ts| ==> ts[i].pc == Idle
    ensures TimesOwed(ts, k, v) == 0
  {
    if ts != [] {
      NobodyOwes(ts[..|ts| - 1], k, v);
    }
  }

  /** Every announcement to listener `k` has been written or is owed. */
  ghost predicate Balanced<T>(s: State<T>, k: nat, v: T) {
    k < |s.calls| && TimesTold(s.calls[k], v) == TimesWritten(s.written, v) + TimesOwed(s.threads, k, v)
  }

  lemma ToldGrows<T>(calls: seq<Change<T>>, c: Change<T>, v: T)
    ensures TimesTold(calls + [c], v) == TimesTold(calls, v) + if c.new' == v then 1 else 0
  {
    assert (calls + [c])[..|calls|] == calls;
  }

  lemma WrittenGrows<T>(written: seq<T>, w: T, v: T)
    ensures TimesWritten(written + [w], v) == TimesWritten(written, v) + if w == v then 1 else 0
  {
    assert (written + [w])[..|written|] == written;
  }

  lemma CallBalances<T>(s: State<T>, i: nat, k: nat, v: T)
    requires Enabled(s, i) && Balanced(s, k, v) && s.threads[i].pc.Calling? && s.threads[i].pc.k == k
    ensures Balanced(Step(s, i), k, v)
  {
    OwedUpdate(s.threads, i, Step(s, i).threads[i], k, v);
    ToldGrows(s.calls[k], Change(s.val, s.threads[i].pc.value), v);
  }

  lemma WriteBalances<T>(s: State<T>, i: nat, k: nat, v: T)
    requires Enabled(s, i) && Balanced(s, k, v) && s.threads[i].pc.Writing?
    ensures Balanced(Step(s, i), k, v)
  {
    OwedUpdate(s.threads, i, Step(s, i).threads[i], k, v);
    WrittenGrows(s.written, s.threads[i].pc.value, v);
  }

  lemma StepBalances<T>(s: State<T>, i: nat, k: nat, v: T)
    requires Enabled(s, i) && Balanced(s, k, v)
    ensures Balanced(Step(s, i), k, v)
  {
    var pc, s' := s.threads[i].pc, Step(s, i);
    if pc.Calling? && pc.k == k {
      CallBalances(s, i, k, v);
    } else if pc.Writing? {
      WriteBalances(s, i, k, v);
    } else {
      OwedUpdate(s.threads, i, s'.threads[i], k, v);
      assert s'.calls[k] == s.calls[k] && s'.written == s.written;
    }
  }

  lemma {:induction false} RunBalances<T>(s: State<T>, schedule: seq<nat>, k: nat, v: T)
    requires Balanced(s, k, v) && Runs(s, schedule)
    ensures Balanced(End(s, schedule), k, v)
    decreases |schedule|
  {
    if schedule != [] {
      StepBalances(s, schedule[0], k, v);
      RunBalances(Step(s, schedule[0]), schedule[1..], k, v);
    }
  }

  /** At rest every listener has been told exactly the values written, each as often: with any
      number of writing threads only the order can differ. */
  lemma ToldIsWritten<T>(default': T, listeners: nat, work: seq<seq<Request<T>>>, schedule: seq<nat>, k: nat, v: T)
    requires Runs(Start(default', listeners, work), schedule) && k < listeners
    requires AtRest(End(Start(default', listeners, work), schedule))
    ensures var s := End(Start(default', listeners, work), schedule);
            k < |s.calls| && TimesTold(s.calls[k], v) == TimesWritten(s.written, v)
  {
    var start := Start(default', listeners, work);
    NobodyOwes(start.threads, k, v);
    RunBalances(start, schedule, k, v);
    NobodyOwes(End(start, schedule).threads, k, v);
  }

  ghost predicate NoWrites<T>(s: State<T>, schedule: seq<nat>)
    requires Runs(s, schedule)
    decreases |schedule|
  {
    schedule == [] || (!s.threads[schedule[0]].pc.Writing? && NoWrites(Step(s, schedule[0]), schedule[1..]))
  }

  /** When the last write of the run happens, what it writes is what listener `k` was last told. */
  ghost predicate LastWriteTold<T>(s: State<T>, schedule: seq<nat>, default': T, k: nat)
    requires Runs(s, schedule) && k < |s.calls|
    decreases |schedule|
  {
    schedule != [] ==>
      var (pc, s', rest) := (s.threads[schedule[0]].pc, Step(s, schedule[0]), schedule[1..]);
      if pc.Writing? && NoWrites(s', rest) then pc.value == Last(s.calls[k], default')
      else LastWriteTold(s', rest, default', k)
  }

  lemma {:induction false} OwesTillWritten<T>(s: State<T>, schedule: seq<nat>, i: nat, k: nat)
    requires Runs(s, schedule) && NoWrites(s, schedule)
    requires i < |s.threads| && k < |s.calls| && Owes(s.threads[i].pc, k)
    ensures i < |End(s, schedule).threads| && Owes(End(s, schedule).threads[i].pc, k)
    decreases |schedule|
  {
    if schedule != [] {
      OwesTillWritten(Step(s, schedule[0]), schedule[1..], i, k);
    }
  }

  lemma {:induction false} NoWriteNoCall<T>(s: State<T>, schedule: seq<nat>, k: nat)
    requires Runs(s, schedule) && NoWrites(s, schedule) && AtRest(End(s, schedule)) && k < |s.calls|
    ensures End(s, schedule).val == s.val
    ensures k < |End(s, schedule).calls| && End(s, schedule).calls[k] == s.calls[k]
    decreases |schedule|
  {
    if schedule != [] {
      var i, s' := schedule[0], Step(s, schedule[0]);
      if Owes(s'.threads[i].pc, k) {
        OwesTillWritten(s', schedule[1..], i, k);
      }
      NoWriteNoCall(s', schedule[1..], k);
    }
  }

  lemma {:induction false} LastWriteDecides<T>(s: State<T>, schedule: seq<nat>, default': T, k: nat)
    requires Runs(s, schedule) && AtRest(End(s, schedule)) && k < |s.calls|
    ensures k < |End(s, schedule).calls|
    ensures Last(End(s, schedule).calls[k], default') == End(s, schedule).val <==>
            if NoWrites(s, schedule) then Last(s.calls[k], default') == s.val
            else LastWriteTold(s, schedule, default', k)
    decreases |schedule|
  {
    if schedule != [] {
      var s', rest := Step(s, schedule[0]), schedule[1..];
      LastWriteDecides(s', rest, default', k);
      if NoWrites(s, schedule) {
        NoWriteNoCall(s, schedule, k);
      }
    }
  }

  /** Exactly when a listener is in step at rest: when what the last write wrote is what the
      listener had last been told by then. */
  lemma InStepIff<T>(default': T, listeners: nat, work: seq<seq<Request<T>>>, schedule: seq<nat>, k: nat)
    requires Runs(Start(default', listeners, work), schedule) && k < listeners
    requires AtRest(End(Start(default', listeners, work), schedule))
    ensures var (start, s) := (Start(default', listeners, work), End(Start(default', listeners, work), schedule));
            && k < |s.calls|
            && (Last(s.calls[k], default') == s.val <==>
                NoWrites(start, schedule) || LastWriteTold(start, schedule, default', k))
  {
    LastWriteDecides(Start(default', listeners, work), schedule, default', k);
  }

  // ----- Two writers -----

  lemma {:induction false} Append<T>(s: State<T>, a: seq<nat>, b: seq<nat>)
    requires Runs(s, a) && Runs(End(s, a), b)
    ensures Runs(s, a + b) && End(s, a + b) == End(End(s, a), b)
    decreases |a|
  {
    if a == [] {
      assert a + b == b;
    } else {
      Append(Step(s, a[0]), a[1..], b);
      assert (a + b)[1..] == a[1..] + b;
    }
  }

  lemma OneStep<T>(s: State<T>, i: nat)
    requires Enabled(s, i)
    ensures Runs(s, [i]) && End(s, [i]) == Step(s, i)
  {
    assert [i][1..] == [];
    assert Runs(Step(s, i), [i][1..]);
  }

  function Repeat(i: nat, n: nat): seq<nat> {
    if n == 0 then [] else Repeat(i, n - 1) + [i]
  }

  /** Thread `i`, free to read and about to set a new value, calls the first `n` listeners. */
  lemma {:induction false} CallsFirst<T>(s: State<T>, i: nat, v: T, n: nat)
    requires i < |s.threads| && s.threads[i].pc == Idle && s.threads[i].todo != [] && s.threads[i].todo[0] == Set(v)
    requires !s.writer && v != s.val && n <= |s.calls|
    ensures Runs(s, Repeat(i, n + 2))
    ensures var s' := End(s, Repeat(i, n + 2));
            && !s'.writer && s'.val == s.val && |s'.calls| == |s.calls| && |s'.threads| == |s.threads|
            && s'.threads[i].pc == Calling(v, s.val, n)
            && forall j :: 0 <= j < |s.threads| && j != i ==> s'.threads[j] == s.threads[j]
  {
    if n == 0 {
      var a := Step(s, i);
      OneStep(s, i);
      OneStep(a, i);
      Append(s, [i], [i]);
      assert Repeat(i, 0) == [] && Repeat(i, 1) == Repeat(i, 0) + [i] && Repeat(i, 2) == Repeat(i, 1) + [i];
    } else {
      CallsFirst(s, i, v, n - 1);
      var a := End(s, Repeat(i, n + 1));
      OneStep(a, i);
      Append(s, Repeat(i, n + 1), [i]);
    }
  }

  /** Whatever else the threads do: two of them whose first requests set other values than the
      default can break the chain of any listener. */
  lemma AnyTwoSettersCanBreak<T>(default': T, listeners: nat, work: seq<seq<Request<T>>>, i: nat, j: nat, k: nat)
    returns (schedule: seq<nat>)
    requires i < |work| && j < |work| && i != j && k < listeners
    requires work[i] != [] && work[i][0].Set? && work[i][0].value != default'
    requires work[j] != [] && work[j][0].Set? && work[j][0].value != default'
    ensures Runs(Start(default', listeners, work), schedule)
    ensures var s := End(Start(default', listeners, work), schedule);
            k < |s.calls| && !Unbroken(s.calls[k], default')
  {
    var start := Start(default', listeners, work);
    var first, second := Repeat(i, k + 3), Repeat(j, k + 2);
    CallsFirst(start, i, work[i][0].value, k + 1);
    var a := End(start, first);
    CallsFirst(a, j, work[j][0].value, k);
    var b := End(a, second);
    Append(start, first, second);
    StartInv(default', listeners, work);
    RunLinks(start, first + second, default', k);
    RunKeepsInv(start, first + second);
    assert b.threads[i] == a.threads[i] && Owes(b.threads[i].pc, k) && !Alone(b, j, k);
    OneStep(b, j);
    Append(start, first + second, [j]);
    schedule := first + second + [j];
    if Undisturbed(start, first + second, k) {
      DisturbedBreaks(b, j, default', k);
    } else {
      BrokenStays(b, j, default', k);
    }
  }

  /** Thread `i` announces its new value to the one listener and is about to write. */
  lemma Announce<T>(s: State<T>, i: nat, v: T)
    requires i < |s.threads| && s.threads[i] == Thread(Idle, [Set(v)]) && !s.writer && |s.calls| == 1 && v != s.val
    ensures var s' := s.(threads := s.threads[i := Thread(Between(v), [])], calls := [s.calls[0] + [Change(s.val, v)]]);
            Runs(s, [i] + [i] + [i] + [i]) && End(s, [i] + [i] + [i] + [i]) == s'
  {
    var a := Step(s, i);
    var b := Step(a, i);
    var c := Step(b, i);
    assert s.threads[i].todo[1..] == [];
    assert a.threads == s.threads[i := Thread(Comparing(v), [])];
    assert a.val == s.val && a.threads[i].pc == Comparing(v);
    assert b.threads == s.threads[i := Thread(Calling(v, s.val, 0), [])];
    assert c.threads == s.threads[i := Thread(Calling(v, s.val, 1), [])];
    assert Step(c, i).threads == s.threads[i := Thread(Between(v), [])];
    OneStep(s, i);
    OneStep(a, i);
    Append(s, [i], [i]);
    OneStep(b, i);
    Append(s, [i] + [i], [i]);
    OneStep(c, i);
    Append(s, [i] + [i] + [i], [i]);
  }

  lemma Write<T>(s: State<T>, i: nat, v: T)
    requires i < |s.threads| && s.threads[i] == Thread(Between(v), []) && !s.writer && s.readers == 0
    ensures var s' := s.(threads := s.threads[i := Thread(Idle, [])], val := v, written := s.written + [v]);
            Runs(s, [i] + [i] + [i]) && End(s, [i] + [i] + [i]) == s'
  {
    var a := Step(s, i);
    var b := Step(a, i);
    assert Step(b, i).threads == s.threads[i := Thread(Idle, [])];
    OneStep(s, i);
    OneStep(a, i);
    Append(s, [i], [i]);
    OneStep(b, i);
    Append(s, [i] + [i], [i]);
  }

  /** Both threads have announced their changes from 0, and neither has written. */
  lemma BothAnnounce() returns (schedule: seq<nat>)
    ensures var start := Start(0, 1, [[Set(1)], [Set(2)]]);
            && Runs(start, schedule)
            && End(start, schedule) ==
               State(0, 0, false, [Thread(Between(1), []), Thread(Between(2), [])],
                     [[Change(0, 1), Change(0, 2)]], [], [])
  {
    var s0 := Start(0, 1, [[Set(1)], [Set(2)]]);
    assert s0.threads == [Thread(Idle, [Set(1)]), Thread(Idle, [Set(2)])] && s0.calls == [[]];
    var (four0, four1) := ([0] + [0] + [0] + [0], [1] + [1] + [1] + [1]);
    Announce(s0, 0, 1);
    var s1 := End(s0, four0);
    Announce(s1, 1, 2);
    Append(s0, four0, four1);
    assert End(s1, four1).threads == [Thread(Between(1), []), Thread(Between(2), [])];
    assert s1.calls[0] == [Change(0, 1)] && End(s1, four1).calls[0] == [Change(0, 1), Change(0, 2)];
    schedule := four0 + four1;
  }

  /** Two writing threads can break the chain: both announce a change from 0 before either writes. */
  lemma TwoSettersBreakTheChain() returns (schedule: seq<nat>)
    ensures var start := Start(0, 1, [[Set(1)], [Set(2)]]);
            && Runs(start, schedule)
            && var s := End(start, schedule);
               && s.threads == [Thread(Idle, []), Thread(Idle, [])]
               && s.val == 2 && s.calls == [[Change(0, 1), Change(0, 2)]] && !Unbroken(s.calls[0], 0)
  {
    var s0 := Start(0, 1, [[Set(1)], [Set(2)]]);
    var both := BothAnnounce();
    var s2 := End(s0, both);
    var (three0, three1) := ([0] + [0] + [0], [1] + [1] + [1]);
    Write(s2, 0, 1);
    Append(s0, both, three0);
    var s3 := End(s2, three0);
    Write(s3, 1, 2);
    Append(s0, both + three0, three1);
    schedule := both + three0 + three1;
    var calls := End(s0, schedule).calls[0];
    assert calls[..1] == [Change(0, 1)] && calls[..1][..0] == [];
  }

  /** Two writing threads can leave a listener out of step for good: the one that announced last
      writes first. */
  lemma TwoSettersLeaveOutOfStep() returns (schedule: seq<nat>)
    ensures var start := Start(0, 1, [[Set(1)], [Set(2)]]);
            && Runs(start, schedule)
            && var s := End(start, schedule);
               && AtRest(s) && s.threads == [Thread(Idle, []), Thread(Idle, [])]
               && s.val == 1 && |s.calls| == 1 && Last(s.calls[0], 0) == 2
  {
    var s0 := Start(0, 1, [[Set(1)], [Set(2)]]);
    var both := BothAnnounce();
    var s2 := End(s0, both);
    var (three0, three1) := ([0] + [0] + [0], [1] + [1] + [1]);
    Write(s2, 1, 2);
    Append(s0, both, three1);
    var s3 := End(s2, three1);
    Write(s3, 0, 1);
    Append(s0, both + three1, three0);
    schedule := both + three1 + three0;
  }
}
