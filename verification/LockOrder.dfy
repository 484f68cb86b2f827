/** All locks of the library together: which ones each operation nests, and that any number of
    threads running any of the operations always finish (nnysl/log.cpp, nnysl/config.h,
    nnysl/config.cpp, nnysl/thread.h:31-245). */
module LockOrder {

  // ----- Locks -----

  datatype LoggerId = Root | Named(name: string)

  datatype LockId =
    | ConfigMutex
    | VarMutex(variable: string)
    | ManagerMutex
    | LoggerMutex(logger: LoggerId)
    | AppenderMutex(appender: nat)

  datatype Mode = Shared | Exclusive

  datatype Hold = Hold(lock: LockId, mode: Mode)

  const LAST_RANK := 5

  function Rank(l: LockId): (r: nat)
    ensures r <= LAST_RANK
  {
    match l
    case ConfigMutex => 0
    case VarMutex(_) => 1
    case ManagerMutex => 2
    case LoggerMutex(Named(_)) => 3
    case LoggerMutex(Root) => 4
    case AppenderMutex(_) => 5
  }

  /** `k` may be waited for while `h` is held.  A listener that runs under the read lock of its
      variable may read variables again, its own included. */
  predicate Below(h: Hold, k: Hold) {
    || Rank(h.lock) < Rank(k.lock)
    || (h.lock.VarMutex? && k.lock.VarMutex? && h.mode == Shared && k.mode == Shared)
  }

  predicate MayTake(held: seq<Hold>, k: Hold) {
    forall h :: h in held ==> Below(h, k)
  }

  predicate Conflict(h: Hold, k: Hold) {
    h.lock == k.lock && (h.mode == Exclusive || k.mode == Exclusive)
  }

  // ----- What the locks are for -----

  /** The shared state: the registry, a variable's value and its listeners, the table of loggers, a
      logger's formatter and appender list, an appender's formatter and output. */
  datatype Item =
    | Registry
    | Value(variable: string)
    | Listeners(variable: string)
    | Loggers
    | LoggerState(logger: LoggerId)
    | AppenderState(appender: nat)

  function LockOf(item: Item): LockId {
    match item
    case Registry => ConfigMutex
    case Value(v) => VarMutex(v)
    case Listeners(v) => VarMutex(v)
    case Loggers => ManagerMutex
    case LoggerState(l) => LoggerMutex(l)
    case AppenderState(a) => AppenderMutex(a)
  }

  /** The item's lock is held, and exclusively for a change. */
  predicate Covered(held: seq<Hold>, item: Item, write: bool) {
    exists h :: h in held && h.lock == LockOf(item) && (write ==> h.mode == Exclusive)
  }

  // ----- Programs: scoped guards nest -----

  datatype Prog =
    | Nop
    | Use(item: Item, write: bool)
    | Then(first: Prog, rest: Prog)
    | Guard(hold: Hold, body: Prog)

  datatype Action = Acquire(hold: Hold) | Touch(item: Item, write: bool) | Release

  function Actions(p: Prog): seq<Action> {
    match p
    case Nop => []
    case Use(item, write) => [Touch(item, write)]
    case Then(a, b) => Actions(a) + Actions(b)
    case Guard(k, body) => [Acquire(k)] + Actions(body) + [Release]
  }

  predicate Disciplined(p: Prog, held: seq<Hold>) {
    match p
    case Nop => true
    case Use(item, write) => Covered(held, item, write)
    case Then(a, b) => Disciplined(a, held) && Disciplined(b, held)
    case Guard(k, body) => MayTake(held, k) && Disciplined(body, held + [k])
  }

  // ----- Threads -----

  /** The guards of a thread are a stack; `todo` is the rest of its program. */
  datatype Thread = Thread(held: seq<Hold>, todo: seq<Action>)

  predicate WellOrdered(held: seq<Hold>, todo: seq<Action>)
    decreases |todo|
  {
    if todo == [] then held == []
    else
      match todo[0]
      case Acquire(k) => MayTake(held, k) && WellOrdered(held + [k], todo[1..])
      case Touch(item, write) => Covered(held, item, write) && WellOrdered(held, todo[1..])
      case Release => held != [] && WellOrdered(held[..|held| - 1], todo[1..])
  }

  lemma {:induction false} ActionsAreOrdered(p: Prog, held: seq<Hold>, rest: seq<Action>)
    requires Disciplined(p, held) && WellOrdered(held, rest)
    ensures WellOrdered(held, Actions(p) + rest)
  {
    match p
    case Nop =>
      assert Actions(p) + rest == rest;
    case Use(item, write) =>
      assert (Actions(p) + rest)[1..] == rest;
    case Then(a, b) =>
      ActionsAreOrdered(b, held, rest);
      ActionsAreOrdered(a, held, Actions(b) + rest);
      assert Actions(p) + rest == Actions(a) + (Actions(b) + rest);
    case Guard(k, body) =>
      var tail := [Release] + rest;
      assert tail[1..] == rest && (held + [k])[..|held|] == held;
      ActionsAreOrdered(body, held + [k], tail);
      GuardActions(k, Actions(body), rest);
  }

  lemma GuardActions(k: Hold, body: seq<Action>, rest: seq<Action>)
    ensures var all := [Acquire(k)] + body + [Release] + rest;
            all[0] == Acquire(k) && all[1..] == body + ([Release] + rest)
  {
  }

  type State = seq<Thread>

  predicate Unfinished(t: Thread) {
    t.todo != []
  }

  /** No other thread, and not the thread itself, holds `k`'s lock in a conflicting mode: locks are
      not reentrant, and a read lock is granted whenever no writer holds the lock. */
  predicate Free(s: State, k: Hold) {
    forall i :: 0 <= i < |s| ==> NoConflict(s[i].held, k)
  }

  predicate NoConflict(held: seq<Hold>, k: Hold) {
    forall h :: h in held ==> !Conflict(h, k)
  }

  predicate Enabled(s: State, i: nat) {
    && i < |s| && Unfinished(s[i])
    && match s[i].todo[0]
       case Acquire(k) => Free(s, k)
       case Touch(_, _) => true
       case Release => s[i].held != []
  }

  function After(t: Thread): Thread
    requires Unfinished(t) && (t.todo[0].Release? ==> t.held != [])
  {
    match t.todo[0]
    case Acquire(k) => Thread(t.held + [k], t.todo[1..])
    case Touch(_, _) => Thread(t.held, t.todo[1..])
    case Release => Thread(t.held[..|t.held| - 1], t.todo[1..])
  }

  function StepOf(s: State, i: nat): State
    requires Enabled(s, i)
  {
    s[i := After(s[i])]
  }

  // ----- What every step keeps -----

  predicate AllOrdered(s: State) {
    forall i :: 0 <= i < |s| ==> WellOrdered(s[i].held, s[i].todo)
  }

  /** No two threads hold one lock in conflicting modes. */
  predicate Excludes(s: State) {
    forall i, j, h :: 0 <= i < |s| && 0 <= j < |s| && i != j && h in s[i].held ==> NoConflict(s[j].held, h)
  }

  predicate Inv(s: State) {
    AllOrdered(s) && Excludes(s)
  }

  lemma StepKeepsInv(s: State, i: nat)
    requires Inv(s) && Enabled(s, i)
    ensures Inv(StepOf(s, i))
  {
    var s' := StepOf(s, i);
    assert WellOrdered(s[i].held, s[i].todo);
    assert WellOrdered(s'[i].held, s'[i].todo);
    forall a, b, h | 0 <= a < |s| && 0 <= b < |s| && a != b && h in s'[a].held
      ensures NoConflict(s'[b].held, h)
    {
      if a == i {
        if h !in s[a].held {
          assert Free(s, h);
          assert NoConflict(s[b].held, h);
        }
      } else if b == i {
        forall g | g in s'[b].held ensures !Conflict(g, h) {
          if g !in s[b].held {
            assert Free(s, g);
            assert NoConflict(s[a].held, g);
          } else {
            assert NoConflict(s[b].held, h);
          }
        }
      }
    }
  }

  // ----- Deadlock freedom -----

  /** Grows along every chain of threads that wait for one another. */
  function Height(k: Hold): nat {
    2 * Rank(k.lock) + if k.mode == Shared then 1 else 0
  }

  lemma WaitsHigher(h: Hold, k: Hold, wanted: Hold)
    requires Conflict(h, wanted) && Below(h, k)
    ensures Height(wanted) < Height(k)
  {
  }

  lemma {:induction false} FindEnabled(s: State, t: nat) returns (i: nat)
    requires Inv(s) && t < |s| && Unfinished(s[t])
    ensures Enabled(s, i)
    decreases if !s[t].todo[0].Acquire? then 0 else 2 * LAST_RANK + 2 - Height(s[t].todo[0].hold)
  {
    i := t;
    if !Enabled(s, t) {
      assert WellOrdered(s[t].held, s[t].todo);
      var wanted := s[t].todo[0].hold;
      var j :| 0 <= j < |s| && !NoConflict(s[j].held, wanted);
      var h :| h in s[j].held && Conflict(h, wanted);
      assert WellOrdered(s[j].held, s[j].todo);
      if s[j].todo[0].Acquire? {
        WaitsHigher(h, s[j].todo[0].hold, wanted);
      }
      i := FindEnabled(s, j);
    }
  }

  // ----- Whole runs -----

  function Remaining(s: State): nat {
    if s == [] then 0 else Remaining(s[..|s| - 1]) + |s[|s| - 1].todo|
  }

  lemma {:induction false} StepShrinks(s: State, i: nat, t: Thread)
    requires i < |s| && |t.todo| + 1 == |s[i].todo|
    ensures Remaining(s[i := t]) + 1 == Remaining(s)
  {
    var n := |s| - 1;
    var s' := s[i := t];
    if i < n {
      StepShrinks(s[..n], i, t);
      assert s'[..n] == s[..n][i := t];
    } else {
      assert s'[..n] == s[..n];
    }
  }

  /** A schedule says which thread steps next. */
  predicate Runs(s: State, schedule: seq<nat>)
    decreases |schedule|
  {
    schedule == [] || (Enabled(s, schedule[0]) && Runs(StepOf(s, schedule[0]), schedule[1..]))
  }

  function End(s: State, schedule: seq<nat>): State
    requires Runs(s, schedule)
    decreases |schedule|
  {
    if schedule == [] then s else End(StepOf(s, schedule[0]), schedule[1..])
  }

  lemma {:induction false} RunKeepsInv(s: State, schedule: seq<nat>)
    requires Inv(s) && Runs(s, schedule)
    ensures Inv(End(s, schedule))
    ensures Remaining(End(s, schedule)) + |schedule| == Remaining(s)
    decreases |schedule|
  {
    if schedule != [] {
      StepKeepsInv(s, schedule[0]);
      StepShrinks(s, schedule[0], After(s[schedule[0]]));
      RunKeepsInv(StepOf(s, schedule[0]), schedule[1..]);
    }
  }

  predicate Finished(s: State) {
    forall i :: 0 <= i < |s| ==> s[i] == Thread([], [])
  }

  // ----- The operations -----

  function X(l: LockId): Hold {
    Hold(l, Exclusive)
  }

  function S(l: LockId): Hold {
    Hold(l, Shared)
  }

  /** One access under the item's lock; only the registry and the variables have reader locks. */
  function Access(item: Item, write: bool): Prog {
    var shared := !write && (item.Registry? || item.Value? || item.Listeners?);
    Guard(Hold(LockOf(item), if shared then Shared else Exclusive), Use(item, write))
  }

  /** An event on its way: whether it reaches each level on the way, and the appenders it meets. */
  datatype Logging = Logging(to: LoggerId, passes: bool, own: seq<Entry>, passesRoot: bool, roots: seq<Entry>)

  datatype Entry = Entry(appender: nat, accepts: bool)

  function Writes(s: seq<Entry>): Prog {
    if s == [] then Nop
    else Then(if s[0].accepts then Access(AppenderState(s[0].appender), true) else Nop, Writes(s[1..]))
  }

  /** nnysl/log.cpp:107-121, 299-328: the level is checked before the lock; root has no root. */
  function LogProg(e: Logging): Prog {
    if !e.passes then Nop
    else
      Guard(X(LoggerMutex(e.to)),
            Then(Use(LoggerState(e.to), false),
                 if e.own != [] then Writes(e.own)
                 else if e.to != Root && e.passesRoot
                 then Guard(X(LoggerMutex(Root)), Then(Use(LoggerState(Root), false), Writes(e.roots)))
                 else Nop))
  }

  /** One appender lock after the other. */
  function Each(appenders: seq<nat>, write: bool): Prog {
    if appenders == [] then Nop
    else Then(Access(AppenderState(appenders[0]), write), Each(appenders[1..], write))
  }

  function AddAppenderProg(l: LoggerId, a: nat, hasFormatter: bool): Prog {
    Guard(X(LoggerMutex(l)),
          Then(Access(AppenderState(a), false),
               Then(if hasFormatter then Nop else Access(AppenderState(a), true), Use(LoggerState(l), true))))
  }

  function LoggerProg(l: LoggerId, appenders: seq<nat>, write: bool): Prog {
    Guard(X(LoggerMutex(l)), Then(Use(LoggerState(l), write), Each(appenders, write)))
  }

  function LoggersProg(s: seq<(LoggerId, seq<nat>)>): Prog {
    if s == [] then Nop else Then(LoggerProg(s[0].0, s[0].1, false), LoggersProg(s[1..]))
  }

  /** What a user callback may do: log through a logger it holds or fetches by name, or show a variable. */
  datatype Reading =
    | Logs(event: Logging)
    | LogsByName(event: Logging)
    | Shows(variable: string, failure: seq<Logging>)

  function LogsProg(s: seq<Logging>): Prog {
    if s == [] then Nop else Then(LogProg(s[0]), LogsProg(s[1..]))
  }

  /** `toString` reports a failed conversion after it has let go of the variable. */
  function ReadingProg(r: Reading): Prog {
    match r
    case Logs(e) => LogProg(e)
    case LogsByName(e) => Then(Access(Loggers, true), LogProg(e))
    case Shows(v, failure) => Then(Access(Value(v), false), LogsProg(failure))
  }

  function CallbackProg(s: seq<Reading>): Prog {
    if s == [] then Nop else Then(ReadingProg(s[0]), CallbackProg(s[1..]))
  }

  /** An appender of a definition: a usable formatter is set before it is added. */
  datatype Attached = Attached(appender: nat, ownFormatter: bool)

  datatype Rebuilt = Rebuilt(logger: LoggerId, setFormatter: bool, before: seq<nat>, attached: seq<Attached>)

  function AttachProg(l: LoggerId, s: seq<Attached>): Prog {
    if s == [] then Nop
    else
      var a := s[0];
      Then(Then(if a.ownFormatter then Access(AppenderState(a.appender), true) else Nop,
                AddAppenderProg(l, a.appender, a.ownFormatter)),
           AttachProg(l, s[1..]))
  }

  /** `getLogger`, then the changes to that logger; `setLevel` and `clearAppenders` take no lock. */
  function RebuildProg(r: Rebuilt): Prog {
    Then(Access(Loggers, true),
         Then(if r.setFormatter then LoggerProg(r.logger, r.before, true) else Nop, AttachProg(r.logger, r.attached)))
  }

  function RebuildsProg(s: seq<Rebuilt>): Prog {
    if s == [] then Nop else Then(RebuildProg(s[0]), RebuildsProg(s[1..]))
  }

  function MutesProg(n: nat): Prog {
    if n == 0 then Nop else Then(Access(Loggers, true), MutesProg(n - 1))
  }

  datatype Listener = User(body: seq<Reading>) | LogDefines(report: Logging, rebuilt: seq<Rebuilt>, muted: nat)

  function ListenerProg(c: Listener): Prog {
    match c
    case User(body) => CallbackProg(body)
    case LogDefines(report, rebuilt, muted) => Then(LogProg(report), Then(RebuildsProg(rebuilt), MutesProg(muted)))
  }

  function ListenersProg(s: seq<Listener>): Prog {
    if s == [] then Nop else Then(ListenerProg(s[0]), ListenersProg(s[1..]))
  }

  /** How `setValue` goes: the value is equal, a listener throws after those listed ran, or it is set. */
  datatype Setting = Equal | Throws(ran: seq<Listener>) | Sets(ran: seq<Listener>)

  /** The value is compared and the listeners called under the read lock; it is written under the
      write lock. */
  function SetValueProg(v: string, how: Setting): Prog {
    match how
    case Equal => Access(Value(v), false)
    case Throws(ran) => CallingProg(v, ran)
    case Sets(ran) => Then(CallingProg(v, ran), Access(Value(v), true))
  }

  function CallingProg(v: string, ran: seq<Listener>): Prog {
    Guard(S(VarMutex(v)), Then(Use(Value(v), false), Then(Use(Listeners(v), false), ListenersProg(ran))))
  }

  datatype Lookup =
    | Found(report: Logging)
    | Mismatch(shown: Reading, report: Logging)
    | Invalid(report: Logging)
    | Created

  datatype Operation =
    | Log(event: Logging)
    | GetLogger
    | AddAppender(logger: LoggerId, appender: nat, hasFormatter: bool)
    | DelAppender(logger: LoggerId)
    | SetLoggerFormatter(logger: LoggerId, appenders: seq<nat>)
    | GetLoggerFormatter(logger: LoggerId)
    | AppenderAccess(appender: nat, write: bool)
    | LoggerToYaml(logger: LoggerId, appenders: seq<nat>)
    | ManagerToYaml(loggers: seq<(LoggerId, seq<nat>)>)
    | LookupOrCreate(how: Lookup)
    | LookupTyped
    | Visit(callbacks: seq<Reading>)
    | Read(reading: Reading)
    | SetValue(variable: string, setting: Setting)
    | FromString(variable: string, attempt: seq<Setting>, report: seq<Logging>)
    | ChangeListeners(variable: string)

  function OperationProg(op: Operation): Prog {
    match op
    case Log(e) => LogProg(e)
    case GetLogger => Access(Loggers, true)
    case AddAppender(l, a, has) => AddAppenderProg(l, a, has)
    case DelAppender(l) => Access(LoggerState(l), true)
    case SetLoggerFormatter(l, s) => LoggerProg(l, s, true)
    case GetLoggerFormatter(l) => Access(LoggerState(l), false)
    case AppenderAccess(a, write) => Access(AppenderState(a), write)
    case LoggerToYaml(l, s) => LoggerProg(l, s, false)
    case ManagerToYaml(s) => Guard(X(ManagerMutex), Then(Use(Loggers, false), LoggersProg(s)))
    case LookupOrCreate(how) =>
      Guard(X(ConfigMutex),
            Then(Use(Registry, false),
                 match how
                 case Found(e) => LogProg(e)
                 case Mismatch(r, e) => Then(ReadingProg(r), LogProg(e))
                 case Invalid(e) => LogProg(e)
                 case Created => Use(Registry, true)))
    case LookupTyped => Access(Registry, false)
    case Visit(s) => Guard(S(ConfigMutex), Then(Use(Registry, false), CallbackProg(s)))
    case Read(r) => ReadingProg(r)
    case SetValue(v, how) => SetValueProg(v, how)
    // a failed conversion makes no attempt; it and a listener that throws are reported
    case FromString(v, attempt, report) =>
      Then(if attempt == [] then Nop else SetValueProg(v, attempt[0]), LogsProg(report))
    case ChangeListeners(v) => Access(Listeners(v), true)
  }

  // ----- Every operation keeps the order -----

  predicate RanksBelow(held: seq<Hold>, r: nat) {
    forall h :: h in held ==> Rank(h.lock) < r
  }

  lemma HeldCovers(held: seq<Hold>, k: Hold, item: Item, write: bool)
    requires k.lock == LockOf(item) && (write ==> k.mode == Exclusive)
    ensures Covered(held + [k], item, write)
  {
    assert (held + [k])[|held|] == k;
  }

  lemma AccessDisciplined(item: Item, write: bool, held: seq<Hold>)
    requires RanksBelow(held, Rank(LockOf(item))) || (MayRead(held) && item.Value? && !write)
    ensures Disciplined(Access(item, write), held)
  {
    var k := Access(item, write).hold;
    HeldCovers(held, k, item, write);
  }

  lemma {:induction false} WritesDisciplined(s: seq<Entry>, held: seq<Hold>)
    requires RanksBelow(held, 5)
    ensures Disciplined(Writes(s), held)
  {
    if s != [] {
      AccessDisciplined(AppenderState(s[0].appender), true, held);
      WritesDisciplined(s[1..], held);
    }
  }

  lemma {:induction false} EachDisciplined(s: seq<nat>, write: bool, held: seq<Hold>)
    requires RanksBelow(held, 5)
    ensures Disciplined(Each(s, write), held)
  {
    if s != [] {
      AccessDisciplined(AppenderState(s[0]), write, held);
      EachDisciplined(s[1..], write, held);
    }
  }

  lemma LogDisciplined(e: Logging, held: seq<Hold>)
    requires RanksBelow(held, 3)
    ensures Disciplined(LogProg(e), held)
  {
    var k, r := X(LoggerMutex(e.to)), X(LoggerMutex(Root));
    HeldCovers(held, k, LoggerState(e.to), false);
    HeldCovers(held + [k], r, LoggerState(Root), false);
    WritesDisciplined(e.own, held + [k]);
    WritesDisciplined(e.roots, held + [k] + [r]);
    var handOff := Then(Use(LoggerState(Root), false), Writes(e.roots));
    assert Disciplined(handOff, held + [k] + [r]);
    assert e.to != Root ==> Disciplined(Guard(r, handOff), held + [k]);
  }

  lemma {:induction false} LogsDisciplined(s: seq<Logging>, held: seq<Hold>)
    requires RanksBelow(held, 3)
    ensures Disciplined(LogsProg(s), held)
  {
    if s != [] {
      LogDisciplined(s[0], held);
      LogsDisciplined(s[1..], held);
    }
  }

  lemma LoggerDisciplined(l: LoggerId, s: seq<nat>, write: bool, held: seq<Hold>)
    requires RanksBelow(held, 3)
    ensures Disciplined(LoggerProg(l, s, write), held)
  {
    HeldCovers(held, X(LoggerMutex(l)), LoggerState(l), write);
    EachDisciplined(s, write, held + [X(LoggerMutex(l))]);
  }

  lemma {:induction false} LoggersDisciplined(s: seq<(LoggerId, seq<nat>)>, held: seq<Hold>)
    requires RanksBelow(held, 3)
    ensures Disciplined(LoggersProg(s), held)
  {
    if s != [] {
      LoggerDisciplined(s[0].0, s[0].1, false, held);
      LoggersDisciplined(s[1..], held);
    }
  }

  /** Where a callback runs: below the variables, or under read locks of variables only. */
  predicate MayRead(held: seq<Hold>) {
    forall h :: h in held ==> Rank(h.lock) < 1 || (h.lock.VarMutex? && h.mode == Shared)
  }

  lemma ReadingDisciplined(r: Reading, held: seq<Hold>)
    requires MayRead(held)
    ensures Disciplined(ReadingProg(r), held)
  {
    match r
    case Logs(e) => LogDisciplined(e, held);
    case LogsByName(e) => AccessDisciplined(Loggers, true, held); LogDisciplined(e, held);
    case Shows(v, failure) => AccessDisciplined(Value(v), false, held); LogsDisciplined(failure, held);
  }

  lemma {:induction false} CallbackDisciplined(s: seq<Reading>, held: seq<Hold>)
    requires MayRead(held)
    ensures Disciplined(CallbackProg(s), held)
  {
    if s != [] {
      ReadingDisciplined(s[0], held);
      CallbackDisciplined(s[1..], held);
    }
  }

  lemma AddAppenderDisciplined(l: LoggerId, a: nat, hasFormatter: bool, held: seq<Hold>)
    requires RanksBelow(held, 3)
    ensures Disciplined(AddAppenderProg(l, a, hasFormatter), held)
  {
    var inner := held + [X(LoggerMutex(l))];
    AccessDisciplined(AppenderState(a), false, inner);
    AccessDisciplined(AppenderState(a), true, inner);
    HeldCovers(held, X(LoggerMutex(l)), LoggerState(l), true);
    var own := if hasFormatter then Nop else Access(AppenderState(a), true);
    assert Disciplined(own, inner) && Disciplined(Then(own, Use(LoggerState(l), true)), inner);
  }

  lemma {:induction false} AttachDisciplined(l: LoggerId, s: seq<Attached>, held: seq<Hold>)
    requires RanksBelow(held, 3)
    ensures Disciplined(AttachProg(l, s), held)
  {
    if s != [] {
      var a := s[0];
      var own := if a.ownFormatter then Access(AppenderState(a.appender), true) else Nop;
      AccessDisciplined(AppenderState(a.appender), true, held);
      AddAppenderDisciplined(l, a.appender, a.ownFormatter, held);
      assert Disciplined(own, held);
      assert Disciplined(Then(own, AddAppenderProg(l, a.appender, a.ownFormatter)), held);
      AttachDisciplined(l, s[1..], held);
    }
  }

  lemma RebuildDisciplined(r: Rebuilt, held: seq<Hold>)
    requires RanksBelow(held, 2)
    ensures Disciplined(RebuildProg(r), held)
  {
    AccessDisciplined(Loggers, true, held);
    LoggerDisciplined(r.logger, r.before, true, held);
    AttachDisciplined(r.logger, r.attached, held);
    var change := if r.setFormatter then LoggerProg(r.logger, r.before, true) else Nop;
    assert Disciplined(change, held);
    assert Disciplined(Then(change, AttachProg(r.logger, r.attached)), held);
  }

  lemma {:induction false} RebuildsDisciplined(s: seq<Rebuilt>, held: seq<Hold>)
    requires RanksBelow(held, 2)
    ensures Disciplined(RebuildsProg(s), held)
  {
    if s != [] {
      RebuildDisciplined(s[0], held);
      RebuildsDisciplined(s[1..], held);
    }
  }

  lemma {:induction false} MutesDisciplined(n: nat, held: seq<Hold>)
    requires RanksBelow(held, 2)
    ensures Disciplined(MutesProg(n), held)
  {
    if n > 0 {
      AccessDisciplined(Loggers, true, held);
      MutesDisciplined(n - 1, held);
    }
  }

  lemma {:induction false} ListenersDisciplined(s: seq<Listener>, held: seq<Hold>)
    requires MayRead(held)
    ensures Disciplined(ListenersProg(s), held)
  {
    if s != [] {
      match s[0] {
        case User(body) => CallbackDisciplined(body, held);
        case LogDefines(report, rebuilt, muted) =>
          LogDisciplined(report, held);
          RebuildsDisciplined(rebuilt, held);
          MutesDisciplined(muted, held);
      }
      ListenersDisciplined(s[1..], held);
    }
  }

  lemma CallingDisciplined(v: string, ran: seq<Listener>)
    ensures Disciplined(CallingProg(v, ran), [])
  {
    HeldCovers([], S(VarMutex(v)), Value(v), false);
    HeldCovers([], S(VarMutex(v)), Listeners(v), false);
    ListenersDisciplined(ran, [] + [S(VarMutex(v))]);
    assert Disciplined(Then(Use(Listeners(v), false), ListenersProg(ran)), [] + [S(VarMutex(v))]);
  }

  lemma SetValueDisciplined(v: string, how: Setting)
    ensures Disciplined(SetValueProg(v, how), [])
  {
    AccessDisciplined(Value(v), false, []);
    AccessDisciplined(Value(v), true, []);
    if !how.Equal? {
      CallingDisciplined(v, how.ran);
    }
  }

  lemma LookupDisciplined(how: Lookup)
    ensures Disciplined(OperationProg(LookupOrCreate(how)), [])
  {
    var held := [] + [X(ConfigMutex)];
    HeldCovers([], X(ConfigMutex), Registry, false);
    HeldCovers([], X(ConfigMutex), Registry, true);
    match how
    case Found(e) => LogDisciplined(e, held);
    case Mismatch(r, e) => ReadingDisciplined(r, held); LogDisciplined(e, held);
    case Invalid(e) => LogDisciplined(e, held);
    case Created =>
  }

  /** The lock order of the whole library, operation by operation. */
  lemma OperationDisciplined(op: Operation)
    ensures Disciplined(OperationProg(op), [])
  {
    match op
    case Log(e) => LogDisciplined(e, []);
    case GetLogger => AccessDisciplined(Loggers, true, []);
    case AddAppender(l, a, has) => AddAppenderDisciplined(l, a, has, []);
    case DelAppender(l) => AccessDisciplined(LoggerState(l), true, []);
    case SetLoggerFormatter(l, s) => LoggerDisciplined(l, s, true, []);
    case GetLoggerFormatter(l) => AccessDisciplined(LoggerState(l), false, []);
    case AppenderAccess(a, write) => AccessDisciplined(AppenderState(a), write, []);
    case LoggerToYaml(l, s) => LoggerDisciplined(l, s, false, []);
    case ManagerToYaml(s) =>
      HeldCovers([], X(ManagerMutex), Loggers, false);
      LoggersDisciplined(s, [] + [X(ManagerMutex)]);
    case LookupOrCreate(how) => LookupDisciplined(how);
    case LookupTyped => AccessDisciplined(Registry, false, []);
    case Visit(s) =>
      HeldCovers([], S(ConfigMutex), Registry, false);
      CallbackDisciplined(s, [] + [S(ConfigMutex)]);
    case Read(r) => ReadingDisciplined(r, []);
    case SetValue(v, how) => SetValueDisciplined(v, how);
    case FromString(v, attempt, report) => FromStringDisciplined(v, attempt, report);
    case ChangeListeners(v) => AccessDisciplined(Listeners(v), true, []);
  }

  lemma FromStringDisciplined(v: string, attempt: seq<Setting>, report: seq<Logging>)
    ensures Disciplined(OperationProg(FromString(v, attempt, report)), [])
  {
    if attempt != [] {
      SetValueDisciplined(v, attempt[0]);
    }
    LogsDisciplined(report, []);
  }

  // ----- Threads that run operations -----

  function ThreadProg(ops: seq<Operation>): Prog {
    if ops == [] then Nop else Then(OperationProg(ops[0]), ThreadProg(ops[1..]))
  }

  function Start(work: seq<seq<Operation>>): State {
    seq(|work|, i requires 0 <= i < |work| => Thread([], Actions(ThreadProg(work[i]))))
  }

  lemma {:induction false} ThreadDisciplined(ops: seq<Operation>)
    ensures Disciplined(ThreadProg(ops), [])
  {
    if ops != [] {
      OperationDisciplined(ops[0]);
      ThreadDisciplined(ops[1..]);
    }
  }

  lemma StartInv(work: seq<seq<Operation>>)
    ensures Inv(Start(work))
  {
    forall i | 0 <= i < |work| ensures WellOrdered(Start(work)[i].held, Start(work)[i].todo) {
      ThreadDisciplined(work[i]);
      ActionsAreOrdered(ThreadProg(work[i]), [], []);
      assert Actions(ThreadProg(work[i])) + [] == Actions(ThreadProg(work[i]));
    }
  }

  /** Safety: whatever the threads do, in every state they reach no two of them hold one lock in
      conflicting modes. */
  lemma MutualExclusion(work: seq<seq<Operation>>, schedule: seq<nat>)
    requires Runs(Start(work), schedule)
    ensures Excludes(End(Start(work), schedule))
  {
    StartInv(work);
    RunKeepsInv(Start(work), schedule);
  }

  /** No races: whatever the threads do, no two of them are ever about to use one item at the same
      time with one of them changing it. */
  lemma NoRaces(work: seq<seq<Operation>>, schedule: seq<nat>, i: nat, j: nat, item: Item)
    requires Runs(Start(work), schedule)
    requires var s := End(Start(work), schedule);
             && i < |s| && j < |s| && i != j && Unfinished(s[i]) && Unfinished(s[j])
             && s[i].todo[0].Touch? && s[i].todo[0].item == item && s[j].todo[0].Touch? && s[j].todo[0].item == item
    ensures var s := End(Start(work), schedule); !s[i].todo[0].write && !s[j].todo[0].write
  {
    StartInv(work);
    RunKeepsInv(Start(work), schedule);
    var s := End(Start(work), schedule);
    assert WellOrdered(s[i].held, s[i].todo) && WellOrdered(s[j].held, s[j].todo);
    var h :| h in s[i].held && h.lock == LockOf(item) && (s[i].todo[0].write ==> h.mode == Exclusive);
    var g :| g in s[j].held && g.lock == LockOf(item) && (s[j].todo[0].write ==> g.mode == Exclusive);
    assert NoConflict(s[j].held, h);
    assert !Conflict(g, h);
  }

  /** Deadlock freedom: in every state that any number of threads reach by running any operations
      in any interleaving, some thread can step unless all have finished. */
  lemma DeadlockFree(work: seq<seq<Operation>>, schedule: seq<nat>)
    requires Runs(Start(work), schedule)
    ensures var s := End(Start(work), schedule);
            Finished(s) || exists i :: Enabled(s, i)
  {
    StartInv(work);
    RunKeepsInv(Start(work), schedule);
    var s := End(Start(work), schedule);
    if !Finished(s) {
      var t :| 0 <= t < |s| && s[t] != Thread([], []);
      assert WellOrdered(s[t].held, s[t].todo);
      var i := FindEnabled(s, t);
    }
  }

  /** Every run ends: a schedule is never longer than the threads' programs, and one that cannot be
      continued has finished them all. */
  lemma EveryRunEnds(work: seq<seq<Operation>>, schedule: seq<nat>)
    requires Runs(Start(work), schedule)
    ensures |schedule| <= Remaining(Start(work))
    ensures (forall i :: !Enabled(End(Start(work), schedule), i)) ==> Finished(End(Start(work), schedule))
  {
    StartInv(work);
    RunKeepsInv(Start(work), schedule);
    DeadlockFree(work, schedule);
  }

  // ----- Why the rules are needed -----

  /** A hand-off from root to itself, or a listener that writes its own variable, would wait for
      a lock its own thread holds, for ever. */
  lemma SelfDeadlock(h: Hold, k: Hold)
    requires Conflict(h, k)
    ensures var s := [Thread([h], [Acquire(k), Release, Release])];
            !MayTake([h], k) && !exists i :: Enabled(s, i)
  {
    var s := [Thread([h], [Acquire(k), Release, Release])];
    assert h in [h] && !Below(h, k);
    assert s[0].held == [h] && s[0].todo[0] == Acquire(k) && !NoConflict(s[0].held, k);
    forall i: nat ensures !Enabled(s, i) {
    }
  }
}
