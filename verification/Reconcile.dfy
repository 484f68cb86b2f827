/** The log configuration as values: what the change listener (nnysl/log.cpp:784-833) makes of the
    loggers, and what holds after any run of configuration changes and `getLogger` calls. */
module Reconcile {
  import opened Pattern
  import opened PatternLaws
  import opened PatternOutput
  import opened DefaultPattern
  import opened Wrappers

  // ----- Definitions (nnysl/log.cpp:552-589) -----

  const UNKNOW := 0
  const DEBUG := 1
  const INFO := 2
  const MUTED := 100

  /** kind: 1 is a file appender, 2 standard output */
  datatype AppenderDefine = AppenderDefine(kind: int, level: int, formatter: string, file: string)

  datatype LogDefine = LogDefine(name: string, level: int, formatter: string, appenders: seq<AppenderDefine>)

  /** `std::set<LogDefine>`: ordered and deduplicated by name only, compared by every field. */
  type DefineSet = v: map<string, LogDefine> | forall n :: n in v ==> v[n].name == n

  /** An appender of any other kind would be a null pointer in the listener. */
  predicate WellTyped(d: LogDefine) {
    forall k :: 0 <= k < |d.appenders| ==> d.appenders[k].kind == 1 || d.appenders[k].kind == 2
  }

  predicate AllWellTyped(v: DefineSet) {
    forall n :: n in v ==> WellTyped(v[n])
  }

  // ----- What can be observed of a logger -----

  datatype AppenderKind = FileAppender(file: string) | StdoutAppender

  /** `own` is the appender's own formatter; without one it uses its logger's. */
  datatype AppenderView = AppenderView(kind: AppenderKind, level: int, own: Option<string>)

  datatype LogView = LogView(level: int, formatter: string, appenders: seq<AppenderView>)

  /** A formatter string is taken over when it is non-empty and compiles without error. */
  predicate Usable(f: string) {
    f != "" && Compiles(f)
  }

  function DefinedAppender(a: AppenderDefine): AppenderView {
    AppenderView(if a.kind == 1 then FileAppender(a.file) else StdoutAppender,
                 a.level, if Usable(a.formatter) then Some(a.formatter) else None)
  }

  function DefinedAppenders(s: seq<AppenderDefine>): (r: seq<AppenderView>)
    ensures |r| == |s| && forall k :: 0 <= k < |s| ==> r[k] == DefinedAppender(s[k])
  {
    seq(|s|, k requires 0 <= k < |s| => DefinedAppender(s[k]))
  }

  /** A logger whose formatter was `f`, after the listener has applied `d` to it. */
  function Configured(f: string, d: LogDefine): LogView {
    LogView(d.level, if Usable(d.formatter) then d.formatter else f, DefinedAppenders(d.appenders))
  }

  function Muted(f: string): LogView {
    LogView(MUTED, f, [])
  }

  const FRESH: LogView := LogView(DEBUG, DEFAULT_PATTERN, [])

  const FRESH_ROOT: LogView := FRESH.(appenders := [AppenderView(StdoutAppender, DEBUG, None)])

  // ----- What a logger that looks like this writes (nnysl/log.cpp:107-121, 299-328) -----

  datatype Line = Line(kind: AppenderKind, text: string)

  /** An event carries the logger it was made for (nnysl/log.h:21-25, nnysl/log.cpp:468-470). */
  function From(name: string, ev: Event): Event {
    ev.(loggerName := name)
  }

  function LineOf(a: AppenderView, f: string, level: int, ev: Event): Line {
    Line(a.kind, Render(Compile(if a.own.Some? then a.own.value else f), level, ev))
  }

  /** One line of each appender whose level the event reaches, in order. */
  function LinesOf(s: seq<AppenderView>, f: string, level: int, ev: Event): seq<Line> {
    if s == [] then []
    else
      var a := s[|s| - 1];
      LinesOf(s[..|s| - 1], f, level, ev) + if level >= a.level then [LineOf(a, f, level, ev)] else []
  }

  function Lines(v: LogView, root: LogView, level: int, ev: Event): seq<Line> {
    if level < v.level then []
    else if v.appenders != [] then LinesOf(v.appenders, v.formatter, level, ev)
    else if level < root.level then []
    else LinesOf(root.appenders, root.formatter, level, ev)
  }

  // ----- One configuration change -----

  type Views = map<string, LogView>

  function Get(m: Views, n: string): LogView {
    if n in m then m[n] else FRESH
  }

  /** The definitions the listener applies: new or changed ones. */
  predicate Changed(old': DefineSet, new': DefineSet, n: string) {
    n in new' && (n in old' ==> old'[n] != new'[n])
  }

  predicate Dropped(old': DefineSet, new': DefineSet, n: string) {
    n in old' && n !in new'
  }

  function Reconciled(m: Views, old': DefineSet, new': DefineSet, n: string): LogView {
    if Changed(old', new', n) then Configured(Get(m, n).formatter, new'[n])
    else if Dropped(old', new', n) then Muted(Get(m, n).formatter)
    else Get(m, n)
  }

  /** The views once the listener is through with the names in `done`. */
  function ReconcileSome(m: Views, old': DefineSet, new': DefineSet, done: set<string>): (r: Views)
  {
    var touched := set n | n in done && (Changed(old', new', n) || Dropped(old', new', n));
    map n | n in m.Keys + touched :: if n in done then Reconciled(m, old', new', n) else Get(m, n)
  }

  function ReconcileAll(m: Views, old': DefineSet, new': DefineSet): Views {
    ReconcileSome(m, old', new', new'.Keys + old'.Keys)
  }

  lemma ReconcileNone(m: Views, old': DefineSet, new': DefineSet)
    ensures ReconcileSome(m, old', new', {}) == m
  {
  }

  lemma ReconcileOne(m: Views, old': DefineSet, new': DefineSet, done: set<string>, n: string)
    requires n !in done
    ensures ReconcileSome(m, old', new', done + {n}) ==
            if Changed(old', new', n) || Dropped(old', new', n)
            then ReconcileSome(m, old', new', done)[n := Reconciled(m, old', new', n)]
            else ReconcileSome(m, old', new', done)
    ensures Get(ReconcileSome(m, old', new', done), n) == Get(m, n)
  {
  }

  // ----- The same change as the two loops make it -----

  ghost function Elements(q: seq<string>, k: nat): set<string>
    requires k <= |q|
  {
    if k == 0 then {} else Elements(q, k - 1) + {q[k - 1]}
  }

  ghost predicate Distinct(q: seq<string>, k: nat)
    requires k <= |q|
  {
    k == 0 || (Distinct(q, k - 1) && q[k - 1] !in Elements(q, k - 1))
  }

  lemma {:induction false} ElementsOfPrefix(q: seq<string>, r: seq<string>, k: nat)
    requires k <= |q| && k <= |r| && q[..k] == r[..k]
    ensures Elements(q, k) == Elements(r, k) && (Distinct(q, k) <==> Distinct(r, k))
  {
    if k > 0 {
      assert q[..k][..k - 1] == q[..k - 1] && r[..k][..k - 1] == r[..k - 1] && q[..k][k - 1] == r[..k][k - 1];
      ElementsOfPrefix(q, r, k - 1);
    }
  }

  lemma {:induction false} ElementAmong(q: seq<string>, k: nat, j: nat)
    requires j < k <= |q|
    ensures q[j] in Elements(q, k)
  {
    if j < k - 1 {
      ElementAmong(q, k - 1, j);
    }
  }

  /** The elements of a set in some order: nothing here depends on which. */
  method Listed(s: set<string>) returns (q: seq<string>)
    ensures Elements(q, |q|) == s && Distinct(q, |q|)
  {
    q := [];
    var todo := s;
    while todo != {}
      invariant Elements(q, |q|) == s - todo && Distinct(q, |q|) && todo <= s
      decreases todo
    {
      var n :| n in todo;
      ElementsOfPrefix(q + [n], q, |q|);
      q := q + [n];
      todo := todo - {n};
    }
  }

  function ApplyOne(m: Views, old': DefineSet, new': DefineSet, n: string): Views {
    if Changed(old', new', n) then m[n := Configured(Get(m, n).formatter, new'[n])] else m
  }

  function MuteOne(m: Views, new': DefineSet, n: string): Views {
    if n !in new' then m[n := Muted(Get(m, n).formatter)] else m
  }

  /** The first loop after `k` of its steps: what is new or changed is applied. */
  function Applying(m: Views, old': DefineSet, new': DefineSet, q: seq<string>, k: nat): Views
    requires k <= |q|
  {
    if k == 0 then m else ApplyOne(Applying(m, old', new', q, k - 1), old', new', q[k - 1])
  }

  /** The second loop after `k` of its steps: what is dropped is muted. */
  function Muting(m: Views, new': DefineSet, q: seq<string>, k: nat): Views
    requires k <= |q|
  {
    if k == 0 then m else MuteOne(Muting(m, new', q, k - 1), new', q[k - 1])
  }

  lemma {:induction false} ApplyingReconciles(m: Views, old': DefineSet, new': DefineSet, q: seq<string>, k: nat)
    requires k <= |q| && Distinct(q, k) && Elements(q, k) <= new'.Keys
    ensures Applying(m, old', new', q, k) == ReconcileSome(m, old', new', Elements(q, k))
  {
    if k == 0 {
      ReconcileNone(m, old', new');
    } else {
      ApplyingReconciles(m, old', new', q, k - 1);
      ReconcileOne(m, old', new', Elements(q, k - 1), q[k - 1]);
    }
  }

  lemma MuteOneReconciles(m: Views, old': DefineSet, new': DefineSet, done: set<string>, n: string)
    requires n in old' && n !in done
    ensures MuteOne(ReconcileSome(m, old', new', new'.Keys + done), new', n) ==
            ReconcileSome(m, old', new', new'.Keys + (done + {n}))
  {
    assert new'.Keys + (done + {n}) == new'.Keys + done + {n};
    if n in new' {
      assert new'.Keys + done + {n} == new'.Keys + done;
    } else {
      ReconcileOne(m, old', new', new'.Keys + done, n);
    }
  }

  lemma {:induction false} MutingReconciles(m: Views, old': DefineSet, new': DefineSet, q: seq<string>, k: nat)
    requires k <= |q| && Distinct(q, k) && Elements(q, k) <= old'.Keys
    ensures Muting(ReconcileSome(m, old', new', new'.Keys), new', q, k) ==
            ReconcileSome(m, old', new', new'.Keys + Elements(q, k))
  {
    if k == 0 {
      assert new'.Keys + {} == new'.Keys;
    } else {
      MutingReconciles(m, old', new', q, k - 1);
      MuteOneReconciles(m, old', new', Elements(q, k - 1), q[k - 1]);
    }
  }

  lemma AppliedAll(m: Views, old': DefineSet, new': DefineSet, wanted: seq<string>)
    requires Distinct(wanted, |wanted|) && Elements(wanted, |wanted|) == new'.Keys
    ensures Applying(m, old', new', wanted, |wanted|) == ReconcileSome(m, old', new', new'.Keys)
  {
    ApplyingReconciles(m, old', new', wanted, |wanted|);
  }

  lemma MutedAll(m: Views, old': DefineSet, new': DefineSet, known: seq<string>)
    requires Distinct(known, |known|) && Elements(known, |known|) == old'.Keys
    ensures Muting(ReconcileSome(m, old', new', new'.Keys), new', known, |known|) == ReconcileAll(m, old', new')
  {
    MutingReconciles(m, old', new', known, |known|);
  }

  /** The two loops, in whatever order they visit the names, make the change. */
  lemma LoopsReconcile(m: Views, old': DefineSet, new': DefineSet, wanted: seq<string>, known: seq<string>)
    requires Distinct(wanted, |wanted|) && Elements(wanted, |wanted|) == new'.Keys
    requires Distinct(known, |known|) && Elements(known, |known|) == old'.Keys
    ensures Muting(Applying(m, old', new', wanted, |wanted|), new', known, |known|) == ReconcileAll(m, old', new')
  {
    AppliedAll(m, old', new', wanted);
    MutedAll(m, old', new', known);
  }

  // ----- Runs -----

  datatype Op = SetDefines(v: DefineSet) | GetLogger(name: string)

  datatype System = System(views: Views, defines: DefineSet)

  const START: System := System(map["root" := FRESH_ROOT], map[])

  function Step(s: System, op: Op): System {
    match op
    case SetDefines(v) =>
      if v == s.defines then s else System(ReconcileAll(s.views, s.defines, v), v)
    case GetLogger(n) => s.(views := s.views[n := Get(s.views, n)])
  }

  function Run(ops: seq<Op>): System {
    if ops == [] then START else Step(Run(ops[..|ops| - 1]), ops[|ops| - 1])
  }

  lemma RunThen(before: seq<Op>, op: Op)
    ensures Run(before + [op]) == Step(Run(before), op)
  {
    assert (before + [op])[..|before|] == before;
  }

  // ----- The run seen without its differences -----

  /** The last usable formatter any definition of `n` ever gave, else the default. */
  function LastFormatter(ops: seq<Op>, n: string): string {
    if ops == [] then DEFAULT_PATTERN
    else
      var op := ops[|ops| - 1];
      if op.SetDefines? && n in op.v && Usable(op.v[n].formatter) then op.v[n].formatter
      else LastFormatter(ops[..|ops| - 1], n)
  }

  /** The last configured definition set. */
  function LastDefines(ops: seq<Op>): DefineSet {
    if ops == [] then map[]
    else if ops[|ops| - 1].SetDefines? then ops[|ops| - 1].v
    else LastDefines(ops[..|ops| - 1])
  }

  predicate EverDefined(ops: seq<Op>, n: string) {
    ops != [] && (EverDefined(ops[..|ops| - 1], n) || (ops[|ops| - 1].SetDefines? && n in ops[|ops| - 1].v))
  }

  predicate EverFetched(ops: seq<Op>, n: string) {
    ops != [] && (EverFetched(ops[..|ops| - 1], n) || ops[|ops| - 1] == GetLogger(n))
  }

  /** The view of `n` after a run, computed from the history alone. */
  function Expected(ops: seq<Op>, n: string): LogView {
    var f := LastFormatter(ops, n);
    if n in LastDefines(ops) then Configured(f, LastDefines(ops)[n])
    else if EverDefined(ops, n) then Muted(f)
    else if n == "root" then FRESH_ROOT else FRESH
  }

  lemma {:induction false} DefinesAreLast(ops: seq<Op>)
    ensures Run(ops).defines == LastDefines(ops)
  {
    if ops != [] {
      DefinesAreLast(ops[..|ops| - 1]);
    }
  }

  lemma {:induction false} LastIsEver(ops: seq<Op>, n: string)
    requires n in LastDefines(ops)
    ensures EverDefined(ops, n)
    ensures Usable(LastDefines(ops)[n].formatter) ==> LastFormatter(ops, n) == LastDefines(ops)[n].formatter
  {
    if ops != [] && !ops[|ops| - 1].SetDefines? {
      LastIsEver(ops[..|ops| - 1], n);
    }
  }

  lemma {:induction false} NeverDefined(ops: seq<Op>, n: string)
    requires !EverDefined(ops, n)
    ensures LastFormatter(ops, n) == DEFAULT_PATTERN
  {
    if ops != [] {
      NeverDefined(ops[..|ops| - 1], n);
    }
  }

  lemma {:induction false} RunKnows(ops: seq<Op>, n: string)
    ensures n in Run(ops).views <==> n == "root" || EverDefined(ops, n) || EverFetched(ops, n)
  {
    if ops != [] {
      var before := ops[..|ops| - 1];
      RunKnows(before, n);
      DefinesAreLast(before);
      if n in LastDefines(before) {
        LastIsEver(before, n);
      }
    }
  }

  /** `n`'s view, or the view it would be created with. */
  predicate Tracks(s: System, ops: seq<Op>, n: string) {
    Get(s.views, n) == (if n == "root" || n in s.views then Expected(ops, n) else FRESH)
  }

  lemma ReconcileAt(m: Views, old': DefineSet, new': DefineSet, n: string)
    ensures Get(ReconcileAll(m, old', new'), n) == Reconciled(m, old', new', n)
  {
  }

  lemma History(before: seq<Op>, op: Op, n: string)
    ensures var ops := before + [op];
            && LastFormatter(ops, n) == (if op.SetDefines? && n in op.v && Usable(op.v[n].formatter)
                                         then op.v[n].formatter else LastFormatter(before, n))
            && LastDefines(ops) == (if op.SetDefines? then op.v else LastDefines(before))
            && (EverDefined(ops, n) <==> EverDefined(before, n) || (op.SetDefines? && n in op.v))
            && Run(ops) == Step(Run(before), op)
  {
    var ops := before + [op];
    assert ops[..|ops| - 1] == before;
  }

  lemma SetDefinesTracks(before: seq<Op>, v: DefineSet, n: string)
    requires Tracks(Run(before), before, n)
    requires Run(before).defines == LastDefines(before)
    ensures Tracks(Step(Run(before), SetDefines(v)), before + [SetDefines(v)], n)
  {
    History(before, SetDefines(v), n);
    ReconcileAt(Run(before).views, LastDefines(before), v, n);
    RunKnows(before, n);
    if n in LastDefines(before) {
      LastIsEver(before, n);
    }
    if !EverDefined(before, n) {
      NeverDefined(before, n);
    }
  }

  lemma GetLoggerTracks(before: seq<Op>, name: string, n: string)
    requires Tracks(Run(before), before, n)
    ensures Tracks(Step(Run(before), GetLogger(name)), before + [GetLogger(name)], n)
  {
    History(before, GetLogger(name), n);
    RunKnows(before, n);
    if n in LastDefines(before) {
      LastIsEver(before, n);
    }
  }

  /** After every run, every logger is what the history says, although each step only looked at the
      difference to the previous definitions. */
  lemma {:induction false} RunTracks(ops: seq<Op>, n: string)
    ensures Tracks(Run(ops), ops, n)
  {
    if ops != [] {
      var before, op := ops[..|ops| - 1], ops[|ops| - 1];
      assert ops == before + [op];
      RunTracks(before, n);
      DefinesAreLast(before);
      match op
      case SetDefines(v) => SetDefinesTracks(before, v, n);
      case GetLogger(name) => GetLoggerTracks(before, name, n);
    }
  }

  /** The reconciliation invariant over whole runs: every current definition is in force, every
      dropped name is muted, every other logger is as it was created. */
  lemma RunReconciles(ops: seq<Op>, n: string)
    ensures Run(ops).defines == LastDefines(ops)
    ensures n in LastDefines(ops) ==>
              n in Run(ops).views && Run(ops).views[n] == Configured(LastFormatter(ops, n), LastDefines(ops)[n])
    ensures EverDefined(ops, n) && n !in LastDefines(ops) ==>
              n in Run(ops).views && Run(ops).views[n] == Muted(LastFormatter(ops, n))
    ensures !EverDefined(ops, n) && n in Run(ops).views ==>
              Run(ops).views[n] == if n == "root" then FRESH_ROOT else FRESH
  {
    DefinesAreLast(ops);
    RunTracks(ops, n);
    RunKnows(ops, n);
    if n in LastDefines(ops) {
      LastIsEver(ops, n);
    }
  }

  /** Incremental equals from scratch: after any run, a defined logger has the level and the
      appenders that its definitions alone give a fresh manager; it is the same logger altogether
      exactly when the formatter is not inherited from an earlier definition. */
  lemma IncrementalIsFromScratch(ops: seq<Op>, n: string)
    requires n in LastDefines(ops)
    ensures var scratch := [SetDefines(LastDefines(ops))];
            && n in Run(ops).views && n in Run(scratch).views
            && var (a, b) := (Run(ops).views[n], Run(scratch).views[n]);
               && a.level == b.level && a.appenders == b.appenders
               && (a == b <==> LastFormatter(ops, n) == LastFormatter(scratch, n))
               && (Usable(LastDefines(ops)[n].formatter) ==> a == b)
  {
    var scratch := [SetDefines(LastDefines(ops))];
    RunReconciles(ops, n);
    RunReconciles(scratch, n);
    LastIsEver(ops, n);
    LastIsEver(scratch, n);
  }

  /** What a definition that has just been set is in force with. */
  lemma InForce(before: seq<Op>, v: DefineSet, n: string)
    requires n in v
    ensures var s := Run(before + [SetDefines(v)]);
            var f := if Usable(v[n].formatter) then v[n].formatter else LastFormatter(before, n);
            n in s.views && s.views[n] == Configured(f, v[n]) && LastDefines(before + [SetDefines(v)]) == v
  {
    History(before, SetDefines(v), n);
    RunReconciles(before + [SetDefines(v)], n);
  }

  /** The other half of that condition is real: a definition that stops giving a formatter leaves
      the logger with the one it gave before, which from scratch it would not have. */
  lemma ScratchDiffers(n: string, level: int, f: string)
    requires Usable(f) && f != DEFAULT_PATTERN
    ensures var (d, e) := (LogDefine(n, level, f, []), LogDefine(n, level, "", []));
            var (ops, scratch) := ([SetDefines(map[n := d]), SetDefines(map[n := e])], [SetDefines(map[n := e])]);
            && LastDefines(ops) == map[n := e] && n in Run(ops).views && n in Run(scratch).views
            && Run(ops).views[n] == LogView(level, f, [])
            && Run(scratch).views[n] == LogView(level, DEFAULT_PATTERN, [])
  {
    var first := SetDefines(map[n := LogDefine(n, level, f, [])]);
    var second := SetDefines(map[n := LogDefine(n, level, "", [])]);
    assert [first] == [] + [first] && [second] == [] + [second] && [first, second] == [first] + [second];
    History([], first, n);
    InForce([first], second.v, n);
    InForce([], second.v, n);
  }

  /** For instance: the message alone, and then no formatter. */
  lemma MessageThenNothing(n: string, level: int)
    ensures var (d, e) := (LogDefine(n, level, "%m", []), LogDefine(n, level, "", []));
            var (ops, scratch) := ([SetDefines(map[n := d]), SetDefines(map[n := e])], [SetDefines(map[n := e])]);
            n in Run(ops).views && n in Run(scratch).views && Run(ops).views[n] != Run(scratch).views[n]
  {
    StandaloneAccepted(Plain("m"));
    assert "%m" == Text(Plain("m"));
    Unfold("%m", []);
    assert |"%m"| < |DEFAULT_PATTERN|;
    ScratchDiffers(n, level, "%m");
  }

  // ----- No erroneous pattern is ever in force -----

  lemma {:induction false} LastFormatterCompiles(ops: seq<Op>, n: string)
    ensures Compiles(LastFormatter(ops, n))
  {
    if ops == [] {
      DefaultOutput(DEBUG, BLANK);
      Unfold(DEFAULT_PATTERN, []);
    } else {
      LastFormatterCompiles(ops[..|ops| - 1], n);
    }
  }

  /** Every formatter in force, the logger's and each appender's own, is free of error. */
  predicate Sound(v: LogView) {
    && Compiles(v.formatter)
    && forall k :: 0 <= k < |v.appenders| && v.appenders[k].own.Some? ==> Compiles(v.appenders[k].own.value)
  }

  /** Whatever patterns the definitions gave, in every history. */
  lemma RunIsSound(ops: seq<Op>, n: string)
    requires n in Run(ops).views
    ensures Sound(Run(ops).views[n])
  {
    RunTracks(ops, n);
    LastFormatterCompiles(ops, n);
    LastFormatterCompiles([], n);
  }

  /** Nothing up to FATAL that is sent to a dropped logger is written anywhere, root's appenders
      included, although the logger's own list is empty. */
  lemma DroppedIsSilent(ops: seq<Op>, n: string, level: int, ev: Event)
    requires EverDefined(ops, n) && n !in LastDefines(ops) && level <= 5
    ensures n in Run(ops).views && "root" in Run(ops).views
    ensures Lines(Run(ops).views[n], Run(ops).views["root"], level, ev) == []
  {
    RunReconciles(ops, n);
    RunKnows(ops, "root");
  }

  predicate Restores(op: Op, n: string) {
    op.SetDefines? && n in op.v
  }

  lemma {:induction false} StaysDropped(before: seq<Op>, v: DefineSet, after: seq<Op>, n: string)
    requires n in LastDefines(before) && n !in v
    requires forall k :: 0 <= k < |after| ==> !Restores(after[k], n)
    ensures var ops := before + [SetDefines(v)] + after; EverDefined(ops, n) && n !in LastDefines(ops)
  {
    if after == [] {
      assert before + [SetDefines(v)] + after == before + [SetDefines(v)];
      LastIsEver(before, n);
      History(before, SetDefines(v), n);
    } else {
      var front, op := after[..|after| - 1], after[|after| - 1];
      assert before + [SetDefines(v)] + after == before + [SetDefines(v)] + front + [op];
      StaysDropped(before, v, front, n);
      assert !Restores(op, n);
      History(before + [SetDefines(v)] + front, op, n);
    }
  }

  /** From the change that drops a definition until one that restores the name, its logger is silent. */
  lemma SilentUntilRestored(before: seq<Op>, v: DefineSet, after: seq<Op>, n: string, level: int, ev: Event)
    requires n in LastDefines(before) && n !in v && level <= 5
    requires forall k :: 0 <= k < |after| ==> !Restores(after[k], n)
    ensures var s := Run(before + [SetDefines(v)] + after);
            n in s.views && "root" in s.views && Lines(s.views[n], s.views["root"], level, ev) == []
  {
    StaysDropped(before, v, after, n);
    DroppedIsSilent(before + [SetDefines(v)] + after, n, level, ev);
  }
}
