/** The logger manager and the configuration variable that drives it: the heap follows the value
    model of `Reconcile` step by step, so what holds of every run there holds of every heap. */
module LogManager {
  import opened Pattern
  import opened Reconcile
  import opened LogGraph

  class LoggerManager {
    var loggers: map<string, Logger>
    const root: Logger
    /** What can be observed of each logger. */
    ghost var views: Views
    /** All loggers and appenders made so far. */
    ghost var made: set<Logger>
    ghost var attached: set<LogAppender>

    ghost predicate Named()
      reads this
    {
      && "root" in loggers && loggers["root"] == root
      && (forall n :: n in views <==> n in loggers)
      && (forall n :: n in loggers ==>
            && loggers[n] in made
            && loggers[n].name == n && loggers[n].root == (if n == "root" then null else root))
      && forall l :: l in made ==> l.name in loggers && loggers[l.name] == l
    }

    ghost predicate Valid()
      reads this, made, attached
    {
      && Named()
      && (forall n :: n in loggers ==> forall a :: a in loggers[n].appenders ==> a in attached && a.home == loggers[n])
      && (forall n :: n in loggers ==> loggers[n].Stands(views[n]))
    }

    /** `Valid`, folded as `Pattern.Compiles` is. */
    ghost predicate ValidAt(depth: nat)
      reads this, made, attached
    {
      if depth > 0 then ValidAt(depth - 1) else Valid()
    }

    ghost predicate InOrder()
      reads this, made, attached
    {
      ValidAt(|views| + 2)
    }

    lemma {:induction false} UnfoldAt(depth: nat)
      ensures ValidAt(depth) <==> Valid()
    {
      if depth > 0 {
        UnfoldAt(depth - 1);
      }
    }

    lemma Unfold()
      ensures InOrder() <==> Valid()
    {
      UnfoldAt(|views| + 2);
    }

    /** What an operation on `l` and on appenders made for it leaves alone. */
    twostate lemma OthersKept(new l: Logger)
      requires old(Valid()) && loggers == old(loggers) && views == old(views) && attached == old(attached)
      requires forall m :: m in old(made) && m != l ==> m.SameFields()
      requires forall a :: a in old(attached) && old(a.home) != l ==> a.Same()
      ensures forall n :: n in loggers && loggers[n] != l ==> loggers[n].Stands(views[n])
      ensures forall n :: n in loggers && loggers[n] != l ==>
                forall a :: a in loggers[n].appenders ==> a in attached && a.home == loggers[n]
    {
      forall n | n in loggers && loggers[n] != l
        ensures loggers[n].Stands(views[n])
        ensures forall a :: a in loggers[n].appenders ==> a in attached && a.home == loggers[n]
      {
        var m := loggers[n];
        assert m.SameFields();
        forall a | a in m.appenders ensures a.Same() {
          assert old(a.home) == m;
        }
        m.StandsKept(views[n]);
      }
    }

    constructor ()
      ensures InOrder() && fresh(made) && fresh(attached)
      ensures views == START.views
    {
      var r, out := NewRoot();
      root := r;
      loggers := map["root" := r];
      made, attached := {r}, {out};
      views := map["root" := FRESH_ROOT];
      new;
      Unfold();
    }

    method Lookup(n: string) returns (l: Logger)
      requires Valid()
      modifies this
      ensures Valid() && old(made) <= made && fresh(made - old(made)) && attached == old(attached)
      ensures n in loggers && loggers[n] == l
      ensures views == old(views)[n := Get(old(views), n)]
    {
      if n in loggers {
        l := loggers[n];
      } else {
        l := AddLogger(n);
      }
    }

    /** nnysl/log.cpp:539-550 */
    method GetLogger(n: string) returns (l: Logger)
      requires InOrder()
      modifies this
      ensures InOrder() && old(made) <= made && fresh(made - old(made)) && attached == old(attached)
      ensures l in made && l.name == n
      ensures views == old(views)[n := Get(old(views), n)]
    {
      Unfold();
      l := Lookup(n);
      Unfold();
    }

    method AddLogger(n: string) returns (l: Logger)
      requires Valid() && n !in loggers
      modifies this
      ensures Valid() && made == old(made) + {l} && fresh(l) && attached == old(attached)
      ensures n in loggers && loggers[n] == l
      ensures views == old(views)[n := FRESH]
    {
      l := new Logger(n, root);
      l.Unfold(FRESH);
      OthersKept(l);
      Register(l);
    }

    twostate predicate Registers(new l: Logger)
      reads this
    {
      && loggers == old(loggers)[l.name := l] && views == old(views)[l.name := FRESH]
      && made == old(made) + {l} && attached == old(attached)
    }

    twostate lemma NamesKept(new l: Logger)
      requires old(Named()) && Registers(l) && l.name !in old(loggers) && l !in old(made)
      requires l.root == root && l.name != "root"
      ensures Named()
    {
    }

    twostate lemma ViewsKept(new l: Logger)
      requires old(Valid()) && Registers(l) && l.name !in old(loggers)
      requires l.appenders == [] && l.Stands(FRESH)
      requires forall m :: m in old(made) ==> m.SameFields()
      requires forall a :: a in attached ==> a.Same()
      ensures forall n :: n in loggers ==>
                forall a :: a in loggers[n].appenders ==> a in attached && a.home == loggers[n]
      ensures forall n :: n in loggers ==> n in views && loggers[n].Stands(views[n])
    {
      forall n | n in loggers
        ensures forall a :: a in loggers[n].appenders ==> a in attached && a.home == loggers[n]
        ensures n in views && loggers[n].Stands(views[n])
      {
        if n != l.name {
          var m := loggers[n];
          assert m.SameFields();
          assert forall a :: a in m.appenders ==> a.Same();
          m.StandsKept(views[n]);
        }
      }
    }

    method Register(l: Logger)
      requires Valid() && l.name !in loggers && l !in made && l.name != "root"
      requires l.root == root && l.appenders == [] && l.Stands(FRESH)
      modifies this
      ensures Valid() && made == old(made) + {l} && attached == old(attached)
      ensures loggers == old(loggers)[l.name := l] && views == old(views)[l.name := FRESH]
    {
      loggers := loggers[l.name := l];
      views := views[l.name := FRESH];
      made := made + {l};
      NamesKept(l);
      ViewsKept(l);
    }

    /** All is in order but for the logger of `n`. */
    ghost predicate ValidBut(n: string)
      reads this, made, attached
    {
      && Named() && n in loggers
      && (forall m :: m in loggers && m != n ==>
            forall a :: a in loggers[m].appenders ==> a in attached && a.home == loggers[m])
      && forall m :: m in loggers && m != n ==> loggers[m].Stands(views[m])
    }

    ghost method Note(n: string, v: LogView, more: set<LogAppender>)
      requires ValidBut(n) && loggers[n].Stands(v)
      requires forall a :: a in loggers[n].appenders ==> a in attached + more && a.home == loggers[n]
      modifies this`views, this`attached
      ensures Valid() && views == old(views)[n := v] && attached == old(attached) + more
    {
      views := views[n := v];
      attached := attached + more;
    }

    method Apply(n: string, l: Logger, d: LogDefine)
      requires Valid() && WellTyped(d) && n in loggers && loggers[n] == l
      modifies this`views, this`attached, l, l.appenders
      ensures Valid() && fresh(attached - old(attached))
      ensures views == old(views)[n := Configured(old(views)[n].formatter, d)]
    {
      ghost var new' := l.Configure(d, views[n]);
      OthersKept(l);
      Note(n, Configured(views[n].formatter, d), new');
    }

    method ApplyTo(l: Logger, d: LogDefine)
      requires InOrder() && WellTyped(d) && l in made
      modifies this`views, this`attached, l, l.appenders
      ensures l.name in old(views)
      ensures InOrder() && fresh(attached - old(attached))
      ensures views == old(views)[l.name := Configured(old(views)[l.name].formatter, d)]
    {
      Unfold();
      Apply(l.name, l, d);
      Unfold();
    }

    method ConfigureNamed(n: string, d: LogDefine)
      requires InOrder() && WellTyped(d)
      modifies this, made, attached
      ensures InOrder() && old(made) <= made && fresh(made - old(made)) && fresh(attached - old(attached))
      ensures views == old(views)[n := Configured(Get(old(views), n).formatter, d)]
    {
      var l := GetLogger(n);
      ghost var v := views;
      AppendersAreAttached(l);
      ApplyTo(l, d);
      UpdateTwice(old(views), n, Get(old(views), n), Configured(v[n].formatter, d));
    }

    lemma AppendersAreAttached(l: Logger)
      requires InOrder() && l in made
      ensures forall a :: a in l.appenders ==> a in attached
    {
      Unfold();
    }

    method Silence(n: string, l: Logger)
      requires Valid() && n in loggers && loggers[n] == l
      modifies this`views, this`attached, l
      ensures Valid() && attached == old(attached)
      ensures views == old(views)[n := Muted(old(views)[n].formatter)]
    {
      l.Mute(views[n]);
      OthersKept(l);
      Note(n, Muted(views[n].formatter), {});
    }

    method MuteNamed(n: string)
      requires Valid()
      modifies this, made, attached
      ensures Valid() && old(made) <= made && fresh(made - old(made)) && fresh(attached - old(attached))
      ensures views == old(views)[n := Muted(Get(old(views), n).formatter)]
    {
      var l := Lookup(n);
      ghost var v := views;
      Silence(n, l);
      UpdateTwice(old(views), n, Get(old(views), n), Muted(v[n].formatter));
    }

    method ApplyIfChanged(old': DefineSet, new': DefineSet, names: seq<string>, k: nat)
      requires InOrder() && AllWellTyped(new') && k < |names| && Elements(names, |names|) == new'.Keys
      modifies this, made, attached
      ensures InOrder() && old(made) <= made && fresh(made - old(made)) && fresh(attached - old(attached))
      ensures views == ApplyOne(old(views), old', new', names[k])
    {
      var n := names[k];
      ElementAmong(names, |names|, k);
      if n !in old' || new'[n] != old'[n] {
        ConfigureNamed(n, new'[n]);
      }
    }

    /** The first loop of the listener (nnysl/log.cpp:787-824): new and changed definitions are
        applied, unchanged ones skipped. */
    method ApplyChanged(old': DefineSet, new': DefineSet, names: seq<string>)
      requires InOrder() && AllWellTyped(new') && Elements(names, |names|) == new'.Keys
      modifies this, made, attached
      ensures InOrder() && old(made) <= made && fresh(made - old(made)) && fresh(attached - old(attached))
      ensures views == Applying(old(views), old', new', names, |names|)
    {
      for k := 0 to |names|
        invariant InOrder()
        invariant old(made) <= made && fresh(made - old(made)) && fresh(attached - old(attached))
        invariant views == Applying(old(views), old', new', names, k)
      {
        ApplyIfChanged(old', new', names, k);
      }
    }

    method MuteIfDropped(ghost before: Views, new': DefineSet, names: seq<string>, k: nat)
      requires InOrder() && k < |names| && views == Muting(before, new', names, k)
      modifies this, made, attached
      ensures InOrder() && old(made) <= made && fresh(made - old(made)) && fresh(attached - old(attached))
      ensures views == Muting(before, new', names, k + 1)
    {
      if names[k] !in new' {
        Unfold();
        MuteNamed(names[k]);
        Unfold();
      }
    }

    /** The second loop of the listener (nnysl/log.cpp:826-833). */
    method MuteDropped(new': DefineSet, names: seq<string>)
      requires InOrder()
      modifies this, made, attached
      ensures InOrder() && old(made) <= made && fresh(made - old(made)) && fresh(attached - old(attached))
      ensures views == Muting(old(views), new', names, |names|)
    {
      for k := 0 to |names|
        invariant InOrder()
        invariant old(made) <= made && fresh(made - old(made)) && fresh(attached - old(attached))
        invariant views == Muting(old(views), new', names, k)
      {
        MuteIfDropped(old(views), new', names, k);
      }
    }

    /** An event sent through a logger, however long ago it was handed out (nnysl/log.cpp:107-121). */
    method Send(l: Logger, level: int, ev: Event, sink: Sink) returns (ghost sent: seq<Delivery>)
      requires InOrder() && l in made
      modifies sink
      ensures l.name in views && "root" in views
      ensures sink.records == old(sink.records) + sent
      ensures Written(sent) == Lines(views[l.name], views["root"], level, From(l.name, ev))
    {
      Unfold();
      l.Unfold(views[l.name]);
      root.Unfold(views["root"]);
      ViewedTargets(l, views[l.name], views["root"], level, From(l.name, ev));
      ghost var picks := l.Emit(level, ev, sink);
      sent := if l.Passes(level) then Records(l.Targets(), level, From(l.name, ev)) else [];
    }

    method Log(l: Logger, level: int, ev: Event, sink: Sink)
      requires InOrder() && l in made
      modifies sink
      ensures l.name in views && "root" in views
      ensures Written(sink.records) ==
              old(Written(sink.records)) + Lines(views[l.name], views["root"], level, From(l.name, ev))
    {
      ghost var sent := Send(l, level, ev, sink);
      WrittenConcat(old(sink.records), sent);
    }

    /** With only sound patterns in force no formatter in use is erroneous. */
    lemma SoundFormatters(l: Logger)
      requires InOrder() && l in made && l.name in views && Sound(views[l.name])
      ensures l.formatter != null && !l.formatter.error
      ensures forall a :: a in l.appenders ==> a.formatter != null && !a.formatter.error
    {
      Unfold();
      var v := views[l.name];
      l.Unfold(v);
      forall a | a in l.appenders ensures a.formatter != null && !a.formatter.error {
        var k :| 0 <= k < |l.appenders| && l.appenders[k] == a;
        assert l.appenders[k].Looks(v.appenders[k], l.formatter);
      }
    }

    lemma HasRoot()
      requires InOrder()
      ensures "root" in views
    {
      Unfold();
    }

    lemma RootIsMade()
      requires InOrder()
      ensures root in made && root.name == "root"
    {
      Unfold();
    }

    method RunLoops(old': DefineSet, new': DefineSet, wanted: seq<string>, known: seq<string>)
      requires InOrder() && AllWellTyped(new') && Elements(wanted, |wanted|) == new'.Keys
      modifies this, made, attached
      ensures InOrder() && old(made) <= made && fresh(made - old(made)) && fresh(attached - old(attached))
      ensures views == Muting(Applying(old(views), old', new', wanted, |wanted|), new', known, |known|)
    {
      ApplyChanged(old', new', wanted);
      MuteDropped(new', known);
    }

    method Rebuild(old': DefineSet, new': DefineSet)
      requires InOrder() && AllWellTyped(new')
      modifies this, made, attached
      ensures InOrder() && old(made) <= made && fresh(made - old(made)) && fresh(attached - old(attached))
      ensures views == ReconcileAll(old(views), old', new')
    {
      var wanted := Listed(new'.Keys);
      var known := Listed(old'.Keys);
      LoopsReconcile(views, old', new', wanted, known);
      RunLoops(old', new', wanted, known);
    }

    /** The change listener (nnysl/log.cpp:784-834). */
    method OnDefinesChanged(old': DefineSet, new': DefineSet, ev: Event, sink: Sink)
      requires InOrder() && AllWellTyped(new')
      modifies this, made, attached, sink
      ensures InOrder() && old(made) <= made && fresh(made - old(made)) && fresh(attached - old(attached))
      ensures views == ReconcileAll(old(views), old', new')
      ensures "root" in old(views)
      ensures Written(sink.records) ==
              old(Written(sink.records)) + Lines(old(views)["root"], old(views)["root"], INFO, From("root", ev))
    {
      RootIsMade();
      Log(root, INFO, ev, sink);
      Rebuild(old', new');
    }
  }

  /** Whatever the thresholds and lists, an event that passes is written as the two views say. */
  lemma ViewedTargets(l: Logger, v: LogView, root: LogView, level: int, ev: Event)
    requires l.Shows(v)
    requires if l.root != null then l.root.Shows(root) else v == root
    ensures forall a :: a in l.Targets() ==> a.formatter != null
    ensures Written(if l.Passes(level) then Records(l.Targets(), level, ev) else []) == Lines(v, root, level, ev)
  {
    ShowsLinked(l, v);
    assert l.appenders[..|l.appenders|] == l.appenders && v.appenders[..|v.appenders|] == v.appenders;
    RecordsAreLines(l, v, |l.appenders|, level, ev);
    if l.root != null {
      var r := l.root;
      ShowsLinked(r, root);
      assert r.appenders[..|r.appenders|] == r.appenders && root.appenders[..|root.appenders|] == root.appenders;
      RecordsAreLines(r, root, |r.appenders|, level, ev);
    }
  }

  lemma UpdateTwice(m: Views, n: string, a: LogView, b: LogView)
    ensures m[n := a][n := b] == m[n := b]
  {
  }
}