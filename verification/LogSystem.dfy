/** The logging system of a process: the manager together with the `logs` configuration variable
    whose changes drive it (nnysl/log.cpp:777-836, nnysl/config.h:322-335). */
module LogSystem {
  import opened Pattern
  import opened Reconcile
  import opened LogGraph
  import opened LogManager
  import opened ConfigTree
  import opened DefineCodec

  class LogSystem {
    const manager: LoggerManager
    var defines: DefineSet
    /** Every definition set and every `getLogger` so far. */
    ghost var history: seq<Op>

    /** The heap is what the history says; folded as `Pattern.Compiles` is. */
    ghost predicate FollowsAt(depth: nat)
      reads this, manager
    {
      if depth > 0 then FollowsAt(depth - 1)
      else manager.views == Run(history).views && defines == Run(history).defines
    }

    ghost predicate Valid()
      reads this, manager, manager.made, manager.attached
    {
      manager.InOrder() && FollowsAt(|history| + 2)
    }

    lemma {:induction false} UnfoldAt(depth: nat)
      ensures FollowsAt(depth) <==> manager.views == Run(history).views && defines == Run(history).defines
    {
      if depth > 0 {
        UnfoldAt(depth - 1);
      }
    }

    lemma Unfold()
      ensures FollowsAt(|history| + 2) <==> manager.views == Run(history).views && defines == Run(history).defines
    {
      UnfoldAt(|history| + 2);
    }

    constructor ()
      ensures Valid() && history == []
      ensures fresh(manager) && fresh(manager.made) && fresh(manager.attached)
    {
      var m := new LoggerManager();
      manager := m;
      defines := map[];
      history := [];
      new;
      Unfold();
    }

    /** The views are what the history says, so output is a function of the history alone. */
    lemma ViewsAreExpected(n: string)
      requires Valid() && n in manager.views
      ensures "root" in manager.views
      ensures manager.views[n] == Expected(history, n) && manager.views["root"] == Expected(history, "root")
    {
      Unfold();
      manager.HasRoot();
      RunTracks(history, n);
      RunTracks(history, "root");
    }

    /** No logger that was handed out, and no appender of one, ever formats with an erroneous
        pattern, whatever patterns the definitions gave. */
    lemma NeverErroneous(l: Logger)
      requires Valid() && l in manager.made
      ensures l.formatter != null && !l.formatter.error
      ensures forall a :: a in l.appenders ==> a.formatter != null && !a.formatter.error
    {
      Unfold();
      manager.Unfold();
      RunIsSound(history, l.name);
      manager.SoundFormatters(l);
    }

    lemma RootIsExpected()
      requires Valid()
      ensures "root" in manager.views && manager.views["root"] == Expected(history, "root")
    {
      manager.HasRoot();
      ViewsAreExpected("root");
    }

    /** `setValue` of the variable: nothing at all happens when the value is equal to the current one. */
    method SetDefines(v: DefineSet, ev: Event, sink: Sink)
      requires Valid() && AllWellTyped(v)
      modifies this, manager, manager.made, manager.attached, sink
      ensures Valid() && history == old(history) + [Op.SetDefines(v)]
      ensures old(manager.made) <= manager.made && fresh(manager.made - old(manager.made))
      ensures fresh(manager.attached - old(manager.attached))
      ensures var root := Expected(old(history), "root");
              Written(sink.records) ==
              old(Written(sink.records))
              + if v == LastDefines(old(history)) then [] else Lines(root, root, INFO, From("root", ev))
    {
      Unfold();
      DefinesAreLast(history);
      if v == defines {
        RunThen(history, Op.SetDefines(v));
        history := history + [Op.SetDefines(v)];
        Unfold();
      } else {
        RootIsExpected();
        ChangeDefines(v, ev, sink);
      }
    }

    method ChangeDefines(v: DefineSet, ev: Event, sink: Sink)
      requires Valid() && AllWellTyped(v) && v != defines && "root" in manager.views
      modifies this, manager, manager.made, manager.attached, sink
      ensures Valid() && history == old(history) + [Op.SetDefines(v)]
      ensures old(manager.made) <= manager.made && fresh(manager.made - old(manager.made))
      ensures fresh(manager.attached - old(manager.attached))
      ensures Written(sink.records) == old(Written(sink.records)) +
              Lines(old(manager.views)["root"], old(manager.views)["root"], INFO, From("root", ev))
    {
      Unfold();
      manager.OnDefinesChanged(defines, v, ev, sink);
      Follow(v);
    }

    /** The value is written once the listener is through. */
    method Follow(v: DefineSet)
      requires manager.InOrder() && v != Run(history).defines
      requires manager.views == ReconcileAll(Run(history).views, Run(history).defines, v)
      modifies this`defines, this`history
      ensures Valid() && history == old(history) + [Op.SetDefines(v)]
    {
      RunThen(history, Op.SetDefines(v));
      defines := v;
      history := history + [Op.SetDefines(v)];
      Unfold();
    }

    /** `fromString` of the variable, given its text as a tree: a tree that cannot be read changes
        nothing and is reported to root; one that can never gives the listener a null appender. */
    method FromTree(n: Node, ev: Event, sink: Sink) returns (ok: bool)
      requires Valid()
      modifies this, manager, manager.made, manager.attached, sink
      ensures Valid() && ok == ReadSet(n).Gives?
      ensures history == old(history) + Taking(ReadSet(n))
      ensures old(manager.made) <= manager.made && fresh(manager.made - old(manager.made))
      ensures fresh(manager.attached - old(manager.attached))
      ensures Written(sink.records) == old(Written(sink.records)) + Reported(old(history), ReadSet(n), ev)
    {
      var r := ParseSet(n);
      ok := r.Gives?;
      Take(r, ev, sink);
    }

    /** What becomes of the history, and what is reported, when `r` has been read. */
    static ghost function Taking(r: Read<DefineSet>): seq<Op> {
      if r.Gives? then [Op.SetDefines(r.value)] else []
    }

    static ghost function Reported(before: seq<Op>, r: Read<DefineSet>, ev: Event): seq<Line> {
      var root := Expected(before, "root");
      if r.Gives? && r.value == LastDefines(before) then [] else Lines(root, root, INFO, From("root", ev))
    }

    method Take(r: Read<DefineSet>, ev: Event, sink: Sink)
      requires Valid() && (r.Gives? ==> AllWellTyped(r.value))
      modifies this, manager, manager.made, manager.attached, sink
      ensures Valid() && history == old(history) + Taking(r)
      ensures old(manager.made) <= manager.made && fresh(manager.made - old(manager.made))
      ensures fresh(manager.attached - old(manager.attached))
      ensures Written(sink.records) == old(Written(sink.records)) + Reported(old(history), r, ev)
    {
      if r.Gives? {
        SetDefines(r.value, ev, sink);
      } else {
        assert history + [] == history;
        Report(ev, sink);
      }
    }

    method Report(ev: Event, sink: Sink)
      requires Valid()
      modifies sink
      ensures var root := Expected(history, "root");
              Written(sink.records) == old(Written(sink.records)) + Lines(root, root, INFO, From("root", ev))
    {
      RootIsExpected();
      manager.RootIsMade();
      manager.Log(manager.root, INFO, ev, sink);
    }

    method GetLogger(n: string) returns (l: Logger)
      requires Valid()
      modifies this, manager
      ensures Valid() && history == old(history) + [Op.GetLogger(n)]
      ensures old(manager.made) <= manager.made && fresh(manager.made - old(manager.made))
      ensures manager.attached == old(manager.attached)
      ensures l in manager.made && l.name == n
    {
      Unfold();
      l := manager.GetLogger(n);
      Fetched(n);
    }

    ghost method Fetched(n: string)
      requires manager.InOrder() && defines == Run(history).defines
      requires manager.views == Run(history).views[n := Get(Run(history).views, n)]
      modifies this`history
      ensures Valid() && history == old(history) + [Op.GetLogger(n)]
    {
      RunThen(history, Op.GetLogger(n));
      history := history + [Op.GetLogger(n)];
      Unfold();
    }

    /** Logging through a logger once handed out, however long ago, writes what the whole history
        of definitions says of its name, and nothing else (nnysl/log.cpp:107-121). */
    method Log(l: Logger, level: int, ev: Event, sink: Sink)
      requires Valid() && l in manager.made
      modifies sink
      ensures Written(sink.records) ==
              old(Written(sink.records)) +
              Lines(Expected(history, l.name), Expected(history, "root"), level, From(l.name, ev))
    {
      manager.Unfold();
      ViewsAreExpected(l.name);
      manager.Log(l, level, ev, sink);
    }
  }
}
