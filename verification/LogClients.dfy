/** Formatter inheritance when the program itself, and not the listener, works on loggers and
    appenders (nnysl/log.cpp:147-188, 246-256). */
module LogClients {
  import opened Pattern
  import opened Reconcile
  import opened LogGraph

  datatype ClientOp =
    | Add(l: Logger, a: LogAppender)
    | Del(l: Logger, a: LogAppender)
    | Clear(l: Logger)
    | FormatLogger(l: Logger, f: LogFormatter)
    | FormatAppender(a: LogAppender, f: LogFormatter)

  /** A program's loggers and appenders; `homes` notes the one logger an appender has joined. */
  class World {
    var loggers: set<Logger>
    var appenders: set<LogAppender>
    var homes: map<LogAppender, Logger>

    constructor ()
      ensures Valid() && loggers == {} && appenders == {} && homes == map[]
    {
      loggers, appenders, homes := {}, {}, map[];
    }

    /** Every attached appender has a formatter, and one without its own points to the current one of
        the only logger it is in. */
    ghost predicate Inherits(l: Logger)
      reads this, l, l.appenders
    {
      && l.HasFormatter() && l.Linked()
      && forall a :: a in l.appenders ==> a in appenders && a in homes && homes[a] == l
    }

    ghost predicate Valid()
      reads this, loggers, appenders
    {
      && (forall l :: l in loggers ==> forall a :: a in l.appenders ==> a in appenders)
      && forall l :: l in loggers ==> Inherits(l)
    }

    /** What is asked of the program: valid formatters, and an appender joins one logger only, when
        it has no formatter yet, its own, or still that logger's. */
    predicate Legal(op: ClientOp)
      reads this, loggers, appenders
    {
      match op
      case Add(l, a) =>
        && l in loggers && a in appenders && (a in homes ==> homes[a] == l)
        && (a.formatter == null || (a.formatter.Valid() && (a.haveFormatter || a.formatter == l.formatter)))
      case Del(l, a) => l in loggers
      case Clear(l) => l in loggers
      case FormatLogger(l, f) => l in loggers && f.Valid()
      case FormatAppender(a, f) => a in appenders && f.Valid()
    }

    method NewLogger(name: string, root: Logger?) returns (l: Logger)
      requires Valid()
      modifies this`loggers
      ensures Valid() && fresh(l) && loggers == old(loggers) + {l} && l.appenders == []
    {
      l := new Logger(name, root);
      loggers := loggers + {l};
    }

    /** A new appender can join any logger. */
    method NewAppender(kind: AppenderKind) returns (a: LogAppender)
      requires Valid()
      modifies this`appenders
      ensures Valid() && fresh(a) && appenders == old(appenders) + {a}
      ensures forall l :: l in loggers ==> Legal(ClientOp.Add(l, a))
    {
      a := new LogAppender(kind);
      appenders := appenders + {a};
    }

    method Add(l: Logger, a: LogAppender)
      requires Valid() && Legal(ClientOp.Add(l, a))
      modifies l`appenders, a`formatter, this`homes
      ensures Valid() && l.appenders == old(l.appenders) + [a] && homes == old(homes)[a := l]
      ensures a.formatter == if old(a.formatter) == null then l.formatter else old(a.formatter)
    {
      l.AddAppender(a);
      homes := homes[a := l];
      forall m | m in loggers ensures Inherits(m) {
        assert old(Inherits(m));
      }
    }

    method Del(l: Logger, a: LogAppender)
      requires Valid() && Legal(ClientOp.Del(l, a))
      modifies l`appenders
      ensures Valid() && l.appenders == Without(old(l.appenders), a)
    {
      l.DelAppender(a);
      WithoutIsPart(old(l.appenders), a);
      forall m | m in loggers ensures Inherits(m) {
        assert old(Inherits(m));
      }
    }

    method Clear(l: Logger)
      requires Valid() && Legal(ClientOp.Clear(l))
      modifies l`appenders
      ensures Valid() && l.appenders == []
    {
      l.ClearAppenders();
      forall m | m in loggers ensures Inherits(m) {
        assert old(Inherits(m));
      }
    }

    method FormatLogger(l: Logger, f: LogFormatter)
      requires Valid() && Legal(ClientOp.FormatLogger(l, f))
      modifies l`formatter, l.appenders`formatter
      ensures Valid() && l.formatter == f
      ensures forall a :: a in l.appenders ==> a.formatter == if a.haveFormatter then old(a.formatter) else f
    {
      l.SetFormatter(f);
      forall m | m in loggers ensures Inherits(m) {
        assert old(Inherits(m));
        forall b | b in m.appenders ensures b.UsesFormatter(m.formatter) {
          assert old(b.UsesFormatter(m.formatter));
        }
      }
    }

    method FormatAppender(a: LogAppender, f: LogFormatter)
      requires Valid() && Legal(ClientOp.FormatAppender(a, f))
      modifies a`formatter, a`haveFormatter
      ensures Valid() && a.formatter == f && a.haveFormatter
    {
      a.SetFormatter(f);
      forall m | m in loggers ensures Inherits(m) {
        assert old(Inherits(m));
      }
    }

    method Perform(op: ClientOp)
      requires Valid() && Legal(op)
      modifies this`homes, loggers, appenders
      ensures Valid()
    {
      match op
      case Add(l, a) => Add(l, a);
      case Del(l, a) => Del(l, a);
      case Clear(l) => Clear(l);
      case FormatLogger(l, f) => FormatLogger(l, f);
      case FormatAppender(a, f) => FormatAppender(a, f);
    }

    /** Any run: whatever is asked for, in any order, inheritance holds as long as each operation is
        legal when its turn comes. */
    method Run(ops: seq<ClientOp>)
      requires Valid()
      modifies this`homes, loggers, appenders
      ensures Valid()
    {
      for k := 0 to |ops|
        invariant Valid()
      {
        if Legal(ops[k]) {
          Perform(ops[k]);
        }
      }
    }
  }

  lemma {:induction false} WithoutIsPart<T>(s: seq<T>, a: T)
    ensures forall x :: x in Without(s, a) ==> x in s
    ensures a !in s ==> Without(s, a) == s
    ensures a in s ==> |Without(s, a)| == |s| - 1
    ensures forall x :: x != a && x in s ==> x in Without(s, a)
  {
    if s != [] && s[0] != a {
      WithoutIsPart(s[1..], a);
    }
  }
}
