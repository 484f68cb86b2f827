/** Loggers, appenders and the manager as the mutable objects they are (nnysl/log.cpp:107-203,
    246-256, 299-328, 530-550), and the change listener that rebuilds them (nnysl/log.cpp:784-833). */
module LogGraph {
  import opened Pattern
  import opened Reconcile
  import opened Wrappers

  // ----- Output -----

  datatype Delivery = Delivery(appender: LogAppender, text: string)

  /** Everything the appenders write, in order. */
  class Sink {
    var records: seq<Delivery>

    constructor ()
      ensures records == []
    {
      records := [];
    }
  }

  // ----- Appenders -----

  class LogAppender {
    const kind: AppenderKind
    var level: int
    var formatter: LogFormatter?
    var haveFormatter: bool
    /** the logger the appender was made for */
    ghost var home: Logger?

    constructor (kind: AppenderKind)
      ensures this.kind == kind && level == DEBUG && formatter == null && !haveFormatter && home == null
    {
      this.kind := kind;
      level, formatter, haveFormatter := DEBUG, null, false;
      home := null;
    }

    method SetLevel(val: int)
      modifies this`level
      ensures level == val
    {
      level := val;
    }

    method SetFormatter(val: LogFormatter?)
      modifies this`formatter, this`haveFormatter
      ensures formatter == val && haveFormatter == (val != null)
    {
      formatter := val;
      if formatter != null {
        haveFormatter := true;
      } else {
        haveFormatter := false;
      }
    }

    method Log(level: int, ev: Event, sink: Sink)
      requires formatter != null
      modifies sink
      ensures sink.records == old(sink.records) + Records([this], level, ev)
    {
      if level >= this.level {
        var text := formatter.Format(level, ev);
        sink.records := sink.records + [Delivery(this, text)];
      }
    }

    ghost predicate UsesFormatter(f: LogFormatter?)
      reads this
    {
      && formatter != null && formatter.Valid()
      && (!haveFormatter ==> formatter == f)
    }

    twostate predicate Same()
      reads this
    {
      level == old(level) && formatter == old(formatter) && haveFormatter == old(haveFormatter) && home == old(home)
    }

    /** The appender looks like `w`, in a logger whose formatter is `f`. */
    ghost predicate Looks(w: AppenderView, f: LogFormatter?)
      reads this
    {
      && UsesFormatter(f) && kind == w.kind && level == w.level
      && w.own == if haveFormatter && formatter != null then Some(formatter.pattern) else None
    }
  }

  /** What a list of appenders writes for one event. */
  ghost function Records(s: seq<LogAppender>, level: int, ev: Event): seq<Delivery>
    requires forall a :: a in s ==> a.formatter != null
    reads s
  {
    if s == [] then []
    else
      var a := s[|s| - 1];
      Records(s[..|s| - 1], level, ev)
      + if level >= a.level then [Delivery(a, Render(a.formatter.items, level, ev))] else []
  }

  /** `l` without the first occurrence of `a`. */
  function Without<T(==)>(l: seq<T>, a: T): seq<T> {
    if l == [] then [] else if l[0] == a then l[1..] else [l[0]] + Without(l[1..], a)
  }

  // ----- Loggers -----

  class Logger {
    const name: string
    const root: Logger?
    var level: int
    var formatter: LogFormatter?
    var appenders: seq<LogAppender>

    constructor (name: string, root: Logger?)
      ensures this.name == name && this.root == root
      ensures level == DEBUG && appenders == []
      ensures formatter != null && formatter.Valid() && formatter.pattern == DEFAULT_PATTERN
    {
      this.name, this.root := name, root;
      level, appenders := DEBUG, [];
      var f := new LogFormatter(DEFAULT_PATTERN);
      formatter := f;
    }

    /** Formatter inheritance: every attached appender has a formatter, and one without its own
        uses its logger's current one. */
    ghost predicate Linked()
      reads this, appenders
    {
      forall a :: a in appenders ==> a.UsesFormatter(formatter)
    }

    ghost predicate HasFormatter()
      reads this
    {
      formatter != null && formatter.Valid()
    }

    /** The logger is in order and looks like `v`. */
    ghost predicate Shows(v: LogView)
      reads this, appenders
    {
      && HasFormatter() && formatter.pattern == v.formatter && level == v.level
      && |appenders| == |v.appenders|
      && forall k :: 0 <= k < |appenders| ==> appenders[k].Looks(v.appenders[k], formatter)
    }

    twostate predicate SameFields()
      reads this
    {
      level == old(level) && formatter == old(formatter) && appenders == old(appenders)
    }

    twostate lemma ShowsKept(v: LogView)
      requires old(Shows(v)) && SameFields()
      requires forall a :: a in appenders ==> a.Same()
      ensures Shows(v)
    {
      forall k | 0 <= k < |appenders| ensures appenders[k].Looks(v.appenders[k], formatter) {
        assert old(appenders[k].Looks(v.appenders[k], formatter));
        assert appenders[k].Same();
      }
    }

    /** `Shows`, folded as `Pattern.Compiles` is. */
    ghost predicate StandsAt(v: LogView, depth: nat)
      reads this, appenders
    {
      if depth > 0 then StandsAt(v, depth - 1) else Shows(v)
    }

    ghost predicate Stands(v: LogView)
      reads this, appenders
    {
      StandsAt(v, |name| + 2)
    }

    lemma {:induction false} UnfoldAt(v: LogView, depth: nat)
      ensures StandsAt(v, depth) <==> Shows(v)
    {
      if depth > 0 {
        UnfoldAt(v, depth - 1);
      }
    }

    lemma Unfold(v: LogView)
      ensures Stands(v) <==> Shows(v)
    {
      UnfoldAt(v, |name| + 2);
    }

    twostate lemma {:induction false} StandsAtKept(at: (LogView, nat))
      requires old(StandsAt(at.0, at.1)) && SameFields()
      requires forall a :: a in appenders ==> a.Same()
      ensures StandsAt(at.0, at.1)
      decreases at.1
    {
      if at.1 > 0 {
        StandsAtKept((at.0, at.1 - 1));
      } else {
        ShowsKept(at.0);
      }
    }

    /** A logger that is not touched, with its appenders, stays as it is. */
    twostate lemma StandsKept(v: LogView)
      requires old(Stands(v)) && SameFields()
      requires forall a :: a in appenders ==> a.Same()
      ensures Stands(v)
    {
      StandsAtKept((v, |name| + 2));
    }

    /** The list an event goes to: the logger's own, or root's when that is empty. */
    ghost function Targets(): seq<LogAppender>
      reads this, root
    {
      if appenders != [] then appenders else if root != null then root.appenders else []
    }

    /** The thresholds an event must reach before any appender sees it. */
    ghost predicate Passes(level: int)
      reads this, root
    {
      level >= this.level && (appenders == [] && root != null ==> level >= root.level)
    }

    method Log(level: int, ev: Event, sink: Sink)
      requires root != null ==> root.root == null
      requires forall a :: a in Targets() ==> a.formatter != null
      modifies sink
      ensures sink.records == old(sink.records) + if Passes(level) then Records(Targets(), level, ev) else []
      decreases root != null
    {
      if level >= this.level {
        if appenders != [] {
          assert appenders[..0] == [];
          for k := 0 to |appenders|
            invariant sink.records == old(sink.records) + Records(appenders[..k], level, ev)
          {
            assert appenders[..k + 1][..k] == appenders[..k];
            appenders[k].Log(level, ev, sink);
          }
          assert appenders[..|appenders|] == appenders;
        } else if root != null {
          root.Log(level, ev, sink);
        }
      }
    }

    /** The logging macros (nnysl/log.h:21-25): the event is made for this logger and keeps its name
        when it is handed on to root.  `picks` are the entries of the target list that write it, each
        once and in order. */
    method Emit(level: int, ev: Event, sink: Sink) returns (ghost picks: seq<nat>)
      requires root != null ==> root.root == null
      requires forall a :: a in Targets() ==> a.formatter != null
      modifies sink
      ensures forall i, j :: 0 <= i < j < |picks| ==> picks[i] < picks[j]
      ensures forall k :: 0 <= k < |Targets()| ==> (k in picks <==> Passes(level) && level >= Targets()[k].level)
      ensures |sink.records| == |old(sink.records)| + |picks|
      ensures forall i :: 0 <= i < |picks| ==>
        && picks[i] < |Targets()|
        && var a := Targets()[picks[i]];
           sink.records[|old(sink.records)| + i] == Delivery(a, Render(a.formatter.items, level, From(name, ev)))
      ensures sink.records ==
              old(sink.records) + if Passes(level) then Records(Targets(), level, From(name, ev)) else []
    {
      picks := [];
      if this.level <= level {
        Log(level, From(name, ev), sink);
        if Passes(level) {
          picks := RecordsExact(Targets(), level, From(name, ev));
        }
      }
    }

    method AddAppender(a: LogAppender)
      modifies this`appenders, a`formatter
      ensures appenders == old(appenders) + [a]
      ensures a.formatter == if old(a.formatter) == null then formatter else old(a.formatter)
      ensures old(Linked()) && HasFormatter() && (a.formatter != null ==> a.formatter.Valid()) ==>
                (Linked() <==> old(a.formatter) == null || a.haveFormatter || old(a.formatter) == formatter)
    {
      if a.formatter == null {
        a.formatter := formatter;
      }
      appenders := appenders + [a];
      assert a in appenders;
      if old(Linked()) && HasFormatter() && (a.formatter != null ==> a.formatter.Valid()) {
        forall b | b in old(appenders) ensures b.UsesFormatter(formatter) {
          assert old(b.UsesFormatter(formatter));
        }
      }
    }

    method DelAppender(a: LogAppender)
      modifies this`appenders
      ensures appenders == Without(old(appenders), a)
    {
      ghost var all := appenders;
      assert all[..0] == [];
      for k := 0 to |appenders|
        invariant appenders == all
        invariant Without(all, a) == all[..k] + Without(all[k..], a)
      {
        assert all[k..][1..] == all[k + 1..];
        if appenders[k] == a {
          appenders := appenders[..k] + appenders[k + 1..];
          return;
        }
        assert all[..k] + [all[k]] == all[..k + 1];
      }
      assert all[..|all|] == all;
    }

    method ClearAppenders()
      modifies this`appenders
      ensures appenders == []
    {
      appenders := [];
    }

    method SetLevel(val: int)
      modifies this`level
      ensures level == val
    {
      level := val;
    }

    method SetFormatter(val: LogFormatter?)
      modifies this`formatter, appenders`formatter
      ensures formatter == val
      ensures forall a :: a in appenders ==> a.formatter == if a.haveFormatter then old(a.formatter) else val
      ensures old(Linked()) && HasFormatter() ==> Linked()
    {
      formatter := val;
      for k := 0 to |appenders|
        invariant formatter == val
        invariant forall a :: a in appenders ==>
          a.formatter == if a in appenders[..k] && !a.haveFormatter then val else old(a.formatter)
      {
        if !appenders[k].haveFormatter {
          appenders[k].formatter := formatter;
        }
        assert forall a :: a in appenders[..k + 1] <==> a in appenders[..k] || a == appenders[k];
      }
    }

    /** The string form: an invalid pattern is reported and ignored. */
    method SetFormatterPattern(val: string)
      requires HasFormatter()
      modifies this`formatter, appenders`formatter
      ensures HasFormatter()
      ensures formatter.pattern == if Compiles(val) then val else old(formatter.pattern)
      ensures !Compiles(val) ==>
                formatter == old(formatter) && forall a :: a in appenders ==> a.formatter == old(a.formatter)
      ensures Compiles(val) ==>
                forall a :: a in appenders ==> a.formatter == if a.haveFormatter then old(a.formatter) else formatter
      ensures old(Linked()) ==> Linked()
    {
      var f := new LogFormatter(val);
      if f.error {
        return;
      }
      SetFormatter(f);
    }

    /** Builds one defined appender and attaches it (nnysl/log.cpp:808-822). */
    method AttachDefined(define: AppenderDefine) returns (a: LogAppender)
      requires define.kind == 1 || define.kind == 2
      requires HasFormatter()
      modifies this`appenders
      ensures appenders == old(appenders) + [a]
      ensures fresh(a) && a.home == this && a.Looks(DefinedAppender(define), formatter)
      ensures a.kind == if define.kind == 1 then FileAppender(define.file) else StdoutAppender
      ensures a.level == define.level && a.haveFormatter == (define.formatter != "" && Compiles(define.formatter))
      ensures a.formatter != null
      ensures if a.haveFormatter then a.formatter.pattern == define.formatter else a.formatter == formatter
    {
      if define.kind == 1 {
        a := new LogAppender(FileAppender(define.file));
      } else {
        a := new LogAppender(StdoutAppender);
      }
      a.SetLevel(define.level);
      if define.formatter != "" {
        var fmt := new LogFormatter(define.formatter);
        if !fmt.error {
          a.SetFormatter(fmt);
        }
      }
      a.home := this;
      AddAppender(a);
    }

    /** What the listener does to the logger of a new or changed definition (nnysl/log.cpp:802-823):
        whatever the logger looked like, it ends up as `Configured` says. */
    method Configure(d: LogDefine, ghost v: LogView) returns (ghost made: set<LogAppender>)
      requires WellTyped(d) && Stands(v)
      modifies this`level, this`formatter, this`appenders, appenders`formatter
      ensures Stands(Configured(v.formatter, d))
      ensures fresh(made) && forall a :: a in appenders ==> a in made && a.home == this
    {
      Unfold(v);
      SetLevel(d.level);
      if d.formatter != "" {
        SetFormatterPattern(d.formatter);
      }
      ClearAppenders();
      made := {};
      for k := 0 to |d.appenders|
        invariant HasFormatter() && level == d.level
        invariant formatter.pattern == if Usable(d.formatter) then d.formatter else v.formatter
        invariant fresh(made) && forall a :: a in appenders ==> a in made && a.home == this
        invariant |appenders| == k
        invariant forall j :: 0 <= j < k ==> appenders[j].Looks(DefinedAppender(d.appenders[j]), formatter)
      {
        var a := AttachDefined(d.appenders[k]);
        made := made + {a};
      }
      Unfold(Configured(v.formatter, d));
    }

    /** What the listener does to the logger of a dropped definition (nnysl/log.cpp:829-831). */
    method Mute(ghost v: LogView)
      requires Stands(v)
      modifies this`level, this`appenders
      ensures appenders == [] && Stands(Muted(v.formatter))
    {
      Unfold(v);
      SetLevel(MUTED);
      ClearAppenders();
      Unfold(Muted(v.formatter));
    }
  }

  /** The root logger with its console appender (nnysl/log.cpp:531-532). */
  method NewRoot() returns (r: Logger, out: LogAppender)
    ensures fresh(r) && r.name == "root" && r.root == null && r.Stands(FRESH_ROOT)
    ensures fresh(out) && r.appenders == [out] && out.home == r
  {
    r := new Logger("root", null);
    out := new LogAppender(StdoutAppender);
    out.home := r;
    r.AddAppender(out);
    r.Unfold(FRESH_ROOT);
  }

  /** Being shown includes formatter inheritance. */
  lemma ShowsLinked(l: Logger, v: LogView)
    requires l.Shows(v)
    ensures l.Linked()
  {
    forall a | a in l.appenders ensures a.UsesFormatter(l.formatter) {
      var k :| 0 <= k < |l.appenders| && l.appenders[k] == a;
      assert l.appenders[k].Looks(v.appenders[k], l.formatter);
    }
  }

  /** The positions of the entries whose level the event reaches. */
  ghost function Picks(s: seq<LogAppender>, level: int): seq<nat>
    reads s
  {
    if s == [] then []
    else Picks(s[..|s| - 1], level) + if level >= s[|s| - 1].level then [|s| - 1] else []
  }

  lemma {:induction false} PicksExact(s: seq<LogAppender>, level: int)
    ensures forall i :: 0 <= i < |Picks(s, level)| ==> Picks(s, level)[i] < |s|
    ensures forall i, j :: 0 <= i < j < |Picks(s, level)| ==> Picks(s, level)[i] < Picks(s, level)[j]
    ensures forall k :: 0 <= k < |s| ==> (k in Picks(s, level) <==> level >= s[k].level)
  {
    if s != [] {
      var n := |s| - 1;
      PicksExact(s[..n], level);
      forall k | 0 <= k < |s| ensures k in Picks(s, level) <==> level >= s[k].level {
        if k < n {
          assert s[..n][k] == s[k];
        }
      }
    }
  }

  lemma {:induction false} RecordsArePicks(s: seq<LogAppender>, level: int, ev: Event, i: nat)
    requires forall a :: a in s ==> a.formatter != null
    requires i < |Picks(s, level)|
    ensures Picks(s, level)[i] < |s| && i < |Records(s, level, ev)|
    ensures var a := s[Picks(s, level)[i]];
            Records(s, level, ev)[i] == Delivery(a, Render(a.formatter.items, level, ev))
  {
    var t := s[..|s| - 1];
    SameCount(t, level, ev);
    if i < |Picks(t, level)| {
      RecordsArePicks(t, level, ev, i);
    }
  }

  lemma {:induction false} SameCount(s: seq<LogAppender>, level: int, ev: Event)
    requires forall a :: a in s ==> a.formatter != null
    ensures |Records(s, level, ev)| == |Picks(s, level)|
  {
    if s != [] {
      SameCount(s[..|s| - 1], level, ev);
    }
  }

  /** Each entry whose level the event reaches gets it exactly once, in list order, and nothing
      else is written. */
  lemma RecordsExact(s: seq<LogAppender>, level: int, ev: Event) returns (picks: seq<nat>)
    requires forall a :: a in s ==> a.formatter != null
    ensures forall i, j :: 0 <= i < j < |picks| ==> picks[i] < picks[j]
    ensures forall k :: 0 <= k < |s| ==> (k in picks <==> level >= s[k].level)
    ensures |Records(s, level, ev)| == |picks|
    ensures forall i :: 0 <= i < |picks| ==> picks[i] < |s|
    ensures forall i :: 0 <= i < |picks| ==>
      Records(s, level, ev)[i] == Delivery(s[picks[i]], Render(s[picks[i]].formatter.items, level, ev))
  {
    picks := Picks(s, level);
    PicksExact(s, level);
    SameCount(s, level, ev);
    forall i | 0 <= i < |picks|
      ensures Records(s, level, ev)[i] == Delivery(s[picks[i]], Render(s[picks[i]].formatter.items, level, ev))
    {
      RecordsArePicks(s, level, ev, i);
    }
  }

  // ----- Output in terms of views -----

  function Written(s: seq<Delivery>): seq<Line> {
    if s == [] then [] else Written(s[..|s| - 1]) + [Line(s[|s| - 1].appender.kind, s[|s| - 1].text)]
  }

  lemma {:induction false} WrittenConcat(s: seq<Delivery>, t: seq<Delivery>)
    ensures Written(s + t) == Written(s) + Written(t)
  {
    if t == [] {
      assert s + t == s;
    } else {
      var n := |s + t| - 1;
      assert (s + t)[..n] == s + t[..|t| - 1];
      WrittenConcat(s, t[..|t| - 1]);
    }
  }

  lemma RecordIsLine(a: LogAppender, w: AppenderView, f: LogFormatter, level: int, ev: Event)
    requires a.Looks(w, f)
    ensures a.formatter != null
    ensures Line(a.kind, Render(a.formatter.items, level, ev)) == LineOf(w, f.pattern, level, ev)
  {
    Pattern.Unfold(a.formatter.pattern, a.formatter.items);
  }

  lemma {:induction false} RecordsAreLines(l: Logger, v: LogView, k: nat, level: int, ev: Event)
    requires l.Shows(v) && k <= |l.appenders|
    ensures forall a :: a in l.appenders ==> a.formatter != null
    ensures Written(Records(l.appenders[..k], level, ev)) == LinesOf(v.appenders[..k], v.formatter, level, ev)
  {
    ShowsLinked(l, v);
    if k > 0 {
      var (s, t) := (l.appenders[..k], v.appenders[..k]);
      assert s[..k - 1] == l.appenders[..k - 1] && t[..k - 1] == v.appenders[..k - 1];
      RecordsAreLines(l, v, k - 1, level, ev);
      RecordIsLine(l.appenders[k - 1], v.appenders[k - 1], l.formatter, level, ev);
      var a := l.appenders[k - 1];
      var last := if level >= a.level then [Delivery(a, Render(a.formatter.items, level, ev))] else [];
      WrittenConcat(Records(s[..k - 1], level, ev), last);
      assert last != [] ==> last[..0] == [];
    }
  }
}
