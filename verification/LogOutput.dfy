/** What loggers write, said over histories and from the definitions themselves
    (nnysl/log.cpp:107-121, 299-328, 784-833). */
module LogOutput {
  import opened Wrappers
  import opened Pattern
  import opened PatternOutput
  import opened PatternTable
  import opened DefaultPattern
  import opened Reconcile

  // ----- The lines of a view -----

  /** Positions of the appenders that the event reaches. */
  function Reached(s: seq<AppenderView>, level: int): seq<nat> {
    if s == [] then []
    else Reached(s[..|s| - 1], level) + if level >= s[|s| - 1].level then [|s| - 1] else []
  }

  lemma {:induction false} ReachedExactly(s: seq<AppenderView>, level: int)
    ensures forall i :: 0 <= i < |Reached(s, level)| ==> Reached(s, level)[i] < |s|
    ensures forall i, j :: 0 <= i < j < |Reached(s, level)| ==> Reached(s, level)[i] < Reached(s, level)[j]
    ensures forall k :: 0 <= k < |s| ==> (k in Reached(s, level) <==> level >= s[k].level)
  {
    if s != [] {
      var n := |s| - 1;
      ReachedExactly(s[..n], level);
      forall k | 0 <= k < |s| ensures k in Reached(s, level) <==> level >= s[k].level {
        if k < n {
          assert s[..n][k] == s[k];
        }
      }
    }
  }

  lemma {:induction false} LineAt(s: seq<AppenderView>, f: string, level: int, ev: Event, i: nat)
    requires i < |Reached(s, level)|
    ensures |LinesOf(s, f, level, ev)| == |Reached(s, level)| && Reached(s, level)[i] < |s|
    ensures var a := s[Reached(s, level)[i]];
            LinesOf(s, f, level, ev)[i] == Line(a.kind, Output(if a.own.Some? then a.own.value else f, level, ev))
  {
    var t := s[..|s| - 1];
    SameCount(t, f, level, ev);
    if i < |Reached(t, level)| {
      LineAt(t, f, level, ev, i);
    }
  }

  lemma {:induction false} SameCount(s: seq<AppenderView>, f: string, level: int, ev: Event)
    ensures |LinesOf(s, f, level, ev)| == |Reached(s, level)|
  {
    if s != [] {
      SameCount(s[..|s| - 1], f, level, ev);
    }
  }

  /** The lines of one list: one for each appender that the event reaches, in order, of its kind, with
      the text of its own formatter or of the logger's. */
  ghost predicate LinesFrom(lines: seq<Line>, picks: seq<nat>, s: seq<AppenderView>, f: string, level: int, ev: Event) {
    && |lines| == |picks|
    && (forall i, j :: 0 <= i < j < |picks| ==> picks[i] < picks[j])
    && (forall k :: 0 <= k < |s| ==> (k in picks <==> level >= s[k].level))
    && (forall i :: 0 <= i < |picks| ==> picks[i] < |s|)
    && forall i :: 0 <= i < |picks| ==>
         var a := s[picks[i]];
         lines[i] == Line(a.kind, Output(if a.own.Some? then a.own.value else f, level, ev))
  }

  lemma LinesOfList(s: seq<AppenderView>, f: string, level: int, ev: Event)
    ensures LinesFrom(LinesOf(s, f, level, ev), Reached(s, level), s, f, level, ev)
  {
    ReachedExactly(s, level);
    SameCount(s, f, level, ev);
    forall i | 0 <= i < |Reached(s, level)|
      ensures var a := s[Reached(s, level)[i]];
              LinesOf(s, f, level, ev)[i] == Line(a.kind, Output(if a.own.Some? then a.own.value else f, level, ev))
    {
      LineAt(s, f, level, ev, i);
    }
  }

  /** Routing: nothing below the logger's level; its own list if there is one; else root's, unless
      the event is below root's level. */
  lemma LinesExactly(v: LogView, root: LogView, level: int, ev: Event) returns (picks: seq<nat>)
    ensures level < v.level ==> Lines(v, root, level, ev) == []
    ensures level >= v.level && v.appenders != [] ==>
              LinesFrom(Lines(v, root, level, ev), picks, v.appenders, v.formatter, level, ev)
    ensures level >= v.level && v.appenders == [] && level < root.level ==> Lines(v, root, level, ev) == []
    ensures level >= v.level && v.appenders == [] && level >= root.level ==>
              LinesFrom(Lines(v, root, level, ev), picks, root.appenders, root.formatter, level, ev)
  {
    var t := if v.appenders != [] then v else root;
    picks := Reached(t.appenders, level);
    LinesOfList(t.appenders, t.formatter, level, ev);
  }

  // ----- The history read from the outside -----

  /** Definition set `k` of the history gives `n` a formatter that is taken over. */
  predicate GivesFormatter(op: Op, n: string) {
    op.SetDefines? && n in op.v && op.v[n].formatter != "" && Compiles(op.v[n].formatter)
  }

  /** The formatter in force is the one given last, by step `k`, and the default when none ever was. */
  lemma {:induction false} LastFormatterExactly(ops: seq<Op>, n: string) returns (k: int)
    ensures -1 <= k < |ops| && forall j :: k < j < |ops| ==> !GivesFormatter(ops[j], n)
    ensures k >= 0 ==> GivesFormatter(ops[k], n) && LastFormatter(ops, n) == ops[k].v[n].formatter
    ensures k < 0 ==> LastFormatter(ops, n) == DEFAULT_PATTERN
  {
    k := -1;
    if ops != [] {
      var front := ops[..|ops| - 1];
      if GivesFormatter(ops[|ops| - 1], n) {
        k := |ops| - 1;
      } else {
        k := LastFormatterExactly(front, n);
        assert forall j :: 0 <= j < |front| ==> front[j] == ops[j];
      }
    }
  }

  /** The definitions in force are those set last, by step `k`, and none before any were. */
  lemma {:induction false} LastDefinesExactly(ops: seq<Op>) returns (k: int)
    ensures -1 <= k < |ops| && forall j :: k < j < |ops| ==> !ops[j].SetDefines?
    ensures k >= 0 ==> ops[k].SetDefines? && LastDefines(ops) == ops[k].v
    ensures k < 0 ==> LastDefines(ops) == map[]
  {
    k := -1;
    if ops != [] {
      var front := ops[..|ops| - 1];
      if ops[|ops| - 1].SetDefines? {
        k := |ops| - 1;
      } else {
        k := LastDefinesExactly(front);
        assert forall j :: 0 <= j < |front| ==> front[j] == ops[j];
      }
    }
  }

  /** A name was ever defined, or fetched, iff some step did it. */
  lemma {:induction false} EverExactly(ops: seq<Op>, n: string)
    ensures EverDefined(ops, n) <==> exists k :: 0 <= k < |ops| && ops[k].SetDefines? && n in ops[k].v
    ensures EverFetched(ops, n) <==> GetLogger(n) in ops
  {
    if ops != [] {
      var front := ops[..|ops| - 1];
      EverExactly(front, n);
      assert ops == front + [ops[|ops| - 1]];
    }
  }

  // ----- What a defined logger writes -----

  /** The formatter of a defined appender: its own if it is not empty and free of error, else the
      logger's. */
  function TextOf(a: AppenderDefine, f: string, level: int, ev: Event): string {
    Output(if a.formatter != "" && Compiles(a.formatter) then a.formatter else f, level, ev)
  }

  function KindOf(a: AppenderDefine): AppenderKind {
    if a.kind == 1 then FileAppender(a.file) else StdoutAppender
  }

  /** One line for each defined appender that the event reaches, in order: to the defined file or to
      standard output, as its own formatter or the logger's, `f`, renders it. */
  ghost predicate DefinedLines(lines: seq<Line>, picks: seq<nat>, s: seq<AppenderDefine>, f: string,
                               level: int, ev: Event) {
    && |lines| == |picks|
    && (forall i, j :: 0 <= i < j < |picks| ==> picks[i] < picks[j])
    && (forall k :: 0 <= k < |s| ==> (k in picks <==> level >= s[k].level))
    && (forall i :: 0 <= i < |picks| ==> picks[i] < |s|)
    && forall i :: 0 <= i < |picks| ==>
         lines[i] == Line(KindOf(s[picks[i]]), TextOf(s[picks[i]], f, level, ev))
  }

  lemma DefinedAppenderIs(a: AppenderDefine, f: string, level: int, ev: Event)
    ensures var v := DefinedAppender(a);
            && v.level == a.level && v.kind == KindOf(a)
            && Output(if v.own.Some? then v.own.value else f, level, ev) == TextOf(a, f, level, ev)
  {
  }

  lemma DefinedLinesOf(lines: seq<Line>, picks: seq<nat>, s: seq<AppenderDefine>, f: string, level: int, ev: Event)
    requires LinesFrom(lines, picks, DefinedAppenders(s), f, level, ev)
    ensures DefinedLines(lines, picks, s, f, level, ev)
  {
    forall k | 0 <= k < |s| ensures k in picks <==> level >= s[k].level {
      DefinedAppenderIs(s[k], f, level, ev);
    }
    forall i | 0 <= i < |picks| ensures lines[i] == Line(KindOf(s[picks[i]]), TextOf(s[picks[i]], f, level, ev)) {
      DefinedAppenderIs(s[picks[i]], f, level, ev);
    }
  }

  lemma DefinedView(ops: seq<Op>, n: string)
    requires n in LastDefines(ops)
    ensures n in Run(ops).views && "root" in Run(ops).views
    ensures var (v, d) := (Run(ops).views[n], LastDefines(ops)[n]);
            && v.level == d.level && v.formatter == LastFormatter(ops, n) && |v.appenders| == |d.appenders|
            && v.appenders == DefinedAppenders(d.appenders)
  {
    RunReconciles(ops, n);
    RunKnows(ops, "root");
    LastIsEver(ops, n);
  }

  /** After any history, what a defined logger writes. */
  lemma DefinedWrites(ops: seq<Op>, n: string, level: int, ev: Event) returns (lines: seq<Line>, picks: seq<nat>)
    requires n in LastDefines(ops)
    ensures n in Run(ops).views && "root" in Run(ops).views
    ensures lines == Lines(Run(ops).views[n], Run(ops).views["root"], level, ev)
    ensures level < LastDefines(ops)[n].level ==> lines == []
    ensures level >= LastDefines(ops)[n].level && LastDefines(ops)[n].appenders != [] ==>
              DefinedLines(lines, picks, LastDefines(ops)[n].appenders, LastFormatter(ops, n), level, ev)
    ensures level >= LastDefines(ops)[n].level && LastDefines(ops)[n].appenders == [] ==>
              lines == Lines(Run(ops).views["root"], Run(ops).views["root"], level, ev)
  {
    DefinedView(ops, n);
    var v, root, d := Run(ops).views[n], Run(ops).views["root"], LastDefines(ops)[n];
    lines := Lines(v, root, level, ev);
    picks := LinesExactly(v, root, level, ev);
    if level >= d.level && d.appenders != [] {
      DefinedLinesOf(lines, picks, d.appenders, LastFormatter(ops, n), level, ev);
    }
  }

  // ----- Loggers without a definition -----

  /** A dropped logger has level 100 and no appenders. */
  lemma DroppedView(ops: seq<Op>, n: string)
    requires EverDefined(ops, n) && n !in LastDefines(ops)
    ensures n in Run(ops).views && Run(ops).views[n].level == 100 && Run(ops).views[n].appenders == []
  {
    RunReconciles(ops, n);
  }

  /** Before anything is defined, a logger writes one line to standard output, by way of root, in the
      default format, for every event that is at least DEBUG. */
  lemma FreshWrites(ops: seq<Op>, n: string, level: int, ev: Event)
    requires !EverDefined(ops, n) && !EverDefined(ops, "root") && n in Run(ops).views
    ensures "root" in Run(ops).views
    ensures Lines(Run(ops).views[n], Run(ops).views["root"], level, ev) ==
            if level < 1 then [] else [Line(StdoutAppender, Output(DEFAULT_PATTERN, level, ev))]
  {
    RunReconciles(ops, n);
    RunKnows(ops, "root");
    RunReconciles(ops, "root");
    var s := FRESH_ROOT.appenders;
    assert s[..0] == [];
    assert LinesOf(s, DEFAULT_PATTERN, level, ev) ==
           LinesOf(s[..0], DEFAULT_PATTERN, level, ev)
           + if level >= s[0].level then [LineOf(s[0], DEFAULT_PATTERN, level, ev)] else [];
  }

  /** Changes are reported at the level whose name is INFO. */
  lemma ReportIsInfo(p: string, ev: Event)
    requires |p| == 2 && p[0] == '%' && p[1] == 'p'
    ensures Output(p, INFO, ev) == "INFO"
  {
    LevelOutputs(p, INFO, ev);
  }
}
