/** Log definitions as configuration trees: what is read from a tree, what is written, and what is
    left after one trip (nnysl/log.cpp:11-45, 592-680, nnysl/config.h:168-185). */
module DefineCodec {
  import opened Pattern
  import opened Reconcile
  import opened ConfigTree

  // ----- Levels -----

  function UpperChar(c: char): char {
    if 'a' <= c <= 'z' then c - ('a' - 'A') else c
  }

  function Upper(s: string): string {
    if s == "" then "" else [UpperChar(s[0])] + Upper(s[1..])
  }

  /** Names are recognised in any case; any other text is no level. */
  function LevelOf(s: string): int {
    var u := Upper(s);
    if u == "DEBUG" then 1 else if u == "INFO" then 2 else if u == "WARN" then 3
    else if u == "ERROR" then 4 else if u == "FATAL" then 5 else UNKNOW
  }

  // ----- Reading -----

  /** `Fails` is an exception thrown by the tree library. */
  datatype Read<+T> = Gives(value: T) | Absent | Fails

  function Field(es: Entries, key: string): Read<Node> {
    if es.End? then Absent else if es.key == key then Gives(es.value) else Field(es.rest, key)
  }

  function Text(es: Entries, key: string): Read<string> {
    match Field(es, key)
    case Gives(Scalar(t)) => Gives(t)
    case Absent => Absent
    case _ => Fails
  }

  function TextOr(r: Read<string>): string {
    if r.Gives? then r.value else ""
  }

  const FILE_TYPE := "FileLogAppender"
  const STDOUT_TYPE := "StdoutLogAppender"
  const PRINTED_FILE_TYPE := "FileAppender"

  /** `Absent` is an appender that is reported and skipped; the level is not read. */
  function ReadAppender(a: Node): Read<AppenderDefine> {
    match a
    case Scalar(_) => Fails
    case Sequence(_) => Absent
    case Map(es) =>
      var (type', file, formatter) := (Text(es, "type"), Text(es, "file"), Text(es, "formatter"));
      if !type'.Gives? then (if type'.Absent? then Absent else Fails)
      else if type'.value == FILE_TYPE then
        if file.Absent? then Absent
        else if file.Fails? || formatter.Fails? then Fails
        else Gives(AppenderDefine(1, UNKNOW, TextOr(formatter), file.value))
      else if type'.value == STDOUT_TYPE then
        if formatter.Fails? then Fails else Gives(AppenderDefine(2, UNKNOW, TextOr(formatter), ""))
      else Absent
  }

  function ReadAppenders(s: seq<Node>): Read<seq<AppenderDefine>> {
    if s == [] then Gives([])
    else
      var (before, a) := (ReadAppenders(s[..|s| - 1]), ReadAppender(s[|s| - 1]));
      if !before.Gives? || a.Fails? then Fails
      else Gives(before.value + if a.Gives? then [a.value] else [])
  }

  function AppenderNodes(r: Read<Node>): seq<Node> {
    if r.Gives? && r.value.Sequence? then r.value.items else []
  }

  function ReadDefine(n: Node): Read<LogDefine> {
    if !n.Map? then Fails
    else
      var (name, level, formatter) := (Text(n.entries, "name"), Text(n.entries, "level"), Text(n.entries, "formatter"));
      var appenders := ReadAppenders(AppenderNodes(Field(n.entries, "appenders")));
      if !name.Gives? || level.Fails? || formatter.Fails? || !appenders.Gives? then Fails
      else Gives(LogDefine(name.value, LevelOf(TextOr(level)), TextOr(formatter), appenders.value))
  }

  /** nnysl/log.cpp:596-644 */
  method ParseDefine(n: Node) returns (r: Read<LogDefine>)
    ensures r == ReadDefine(n)
  {
    if !n.Map? {
      return Fails;
    }
    var name := Text(n.entries, "name");
    if !name.Gives? {
      return Fails;
    }
    var level := Text(n.entries, "level");
    var formatter := Text(n.entries, "formatter");
    if level.Fails? || formatter.Fails? {
      return Fails;
    }
    var nodes := AppenderNodes(Field(n.entries, "appenders"));
    var appenders: seq<AppenderDefine> := [];
    assert nodes[..0] == [];
    for k := 0 to |nodes|
      invariant ReadAppenders(nodes[..k]) == Gives(appenders)
    {
      assert nodes[..k + 1][..k] == nodes[..k];
      var a := ReadAppender(nodes[k]);
      if a.Fails? {
        FailingAppender(nodes, k);
        return Fails;
      }
      assert appenders + [] == appenders;
      if a.Gives? {
        appenders := appenders + [a.value];
      }
    }
    assert nodes[..|nodes|] == nodes;
    return Gives(LogDefine(name.value, LevelOf(TextOr(level)), TextOr(formatter), appenders));
  }

  lemma {:induction false} FailingAppender(s: seq<Node>, k: nat)
    requires k < |s| && ReadAppender(s[k]).Fails?
    ensures ReadAppenders(s) == Fails
  {
    if k < |s| - 1 {
      FailingAppender(s[..|s| - 1], k);
    }
  }

  // ----- Writing (nnysl/log.cpp:651-680) -----

  function PrintFormatter(f: string): Entries {
    if f != "" then Entry("formatter", Scalar(f), End) else End
  }

  function PrintAppender(a: AppenderDefine): Node {
    var rest := Entry("level", Scalar(LevelName(a.level)), PrintFormatter(a.formatter));
    Map(if a.kind == 1 then Entry("type", Scalar(PRINTED_FILE_TYPE), rest)
        else if a.kind == 2 then Entry("type", Scalar(STDOUT_TYPE), rest)
        else rest)
  }

  function PrintAppenders(s: seq<AppenderDefine>): seq<Node> {
    if s == [] then [] else PrintAppenders(s[..|s| - 1]) + [PrintAppender(s[|s| - 1])]
  }

  /** The formatter is written only when it is empty. */
  function PrintDefine(d: LogDefine): Node {
    var appenders := if d.appenders == [] then End else Entry("appenders", Sequence(PrintAppenders(d.appenders)), End);
    Map(Entry("name", Scalar(d.name), Entry("level", Scalar(LevelName(d.level)),
        if d.formatter == "" then Entry("formatter", Scalar(d.formatter), appenders) else appenders)))
  }

  // ----- What one trip leaves -----

  function KnownLevel(level: int): int {
    if 1 <= level <= 5 then level else UNKNOW
  }

  function KeptAppenders(s: seq<AppenderDefine>): seq<AppenderDefine> {
    if s == [] then []
    else
      var a := s[|s| - 1];
      KeptAppenders(s[..|s| - 1]) + if a.kind == 2 then [AppenderDefine(2, UNKNOW, a.formatter, "")] else []
  }

  /** Name, known level and console appenders with their formatters; nothing else. */
  function Projected(d: LogDefine): LogDefine {
    LogDefine(d.name, KnownLevel(d.level), "", KeptAppenders(d.appenders))
  }

  lemma {:induction false} UpperStays(s: string)
    requires forall k :: 0 <= k < |s| ==> !('a' <= s[k] <= 'z')
    ensures Upper(s) == s
  {
    if s != "" {
      assert forall k :: 0 <= k < |s[1..]| ==> s[1..][k] == s[k + 1];
      UpperStays(s[1..]);
      assert s == [s[0]] + s[1..];
    }
  }

  lemma LevelTrip(level: int)
    ensures LevelOf(LevelName(level)) == KnownLevel(level)
  {
    UpperStays(LevelName(level));
  }

  lemma Skipped(es: Entries, key: string)
    requires es.Entry? && es.key != key
    ensures Field(es, key) == Field(es.rest, key) && Text(es, key) == Text(es.rest, key)
  {
  }

  lemma PrintedFormatter(f: string)
    ensures Text(PrintFormatter(f), "formatter") == if f != "" then Gives(f) else Absent
    ensures Text(PrintFormatter(f), "type") == Absent
  {
    assert |"type"| != |"formatter"|;
    if f != "" {
      Skipped(PrintFormatter(f), "type");
    }
  }

  lemma AppenderTrip(a: AppenderDefine)
    ensures ReadAppender(PrintAppender(a)) ==
            if a.kind == 2 then Gives(AppenderDefine(2, UNKNOW, a.formatter, "")) else Absent
  {
    var rest := Entry("level", Scalar(LevelName(a.level)), PrintFormatter(a.formatter));
    PrintedFormatter(a.formatter);
    assert |"level"| != |"formatter"| && |"level"| != |"type"| && |"type"| != |"formatter"|;
    Skipped(rest, "formatter");
    Skipped(rest, "type");
    var es := PrintAppender(a).entries;
    if a.kind == 1 || a.kind == 2 {
      Skipped(es, "formatter");
      assert |PRINTED_FILE_TYPE| != |FILE_TYPE| && |PRINTED_FILE_TYPE| != |STDOUT_TYPE|;
      assert STDOUT_TYPE[0] != FILE_TYPE[0];
    }
  }

  lemma {:induction false} AppendersTrip(s: seq<AppenderDefine>)
    ensures ReadAppenders(PrintAppenders(s)) == Gives(KeptAppenders(s))
  {
    if s != [] {
      var front := s[..|s| - 1];
      AppendersTrip(front);
      AppenderTrip(s[|s| - 1]);
      assert (PrintAppenders(front) + [PrintAppender(s[|s| - 1])])[..|PrintAppenders(front)|] == PrintAppenders(front);
    }
  }

  /** Writing a definition and reading it back is exactly the projection. */
  lemma TripProjects(d: LogDefine)
    ensures ReadDefine(PrintDefine(d)) == Gives(Projected(d))
  {
    LevelTrip(d.level);
    AppendersTrip(d.appenders);
    var es := PrintDefine(d).entries;
    var tail := es.rest.rest;
    assert |"name"| != |"level"| && |"name"| != |"formatter"| && |"level"| != |"formatter"|;
    assert |"name"| != |"appenders"| && |"level"| != |"appenders"| && "formatter"[0] != "appenders"[0];
    Skipped(es, "level");
    Skipped(es, "formatter");
    Skipped(es.rest, "formatter");
    Skipped(es, "appenders");
    Skipped(es.rest, "appenders");
    if d.appenders != [] {
      var last := if d.formatter == "" then tail.rest else tail;
      assert last == Entry("appenders", Sequence(PrintAppenders(d.appenders)), End);
      Skipped(last, "formatter");
    }
    if d.formatter == "" {
      Skipped(tail, "appenders");
    }
  }

  lemma {:induction false} KeptTwice(s: seq<AppenderDefine>)
    ensures KeptAppenders(KeptAppenders(s)) == KeptAppenders(s)
  {
    if s != [] {
      var kept := KeptAppenders(s[..|s| - 1]);
      KeptTwice(s[..|s| - 1]);
      assert forall a: AppenderDefine :: (kept + [a])[..|kept|] == kept;
      assert kept + [] == kept;
    }
  }

  /** A second trip loses nothing more. */
  lemma TripIsIdempotent(d: LogDefine)
    ensures ReadDefine(PrintDefine(Projected(d))) == Gives(Projected(d))
  {
    TripProjects(Projected(d));
    KeptTwice(d.appenders);
  }

  predicate Plain(s: seq<AppenderDefine>) {
    s == [] || (Plain(s[..|s| - 1])
                && var a := s[|s| - 1]; a.kind == 2 && a.level == UNKNOW && a.file == "")
  }

  lemma {:induction false} KeptIffPlain(s: seq<AppenderDefine>)
    ensures |KeptAppenders(s)| <= |s|
    ensures KeptAppenders(s) == s <==> Plain(s)
  {
    if s != [] {
      var front, a := s[..|s| - 1], s[|s| - 1];
      KeptIffPlain(front);
      assert s == front + [a];
      if KeptAppenders(s) == s {
        assert |KeptAppenders(front)| == |front|;
        assert KeptAppenders(front) == KeptAppenders(s)[..|front|] == front;
      }
    }
  }

  /** Exactly which definitions survive the trip: those with a level name, no formatter of their own
      and nothing but console appenders without a level. */
  lemma SurvivesIff(d: LogDefine)
    ensures ReadDefine(PrintDefine(d)) == Gives(d) <==>
            (0 <= d.level <= 5 && d.formatter == "" && Plain(d.appenders))
  {
    TripProjects(d);
    KeptIffPlain(d.appenders);
  }

  // ----- What the listener can meet -----

  lemma {:induction false} ReadAppendersTyped(s: seq<Node>)
    requires ReadAppenders(s).Gives?
    ensures forall a :: a in ReadAppenders(s).value ==>
              a.level == UNKNOW && ((a.kind == 2 && a.file == "") || a.kind == 1)
    ensures forall a :: a in ReadAppenders(s).value && a.kind == 1 ==>
              exists n :: n in s && n.Map? && Text(n.entries, "type") == Gives(FILE_TYPE)
                          && Text(n.entries, "file") == Gives(a.file)
  {
    if s != [] {
      ReadAppendersTyped(s[..|s| - 1]);
      var n := s[|s| - 1];
      assert n in s;
    }
  }

  /** A definition that has been read has no appender of an unknown type, so the listener never
      meets a null appender. */
  lemma ReadIsWellTyped(n: Node)
    requires ReadDefine(n).Gives?
    ensures WellTyped(ReadDefine(n).value)
  {
    ReadAppendersTyped(AppenderNodes(Field(n.entries, "appenders")));
  }

  /** Reading the whole set: a failing element fails it, and of equal names the first stays. */
  function ReadDefines(s: seq<Node>): Read<DefineSet> {
    if s == [] then Gives(map[])
    else
      var (before, d) := (ReadDefines(s[..|s| - 1]), ReadDefine(s[|s| - 1]));
      if !before.Gives? || !d.Gives? then Fails
      else Gives(Inserted(before.value, d.value))
  }

  function Inserted(v: DefineSet, d: LogDefine): DefineSet {
    if d.name in v then v else v[d.name := d]
  }

  lemma {:induction false} FailingDefine(s: seq<Node>, k: nat)
    requires k < |s| && !ReadDefine(s[k]).Gives?
    ensures ReadDefines(s) == Fails
  {
    if k < |s| - 1 {
      FailingDefine(s[..|s| - 1], k);
    }
  }

  /** nnysl/config.h:168-185 */
  method ParseDefines(s: seq<Node>) returns (r: Read<DefineSet>)
    ensures r == ReadDefines(s)
  {
    var vec: DefineSet := map[];
    assert s[..0] == [];
    for i := 0 to |s|
      invariant ReadDefines(s[..i]) == Gives(vec)
    {
      assert s[..i + 1][..i] == s[..i];
      var d := ParseDefine(s[i]);
      if !d.Gives? {
        FailingDefine(s, i);
        return Fails;
      }
      vec := Inserted(vec, d.value);
    }
    assert s[..|s|] == s;
    return Gives(vec);
  }

  lemma InsertedTyped(v: DefineSet, d: LogDefine)
    requires AllWellTyped(v) && WellTyped(d)
    ensures AllWellTyped(Inserted(v, d))
  {
  }

  /** Whatever the configuration says, the listener can work with it. */
  lemma {:induction false} ReadSetIsWellTyped(s: seq<Node>)
    requires ReadDefines(s).Gives?
    ensures AllWellTyped(ReadDefines(s).value)
  {
    if s != [] {
      var front, n := s[..|s| - 1], s[|s| - 1];
      ReadSetIsWellTyped(front);
      ReadIsWellTyped(n);
      InsertedTyped(ReadDefines(front).value, ReadDefine(n).value);
    }
  }

  predicate Defines(n: Node, name: string) {
    ReadDefine(n).Gives? && ReadDefine(n).value.name == name
  }

  /** The first element that defines the name, or the length when there is none. */
  function FirstAt(s: seq<Node>, name: string): (k: nat)
    ensures k <= |s|
    ensures k < |s| ==> Defines(s[k], name)
    ensures forall j :: 0 <= j < k ==> !Defines(s[j], name)
  {
    if s == [] then 0
    else
      var front := s[..|s| - 1];
      var k := FirstAt(front, name);
      assert forall j :: 0 <= j < |front| ==> front[j] == s[j];
      if k < |front| || Defines(s[|s| - 1], name) then k else |s|
  }

  /** Each name is defined by the first element that has it, completely, and by no later one. */
  lemma {:induction false} FirstDefinitionWins(s: seq<Node>, name: string)
    requires ReadDefines(s).Gives?
    ensures name in ReadDefines(s).value <==> FirstAt(s, name) < |s|
    ensures name in ReadDefines(s).value ==>
              ReadDefine(s[FirstAt(s, name)]) == Gives(ReadDefines(s).value[name])
  {
    if s != [] {
      FirstDefinitionWins(s[..|s| - 1], name);
    }
  }

  /** The value of the variable: a list of definitions.  Text is an empty list; the entries of
      a map are no elements, and asking them for a name throws. */
  function ReadSet(n: Node): Read<DefineSet> {
    match n
    case Scalar(_) => Gives(map[])
    case Sequence(items) => ReadDefines(items)
    case Map(es) => if es.End? then Gives(map[]) else Fails
  }

  method ParseSet(n: Node) returns (r: Read<DefineSet>)
    ensures r == ReadSet(n) && (r.Gives? ==> AllWellTyped(r.value))
  {
    match n {
      case Scalar(_) => r := Gives(map[]);
      case Sequence(items) =>
        r := ParseDefines(items);
        if r.Gives? {
          ReadSetIsWellTyped(items);
        }
      case Map(es) => r := if es.End? then Gives(map[]) else Fails;
    }
  }
}
