/** Which trees stand for which definitions, said without the reader: every key it accepts, in any
    order, with level names in any letter case (nnysl/log.cpp:31-45, 592-646; bin/conf/log.yaml). */
module DefineTrees {
  import opened Pattern
  import opened Reconcile
  import opened ConfigTree
  import opened DefineCodec

  // ----- Maps written in any order -----

  function FromPairs(ps: seq<(string, Node)>): Entries {
    if ps == [] then End else Entry(ps[0].0, ps[0].1, FromPairs(ps[1..]))
  }

  predicate DistinctKeys(ps: seq<(string, Node)>) {
    forall i, j :: 0 <= i < j < |ps| ==> ps[i].0 != ps[j].0
  }

  predicate NoKey(ps: seq<(string, Node)>, key: string) {
    forall i :: 0 <= i < |ps| ==> ps[i].0 != key
  }

  lemma {:induction false} FieldGives(ps: seq<(string, Node)>, key: string, value: Node)
    requires DistinctKeys(ps) && (key, value) in ps
    ensures Field(FromPairs(ps), key) == Gives(value)
  {
    if ps[0] != (key, value) {
      var k :| 1 <= k < |ps| && ps[k] == (key, value);
      assert ps[1..][k - 1] == ps[k];
      FieldGives(ps[1..], key, value);
    }
  }

  lemma {:induction false} FieldAbsent(ps: seq<(string, Node)>, key: string)
    requires NoKey(ps, key)
    ensures Field(FromPairs(ps), key) == Absent
  {
    if ps != [] {
      FieldAbsent(ps[1..], key);
    }
  }

  /** The map has that text under the key; no text may also mean no key. */
  predicate HasText(ps: seq<(string, Node)>, key: string, text: string) {
    (key, Scalar(text)) in ps || (text == "" && NoKey(ps, key))
  }

  lemma TextReads(ps: seq<(string, Node)>, key: string, text: string)
    requires DistinctKeys(ps) && HasText(ps, key, text)
    ensures !Text(FromPairs(ps), key).Fails? && TextOr(Text(FromPairs(ps), key)) == text
    ensures (key, Scalar(text)) in ps ==> Text(FromPairs(ps), key) == Gives(text)
  {
    if (key, Scalar(text)) in ps {
      FieldGives(ps, key, Scalar(text));
    } else {
      FieldAbsent(ps, key);
    }
  }

  // ----- Levels -----

  /** The same letters, in whatever case. */
  predicate SameLetters(t: string, name: string) {
    |t| == |name| && forall k :: 0 <= k < |t| ==> t[k] == name[k] || t[k] as int == name[k] as int + 32
  }

  predicate Capitals(name: string) {
    forall k :: 0 <= k < |name| ==> 'A' <= name[k] <= 'Z'
  }

  lemma LettersSplit(t: string, name: string)
    requires t != "" && name != ""
    ensures SameLetters(t, name) <==> SameLetters([t[0]], [name[0]]) && SameLetters(t[1..], name[1..])
  {
    if SameLetters([t[0]], [name[0]]) && SameLetters(t[1..], name[1..]) {
      forall k | 0 <= k < |t| ensures t[k] == name[k] || t[k] as int == name[k] as int + 32 {
        if k == 0 {
          assert [t[0]][0] == t[0];
        } else {
          assert t[1..][k - 1] == t[k] && name[1..][k - 1] == name[k];
        }
      }
    }
  }

  lemma {:induction false} UpperIff(t: string, name: string)
    requires Capitals(name)
    ensures Upper(t) == name <==> SameLetters(t, name)
  {
    if t != "" && name != "" {
      UpperIff(t[1..], name[1..]);
      assert Upper(t)[1..] == Upper(t[1..]) && Upper(t)[0] == UpperChar(t[0]);
      assert t == [t[0]] + t[1..] && name == [name[0]] + name[1..];
      assert SameLetters(t, name) <==> SameLetters([t[0]], [name[0]]) && SameLetters(t[1..], name[1..]) by {
        LettersSplit(t, name);
      }
    }
  }

  predicate WrittenAs(t: string, level: int) {
    match level
    case 1 => SameLetters(t, "DEBUG")
    case 2 => SameLetters(t, "INFO")
    case 3 => SameLetters(t, "WARN")
    case 4 => SameLetters(t, "ERROR")
    case 5 => SameLetters(t, "FATAL")
    case 0 =>
      !SameLetters(t, "DEBUG") && !SameLetters(t, "INFO") && !SameLetters(t, "WARN")
      && !SameLetters(t, "ERROR") && !SameLetters(t, "FATAL")
    case _ => false
  }

  /** A level's name is recognised in any letter case; any other text, or none, is UNKNOW. */
  lemma LevelReads(t: string, level: int)
    ensures WrittenAs(t, level) <==> LevelOf(t) == level
  {
    UpperIff(t, "DEBUG");
    UpperIff(t, "INFO");
    UpperIff(t, "WARN");
    UpperIff(t, "ERROR");
    UpperIff(t, "FATAL");
  }

  // ----- Appenders -----

  /** A map that stands for the appender; it may have other keys, a level among them, which say nothing. */
  predicate AppenderTree(ps: seq<(string, Node)>, a: AppenderDefine) {
    && DistinctKeys(ps) && a.level == 0 && HasText(ps, "formatter", a.formatter)
    && match a.kind
       case 1 => ("type", Scalar("FileLogAppender")) in ps && ("file", Scalar(a.file)) in ps
       case 2 => ("type", Scalar("StdoutLogAppender")) in ps && a.file == ""
       case _ => false
  }

  /** A map that is reported and skipped: without a type, of another type, or a file appender without
      a file. */
  predicate SkippedTree(ps: seq<(string, Node)>, type': string) {
    && DistinctKeys(ps)
    && (NoKey(ps, "type")
        || (("type", Scalar(type')) in ps && type' != "FileLogAppender" && type' != "StdoutLogAppender")
        || (("type", Scalar("FileLogAppender")) in ps && NoKey(ps, "file")))
  }

  lemma FileReads(ps: seq<(string, Node)>, a: AppenderDefine)
    requires AppenderTree(ps, a) && a.kind == 1
    ensures ReadAppender(Map(FromPairs(ps))) == Gives(a)
  {
    TextReads(ps, "formatter", a.formatter);
    TextReads(ps, "type", "FileLogAppender");
    TextReads(ps, "file", a.file);
  }

  lemma StdoutReads(ps: seq<(string, Node)>, a: AppenderDefine)
    requires AppenderTree(ps, a) && a.kind == 2
    ensures ReadAppender(Map(FromPairs(ps))) == Gives(a)
  {
    TextReads(ps, "formatter", a.formatter);
    TextReads(ps, "type", "StdoutLogAppender");
    assert "StdoutLogAppender"[0] != "FileLogAppender"[0];
  }

  lemma SkippedReads(ps: seq<(string, Node)>, type': string)
    requires SkippedTree(ps, type')
    ensures ReadAppender(Map(FromPairs(ps))) == Absent
  {
    if NoKey(ps, "type") {
      FieldAbsent(ps, "type");
    } else if ("type", Scalar("FileLogAppender")) in ps && NoKey(ps, "file") {
      TextReads(ps, "type", "FileLogAppender");
      FieldAbsent(ps, "file");
    } else {
      TextReads(ps, "type", type');
    }
  }

  /** An element of the list: a map that stands for an appender, or one that is skipped. */
  datatype Element =
    | Stands(pairs: seq<(string, Node)>, a: AppenderDefine)
    | Ignored(pairs: seq<(string, Node)>, type': string)

  predicate Sensible(e: Element) {
    match e
    case Stands(ps, a) => AppenderTree(ps, a)
    case Ignored(ps, type') => SkippedTree(ps, type')
  }

  function Nodes(es: seq<Element>): seq<Node> {
    if es == [] then [] else Nodes(es[..|es| - 1]) + [Map(FromPairs(es[|es| - 1].pairs))]
  }

  /** The appenders among them, in order. */
  function Appenders(es: seq<Element>): seq<AppenderDefine> {
    if es == [] then []
    else Appenders(es[..|es| - 1]) + if es[|es| - 1].Stands? then [es[|es| - 1].a] else []
  }

  predicate AllSensible(es: seq<Element>) {
    es == [] || (AllSensible(es[..|es| - 1]) && Sensible(es[|es| - 1]))
  }

  lemma ElementReads(e: Element)
    requires Sensible(e)
    ensures ReadAppender(Map(FromPairs(e.pairs))) == if e.Stands? then Gives(e.a) else Absent
  {
    if e.Ignored? {
      SkippedReads(e.pairs, e.type');
    } else if e.a.kind == 1 {
      FileReads(e.pairs, e.a);
    } else {
      StdoutReads(e.pairs, e.a);
    }
  }

  lemma {:induction false} ElementsRead(es: seq<Element>)
    requires AllSensible(es)
    ensures ReadAppenders(Nodes(es)) == Gives(Appenders(es))
  {
    if es != [] {
      var front, n := es[..|es| - 1], Map(FromPairs(es[|es| - 1].pairs));
      ElementsRead(front);
      ElementReads(es[|es| - 1]);
      assert (Nodes(front) + [n])[..|Nodes(front)|] == Nodes(front);
    }
  }

  // ----- Definitions -----

  /** A map that stands for the definition, written in any order and with any other keys. */
  predicate DefineTree(ps: seq<(string, Node)>, d: LogDefine, level: string, es: seq<Element>) {
    && DistinctKeys(ps) && ("name", Scalar(d.name)) in ps
    && HasText(ps, "level", level) && WrittenAs(level, d.level)
    && HasText(ps, "formatter", d.formatter)
    && (("appenders", Sequence(Nodes(es))) in ps || (es == [] && NoKey(ps, "appenders")))
    && AllSensible(es) && d.appenders == Appenders(es)
  }

  /** Every tree that stands for a definition reads as exactly that definition. */
  lemma DefineReads(ps: seq<(string, Node)>, d: LogDefine, level: string, es: seq<Element>)
    requires DefineTree(ps, d, level, es)
    ensures ReadDefine(Map(FromPairs(ps))) == Gives(d)
  {
    TextReads(ps, "name", d.name);
    TextReads(ps, "level", level);
    TextReads(ps, "formatter", d.formatter);
    LevelReads(level, d.level);
    ElementsRead(es);
    if ("appenders", Sequence(Nodes(es))) in ps {
      FieldGives(ps, "appenders", Sequence(Nodes(es)));
    } else {
      FieldAbsent(ps, "appenders");
    }
  }

  // ----- A full writer -----

  /** What the reader can tell apart. */
  predicate Readable(d: LogDefine) {
    && 0 <= d.level <= 5
    && forall k :: 0 <= k < |d.appenders| ==>
         var a := d.appenders[k]; a.level == 0 && (a.kind == 1 || (a.kind == 2 && a.file == ""))
  }

  function LevelWord(level: int): string {
    match level
    case 1 => "debug" case 2 => "info" case 3 => "warn" case 4 => "error" case 5 => "fatal" case _ => ""
  }

  function WriteAppender(a: AppenderDefine): seq<(string, Node)> {
    if a.kind == 1
    then [("type", Scalar("FileLogAppender")), ("file", Scalar(a.file)), ("formatter", Scalar(a.formatter))]
    else [("type", Scalar("StdoutLogAppender")), ("formatter", Scalar(a.formatter))]
  }

  function WriteAppenders(s: seq<AppenderDefine>): seq<Element> {
    if s == [] then [] else WriteAppenders(s[..|s| - 1]) + [Stands(WriteAppender(s[|s| - 1]), s[|s| - 1])]
  }

  function WritePairs(d: LogDefine, level: string, appenders: Node): seq<(string, Node)> {
    [("name", Scalar(d.name)), ("level", Scalar(level)), ("formatter", Scalar(d.formatter)), ("appenders", appenders)]
  }

  /** Everything the reader accepts, spelled as it spells it. */
  function WriteDefine(d: LogDefine): Node {
    Map(FromPairs(WritePairs(d, LevelWord(d.level), Sequence(Nodes(WriteAppenders(d.appenders))))))
  }

  lemma WrittenFile(a: AppenderDefine)
    requires a.level == 0 && a.kind == 1
    ensures AppenderTree(WriteAppender(a), a)
  {
    var ps := WriteAppender(a);
    assert |ps[0].0| == 4 && |ps[1].0| == 4 && |ps[2].0| == 9 && ps[0].0[0] != ps[1].0[0];
    assert ps[0] in ps && ps[1] in ps && ps[2] in ps;
  }

  lemma WrittenStdout(a: AppenderDefine)
    requires a.level == 0 && a.kind == 2 && a.file == ""
    ensures AppenderTree(WriteAppender(a), a)
  {
    var ps := WriteAppender(a);
    assert |ps[0].0| == 4 && |ps[1].0| == 9;
    assert ps[0] in ps && ps[1] in ps;
  }

  lemma {:induction false} WrittenAppenders(s: seq<AppenderDefine>)
    requires forall k :: 0 <= k < |s| ==> s[k].level == 0 && (s[k].kind == 1 || (s[k].kind == 2 && s[k].file == ""))
    ensures AllSensible(WriteAppenders(s)) && Appenders(WriteAppenders(s)) == s
  {
    if s != [] {
      var front, a := s[..|s| - 1], s[|s| - 1];
      WrittenAppenders(front);
      if a.kind == 1 {
        WrittenFile(a);
      } else {
        WrittenStdout(a);
      }
      var es := WriteAppenders(front);
      assert (es + [Stands(WriteAppender(a), a)])[..|es|] == es;
      assert s == front + [a];
    }
  }

  lemma WrittenPairs(d: LogDefine, level: string, appenders: Node)
    ensures var ps := WritePairs(d, level, appenders);
            && DistinctKeys(ps) && ("name", Scalar(d.name)) in ps && ("level", Scalar(level)) in ps
            && ("formatter", Scalar(d.formatter)) in ps && ("appenders", appenders) in ps
  {
    var ps := WritePairs(d, level, appenders);
    assert |ps[0].0| == 4 && |ps[1].0| == 5 && |ps[2].0| == 9 && |ps[3].0| == 9 && ps[2].0[0] != ps[3].0[0];
    assert ps[0] in ps && ps[1] in ps && ps[2] in ps && ps[3] in ps;
  }

  lemma LevelWordIs(level: int)
    requires 0 <= level <= 5
    ensures WrittenAs(LevelWord(level), level)
  {
  }

  /** Reading undoes full writing, for every definition the reader can tell apart. */
  lemma ReadWrite(d: LogDefine)
    requires Readable(d)
    ensures ReadDefine(WriteDefine(d)) == Gives(d)
  {
    var es, level := WriteAppenders(d.appenders), LevelWord(d.level);
    WrittenAppenders(d.appenders);
    WrittenPairs(d, level, Sequence(Nodes(es)));
    LevelWordIs(d.level);
    DefineReads(WritePairs(d, level, Sequence(Nodes(es))), d, level, es);
  }

  // ----- Whole sets -----

  /** The first `k` of the definitions named by `q`, written out as a list. */
  function WriteSet(v: DefineSet, q: seq<string>, k: nat): seq<Node>
    requires k <= |q| && forall j :: 0 <= j < k ==> q[j] in v
  {
    if k == 0 then [] else WriteSet(v, q, k - 1) + [WriteDefine(v[q[k - 1]])]
  }

  predicate AllReadable(v: DefineSet) {
    forall n :: n in v ==> Readable(v[n])
  }

  lemma {:induction false} SetReads(v: DefineSet, q: seq<string>, k: nat)
    requires k <= |q| && Distinct(q, k)
    requires AllReadable(v) && forall j :: 0 <= j < k ==> q[j] in v
    ensures ReadDefines(WriteSet(v, q, k)).Gives?
    ensures var r := ReadDefines(WriteSet(v, q, k)).value;
            r.Keys == Elements(q, k) && forall n :: n in r ==> n in v && r[n] == v[n]
  {
    if k > 0 {
      SetReads(v, q, k - 1);
      ReadWrite(v[q[k - 1]]);
      var front := WriteSet(v, q, k - 1);
      assert (front + [WriteDefine(v[q[k - 1]])])[..|front|] == front;
    }
  }

  lemma SameSet(r: DefineSet, v: DefineSet)
    requires r.Keys == v.Keys && forall n :: n in r ==> n in v && r[n] == v[n]
    ensures r == v
  {
  }

  /** A set written out as a list of its definitions, in any order, reads as that set. */
  lemma SetReadWrite(v: DefineSet, q: seq<string>)
    requires Distinct(q, |q|) && Elements(q, |q|) == v.Keys && AllReadable(v)
    ensures forall j :: 0 <= j < |q| ==> q[j] in v
    ensures ReadSet(Sequence(WriteSet(v, q, |q|))) == Gives(v)
  {
    forall j | 0 <= j < |q| ensures q[j] in v {
      ElementAmong(q, |q|, j);
    }
    SetReads(v, q, |q|);
    SameSet(ReadDefines(WriteSet(v, q, |q|)).value, v);
  }

  /** Text and an empty map are empty sets; any other map throws. */
  lemma NoList(t: string, es: Entries)
    ensures ReadSet(Scalar(t)) == Gives(map[])
    ensures ReadSet(Map(es)) == if es == End then Gives(map[]) else Fails
  {
  }

  // ----- Trees that cannot be read -----

  /** A definition without a name, or whose name, level or formatter is no text, throws. */
  lemma DefineThrows(ps: seq<(string, Node)>, key: string, value: Node)
    requires DistinctKeys(ps)
    requires NoKey(ps, "name") || (!value.Scalar? && (key, value) in ps && key in {"name", "level", "formatter"})
    ensures ReadDefine(Map(FromPairs(ps))) == Fails
  {
    if NoKey(ps, "name") {
      FieldAbsent(ps, "name");
    } else {
      FieldGives(ps, key, value);
    }
  }

  // ----- What is written -----

  /** The program's own writer, field by field: the formatter only when it is empty. */
  lemma PrintedFields(d: LogDefine)
    ensures var es := PrintDefine(d).entries;
            && Text(es, "name") == Gives(d.name) && Text(es, "level") == Gives(LevelName(d.level))
            && Text(es, "formatter") == (if d.formatter == "" then Gives("") else Absent)
            && Field(es, "appenders") ==
               if d.appenders == [] then Absent else Gives(Sequence(PrintAppenders(d.appenders)))
  {
    var es := PrintDefine(d).entries;
    var tail := es.rest.rest;
    assert |"name"| == 4 && |"level"| == 5 && |"formatter"| == 9 && |"appenders"| == 9;
    assert "formatter"[0] != "appenders"[0];
    Skipped(es, "level");
    Skipped(es, "formatter");
    Skipped(es.rest, "formatter");
    Skipped(es, "appenders");
    Skipped(es.rest, "appenders");
    if d.appenders != [] {
      Skipped(if d.formatter == "" then tail.rest else tail, "formatter");
    }
    if d.formatter == "" {
      Skipped(tail, "appenders");
    }
  }

  lemma PrintedType(a: AppenderDefine)
    ensures var es := PrintAppender(a).entries;
            && Text(es, "type") == (if a.kind == 1 then Gives("FileAppender")
                                    else if a.kind == 2 then Gives("StdoutLogAppender") else Absent)
            && Text(es, "formatter") == (if a.formatter == "" then Absent else Gives(a.formatter))
            && Text(es, "file") == Absent
  {
    var rest := Entry("level", Scalar(LevelName(a.level)), PrintFormatter(a.formatter));
    var es := PrintAppender(a).entries;
    PrintedFormatter(a.formatter);
    assert |"type"| == 4 && |"level"| == 5 && |"formatter"| == 9 && |"file"| == 4 && "type"[0] != "file"[0];
    Skipped(rest, "type");
    Skipped(rest, "formatter");
    Skipped(rest, "file");
    if a.formatter != "" {
      Skipped(PrintFormatter(a.formatter), "file");
    }
    if a.kind == 1 || a.kind == 2 {
      Skipped(es, "formatter");
      Skipped(es, "file");
    }
  }
}
