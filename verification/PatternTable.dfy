/** What each piece of a pattern prints (nnysl/log.cpp:396-438, 443-458, 472-527): the eleven
    specifiers, literal text, unknown names and unclosed braces, from the pattern to the text. */
module PatternTable {
  import opened Pattern
  import opened PatternLaws
  import opened PatternOutput

  predicate NameChars(n: string) {
    forall j :: 0 <= j < |n| ==> NameChar(n[j])
  }

  /** One specifier by itself. */
  lemma ScanOne(n: string, b: bool, f: string)
    requires NameChars(n) && '}' !in f && (!b ==> f == "")
    ensures Scan("%" + Body(n, b, f), "") == [Specifier(n, b, f)]
  {
    var body := Body(n, b, f);
    var s := "%" + body;
    assert s[1..] == body && body + "" == body;
    ReadPrinted(n, b, f, "");
    if body != "" {
      assert s[1] == body[0] && body[0] != '%';
    }
    assert StartsSpecifier(s);
    assert Flush("") + [Specifier(n, b, f)] + Scan("", "") == [Specifier(n, b, f)];
  }

  lemma OutputOne(n: string, b: bool, f: string, level: int, ev: Event)
    requires NameChars(n) && '}' !in f && (!b ==> f == "")
    ensures Output("%" + Body(n, b, f), level, ev) == RenderItem(ItemOf(Tuple(n, f, 1)), level, ev)
  {
    ScanOne(n, b, f);
    var ts := [Specifier(n, b, f)];
    assert ts[1..] == [];
    OutIsRender(ts, level, ev);
    assert Out(ts, level, ev) == TokenOut(ts[0], level, ev) + "";
  }

  lemma OutputPlain(p: string, n: string, level: int, ev: Event)
    requires NameChars(n) && p == "%" + n
    ensures Output(p, level, ev) == RenderItem(ItemOf(Tuple(n, "", 1)), level, ev)
  {
    OutputOne(n, false, "", level, ev);
    assert Body(n, false, "") == n;
  }

  lemma OutputBraced(p: string, n: string, f: string, level: int, ev: Event)
    requires NameChars(n) && '}' !in f && p == "%" + (n + ("{" + f + "}"))
    ensures Output(p, level, ev) == RenderItem(ItemOf(Tuple(n, f, 1)), level, ev)
  {
    OutputOne(n, true, f, level, ev);
  }

  // ----- Specifiers -----

  /** The eleven specifiers: a character of its own each. */
  lemma ItemTexts(c: char, f: string, level: int, ev: Event)
    ensures var text := RenderItem(ItemOf(Tuple([c], f, 1)), level, ev);
            && (c == 'm' ==> text == ev.content) && (c == 'r' ==> text == ev.elapse)
            && (c == 'c' ==> text == ev.loggerName) && (c == 't' ==> text == ev.threadId)
            && (c == 'f' ==> text == ev.file) && (c == 'l' ==> text == ev.line)
            && (c == 'F' ==> text == ev.fiberId) && (c == 'n' ==> text == "\n") && (c == 'T' ==> text == "\t")
            && (c == 'd' ==> text == ev.clock(if f == "" then "%Y-%m-%d %H:%M:%S" else f))
  {
  }

  lemma OutputChar(p: string, level: int, ev: Event)
    requires |p| == 2 && p[0] == '%' && NameChar(p[1])
    ensures Output(p, level, ev) == RenderItem(ItemOf(Tuple([p[1]], "", 1)), level, ev)
  {
    assert p == "%" + [p[1]];
    OutputPlain(p, [p[1]], level, ev);
  }

  /** The fields of the event. */
  lemma FieldOutputs(p: string, level: int, ev: Event)
    requires |p| == 2 && p[0] == '%'
    ensures p[1] == 'm' ==> Output(p, level, ev) == ev.content
    ensures p[1] == 'r' ==> Output(p, level, ev) == ev.elapse
    ensures p[1] == 'c' ==> Output(p, level, ev) == ev.loggerName
    ensures p[1] == 't' ==> Output(p, level, ev) == ev.threadId
    ensures p[1] == 'f' ==> Output(p, level, ev) == ev.file
    ensures p[1] == 'l' ==> Output(p, level, ev) == ev.line
    ensures p[1] == 'F' ==> Output(p, level, ev) == ev.fiberId
  {
    ItemTexts(p[1], "", level, ev);
    if NameChar(p[1]) {
      OutputChar(p, level, ev);
    }
  }

  /** A line end, a tab, and the time at the default format. */
  lemma FixedOutputs(p: string, level: int, ev: Event)
    requires |p| == 2 && p[0] == '%'
    ensures p[1] == 'n' ==> Output(p, level, ev) == "\n"
    ensures p[1] == 'T' ==> Output(p, level, ev) == "\t"
    ensures p[1] == 'd' ==> Output(p, level, ev) == ev.clock("%Y-%m-%d %H:%M:%S")
  {
    ItemTexts(p[1], "", level, ev);
    if NameChar(p[1]) {
      OutputChar(p, level, ev);
    }
  }

  /** The level's name. */
  lemma LevelOutputs(p: string, level: int, ev: Event)
    requires |p| == 2 && p[0] == '%' && p[1] == 'p'
    ensures level == 1 ==> Output(p, level, ev) == "DEBUG"
    ensures level == 2 ==> Output(p, level, ev) == "INFO"
    ensures level == 3 ==> Output(p, level, ev) == "WARN"
    ensures level == 4 ==> Output(p, level, ev) == "ERROR"
    ensures level == 5 ==> Output(p, level, ev) == "FATAL"
    ensures level !in {1, 2, 3, 4, 5} ==> Output(p, level, ev) == "UNKNOW"
  {
    OutputChar(p, level, ev);
  }

  /** A format in braces is the time's; an empty one is none. */
  lemma TimeOutputs(n: string, f: string, level: int, ev: Event)
    requires '}' !in f && n == "d"
    ensures Output("%" + (n + ("{" + f + "}")), level, ev) == ev.clock(if f == "" then "%Y-%m-%d %H:%M:%S" else f)
  {
    assert n == [n[0]];
    OutputBraced("%" + (n + ("{" + f + "}")), n, f, level, ev);
    ItemTexts(n[0], f, level, ev);
  }

  lemma FormatIgnored(n: string, f: string, level: int, ev: Event)
    requires n in KNOWN && n != "d"
    ensures RenderItem(ItemOf(Tuple(n, f, 1)), level, ev) == RenderItem(ItemOf(Tuple(n, "", 1)), level, ev)
  {
  }

  lemma KnownChars(n: string)
    requires n in KNOWN
    ensures NameChars(n)
  {
    KnownNames(n);
  }

  /** The other specifiers ignore it. */
  lemma BracedOutputs(n: string, f: string, level: int, ev: Event)
    requires '}' !in f && n in KNOWN && n != "d"
    ensures Output("%" + (n + ("{" + f + "}")), level, ev) == Output("%" + n, level, ev)
  {
    KnownChars(n);
    OutputBraced("%" + (n + ("{" + f + "}")), n, f, level, ev);
    OutputPlain("%" + n, n, level, ev);
    FormatIgnored(n, f, level, ev);
  }

  /** There are no other specifiers. */
  lemma KnownExactly(n: string)
    ensures n in KNOWN <==> |n| == 1 && n[0] in {'m', 'p', 'r', 'c', 't', 'n', 'd', 'f', 'l', 'T', 'F'}
  {
    if |n| == 1 {
      assert n == [n[0]];
    }
  }

  /** An unknown name, the empty one included, with or without braces. */
  lemma UnknownOutputs(n: string, f: string, level: int, ev: Event)
    requires NameChars(n) && '}' !in f && n !in KNOWN
    ensures Output("%" + n, level, ev) == "<error_format %" + n + ">"
    ensures Output("%" + (n + ("{" + f + "}")), level, ev) == "<error_format %" + n + ">"
  {
    OutputPlain("%" + n, n, level, ev);
    OutputBraced("%" + (n + ("{" + f + "}")), n, f, level, ev);
  }

  // ----- Literal text -----

  lemma {:induction false} ScanText(x: string, rest: string, pending: string)
    requires '%' !in x
    ensures Scan(x + rest, pending) == Scan(rest, pending + x)
    decreases |x|
  {
    if x == "" {
      assert x + rest == rest && pending + x == pending;
    } else {
      assert (x + rest)[1..] == x[1..] + rest && (x + rest)[0] == x[0];
      ScanText(x[1..], rest, pending + [x[0]]);
      assert pending + [x[0]] + x[1..] == pending + x;
    }
  }

  lemma OutText(x: string, level: int, ev: Event)
    ensures Out(Flush(x), level, ev) == x
  {
    OutFlush(x, [], level, ev);
    assert Flush(x) + [] == Flush(x);
  }

  /** Text without `%` prints as it is. */
  lemma TextOutputs(x: string, level: int, ev: Event)
    requires '%' !in x
    ensures Output(x, level, ev) == x
  {
    ScanText(x, "", "");
    assert x + "" == x && "" + x == x;
    OutText(x, level, ev);
    OutIsRender(Flush(x), level, ev);
  }

  // ----- Unclosed braces -----

  lemma ReadUnclosed(n: string, f: string)
    requires NameChars(n) && '}' !in f
    ensures ReadSpecifier(n + ("{" + f)) == Open
  {
    var t := n + ("{" + f);
    NameLenOf(n, "{" + f);
    assert t[|n|] == '{' && t[|n| + 1..] == f;
    NoClose(f);
  }

  lemma {:induction false} NoClose(f: string)
    requires '}' !in f
    ensures CloseAt(f) == |f|
  {
    if f != "" {
      NoClose(f[1..]);
    }
  }

  /** An unclosed brace: the error text is written first, and then what the pattern without this `%`
      writes.  The text that was waiting in front of it comes after the error, joined with the rest. */
  lemma UnclosedOutputs(x: string, n: string, f: string, level: int, ev: Event)
    requires '%' !in x && NameChars(n) && '}' !in f
    ensures var t := n + ("{" + f);
            Output(x + ("%" + t), level, ev) == "<pattern_error>" + Output(x + t, level, ev) && !Accepted(x + ("%" + t))
  {
    var t := n + ("{" + f);
    var s := "%" + t;
    assert s[1..] == t && s[1] == t[0] && t[0] != '%';
    ScanText(x, s, "");
    ScanText(x, t, "");
    assert "" + x == x;
    ReadUnclosed(n, f);
    assert Scan(x + s, "") == [Unclosed] + Scan(x + t, "");
    OutUnclosed(Scan(x + t, ""), level, ev);
    OutIsRender([Unclosed] + Scan(x + t, ""), level, ev);
    OutIsRender(Scan(x + t, ""), level, ev);
    assert ([Unclosed] + Scan(x + t, ""))[0] == Unclosed;
  }

  lemma OutUnclosed(ts: seq<Token>, level: int, ev: Event)
    ensures Out([Unclosed] + ts, level, ev) == "<pattern_error>" + Out(ts, level, ev)
  {
    OutCons(Unclosed, ts, level, ev);
  }

  /** A `%` in front of another `%` is text, and the second one is read again. */
  lemma DoubledOutputs(s: string, level: int, ev: Event)
    requires s != "" && s[0] == '%' && Accepted(s)
    ensures Output("%" + s, level, ev) == "%" + Output(s, level, ev) && Accepted("%" + s)
  {
    var t := "%" + s;
    assert t[0] == '%' && t[1] == s[0] && t[1..] == s;
    assert Scan(t, "") == Scan(s, "" + [t[0]]) && "" + [t[0]] == "%";
    PendingShift(s, "%", level, ev);
    OutIsRender(Scan(s, "%"), level, ev);
    OutIsRender(Scan(s, ""), level, ev);
  }

  // ----- Whole patterns -----

  /** The output of a token by itself, as a pattern of its own. */
  function Piece(t: Token, level: int, ev: Event): string {
    if t.Literal? then t.text else Output(Text(t), level, ev)
  }

  function Pieces(ts: seq<Token>, level: int, ev: Event): string {
    if ts == [] then "" else Piece(ts[0], level, ev) + Pieces(ts[1..], level, ev)
  }

  lemma PieceIsOut(t: Token, level: int, ev: Event)
    requires t.Specifier? ==> t.name in KNOWN && '}' !in t.fmt && (!t.braced ==> t.fmt == "")
    requires !t.Unclosed?
    ensures Piece(t, level, ev) == TokenOut(t, level, ev)
  {
    if t.Specifier? {
      KnownChars(t.name);
      OutputOne(t.name, t.braced, t.fmt, level, ev);
    }
  }

  lemma {:induction false} PiecesAreOut(ts: seq<Token>, level: int, ev: Event)
    requires WellFormed(ts)
    ensures Pieces(ts, level, ev) == Out(ts, level, ev)
  {
    if ts != [] {
      PieceIsOut(ts[0], level, ev);
      PiecesAreOut(ts[1..], level, ev);
    }
  }

  /** Every accepted pattern writes what its pieces write, one after the other. */
  lemma OutputInPieces(p: string, level: int, ev: Event)
    requires Accepted(p)
    ensures Output(p, level, ev) == Pieces(Scan(p, ""), level, ev) && Print(Scan(p, "")) == p
  {
    PrintScan(p, "");
    assert "" + p == p;
    PiecesAreOut(Scan(p, ""), level, ev);
    OutIsRender(Scan(p, ""), level, ev);
  }
}
