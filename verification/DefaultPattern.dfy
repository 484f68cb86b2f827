/** The pattern that every logger starts with (nnysl/log.cpp:94): it is valid, and what it writes. */
module DefaultPattern {
  import opened Pattern
  import opened PatternLaws
  import opened PatternOutput
  import opened PatternTable

  lemma Append(p: string, t: Token, level: int, ev: Event)
    requires Accepted(p) && Standalone(t)
    ensures Accepted(p + Text(t)) && Output(p + Text(t), level, ev) == Output(p, level, ev) + TokenOut(t, level, ev)
  {
    StandaloneAccepted(t);
    FormatConcat(p, Text(t), level, ev);
    OutputAlone(t, level, ev);
  }

  lemma OutputAlone(t: Token, level: int, ev: Event)
    requires Standalone(t)
    ensures Output(Text(t), level, ev) == TokenOut(t, level, ev)
  {
    var one := [t];
    assert one[1..] == [];
    PrintCons(t, []);
    assert one == [t] + [] && Print(one) == Text(t);
    StandaloneWellFormed(t);
    ScanPrint(one);
    OutIsRender(one, level, ev);
    assert Out(one, level, ev) == TokenOut(t, level, ev) + "";
  }

  lemma Append2(p: string, a: Token, b: Token, level: int, ev: Event)
    requires Accepted(p) && Standalone(a) && Standalone(b)
    ensures var q := p + (Text(a) + Text(b));
            && Accepted(q)
            && Output(q, level, ev) == Output(p, level, ev) + (TokenOut(a, level, ev) + TokenOut(b, level, ev))
  {
    Append(p, a, level, ev);
    Append(p + Text(a), b, level, ev);
    Assoc(p, Text(a), Text(b));
    Assoc(Output(p, level, ev), TokenOut(a, level, ev), TokenOut(b, level, ev));
  }

  lemma Append4(p: string, ts: seq<Token>, level: int, ev: Event)
    requires Accepted(p) && |ts| == 4 && forall t :: t in ts ==> Standalone(t)
    ensures var q := p + ((Text(ts[0]) + Text(ts[1])) + (Text(ts[2]) + Text(ts[3])));
            && Accepted(q)
            && Output(q, level, ev) ==
               Output(p, level, ev) + ((TokenOut(ts[0], level, ev) + TokenOut(ts[1], level, ev))
                                       + (TokenOut(ts[2], level, ev) + TokenOut(ts[3], level, ev)))
  {
    Append2(p, ts[0], ts[1], level, ev);
    Append2(p + (Text(ts[0]) + Text(ts[1])), ts[2], ts[3], level, ev);
    Assoc(p, Text(ts[0]) + Text(ts[1]), Text(ts[2]) + Text(ts[3]));
    Assoc(Output(p, level, ev), TokenOut(ts[0], level, ev) + TokenOut(ts[1], level, ev),
          TokenOut(ts[2], level, ev) + TokenOut(ts[3], level, ev));
  }

  lemma DateText(f: string)
    ensures "" + Text(Specifier("d", true, f)) == "%d{" + f + "}"
  {
  }

  lemma DateOutput(n: string, f: string, level: int, ev: Event)
    requires n == "d" && '}' !in f && f != ""
    ensures var p := Text(Specifier(n, true, f)); Accepted(p) && Output(p, level, ev) == ev.clock(f)
  {
    var t := Specifier(n, true, f);
    StandaloneAccepted(t);
    TimeOutputs(n, f, level, ev);
  }

  lemma DefaultDate(level: int, ev: Event) returns (p: string)
    ensures p == "%d{" + DEFAULT_TIME_FORMAT + "}"
    ensures Accepted(p) && Output(p, level, ev) == ev.clock(DEFAULT_TIME_FORMAT)
  {
    var f := DEFAULT_TIME_FORMAT;
    assert '}' !in f && f != "";
    DateOutput("d", f, level, ev);
    DateText(f);
    p := Text(Specifier("d", true, f));
  }

  lemma PlainTexts(c: char, level: int, ev: Event)
    ensures var text := TokenOut(Plain([c]), level, ev);
            && (c == 'm' ==> text == ev.content) && (c == 'c' ==> text == ev.loggerName)
            && (c == 't' ==> text == ev.threadId) && (c == 'f' ==> text == ev.file) && (c == 'l' ==> text == ev.line)
            && (c == 'F' ==> text == ev.fiberId) && (c == 'n' ==> text == "\n") && (c == 'T' ==> text == "\t")
    ensures Text(Plain([c])) == ['%', c]
  {
    ItemTexts(c, "", level, ev);
  }

  lemma ThreadText()
    ensures "%T%t%T%F" == (Text(Plain("T")) + Text(Plain("t"))) + (Text(Plain("T")) + Text(Plain("F")))
  {
  }

  lemma DefaultThread(p: string, level: int, ev: Event)
    requires Accepted(p)
    ensures Accepted(p + "%T%t%T%F")
    ensures Output(p + "%T%t%T%F", level, ev) == Output(p, level, ev) + (("\t" + ev.threadId) + ("\t" + ev.fiberId))
  {
    PlainTexts('T', level, ev);
    PlainTexts('t', level, ev);
    PlainTexts('F', level, ev);
    Append4(p, [Plain("T"), Plain("t"), Plain("T"), Plain("F")], level, ev);
    ThreadText();
  }

  lemma DefaultLevel(p: string, level: int, ev: Event)
    requires Accepted(p)
    ensures Accepted(p + "%T[%p]")
    ensures Output(p + "%T[%p]", level, ev) == Output(p, level, ev) + (("\t" + "[") + (LevelName(level) + "]"))
  {
    PlainTexts('T', level, ev);
    Append4(p, [Plain("T"), Literal("["), Plain("p"), Literal("]")], level, ev);
    assert "%T[%p]" == (Text(Plain("T")) + Text(Literal("["))) + (Text(Plain("p")) + Text(Literal("]")));
  }

  lemma DefaultName(p: string, level: int, ev: Event)
    requires Accepted(p)
    ensures Accepted(p + "%T[%c]")
    ensures Output(p + "%T[%c]", level, ev) == Output(p, level, ev) + (("\t" + "[") + (ev.loggerName + "]"))
  {
    PlainTexts('T', level, ev);
    PlainTexts('c', level, ev);
    Append4(p, [Plain("T"), Literal("["), Plain("c"), Literal("]")], level, ev);
    assert "%T[%c]" == (Text(Plain("T")) + Text(Literal("["))) + (Text(Plain("c")) + Text(Literal("]")));
  }

  lemma PlaceText()
    ensures "%T%f:%l" == (Text(Plain("T")) + Text(Plain("f"))) + (Text(Literal(":")) + Text(Plain("l")))
  {
  }

  lemma DefaultPlace(p: string, level: int, ev: Event)
    requires Accepted(p)
    ensures Accepted(p + "%T%f:%l")
    ensures Output(p + "%T%f:%l", level, ev) == Output(p, level, ev) + (("\t" + ev.file) + (":" + ev.line))
  {
    PlainTexts('T', level, ev);
    PlainTexts('f', level, ev);
    PlainTexts('l', level, ev);
    Append4(p, [Plain("T"), Plain("f"), Literal(":"), Plain("l")], level, ev);
    PlaceText();
  }

  lemma DefaultMessage(p: string, level: int, ev: Event)
    requires Accepted(p)
    ensures Accepted(p + "%T%m" + "%n")
    ensures Output(p + "%T%m" + "%n", level, ev) == Output(p, level, ev) + ("\t" + ev.content) + "\n"
  {
    PlainTexts('T', level, ev);
    PlainTexts('m', level, ev);
    PlainTexts('n', level, ev);
    Append2(p, Plain("T"), Plain("m"), level, ev);
    assert "%T%m" == Text(Plain("T")) + Text(Plain("m"));
    Append(p + "%T%m", Plain("n"), level, ev);
    assert "%n" == Text(Plain("n"));
  }

  /** The formatter every logger starts with is valid, and this is what it writes. */
  lemma DefaultOutput(level: int, ev: Event)
    ensures Accepted(DEFAULT_PATTERN)
    ensures Output(DEFAULT_PATTERN, level, ev) ==
            ev.clock(DEFAULT_TIME_FORMAT) + (("\t" + ev.threadId) + ("\t" + ev.fiberId))
            + (("\t" + "[") + (LevelName(level) + "]")) + (("\t" + "[") + (ev.loggerName + "]"))
            + (("\t" + ev.file) + (":" + ev.line)) + ("\t" + ev.content) + "\n"
  {
    var p := DefaultDate(level, ev);
    DefaultThread(p, level, ev);
    DefaultLevel(p + "%T%t%T%F", level, ev);
    DefaultName(p + "%T%t%T%F" + "%T[%p]", level, ev);
    DefaultPlace(p + "%T%t%T%F" + "%T[%p]" + "%T[%c]", level, ev);
    DefaultMessage(p + "%T%t%T%F" + "%T[%p]" + "%T[%c]" + "%T%f:%l", level, ev);
  }
}
