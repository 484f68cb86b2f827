/** Formatting distributes over concatenation of patterns, exactly when the boundary does not
    fall inside a specifier; and no character of any pattern, accepted or not, is lost. */
module PatternOutput {
  import opened Pattern
  import opened PatternLaws

  // ----- Conservation -----

  lemma {:induction false} ScanConserves(s: string, pending: string)
    ensures multiset(Print(Scan(s, pending))) == multiset(pending) + multiset(s)
    decreases |s|
  {
    if s == "" {
      PrintFlush(pending, []);
      assert Flush(pending) + [] == Flush(pending);
    } else {
      assert s == [s[0]] + s[1..];
      if !StartsSpecifier(s) {
        ScanConserves(s[1..], pending + [s[0]]);
      } else {
        var h := ReadSpecifier(s[1..]);
        if h == Open {
          ScanConserves(s[1..], pending);
          PrintCons(Unclosed, Scan(s[1..], pending));
        } else {
          SpecifierConserves(s, pending, h);
        }
      }
    }
  }

  lemma SpecifierPrints(s: string, pending: string, h: Head)
    requires StartsSpecifier(s) && h == ReadSpecifier(s[1..]) && h.Head?
    ensures var x := Text(Specifier(h.name, h.braced, h.fmt));
            Print(Scan(s, pending)) == pending + (x + Print(Scan(h.rest, ""))) && s == x + h.rest
  {
    var t, rest := Specifier(h.name, h.braced, h.fmt), Scan(h.rest, "");
    ReadParts(s[1..]);
    PrintFlush(pending, [t] + rest);
    PrintCons(t, rest);
    assert Flush(pending) + [t] + rest == Flush(pending) + ([t] + rest);
    Assoc("%", Body(h.name, h.braced, h.fmt), h.rest);
    assert s == "%" + s[1..];
  }

  lemma {:induction false} SpecifierConserves(s: string, pending: string, h: Head)
    requires StartsSpecifier(s) && h == ReadSpecifier(s[1..]) && h.Head?
    ensures multiset(Print(Scan(s, pending))) == multiset(pending) + multiset(s)
    decreases |s|, 0
  {
    ScanConserves(h.rest, "");
    SpecifierPrints(s, pending, h);
  }

  /** Every pattern, also an erroneous one with displaced literals, keeps exactly its characters. */
  lemma PatternConserved(p: string)
    ensures multiset(Print(Scan(p, ""))) == multiset(p)
    ensures |Print(Scan(p, ""))| == |p|
  {
    ScanConserves(p, "");
    assert |multiset(Print(Scan(p, "")))| == |Print(Scan(p, ""))| && |multiset(p)| == |p|;
  }

  // ----- Output -----

  function TokenOut(t: Token, level: int, ev: Event): string {
    RenderItem(ItemOf(Erase(t)), level, ev)
  }

  function Out(ts: seq<Token>, level: int, ev: Event): string {
    if ts == [] then "" else TokenOut(ts[0], level, ev) + Out(ts[1..], level, ev)
  }

  /** What a formatter built from `p` prints. */
  function Output(p: string, level: int, ev: Event): string {
    Render(Compile(p), level, ev)
  }

  lemma {:induction false} OutIsRender(ts: seq<Token>, level: int, ev: Event)
    ensures Out(ts, level, ev) == Render(Items(Erased(ts)), level, ev)
  {
    if ts != [] {
      OutIsRender(ts[1..], level, ev);
      assert Erased(ts)[1..] == Erased(ts[1..]);
      assert Items(Erased(ts))[1..] == Items(Erased(ts[1..]));
    }
  }

  lemma OutCons(t: Token, us: seq<Token>, level: int, ev: Event)
    ensures Out([t] + us, level, ev) == TokenOut(t, level, ev) + Out(us, level, ev)
  {
    assert ([t] + us)[1..] == us;
  }

  lemma {:induction false} OutConcat(ts: seq<Token>, us: seq<Token>, level: int, ev: Event)
    ensures Out(ts + us, level, ev) == Out(ts, level, ev) + Out(us, level, ev)
  {
    if ts == [] {
      assert ts + us == us;
    } else {
      OutConcat(ts[1..], us, level, ev);
      SplitHead(ts, us);
      OutCons(ts[0], ts[1..] + us, level, ev);
      Assoc(TokenOut(ts[0], level, ev), Out(ts[1..], level, ev), Out(us, level, ev));
    }
  }

  lemma OutFlush(pending: string, ts: seq<Token>, level: int, ev: Event)
    ensures Out(Flush(pending) + ts, level, ev) == pending + Out(ts, level, ev)
    ensures Clean(Flush(pending) + ts) <==> Clean(ts)
  {
    OutConcat(Flush(pending), ts, level, ev);
    Concat(Flush(pending), ts);
  }

  lemma OutSpecifier(s: string, pending: string, level: int, ev: Event)
    requires StartsSpecifier(s) && ReadSpecifier(s[1..]).Head?
    ensures var h := ReadSpecifier(s[1..]);
            && (Clean(Scan(s, pending)) <==> h.name in KNOWN && Clean(Scan(h.rest, "")))
            && Out(Scan(s, pending), level, ev) ==
               pending + (TokenOut(Specifier(h.name, h.braced, h.fmt), level, ev) + Out(Scan(h.rest, ""), level, ev))
  {
    var h := ReadSpecifier(s[1..]);
    var t, rest := Specifier(h.name, h.braced, h.fmt), Scan(h.rest, "");
    assert Flush(pending) + [t] + rest == Flush(pending) + ([t] + rest);
    OutFlush(pending, [t] + rest, level, ev);
    OutCons(t, rest, level, ev);
    Concat([t], rest);
  }

  lemma OpenNotClean(s: string, pending: string)
    requires StartsSpecifier(s) && ReadSpecifier(s[1..]) == Open
    ensures !Clean(Scan(s, pending))
  {
    Concat([Unclosed], Scan(s[1..], pending));
  }

  /** A pending literal only adds itself in front of the output of an accepted pattern. */
  lemma {:induction false} PendingShift(s: string, pending: string, level: int, ev: Event)
    ensures Clean(Scan(s, pending)) <==> Clean(Scan(s, ""))
    ensures Clean(Scan(s, "")) ==> Out(Scan(s, pending), level, ev) == pending + Out(Scan(s, ""), level, ev)
    decreases |s|
  {
    if s == "" {
      OutFlush(pending, [], level, ev);
      assert Flush(pending) + [] == Flush(pending);
    } else if !StartsSpecifier(s) {
      PendingShift(s[1..], pending + [s[0]], level, ev);
      PendingShift(s[1..], [s[0]], level, ev);
      assert "" + [s[0]] == [s[0]];
      Assoc(pending, [s[0]], Out(Scan(s[1..], ""), level, ev));
    } else if ReadSpecifier(s[1..]) == Open {
      OpenNotClean(s, pending);
      OpenNotClean(s, "");
    } else {
      OutSpecifier(s, pending, level, ev);
      OutSpecifier(s, "", level, ev);
    }
  }

  // ----- Concatenation -----

  predicate EndsPlain(ts: seq<Token>) {
    ts != [] && ts[|ts| - 1].Specifier? && !ts[|ts| - 1].braced
  }

  /** The seam of `p` and `q` falls inside a specifier: `p` ends with an unbraced one, and `q`
      begins with a character that would continue it. */
  predicate SeamInSpecifier(p: string, q: string) {
    EndsPlain(Scan(p, "")) && StartsNameOrBrace(q)
  }

  lemma {:induction false} NameLenConcat(t: string, q: string)
    requires NameLen(t) < |t| || q == "" || !NameChar(q[0])
    ensures NameLen(t + q) == NameLen(t)
  {
    if t == "" {
      assert t + q == q;
    } else if NameChar(t[0]) {
      NameLenConcat(t[1..], q);
      assert (t + q)[1..] == t[1..] + q;
    }
  }

  lemma {:induction false} CloseAtConcat(f: string, q: string)
    requires CloseAt(f) < |f|
    ensures CloseAt(f + q) == CloseAt(f)
  {
    if f[0] != '}' {
      CloseAtConcat(f[1..], q);
      assert (f + q)[1..] == f[1..] + q;
    }
  }

  lemma SliceConcat(t: string, q: string, k: nat)
    requires k <= |t|
    ensures (t + q)[..k] == t[..k] && (t + q)[k..] == t[k..] + q
    ensures k < |t| ==> (t + q)[k] == t[k]
    ensures k == |t| && q != "" ==> (t + q)[k] == q[0]
  {
  }

  lemma ReadJoined(n: string, f: string, rest: string)
    requires NameLen(n + "{" + (f + "}" + rest)) == |n| && CloseAt(f + "}" + rest) == |f|
    ensures ReadSpecifier(n + "{" + (f + "}" + rest)) == Head(n, true, f, rest)
  {
    var g := f + "}" + rest;
    assert g[..|f|] == f && g[|f| + 1..] == rest;
    var t := n + "{" + g;
    assert t[..|n|] == n && t[|n| + 1..] == g;
  }

  lemma SplitBraced(t: string)
    requires var h := ReadSpecifier(t); h.Head? && h.braced
    ensures var h := ReadSpecifier(t);
            && t == h.name + "{" + (h.fmt + "}" + h.rest)
            && NameLen(t) == |h.name| < |t| && CloseAt(h.fmt + "}" + h.rest) == |h.fmt| < |h.fmt + "}" + h.rest|
  {
    var f := t[NameLen(t) + 1..];
    CloseAtEnds(f);
    assert f == f[..CloseAt(f)] + "}" + f[CloseAt(f) + 1..];
  }

  lemma ReadConcatBraced(t: string, q: string)
    requires var h := ReadSpecifier(t); h.Head? && h.braced
    ensures ReadSpecifier(t + q) == ReadSpecifier(t).(rest := ReadSpecifier(t).rest + q)
  {
    var h := ReadSpecifier(t);
    SplitBraced(t);
    NameLenConcat(t, q);
    CloseAtConcat(h.fmt + "}" + h.rest, q);
    Assoc(h.fmt + "}", h.rest, q);
    Assoc(h.name + "{", h.fmt + "}" + h.rest, q);
    ReadJoined(h.name, h.fmt, h.rest + q);
  }

  lemma ReadConcat(t: string, q: string)
    requires ReadSpecifier(t).Head?
    requires ReadSpecifier(t).rest == "" && !ReadSpecifier(t).braced ==> !StartsNameOrBrace(q)
    ensures ReadSpecifier(t + q) == ReadSpecifier(t).(rest := ReadSpecifier(t).rest + q)
  {
    var k := NameLen(t);
    if ReadSpecifier(t).braced {
      ReadConcatBraced(t, q);
    } else {
      NameLenConcat(t, q);
      SliceConcat(t, q, k);
    }
  }

  lemma SpecifierEnds(s: string, pending: string)
    requires StartsSpecifier(s) && ReadSpecifier(s[1..]).Head?
    ensures var h := ReadSpecifier(s[1..]);
            EndsPlain(Scan(s, pending)) <==> if Scan(h.rest, "") == [] then !h.braced else EndsPlain(Scan(h.rest, ""))
  {
  }

  lemma {:induction false} ScanNonempty(s: string)
    requires s != "" && Clean(Scan(s, ""))
    ensures Scan(s, "") != []
  {
    PrintScan(s, "");
  }

  /** The first character of a specifier decides how its pattern goes on. */
  lemma SpecifierConcat(p: string, q: string, pending: string)
    requires Clean(Scan(p, pending)) && StartsSpecifier(p)
    requires !(EndsPlain(Scan(p, pending)) && StartsNameOrBrace(q))
    ensures ReadSpecifier(p[1..]).Head? && StartsSpecifier(p + q)
    ensures var h := ReadSpecifier(p[1..]); ReadSpecifier((p + q)[1..]) == h.(rest := h.rest + q)
  {
    ScanSpecifier(p, pending);
    SpecifierEnds(p, pending);
    ReadConcat(p[1..], q);
    KnownNames(ReadSpecifier(p[1..]).name);
    assert |p| > 1;
    SliceConcat(p, q, 1);
  }

  lemma {:induction false} OutConcatAt(p: string, q: string, pending: string, level: int, ev: Event)
    requires Clean(Scan(p, pending)) && Accepted(q)
    requires !(EndsPlain(Scan(p, pending)) && StartsNameOrBrace(q))
    ensures Clean(Scan(p + q, pending))
    ensures Out(Scan(p + q, pending), level, ev) == Out(Scan(p, pending), level, ev) + Out(Scan(q, ""), level, ev)
    decreases |p|
  {
    if p == "" {
      assert p + q == q;
      PendingShift(q, pending, level, ev);
      PendingShift(p, pending, level, ev);
    } else if !StartsSpecifier(p) {
      SliceConcat(p, q, 1);
      OutConcatAt(p[1..], q, pending + [p[0]], level, ev);
    } else {
      SpecifierConcat(p, q, pending);
      ScanSpecifier(p, pending);
      SpecifierEnds(p, pending);
      var h := ReadSpecifier(p[1..]);
      OutConcatAt(h.rest, q, "", level, ev);
      OutSpecifier(p, pending, level, ev);
      OutSpecifier(p + q, pending, level, ev);
      var x, a, b := TokenOut(Specifier(h.name, h.braced, h.fmt), level, ev),
        Out(Scan(h.rest, ""), level, ev), Out(Scan(q, ""), level, ev);
      Assoc(x, a, b);
      Assoc(pending, x + a, b);
    }
  }

  /** Formatting is a homomorphism: away from a seam inside a specifier, the concatenation of two
      accepted patterns is accepted and prints one output after the other. */
  lemma FormatConcat(p: string, q: string, level: int, ev: Event)
    requires Accepted(p) && Accepted(q) && !SeamInSpecifier(p, q)
    ensures Accepted(p + q)
    ensures Output(p + q, level, ev) == Output(p, level, ev) + Output(q, level, ev)
  {
    OutConcatAt(p, q, "", level, ev);
    OutIsRender(Scan(p, ""), level, ev);
    OutIsRender(Scan(q, ""), level, ev);
    OutIsRender(Scan(p + q, ""), level, ev);
  }

  // ----- The seam condition is exact -----

  /** An event of which only literal text, levels, tabs and line ends are visible. */
  const BLANK: Event := Event("", "", "", "", "", "", "", _ => "")

  /** Text up to a `}` cannot hide what follows it: wherever the scanner stands, it resumes
      right after the `}`. */
  lemma {:induction false} ResumesAfterBrace(x: string, rest: string, pending: string, level: int)
    requires '}' !in x && Clean(Scan(x + "}" + rest, pending))
    ensures Clean(Scan(rest, ""))
    ensures |Out(Scan(x + "}" + rest, pending), level, BLANK)| >= |pending| + |Out(Scan(rest, ""), level, BLANK)|
    decreases |x|
  {
    var s := x + "}" + rest;
    if x == "" {
      assert s[0] == '}' && s[1..] == rest;
      PendingShift(rest, pending + "}", level, BLANK);
    } else {
      assert s[0] == x[0] && s[1..] == x[1..] + "}" + rest;
      if !StartsSpecifier(s) {
        ResumesAfterBrace(x[1..], rest, pending + [x[0]], level);
      } else {
        ScanSpecifier(s, pending);
        OutSpecifier(s, pending, level, BLANK);
        var h := ReadSpecifier(s[1..]);
        ReadInside(x[1..], rest);
        if !h.braced {
          ResumesAfterBrace(x[1..][|h.name|..], rest, "", level);
        }
      }
    }
  }

  /** A known specifier that starts before the first `}` ends at it or before it. */
  lemma ReadInside(y: string, rest: string)
    requires '}' !in y && ReadSpecifier(y + "}" + rest).Head?
    requires ReadSpecifier(y + "}" + rest).name in KNOWN
    ensures var h := ReadSpecifier(y + "}" + rest);
            if h.braced then h.rest == rest
            else |h.name| <= |y| && h.rest == y[|h.name|..] + "}" + rest
  {
    var t := y + "}" + rest;
    var h := ReadSpecifier(t);
    KnownNames(h.name);
    assert NameLen(t) == 1;
    assert t[0] == if y == "" then '}' else y[0];
    if h.braced {
      var f := y[2..];
      assert t[1] == '{' && |y| > 1;
      assert t[2..] == f + ("}" + rest);
      CloseAtOf(f, "}" + rest);
    }
  }

  lemma NameContinues(n: string, q: string)
    requires n in KNOWN && q != "" && NameChar(q[0])
    ensures NameLen(n + q) >= 2
  {
    KnownNames(n);
    assert (n + q)[1..] == q;
  }

  lemma SeamAtName(n: string, q: string, pending: string)
    requires n in KNOWN && q != "" && NameChar(q[0])
    ensures !Clean(Scan("%" + (n + q), pending))
  {
    var s := "%" + (n + q);
    KnownNames(n);
    NameContinues(n, q);
    assert s[1..] == n + q && s[1] == n[0];
    if Clean(Scan(s, pending)) {
      ScanSpecifier(s, pending);
      KnownNames(ReadSpecifier(n + q).name);
      assert false;
    }
  }

  lemma BraceIsPrinted(q: string, level: int)
    requires q != "" && q[0] == '{' && Accepted(q) && CloseAt(q[1..]) < |q| - 1
    ensures |Out(Scan(q, ""), level, BLANK)| > |Out(Scan(q[1..][CloseAt(q[1..]) + 1..], ""), level, BLANK)|
  {
    var f := q[1..];
    var c := CloseAt(f);
    CloseAtEnds(f);
    assert f == f[..c] + "}" + f[c + 1..];
    assert Scan(q, "") == Scan(f, "" + [q[0]]);
    ResumesAfterBrace(f[..c], f[c + 1..], "" + [q[0]], level);
  }

  lemma ReadSeamAtBrace(n: string, q: string)
    requires n in KNOWN && q != "" && q[0] == '{'
    ensures var f := q[1..];
            ReadSpecifier(n + q) ==
            if CloseAt(f) < |f| then Head(n, true, f[..CloseAt(f)], f[CloseAt(f) + 1..]) else Open
  {
    KnownNames(n);
    NameLenOf(n, q);
    SliceConcat(n, q, |n|);
    ReadAtBrace(n, q);
  }

  lemma ReadAtBrace(n: string, q: string)
    requires NameLen(n + q) == |n| && q != "" && q[0] == '{'
    ensures var f := q[1..];
            ReadSpecifier(n + q) ==
            if CloseAt(f) < |f| then Head(n, true, f[..CloseAt(f)], f[CloseAt(f) + 1..]) else Open
  {
    assert (n + q)[|n|] == '{' && (n + q)[..|n|] == n;
    assert (n + q)[|n| + 1..] == q[1..];
  }

  lemma BlankIgnoresFormat(n: string, b: bool, f: string, level: int)
    requires n in KNOWN
    ensures TokenOut(Specifier(n, b, f), level, BLANK) == TokenOut(Specifier(n, false, ""), level, BLANK)
  {
  }

  /** The output of a specifier, up to its text for the blank event, which ignores the format. */
  lemma OutBlank(n: string, rest: string, pending: string, level: int)
    requires n in KNOWN && ReadSpecifier(n + rest).Head? && ReadSpecifier(n + rest).name == n
    ensures |Out(Scan("%" + (n + rest), pending), level, BLANK)| ==
            |pending| + |TokenOut(Specifier(n, false, ""), level, BLANK)|
            + |Out(Scan(ReadSpecifier(n + rest).rest, ""), level, BLANK)|
    ensures Clean(Scan("%" + (n + rest), pending)) <==> Clean(Scan(ReadSpecifier(n + rest).rest, ""))
  {
    var s := "%" + (n + rest);
    KnownNames(n);
    assert s[1..] == n + rest;
    assert (n + rest)[0] == n[0];
    OutSpecifier(s, pending, level, BLANK);
    var h := ReadSpecifier(n + rest);
    BlankIgnoresFormat(n, h.braced, h.fmt, level);
  }

  lemma SeamAtBrace(n: string, q: string, pending: string, level: int)
    requires n in KNOWN && q != "" && q[0] == '{' && Accepted(q)
    requires Clean(Scan("%" + (n + q), pending))
    ensures |Out(Scan("%" + (n + q), pending), level, BLANK)|
         <  |Out(Scan("%" + n, pending), level, BLANK)| + |Out(Scan(q, ""), level, BLANK)|
  {
    var s := "%" + (n + q);
    KnownNames(n);
    assert s[1..] == n + q && s[1] == n[0];
    ScanSpecifier(s, pending);
    ReadSeamAtBrace(n, q);
    BraceIsPrinted(q, level);
    OutBlank(n, q, pending, level);
    NameLenOf(n, "");
    assert n + "" == n;
    OutBlank(n, "", pending, level);
  }

  lemma {:induction false} SeamBreaks(p: string, q: string, pending: string, level: int)
    requires Clean(Scan(p, pending)) && EndsPlain(Scan(p, pending))
    requires Accepted(q) && StartsNameOrBrace(q)
    ensures Clean(Scan(p + q, pending)) ==>
              |Out(Scan(p + q, pending), level, BLANK)|
              < |Out(Scan(p, pending), level, BLANK)| + |Out(Scan(q, ""), level, BLANK)|
    decreases |p|
  {
    if !StartsSpecifier(p) {
      assert p != "";
      SliceConcat(p, q, 1);
      SeamBreaks(p[1..], q, pending + [p[0]], level);
    } else {
      ScanSpecifier(p, pending);
      SpecifierEnds(p, pending);
      ReadParts(p[1..]);
      var h := ReadSpecifier(p[1..]);
      KnownNames(h.name);
      if h.rest == "" {
        assert p == "%" + h.name && p + q == "%" + (h.name + q);
        if q[0] == '{' {
          if Clean(Scan(p + q, pending)) {
            SeamAtBrace(h.name, q, pending, level);
          }
        } else {
          SeamAtName(h.name, q, pending);
        }
      } else {
        ScanNonempty(h.rest);
        SliceConcat(p, q, 1);
        ReadConcat(p[1..], q);
        SeamBreaks(h.rest, q, "", level);
        OutSpecifier(p, pending, level, BLANK);
        OutSpecifier(p + q, pending, level, BLANK);
      }
    }
  }

  ghost predicate Distributes(p: string, q: string) {
    Accepted(p + q) &&
    forall level, ev :: Output(p + q, level, ev) == Output(p, level, ev) + Output(q, level, ev)
  }

  /** For accepted patterns, concatenating and then formatting agrees with formatting and then
      concatenating exactly when the seam is not inside a specifier. */
  lemma FormatConcatIff(p: string, q: string)
    requires Accepted(p) && Accepted(q)
    ensures Distributes(p, q) <==> !SeamInSpecifier(p, q)
  {
    if SeamInSpecifier(p, q) {
      SeamBreaks(p, q, "", 0);
      OutIsRender(Scan(p, ""), 0, BLANK);
      OutIsRender(Scan(q, ""), 0, BLANK);
      OutIsRender(Scan(p + q, ""), 0, BLANK);
      assert Accepted(p + q) ==>
          |Output(p + q, 0, BLANK)| < |Output(p, 0, BLANK) + Output(q, 0, BLANK)|;
    } else {
      FormatConcat(p, q, 0, BLANK);
      forall level, ev ensures Output(p + q, level, ev) == Output(p, level, ev) + Output(q, level, ev) {
        FormatConcat(p, q, level, ev);
      }
    }
  }

  // ----- Tokens that can follow anything -----

  function Plain(n: string): Token {
    Specifier(n, false, "")
  }

  /** A token that can follow anything and is accepted by itself. */
  predicate Standalone(t: Token) {
    match t
    case Literal(x) => x != "" && '%' !in x && !StartsNameOrBrace(x)
    case Specifier(n, b, f) => n in KNOWN && '}' !in f && (!b ==> f == "")
    case Unclosed => false
  }

  lemma StandaloneAccepted(t: Token)
    requires Standalone(t)
    ensures Accepted(Text(t)) && !StartsNameOrBrace(Text(t))
  {
    var one := [t];
    assert one[1..] == [];
    PrintCons(t, []);
    assert one == [t] + [] && Print(one) == Text(t);
    StandaloneWellFormed(t);
    ScanPrint(one);
    WellFormedIsClean(one);
  }

  lemma StandaloneWellFormed(t: Token)
    requires Standalone(t)
    ensures WellFormed([t]) && !StartsNameOrBrace(Text(t))
  {
    var one := [t];
    assert one[1..] == [];
    if t.Literal? {
      assert Paired(t.text, false);
    }
  }
}
