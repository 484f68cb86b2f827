/** What the pattern scanner guarantees: accepted patterns and well-formed token lists are in
    bijection, every pattern keeps its characters, and formatting distributes over concatenation. */
module PatternLaws {
  import opened Pattern

  // ----- Printing -----

  function Body(name: string, braced: bool, fmt: string): string {
    name + if braced then "{" + fmt + "}" else ""
  }

  function Text(t: Token): string {
    match t
    case Literal(x) => x
    case Specifier(n, b, f) => "%" + Body(n, b, f)
    case Unclosed => "%"
  }

  function Print(ts: seq<Token>): string {
    if ts == [] then "" else Text(ts[0]) + Print(ts[1..])
  }

  /** If position `j` of a literal holds `%`, another `%` follows it; `last` says whether one
      follows the literal itself. */
  predicate PairedAt(x: string, j: nat, last: bool)
    requires j < |x|
  {
    x[j] == '%' ==> if j + 1 < |x| then x[j + 1] == '%' else last
  }

  predicate Paired(x: string, last: bool) {
    forall j: nat :: j < |x| ==> PairedAt(x, j, last)
  }

  predicate StartsNameOrBrace(s: string) {
    s != "" && (NameChar(s[0]) || s[0] == '{')
  }

  predicate WellFormed(ts: seq<Token>) {
    ts == [] ||
    (WellFormed(ts[1..]) &&
     match ts[0]
     case Literal(x) => x != "" && Paired(x, |ts| > 1 && ts[1].Specifier?) && (|ts| > 1 ==> !ts[1].Literal?)
     case Specifier(n, b, f) =>
       && n in KNOWN && '}' !in f && (!b ==> f == "")
       && (!b && |ts| > 1 && ts[1].Literal? ==> !StartsNameOrBrace(ts[1].text))
     case Unclosed => false)
  }

  // ----- Reading what was printed -----

  lemma KnownNames(n: string)
    requires n in KNOWN
    ensures |n| == 1 && IsAlpha(n[0])
  {
  }

  lemma {:induction false} NameLenOf(n: string, rest: string)
    requires forall j :: 0 <= j < |n| ==> NameChar(n[j])
    requires rest != "" ==> !NameChar(rest[0])
    ensures NameLen(n + rest) == |n|
  {
    if n == "" {
      assert n + rest == rest;
    } else {
      NameLenOf(n[1..], rest);
      assert (n + rest)[1..] == n[1..] + rest;
    }
  }

  lemma {:induction false} CloseAtOf(f: string, rest: string)
    requires '}' !in f && rest != "" && rest[0] == '}'
    ensures CloseAt(f + rest) == |f|
  {
    if f == "" {
      assert f + rest == rest;
    } else {
      CloseAtOf(f[1..], rest);
      assert (f + rest)[1..] == f[1..] + rest;
    }
  }

  lemma ReadPrinted(n: string, b: bool, f: string, rest: string)
    requires (forall j :: 0 <= j < |n| ==> NameChar(n[j])) && '}' !in f && (!b ==> f == "")
    requires !b ==> !StartsNameOrBrace(rest)
    ensures ReadSpecifier(Body(n, b, f) + rest) == Head(n, b, f, rest)
  {
    if b {
      var t := Body(n, b, f) + rest;
      assert t == n + ("{" + (f + ("}" + rest)));
      NameLenOf(n, "{" + (f + ("}" + rest)));
      assert t[|n|] == '{' && t[..|n|] == n && t[|n| + 1..] == f + ("}" + rest);
      CloseAtOf(f, "}" + rest);
      assert (f + ("}" + rest))[..|f|] == f && (f + ("}" + rest))[|f| + 1..] == rest;
    } else {
      var t := Body(n, b, f) + rest;
      assert t == n + rest;
      NameLenOf(n, rest);
      assert t[..|n|] == n && t[|n|..] == rest;
    }
  }

  /** Literal characters accumulate as long as no specifier starts among them. */
  lemma {:induction false} ScanLiteral(x: string, rest: string, pending: string)
    requires forall j :: 0 <= j < |x| ==> !StartsSpecifier(x[j..] + rest)
    ensures Scan(x + rest, pending) == Scan(rest, pending + x)
  {
    if x == "" {
      assert x + rest == rest && pending + x == pending;
    } else {
      assert x[0..] + rest == x + rest;
      forall j | 0 <= j < |x[1..]| ensures !StartsSpecifier(x[1..][j..] + rest) {
        assert x[1..][j..] == x[j + 1..];
      }
      ScanLiteral(x[1..], rest, pending + [x[0]]);
      assert (x + rest)[1..] == x[1..] + rest;
      assert pending + [x[0]] + x[1..] == pending + x;
    }
  }

  lemma PercentStart(body: string, rest: string)
    requires body != "" && body[0] != '%'
    ensures StartsSpecifier("%" + body + rest) && ("%" + body + rest)[1..] == body + rest
  {
    assert ("%" + body + rest)[1] == body[0];
  }

  lemma PrintedSpecifier(ts: seq<Token>)
    requires WellFormed(ts) && ts != [] && ts[0].Specifier?
    ensures StartsSpecifier(Print(ts))
    ensures ReadSpecifier(Print(ts)[1..]) == Head(ts[0].name, ts[0].braced, ts[0].fmt, Print(ts[1..]))
  {
    var Specifier(n, b, f) := ts[0];
    var rest := Print(ts[1..]);
    KnownNames(n);
    if !b && |ts| > 1 {
      PrintStart(ts[1..]);
    }
    ReadPrinted(n, b, f, rest);
    var body := Body(n, b, f);
    assert body[0] == n[0];
    PercentStart(body, rest);
    assert Print(ts) == "%" + body + rest;
  }

  lemma PrintStart(ts: seq<Token>)
    requires WellFormed(ts) && ts != []
    ensures Print(ts) != ""
    ensures ts[0].Literal? ==> Print(ts)[0] == ts[0].text[0]
    ensures ts[0].Specifier? ==> Print(ts)[0] == '%'
  {
  }

  lemma PrintedLiteral(ts: seq<Token>)
    requires WellFormed(ts) && ts != [] && ts[0].Literal?
    ensures Scan(Print(ts), "") == Scan(Print(ts[1..]), ts[0].text)
  {
    var x, rest := ts[0].text, Print(ts[1..]);
    if |ts| > 1 {
      PrintStart(ts[1..]);
    }
    forall j | 0 <= j < |x| ensures !StartsSpecifier(x[j..] + rest) {
      assert PairedAt(x, j, |ts| > 1 && ts[1].Specifier?);
      if x[j] == '%' {
        if j + 1 < |x| {
          assert (x[j..] + rest)[1] == x[j + 1] == '%';
        } else {
          assert (x[j..] + rest)[1] == rest[0] == '%';
        }
      }
    }
    ScanLiteral(x, rest, "");
    assert "" + x == x;
  }

  lemma SplitTokens(before: seq<Token>, ts: seq<Token>)
    requires ts != []
    ensures before + [ts[0]] + ts[1..] == before + ts
  {
  }

  lemma ScanPrintedSpecifier(ts: seq<Token>, pending: string)
    requires WellFormed(ts) && ts != [] && ts[0].Specifier?
    requires Scan(Print(ts[1..]), "") == ts[1..]
    ensures Scan(Print(ts), pending) == Flush(pending) + ts
  {
    PrintedSpecifier(ts);
    SplitTokens(Flush(pending), ts);
  }

  /** Parsing undoes printing: the scanner reads back every well-formed token list. */
  lemma {:induction false} ScanPrint(ts: seq<Token>)
    requires WellFormed(ts)
    ensures Scan(Print(ts), "") == ts
  {
    if ts != [] {
      var rest := ts[1..];
      if ts[0].Specifier? {
        ScanPrint(rest);
        ScanPrintedSpecifier(ts, "");
      } else {
        PrintedLiteral(ts);
        if rest != [] {
          ScanPrint(rest[1..]);
          ScanPrintedSpecifier(rest, ts[0].text);
          assert Flush(ts[0].text) + rest == ts;
        }
      }
    }
  }

  // ----- Printing what was read -----

  lemma {:induction false} NameLenEnds(t: string)
    ensures NameLen(t) < |t| ==> !NameChar(t[NameLen(t)])
  {
    if t != "" && NameChar(t[0]) {
      NameLenEnds(t[1..]);
    }
  }

  lemma {:induction false} CloseAtEnds(f: string)
    ensures '}' !in f[..CloseAt(f)]
    ensures CloseAt(f) < |f| ==> f[CloseAt(f)] == '}'
  {
    if f != "" && f[0] != '}' {
      CloseAtEnds(f[1..]);
      assert f[..CloseAt(f)] == [f[0]] + f[1..][..CloseAt(f[1..])];
    }
  }

  lemma BracedParts(t: string, k: nat, c: nat)
    requires k < |t| && t[k] == '{'
    requires c < |t[k + 1..]| && t[k + 1..][c] == '}'
    ensures Body(t[..k], true, t[k + 1..][..c]) + t[k + 1..][c + 1..] == t
  {
    var f := t[k + 1..];
    assert f == f[..c] + ("}" + f[c + 1..]);
    assert t == t[..k] + "{" + f;
    Braces(t[..k], f[..c], f[c + 1..]);
  }

  lemma ReadParts(t: string)
    requires ReadSpecifier(t).Head?
    ensures var h := ReadSpecifier(t);
            && Body(h.name, h.braced, h.fmt) + h.rest == t
            && '}' !in h.fmt && (!h.braced ==> h.fmt == "" && !StartsNameOrBrace(h.rest))
  {
    NameLenEnds(t);
    var k := NameLen(t);
    if k < |t| && t[k] == '{' {
      CloseAtEnds(t[k + 1..]);
      BracedParts(t, k, CloseAt(t[k + 1..]));
    } else {
      assert t[..k] + "" + t[k..] == t;
    }
  }

  lemma Braces(n: string, f: string, rest: string)
    ensures Body(n, true, f) + rest == n + "{" + (f + "}" + rest)
  {
  }

  lemma PrintCons(t: Token, us: seq<Token>)
    ensures Print([t] + us) == Text(t) + Print(us)
  {
    assert ([t] + us)[1..] == us;
  }

  lemma Assoc<T>(a: seq<T>, b: seq<T>, c: seq<T>)
    ensures a + (b + c) == a + b + c
  {
  }

  lemma SplitHead<T>(a: seq<T>, b: seq<T>)
    requires a != []
    ensures a + b == [a[0]] + (a[1..] + b)
  {
  }

  lemma {:induction false} PrintConcat(ts: seq<Token>, us: seq<Token>)
    ensures Print(ts + us) == Print(ts) + Print(us)
  {
    if ts == [] {
      assert ts + us == us;
    } else {
      PrintConcat(ts[1..], us);
      SplitHead(ts, us);
      PrintCons(ts[0], ts[1..] + us);
      Assoc(Text(ts[0]), Print(ts[1..]), Print(us));
    }
  }

  lemma PrintFlush(pending: string, ts: seq<Token>)
    ensures Print(Flush(pending) + ts) == pending + Print(ts)
  {
    PrintConcat(Flush(pending), ts);
  }

  /** A pending literal whose `%`s are all followed by `%`, the last one by the text still to scan. */
  predicate Pending(pending: string, s: string) {
    Paired(pending, s != "" && s[0] == '%')
  }

  lemma WellFormedCons(t: Token, us: seq<Token>, rest: string)
    requires t.Specifier? && t.name in KNOWN && '}' !in t.fmt
    requires !t.braced ==> t.fmt == "" && !StartsNameOrBrace(rest)
    requires WellFormed(us) && Print(us) == rest
    ensures WellFormed([t] + us)
  {
    if us != [] {
      PrintStart(us);
    }
    assert ([t] + us)[1..] == us;
  }

  lemma WellFormedFlush(pending: string, ts: seq<Token>, s: string)
    requires WellFormed(ts) && ts != [] && ts[0].Specifier?
    requires s != "" && s[0] == '%' && Pending(pending, s)
    ensures WellFormed(Flush(pending) + ts)
  {
    if pending == "" {
      assert Flush(pending) + ts == ts;
    } else {
      var all := [Literal(pending)] + ts;
      assert all[1..] == ts;
      assert Paired(pending, true);
    }
  }

  lemma PendingStep(s: string, pending: string)
    requires s != "" && !StartsSpecifier(s) && Pending(pending, s)
    ensures Pending(pending + [s[0]], s[1..])
  {
    var next := pending + [s[0]];
    var now, then' := s[0] == '%', |s| > 1 && s[1] == '%';
    assert Paired(pending, now);
    forall j: nat | j < |next| ensures PairedAt(next, j, then') {
      assert j < |pending| ==> PairedAt(pending, j, now);
    }
  }

  lemma PrintScanEnd(s: string, pending: string)
    requires s == "" && Pending(pending, s)
    ensures Print(Flush(pending)) == pending + s && WellFormed(Flush(pending))
  {
    if pending != "" {
      var ts := [Literal(pending)];
      assert ts[1..] == [];
      assert Paired(pending, false);
    }
  }

  /** Printing undoes parsing, for every pattern the formatter accepts; and what was parsed is
      well-formed. */
  lemma {:induction false} PrintScan(s: string, pending: string)
    requires Clean(Scan(s, pending)) && Pending(pending, s)
    ensures Print(Scan(s, pending)) == pending + s
    ensures WellFormed(Scan(s, pending))
    decreases |s|
  {
    if s == "" {
      PrintScanEnd(s, pending);
    } else if !StartsSpecifier(s) {
      PendingStep(s, pending);
      PrintScan(s[1..], pending + [s[0]]);
      assert pending + [s[0]] + s[1..] == pending + s;
    } else {
      PrintScanSpecifier(s, pending);
    }
  }

  lemma ScanSpecifier(s: string, pending: string)
    requires StartsSpecifier(s) && Clean(Scan(s, pending))
    ensures var h := ReadSpecifier(s[1..]);
            && h.Head? && h.name in KNOWN && Clean(Scan(h.rest, ""))
            && Scan(s, pending) == Flush(pending) + ([Specifier(h.name, h.braced, h.fmt)] + Scan(h.rest, ""))
  {
    var h := ReadSpecifier(s[1..]);
    if h.Head? {
      var tok, us := Specifier(h.name, h.braced, h.fmt), Scan(h.rest, "");
      Assoc(Flush(pending), [tok], us);
      Concat(Flush(pending), [tok] + us);
      Concat([tok], us);
      assert [tok][0] == tok;
    }
  }

  /** One specifier and what follows it print as they were read. */
  lemma PrintsBack(t: string, pending: string, us: seq<Token>)
    requires ReadSpecifier(t).Head? && Print(us) == ReadSpecifier(t).rest
    ensures var h := ReadSpecifier(t);
            Print(Flush(pending) + ([Specifier(h.name, h.braced, h.fmt)] + us)) == pending + ("%" + t)
  {
    var h := ReadSpecifier(t);
    var tok := Specifier(h.name, h.braced, h.fmt);
    ReadParts(t);
    PrintFlush(pending, [tok] + us);
    PrintCons(tok, us);
    Assoc("%", Body(h.name, h.braced, h.fmt), h.rest);
  }

  lemma ReadIsWellFormed(s: string, pending: string, us: seq<Token>)
    requires StartsSpecifier(s) && Pending(pending, s) && ReadSpecifier(s[1..]).Head?
    requires ReadSpecifier(s[1..]).name in KNOWN && WellFormed(us) && Print(us) == ReadSpecifier(s[1..]).rest
    ensures var h := ReadSpecifier(s[1..]);
            WellFormed(Flush(pending) + ([Specifier(h.name, h.braced, h.fmt)] + us))
  {
    var h := ReadSpecifier(s[1..]);
    var tok := Specifier(h.name, h.braced, h.fmt);
    ReadParts(s[1..]);
    WellFormedCons(tok, us, h.rest);
    WellFormedFlush(pending, [tok] + us, s);
  }

  lemma {:induction false} PrintScanSpecifier(s: string, pending: string)
    requires Clean(Scan(s, pending)) && Pending(pending, s) && StartsSpecifier(s)
    ensures Print(Scan(s, pending)) == pending + s
    ensures WellFormed(Scan(s, pending))
    decreases |s|, 0
  {
    ScanSpecifier(s, pending);
    var h := ReadSpecifier(s[1..]);
    var us := Scan(h.rest, "");
    PrintScan(h.rest, "");
    assert "" + h.rest == h.rest && "%" + s[1..] == s;
    PrintsBack(s[1..], pending, us);
    ReadIsWellFormed(s, pending, us);
  }

  /** A pattern is accepted exactly when it is the print of a well-formed token list. */
  lemma AcceptedIffPrinted(p: string)
    ensures Accepted(p) <==> exists ts :: WellFormed(ts) && Print(ts) == p
    ensures Accepted(p) ==> forall ts :: WellFormed(ts) && Print(ts) == p ==> ts == Scan(p, "")
  {
    if Accepted(p) {
      PrintScan(p, "");
      assert "" + p == p;
    }
    forall ts | WellFormed(ts) && Print(ts) == p ensures Accepted(p) && ts == Scan(p, "") {
      ScanPrint(ts);
      WellFormedIsClean(ts);
    }
  }

  lemma {:induction false} WellFormedIsClean(ts: seq<Token>)
    requires WellFormed(ts)
    ensures Clean(ts)
  {
    if ts != [] {
      WellFormedIsClean(ts[1..]);
    }
  }

  // ----- Printing the program's own tuples -----

  /** The tuples do not remember an empty `{}`, so a printer of tuples drops it. */
  function TupleText(u: Tuple): string {
    if u.kind == 0 then u.str else "%" + Body(u.str, u.fmt != "", u.fmt)
  }

  function PrintTuples(us: seq<Tuple>): string {
    if us == [] then "" else TupleText(us[0]) + PrintTuples(us[1..])
  }

  predicate EmptyBraces(t: Token) {
    t.Specifier? && t.braced && t.fmt == ""
  }

  predicate NoEmptyBraces(ts: seq<Token>) {
    ts == [] || (!EmptyBraces(ts[0]) && NoEmptyBraces(ts[1..]))
  }

  lemma {:induction false} TuplesShrink(ts: seq<Token>)
    requires WellFormed(ts)
    ensures |PrintTuples(Erased(ts))| <= |Print(ts)|
    ensures PrintTuples(Erased(ts)) == Print(ts) <==> NoEmptyBraces(ts)
  {
    if ts != [] {
      TuplesShrink(ts[1..]);
      assert Erased(ts)[1..] == Erased(ts[1..]);
      var a, b := TupleText(Erase(ts[0])), Text(ts[0]);
      if EmptyBraces(ts[0]) {
        assert |a| < |b|;
      } else {
        assert a == b;
        if PrintTuples(Erased(ts)) == Print(ts) {
          assert PrintTuples(Erased(ts))[|a|..] == PrintTuples(Erased(ts[1..]));
          assert Print(ts)[|a|..] == Print(ts[1..]);
        }
      }
    }
  }

  /** Reprinting the tuples of an accepted pattern gives the pattern back exactly when it has no
      specifier with empty braces; otherwise it is shorter. */
  lemma ReprintExact(p: string)
    requires Accepted(p)
    ensures PrintTuples(Erased(Scan(p, ""))) == p <==> NoEmptyBraces(Scan(p, ""))
    ensures |PrintTuples(Erased(Scan(p, "")))| <= |p|
  {
    PrintScan(p, "");
    assert "" + p == p;
    TuplesShrink(Scan(p, ""));
  }
}