/** The pattern compiler of the log formatter (nnysl/log.cpp:337-462).

    `Scan` is the recursive reading of a pattern; `LogFormatter.Init` is the program's nested
    scanning loop, proved to compute it on every pattern.  The theorems about `Scan` say which
    patterns are accepted, that accepted patterns and well-formed token lists are in bijection,
    that no character of any pattern is lost, and that formatting distributes over concatenation.
  */
module Pattern {

  // ----- Tokens -----

  /** What one step of the scanner recognises.  `braced` tells `%d{}` from `%d`, which the
      program's own tuples (`Erase`) no longer do. */
  datatype Token =
    | Literal(text: string)
    | Specifier(name: string, braced: bool, fmt: string)
    | Unclosed

  /** The program's `std::tuple<string, string, int>`: kind 0 is literal text, 1 a specifier. */
  datatype Tuple = Tuple(str: string, fmt: string, kind: int)

  const PATTERN_ERROR := "<pattern_error>"

  function Erase(t: Token): Tuple {
    match t
    case Literal(x) => Tuple(x, "", 0)
    case Specifier(n, _, f) => Tuple(n, f, 1)
    case Unclosed => Tuple(PATTERN_ERROR, "", 0)
  }

  function Erased(ts: seq<Token>): seq<Tuple> {
    if ts == [] then [] else [Erase(ts[0])] + Erased(ts[1..])
  }

  const KNOWN: set<string> := {"m", "p", "r", "c", "t", "n", "d", "f", "l", "T", "F"}

  predicate IsAlpha(c: char) {
    'a' <= c <= 'z' || 'A' <= c <= 'Z'
  }

  /** `}` does not end a specifier name. */
  predicate NameChar(c: char) {
    IsAlpha(c) || c == '}'
  }

  // ----- The recursive scanner -----

  function NameLen(s: string): (k: nat)
    ensures k <= |s|
  {
    if s == "" || !NameChar(s[0]) then 0 else 1 + NameLen(s[1..])
  }

  /** Index of the first `}`, or the length when there is none. */
  function CloseAt(s: string): (k: nat)
    ensures k <= |s|
  {
    if s == "" || s[0] == '}' then 0 else 1 + CloseAt(s[1..])
  }

  function Flush(pending: string): seq<Token> {
    if pending == "" then [] else [Literal(pending)]
  }

  /** A `%` that is followed by another `%` is literal text, and the second one is scanned again. */
  predicate StartsSpecifier(s: string) {
    s != "" && s[0] == '%' && (|s| == 1 || s[1] != '%')
  }

  datatype Head = Head(name: string, braced: bool, fmt: string, rest: string) | Open

  /** Reads one specifier, given what follows its `%`. */
  function ReadSpecifier(t: string): (h: Head)
    ensures h.Head? ==> |h.rest| <= |t|
  {
    var k := NameLen(t);
    if k < |t| && t[k] == '{' then
      var f := t[k + 1..];
      var c := CloseAt(f);
      if c < |f| then Head(t[..k], true, f[..c], f[c + 1..]) else Open
    else
      Head(t[..k], false, "", t[k..])
  }

  function Scan(s: string, pending: string): seq<Token>
    decreases |s|
  {
    if s == "" then
      Flush(pending)
    else if !StartsSpecifier(s) then
      Scan(s[1..], pending + [s[0]])
    else
      match ReadSpecifier(s[1..])
      case Head(n, b, f, rest) => Flush(pending) + [Specifier(n, b, f)] + Scan(rest, "")
      // the pending literal is not flushed and only the '%' is skipped
      case Open => [Unclosed] + Scan(s[1..], pending)
  }

  // ----- Errors -----

  predicate Good(t: Token) {
    match t
    case Literal(_) => true
    case Specifier(n, _, _) => n in KNOWN
    case Unclosed => false
  }

  predicate Clean(ts: seq<Token>) {
    ts == [] || (Good(ts[0]) && Clean(ts[1..]))
  }

  /** `!isError()` of a formatter built from the pattern. */
  predicate Accepted(p: string) {
    Clean(Scan(p, ""))
  }

  // ----- Items -----

  datatype Item =
    | StringItem(text: string) | MessageItem | LevelItem | ElapseItem | NameItem | ThreadIdItem
    | NewLineItem | DateTimeItem(format: string) | FileNameItem | LineItem | TabItem | FiberIdItem

  const DEFAULT_TIME_FORMAT := "%Y-%m-%d %H:%M:%S"

  function SpecifierItem(name: string, fmt: string): Item
    requires name in KNOWN
  {
    if name == "m" then MessageItem
    else if name == "p" then LevelItem
    else if name == "r" then ElapseItem
    else if name == "c" then NameItem
    else if name == "t" then ThreadIdItem
    else if name == "n" then NewLineItem
    else if name == "d" then DateTimeItem(if fmt == "" then DEFAULT_TIME_FORMAT else fmt)
    else if name == "f" then FileNameItem
    else if name == "l" then LineItem
    else if name == "T" then TabItem
    else FiberIdItem
  }

  function ItemOf(u: Tuple): Item {
    if u.kind == 0 then StringItem(u.str)
    else if u.str in KNOWN then SpecifierItem(u.str, u.fmt)
    else StringItem("<error_format %" + u.str + ">")
  }

  function Items(us: seq<Tuple>): seq<Item> {
    if us == [] then [] else [ItemOf(us[0])] + Items(us[1..])
  }

  function Compile(p: string): seq<Item> {
    Items(Erased(Scan(p, "")))
  }

  // ----- Rendering -----

  /** An event with its numeric fields already in decimal; `clock` is strftime at the event's time. */
  datatype Event = Event(loggerName: string, file: string, line: string, elapse: string, threadId: string,
                         fiberId: string, content: string, clock: string -> string)

  function LevelName(level: int): string {
    if level == 1 then "DEBUG" else if level == 2 then "INFO" else if level == 3 then "WARN"
    else if level == 4 then "ERROR" else if level == 5 then "FATAL" else "UNKNOW"
  }

  function RenderItem(i: Item, level: int, ev: Event): string {
    match i
    case StringItem(x) => x
    case MessageItem => ev.content
    case LevelItem => LevelName(level)
    case ElapseItem => ev.elapse
    case NameItem => ev.loggerName
    case ThreadIdItem => ev.threadId
    case NewLineItem => "\n"
    case DateTimeItem(f) => ev.clock(f)
    case FileNameItem => ev.file
    case LineItem => ev.line
    case TabItem => "\t"
    case FiberIdItem => ev.fiberId
  }

  function Render(items: seq<Item>, level: int, ev: Event): string {
    if items == [] then "" else RenderItem(items[0], level, ev) + Render(items[1..], level, ev)
  }

  // ----- The formatter object -----

  /** What the inner loop leaves behind is what `ReadSpecifier` reads; folded like `Compiles` below. */
  ghost predicate FoundAt(p: string, i: nat, n: nat, open: bool, str: string, fmt: string, depth: nat)
    requires i < |p|
  {
    if depth > 0 then FoundAt(p, i, n, open, str, fmt, depth - 1)
    else
      var h := ReadSpecifier(p[i + 1..]);
      if open then
        h == Open && fmt == ""
      else
        n <= |p| && h.Head? && h.name == str && h.fmt == fmt && h.rest == p[n..]
  }

  ghost predicate Found(p: string, i: nat, n: nat, open: bool, str: string, fmt: string)
    requires i < |p|
  {
    FoundAt(p, i, n, open, str, fmt, |p| + 2)
  }

  lemma {:induction false} UnfoldFound(p: string, i: nat, n: nat, open: bool, str: string, fmt: string, depth: nat)
    requires i < |p|
    ensures FoundAt(p, i, n, open, str, fmt, depth) <==>
            var h := ReadSpecifier(p[i + 1..]);
            if open then h == Open && fmt == ""
            else n <= |p| && h.Head? && h.name == str && h.fmt == fmt && h.rest == p[n..]
  {
    if depth > 0 {
      UnfoldFound(p, i, n, open, str, fmt, depth - 1);
    }
  }

  lemma ReadBraced(t: string, k: nat, f: string, c: nat)
    requires k == NameLen(t) < |t| && t[k] == '{' && f == t[k + 1..] && c == CloseAt(f) < |f|
    ensures ReadSpecifier(t) == Head(t[..k], true, f[..c], f[c + 1..])
  {
  }

  lemma SubPrefix(p: string, a: nat, y: nat)
    requires a + y <= |p|
    ensures p[a..][..y] == p[a..a + y] && p[a..][y..] == p[a + y..]
  {
  }

  lemma FoundHead(p: string, i: nat, n: nat, str: string, braced: bool, fmt: string)
    requires i < n <= |p| && ReadSpecifier(p[i + 1..]) == Head(str, braced, fmt, p[n..])
    ensures Found(p, i, n, false, str, fmt)
  {
    UnfoldFound(p, i, n, false, str, fmt, |p| + 2);
  }

  lemma Pieces(p: string, i: nat, e: nat, n: nat)
    requires i < e && e + 1 < n <= |p|
    ensures var t, f := p[i + 1..], p[e + 1..];
            && t[e - i - 1] == p[e] && t[e - i..] == f && t[..e - i - 1] == p[i + 1..e]
            && f[..n - e - 2] == p[e + 1..n - 1] && f[n - e - 1..] == p[n..]
  {
    SubPrefix(p, i + 1, e - i - 1);
    SubPrefix(p, i + 1, e - i);
    SubPrefix(p, e + 1, n - e - 2);
    SubPrefix(p, e + 1, n - e - 1);
  }

  lemma FoundBraced(p: string, i: nat, e: nat, n: nat)
    requires i < e < n <= |p| && NameLen(p[i + 1..]) == e - i - 1
    requires p[e] == '{' && CloseAt(p[e + 1..]) == n - e - 2 && e + 1 < n
    ensures Found(p, i, n, false, p[i + 1..e], p[e + 1..n - 1])
  {
    Pieces(p, i, e, n);
    ReadBraced(p[i + 1..], e - i - 1, p[e + 1..], n - e - 2);
    FoundHead(p, i, n, p[i + 1..e], true, p[e + 1..n - 1]);
  }

  lemma ReadStep(p: string, n: nat)
    requires n < |p|
    ensures NameLen(p[n..]) == if NameChar(p[n]) then 1 + NameLen(p[n + 1..]) else 0
    ensures CloseAt(p[n..]) == if p[n] == '}' then 0 else 1 + CloseAt(p[n + 1..])
    ensures n + 1 == |p| ==> NameLen(p[n + 1..]) == CloseAt(p[n + 1..]) == 0
  {
    assert p[n..][1..] == p[n + 1..];
  }

  lemma FoundPlain(p: string, i: nat, n: nat)
    requires i < n <= |p| && NameLen(p[i + 1..]) == n - i - 1
    requires n < |p| ==> p[n] != '{'
    ensures Found(p, i, n, false, p[i + 1..n], "")
    ensures n == |p| ==> p[i + 1..n] == p[i + 1..]
  {
    var t := p[i + 1..];
    SubPrefix(p, i + 1, NameLen(t));
    UnfoldFound(p, i, n, false, p[i + 1..n], "", |p| + 2);
  }

  lemma FoundOpen(p: string, i: nat, e: nat, n: nat, str: string)
    requires i < e < |p| && NameLen(p[i + 1..]) == e - i - 1
    requires p[e] == '{' && CloseAt(p[e + 1..]) == |p| - e - 1
    ensures Found(p, i, n, true, str, "")
  {
    var t := p[i + 1..];
    assert t[NameLen(t)] == p[e];
    SubPrefix(p, i + 1, NameLen(t) + 1);
    UnfoldFound(p, i, n, true, str, "", |p| + 2);
  }

  predicate AllClosed(ts: seq<Token>) {
    ts == [] || (ts[0] != Unclosed && AllClosed(ts[1..]))
  }

  predicate AllKnown(us: seq<Tuple>) {
    us == [] || ((us[0].kind == 0 || us[0].str in KNOWN) && AllKnown(us[1..]))
  }

  lemma CleanIff(ts: seq<Token>)
    ensures Clean(ts) <==> AllClosed(ts) && AllKnown(Erased(ts))
  {
    if ts != [] {
      CleanIff(ts[1..]);
      assert Erased(ts)[1..] == Erased(ts[1..]);
    }
  }

  lemma Concat(ts: seq<Token>, us: seq<Token>)
    ensures Erased(ts + us) == Erased(ts) + Erased(us)
    ensures AllClosed(ts + us) <==> AllClosed(ts) && AllClosed(us)
    ensures Clean(ts + us) <==> Clean(ts) && Clean(us)
  {
    if ts == [] {
      assert ts + us == us;
    } else {
      Concat(ts[1..], us);
      assert (ts + us)[1..] == ts[1..] + us;
    }
  }

  /** What remains to be pushed, and whether an error remains to be set, at position `i`;
      folded like `Compiles` below. */
  ghost predicate RemainingAt(p: string, i: nat, pending: string, vec: seq<Tuple>, error: bool, depth: nat)
    requires i <= |p|
  {
    if depth > 0 then RemainingAt(p, i, pending, vec, error, depth - 1)
    else
      && Erased(Scan(p, "")) == vec + Erased(Scan(p[i..], pending))
      && AllClosed(Scan(p, "")) == (!error && AllClosed(Scan(p[i..], pending)))
  }

  ghost predicate Remaining(p: string, i: nat, pending: string, vec: seq<Tuple>, error: bool)
    requires i <= |p|
  {
    RemainingAt(p, i, pending, vec, error, |p| + 2)
  }

  lemma {:induction false} UnfoldRemaining(p: string, i: nat, pending: string, vec: seq<Tuple>, error: bool, depth: nat)
    requires i <= |p|
    ensures RemainingAt(p, i, pending, vec, error, depth) <==>
            && Erased(Scan(p, "")) == vec + Erased(Scan(p[i..], pending))
            && AllClosed(Scan(p, "")) == (!error && AllClosed(Scan(p[i..], pending)))
  {
    if depth > 0 {
      UnfoldRemaining(p, i, pending, vec, error, depth - 1);
    }
  }

  lemma StartStep(p: string)
    ensures Remaining(p, 0, "", [], false)
  {
    UnfoldRemaining(p, 0, "", [], false, |p| + 2);
    assert p[0..] == p;
  }

  /** What remains stays the same when tokens move from the rest of the pattern to `vec`. */
  lemma StepTo(p: string, i: nat, pending: string, vec: seq<Tuple>, error: bool,
               i': nat, pending': string, vec': seq<Tuple>, error': bool)
    requires i <= |p| && i' <= |p| && Remaining(p, i, pending, vec, error)
    requires vec + Erased(Scan(p[i..], pending)) == vec' + Erased(Scan(p[i'..], pending'))
    requires (!error && AllClosed(Scan(p[i..], pending))) == (!error' && AllClosed(Scan(p[i'..], pending')))
    ensures Remaining(p, i', pending', vec', error')
  {
    UnfoldRemaining(p, i, pending, vec, error, |p| + 2);
    UnfoldRemaining(p, i', pending', vec', error', |p| + 2);
  }

  function Flushed(vec: seq<Tuple>, pending: string): seq<Tuple> {
    if pending == "" then vec else vec + [Tuple(pending, "", 0)]
  }

  lemma FlushErased(pending: string, vec: seq<Tuple>)
    ensures AllClosed(Flush(pending))
    ensures vec + Erased(Flush(pending)) == Flushed(vec, pending)
  {
  }

  lemma PushToken(pending: string, t: Token, rest: seq<Token>, vec: seq<Tuple>)
    requires t != Unclosed
    ensures vec + Erased(Flush(pending) + [t] + rest) == Flushed(vec, pending) + [Erase(t)] + Erased(rest)
    ensures AllClosed(Flush(pending) + [t] + rest) <==> AllClosed(rest)
  {
    Concat(Flush(pending) + [t], rest);
    Concat(Flush(pending), [t]);
    FlushErased(pending, vec);
    assert Erased([t]) == [Erase(t)] && AllClosed([t]);
  }

  lemma ScanClosed(p: string, i: nat, n: nat, str: string, fmt: string, pending: string) returns (braced: bool)
    requires i < |p| && StartsSpecifier(p[i..]) && Found(p, i, n, false, str, fmt)
    ensures n <= |p|
    ensures Scan(p[i..], pending) == Flush(pending) + [Specifier(str, braced, fmt)] + Scan(p[n..], "")
  {
    UnfoldFound(p, i, n, false, str, fmt, |p| + 2);
    assert p[i..][1..] == p[i + 1..];
    braced := ReadSpecifier(p[i + 1..]).braced;
  }

  lemma ClosedStep(p: string, i: nat, n: nat, str: string, fmt: string, pending: string,
                   vec: seq<Tuple>, error: bool)
    requires i < |p| && StartsSpecifier(p[i..]) && Found(p, i, n, false, str, fmt)
    requires Remaining(p, i, pending, vec, error)
    ensures n <= |p| && Remaining(p, n, "", Flushed(vec, pending) + [Tuple(str, fmt, 1)], error)
  {
    var braced := ScanClosed(p, i, n, str, fmt, pending);
    PushToken(pending, Specifier(str, braced, fmt), Scan(p[n..], ""), vec);
    StepTo(p, i, pending, vec, error, n, "", Flushed(vec, pending) + [Tuple(str, fmt, 1)], error);
  }

  lemma AssocTuples(a: seq<Tuple>, b: seq<Tuple>, c: seq<Tuple>)
    ensures a + (b + c) == a + b + c
  {
  }

  lemma ScanOpen(p: string, i: nat, n: nat, str: string, fmt: string, pending: string)
    requires i < |p| && StartsSpecifier(p[i..]) && Found(p, i, n, true, str, fmt)
    ensures fmt == "" && Scan(p[i..], pending) == [Unclosed] + Scan(p[i + 1..], pending)
  {
    UnfoldFound(p, i, n, true, str, fmt, |p| + 2);
    assert p[i..][1..] == p[i + 1..];
  }

  lemma PushUnclosed(rest: seq<Token>, vec: seq<Tuple>)
    ensures vec + Erased([Unclosed] + rest) == vec + [Tuple(PATTERN_ERROR, "", 0)] + Erased(rest)
    ensures !AllClosed([Unclosed] + rest)
  {
    assert ([Unclosed] + rest)[1..] == rest;
    AssocTuples(vec, [Tuple(PATTERN_ERROR, "", 0)], Erased(rest));
  }

  lemma OpenStep(p: string, i: nat, n: nat, str: string, fmt: string, pending: string, vec: seq<Tuple>, error: bool)
    requires i < |p| && StartsSpecifier(p[i..]) && Found(p, i, n, true, str, fmt)
    requires Remaining(p, i, pending, vec, error)
    ensures Remaining(p, i + 1, pending, vec + [Tuple(PATTERN_ERROR, fmt, 0)], true)
  {
    ScanOpen(p, i, n, str, fmt, pending);
    PushUnclosed(Scan(p[i + 1..], pending), vec);
    StepTo(p, i, pending, vec, error, i + 1, pending, vec + [Tuple(PATTERN_ERROR, fmt, 0)], true);
  }

  lemma EndStep(p: string, pending: string, vec: seq<Tuple>, error: bool)
    requires Remaining(p, |p|, pending, vec, error)
    ensures Erased(Scan(p, "")) == Flushed(vec, pending) && AllClosed(Scan(p, "")) == !error
  {
    UnfoldRemaining(p, |p|, pending, vec, error, |p| + 2);
    FlushErased(pending, vec);
    assert |p[|p|..]| == 0;
  }

  lemma LiteralStep(p: string, i: nat, pending: string, vec: seq<Tuple>, error: bool)
    requires i < |p| && !StartsSpecifier(p[i..]) && Remaining(p, i, pending, vec, error)
    ensures Remaining(p, i + 1, pending + [p[i]], vec, error)
  {
    assert p[i..][1..] == p[i + 1..];
    StepTo(p, i, pending, vec, error, i + 1, pending + [p[i]], vec, error);
  }

  lemma BuildStep(vec: seq<Tuple>, k: nat)
    requires k < |vec|
    ensures Items(vec[k..]) == [ItemOf(vec[k])] + Items(vec[k + 1..])
    ensures AllKnown(vec[k..]) == ((vec[k].kind == 0 || vec[k].str in KNOWN) && AllKnown(vec[k + 1..]))
  {
    assert vec[k..][1..] == vec[k + 1..];
  }

  // ----- Folded forms -----
  // Modules that only pass patterns around need not look into the compiler.  The two predicates
  // below count down before they say what they mean, so that a proof sees the meaning only
  // through the lemma `Unfold`.

  predicate CompilesAt(p: string, depth: nat) {
    if depth > 0 then CompilesAt(p, depth - 1) else Accepted(p)
  }

  predicate Compiles(p: string) {
    CompilesAt(p, |p| + 2)
  }

  predicate ItemsAt(p: string, items: seq<Item>, depth: nat) {
    if depth > 0 then ItemsAt(p, items, depth - 1) else items == Compile(p)
  }

  predicate IsCompiled(p: string, items: seq<Item>) {
    ItemsAt(p, items, |p| + 2)
  }

  lemma {:induction false} UnfoldAt(p: string, items: seq<Item>, depth: nat)
    ensures CompilesAt(p, depth) <==> Accepted(p)
    ensures ItemsAt(p, items, depth) <==> items == Compile(p)
    decreases depth
  {
    if depth > 0 {
      UnfoldAt(p, items, depth - 1);
    }
  }

  lemma Unfold(p: string, items: seq<Item>)
    ensures Compiles(p) <==> Accepted(p)
    ensures IsCompiled(p, items) <==> items == Compile(p)
  {
    UnfoldAt(p, items, |p| + 2);
  }

  /** nnysl/log.cpp:94 */
  const DEFAULT_PATTERN: string :=
    "%d{" + DEFAULT_TIME_FORMAT + "}" + "%T%t%T%F" + "%T[%p]" + "%T[%c]" + "%T%f:%l" + "%T%m" + "%n"

  class LogFormatter {
    const pattern: string
    const items: seq<Item>
    const error: bool

    predicate Valid() {
      IsCompiled(pattern, items) && error == !Compiles(pattern)
    }

    constructor (pattern: string)
      ensures this.pattern == pattern && Valid()
    {
      var its, err := Init(pattern);
      this.pattern, items, error := pattern, its, err;
      Unfold(pattern, its);
    }

    /** The inner scanning loop (nnysl/log.cpp:355-390), with the variables it leaves behind. */
    static method ReadOne(p: string, i: nat) returns (n: nat, fmtStatus: int, str: string, fmt: string)
      requires i < |p|
      ensures i < n <= |p| && (fmtStatus == 0 || fmtStatus == 1)
      ensures Found(p, i, n, fmtStatus == 1, str, fmt)
    {
      n := i + 1;
      fmtStatus := 0;
      var fmtBegin := 0;
      str, fmt := "", "";
      ghost var t := p[i + 1..];
      ghost var e := i + 1 + NameLen(t);
      while n < |p|
        invariant i + 1 <= n <= |p|
        invariant fmtStatus == 0 || fmtStatus == 1
        invariant fmt == ""
        invariant fmtStatus == 0 ==> e == n + NameLen(p[n..]) && str == if n == |p| then t else ""
        invariant fmtStatus == 1 ==> e < n && p[e] == '{' && fmtBegin == e
        invariant fmtStatus == 1 ==> CloseAt(p[e + 1..]) == n - e - 1 + CloseAt(p[n..])
        invariant fmtStatus == 1 && n < |p| ==> str == p[i + 1..e]
      {
        ReadStep(p, n);
        if fmtStatus == 0 && !IsAlpha(p[n]) && p[n] != '{' && p[n] != '}' {
          str := p[i + 1..n];
          FoundPlain(p, i, n);
          return;
        }
        if fmtStatus == 0 {
          if p[n] == '{' {
            str := p[i + 1..n];
            fmtStatus := 1;
            fmtBegin := n;
            n := n + 1;
            continue;
          }
        } else if fmtStatus == 1 {
          if p[n] == '}' {
            fmt := p[fmtBegin + 1..n];
            fmtStatus := 0;
            n := n + 1;
            FoundBraced(p, i, e, n);
            return;
          }
        }
        n := n + 1;
        if n == |p| {
          if str == "" {
            str := p[i + 1..];
          }
        }
      }
      if fmtStatus == 1 {
        FoundOpen(p, i, e, n, str);
      } else {
        FoundPlain(p, i, n);
      }
    }

    /** The outer scanning loop (nnysl/log.cpp:342-409). */
    static method Tokenize(p: string) returns (vec: seq<Tuple>, error: bool)
      ensures vec == Erased(Scan(p, ""))
      ensures error == !AllClosed(Scan(p, ""))
    {
      error := false;
      vec := [];
      var pending := "";
      var i := 0;
      StartStep(p);
      while i < |p|
        invariant 0 <= i <= |p|
        invariant Remaining(p, i, pending, vec, error)
      {
        if p[i] != '%' {
          LiteralStep(p, i, pending, vec, error);
          pending := pending + [p[i]];
          i := i + 1;
          continue;
        }
        if i + 1 < |p| {
          if p[i + 1] == '%' {
            LiteralStep(p, i, pending, vec, error);
            pending := pending + [p[i]];
            i := i + 1;
            continue;
          }
        }
        var n, fmtStatus, str, fmt := ReadOne(p, i);
        if fmtStatus == 0 {
          ClosedStep(p, i, n, str, fmt, pending, vec, error);
          if pending != "" {
            vec := vec + [Tuple(pending, "", 0)];
            pending := "";
          }
          vec := vec + [Tuple(str, fmt, 1)];
          i := n - 1;
        } else if fmtStatus == 1 {
          OpenStep(p, i, n, str, fmt, pending, vec, error);
          vec := vec + [Tuple(PATTERN_ERROR, fmt, 0)];
          error := true;
        }
        i := i + 1;
      }
      EndStep(p, pending, vec, error);
      if pending != "" {
        vec := vec + [Tuple(pending, "", 0)];
        pending := "";
      }
    }

    static method BuildItem(u: Tuple) returns (item: Item, error: bool)
      ensures item == ItemOf(u) && error == !(u.kind == 0 || u.str in KNOWN)
    {
      error := false;
      if u.kind == 0 {
        item := StringItem(u.str);
      } else if u.str !in KNOWN {
        item := StringItem("<error_format %" + u.str + ">");
        error := true;
      } else {
        item := SpecifierItem(u.str, u.fmt);
      }
    }

    /** The second pass (nnysl/log.cpp:443-458). */
    static method Build(vec: seq<Tuple>) returns (items: seq<Item>, error: bool)
      ensures items == Items(vec)
      ensures error == !AllKnown(vec)
    {
      items, error := [], false;
      assert vec[0..] == vec;
      for k := 0 to |vec|
        invariant Items(vec) == items + Items(vec[k..])
        invariant AllKnown(vec) == (!error && AllKnown(vec[k..]))
      {
        BuildStep(vec, k);
        var item, unknown := BuildItem(vec[k]);
        items, error := items + [item], error || unknown;
      }
    }

    static method Init(p: string) returns (items: seq<Item>, error: bool)
      ensures items == Compile(p)
      ensures error == !Accepted(p)
    {
      var vec, unclosed := Tokenize(p);
      var its, unknown := Build(vec);
      CleanIff(Scan(p, ""));
      return its, unclosed || unknown;
    }

    /** The output of `format` (nnysl/log.cpp:238-244). */
    method Format(level: int, ev: Event) returns (out: string)
      ensures out == Render(items, level, ev)
    {
      out := "";
      for k := 0 to |items|
        invariant out + Render(items[k..], level, ev) == Render(items, level, ev)
      {
        out := out + RenderItem(items[k], level, ev);
        assert items[k..][1..] == items[k + 1..];
      }
    }
  }
}
