/** Loading a configuration tree: the flattening of the tree into dotted keys, and the registry of
    variables it drives (nnysl/config.cpp, nnysl/config.h:375-436). */
module ConfigTree {
  import opened Wrappers
  import opened ConfigVar

  // ----- Trees and keys -----

  datatype Node = Scalar(text: string) | Sequence(items: seq<Node>) | Map(entries: Entries)

  /** The entries of a map, in its order. */
  datatype Entries = End | Entry(key: string, value: Node, rest: Entries)

  predicate AllowedChar(c: char) {
    'a' <= c <= 'z' || c == '.' || c == '_' || '0' <= c <= '9'
  }

  predicate Allowed(s: string) {
    forall k :: 0 <= k < |s| ==> AllowedChar(s[k])
  }

  const ALPHABET := "abcdefghijklmnopqrstuvwxyz._0123456789"

  lemma AllowedIsListed(c: char)
    requires AllowedChar(c)
    ensures c in ALPHABET
  {
    var k := if 'a' <= c <= 'z' then c as int - 'a' as int
             else if c == '.' then 26 else if c == '_' then 27 else 28 + (c as int - '0' as int);
    assert ALPHABET[k] == c;
  }

  lemma ListedIsAllowed(c: char)
    requires c in ALPHABET
    ensures AllowedChar(c)
  {
  }

  /** The alphabet of configuration names. */
  lemma AllowedAlphabet(c: char)
    ensures AllowedChar(c) <==> c in "abcdefghijklmnopqrstuvwxyz._0123456789"
  {
    if AllowedChar(c) {
      AllowedIsListed(c);
    } else if c in ALPHABET {
      ListedIsAllowed(c);
    }
  }

  function LowerChar(c: char): char {
    if 'A' <= c <= 'Z' then c + ('a' - 'A') else c
  }

  function Lower(s: string): string {
    if s == "" then "" else [LowerChar(s[0])] + Lower(s[1..])
  }

  function Under(prefix: string, key: string): string {
    if prefix == "" then key else prefix + "." + key
  }

  datatype Listed = Listed(path: string, node: Node)

  /** The list that `ListAllMember` fills, and the prefixes it reports as invalid. */
  class Listing {
    var items: seq<Listed>
    var invalid: seq<string>

    constructor ()
      ensures items == [] && invalid == []
    {
      items, invalid := [], [];
    }
  }

  /** What is listed under `prefix`. */
  function ListNode(prefix: string, node: Node): seq<Listed>
    decreases node
  {
    if !Allowed(prefix) then []
    else [Listed(prefix, node)] + if node.Map? then ListEntries(prefix, node.entries) else []
  }

  function ListEntries(prefix: string, es: Entries): seq<Listed>
    decreases es
  {
    if es.End? then [] else ListNode(Under(prefix, es.key), es.value) + ListEntries(prefix, es.rest)
  }

  /** The prefixes reported as invalid. */
  function RejectedNode(prefix: string, node: Node): seq<string>
    decreases node
  {
    if !Allowed(prefix) then [prefix] else if node.Map? then RejectedEntries(prefix, node.entries) else []
  }

  function RejectedEntries(prefix: string, es: Entries): seq<string>
    decreases es
  {
    if es.End? then [] else RejectedNode(Under(prefix, es.key), es.value) + RejectedEntries(prefix, es.rest)
  }

  lemma Assoc<A>(a: seq<A>, b: seq<A>, c: seq<A>)
    ensures a + (b + c) == a + b + c
  {
  }

  /** nnysl/config.cpp:12-23 */
  method ListAllMember(prefix: string, node: Node, output: Listing)
    modifies output
    ensures output.items == old(output.items) + ListNode(prefix, node)
    ensures output.invalid == old(output.invalid) + RejectedNode(prefix, node)
    decreases node
  {
    if !Allowed(prefix) {
      output.invalid := output.invalid + [prefix];
      return;
    }
    output.items := output.items + [Listed(prefix, node)];
    if node.Map? {
      ghost var start := output.items;
      var it := node.entries;
      while !it.End?
        invariant output.items + ListEntries(prefix, it) == start + ListEntries(prefix, node.entries)
        invariant output.invalid + RejectedEntries(prefix, it) ==
                  old(output.invalid) + RejectedEntries(prefix, node.entries)
        invariant it < node
        decreases it
      {
        Assoc(output.items, ListNode(Under(prefix, it.key), it.value), ListEntries(prefix, it.rest));
        Assoc(output.invalid, RejectedNode(Under(prefix, it.key), it.value), RejectedEntries(prefix, it.rest));
        ListAllMember(Under(prefix, it.key), it.value, output);
        it := it.rest;
      }
      assert output.items + [] == output.items && output.invalid + [] == output.invalid;
      Assoc(old(output.items), [Listed(prefix, node)], ListEntries(prefix, node.entries));
    }
  }

  // ----- What is listed -----

  /** Every node of a tree with the keys on its path, in pre-order. */
  datatype Place = Place(segments: seq<string>, node: Node)

  function AllNodes(segments: seq<string>, node: Node): seq<Place>
    decreases node
  {
    [Place(segments, node)] + if node.Map? then AllEntries(segments, node.entries) else []
  }

  function AllEntries(segments: seq<string>, es: Entries): seq<Place>
    decreases es
  {
    if es.End? then [] else AllNodes(segments + [es.key], es.value) + AllEntries(segments, es.rest)
  }

  function Join(segments: seq<string>): string {
    if segments == [] then "" else Under(Join(segments[..|segments| - 1]), segments[|segments| - 1])
  }

  predicate Clear(segments: seq<string>) {
    forall k :: 0 <= k < |segments| ==> Allowed(segments[k])
  }

  function Kept(ps: seq<Place>): seq<Listed> {
    if ps == [] then []
    else (if Clear(ps[0].segments) then [Listed(Join(ps[0].segments), ps[0].node)] else []) + Kept(ps[1..])
  }

  lemma {:induction false} KeptConcat(a: seq<Place>, b: seq<Place>)
    ensures Kept(a + b) == Kept(a) + Kept(b)
  {
    if a == [] {
      assert a + b == b;
    } else {
      assert (a + b)[1..] == a[1..] + b;
      KeptConcat(a[1..], b);
    }
  }

  lemma UnderAllowed(prefix: string, key: string)
    ensures Allowed(Under(prefix, key)) <==> Allowed(prefix) && Allowed(key)
  {
    var u := Under(prefix, key);
    assert AllowedChar('.');
    if prefix != "" && Allowed(u) {
      assert forall k :: 0 <= k < |prefix| ==> prefix[k] == u[k];
      assert forall k :: 0 <= k < |key| ==> key[k] == u[|prefix| + 1 + k];
    }
  }

  lemma {:induction false} JoinAllowed(segments: seq<string>)
    ensures Allowed(Join(segments)) <==> Clear(segments)
  {
    if segments != [] {
      var front, last := segments[..|segments| - 1], segments[|segments| - 1];
      JoinAllowed(front);
      UnderAllowed(Join(front), last);
      assert segments == front + [last];
    }
  }

  lemma JoinMore(segments: seq<string>, key: string)
    ensures Join(segments + [key]) == Under(Join(segments), key)
    ensures Clear(segments + [key]) <==> Clear(segments) && Allowed(key)
  {
    assert (segments + [key])[..|segments|] == segments;
    if Clear(segments + [key]) {
      assert forall k :: 0 <= k < |segments| ==> segments[k] == (segments + [key])[k];
      assert key == (segments + [key])[|segments|];
    }
  }

  /** `ListAllMember` lists, in pre-order, exactly the nodes all of whose path segments use the
      allowed alphabet, although it only ever looks at the joined path. */
  lemma {:induction false} ListedExactly(segments: seq<string>, node: Node)
    ensures ListNode(Join(segments), node) == Kept(AllNodes(segments, node))
    decreases node
  {
    var here := [Place(segments, node)];
    var below := if node.Map? then AllEntries(segments, node.entries) else [];
    KeptConcat(here, below);
    JoinAllowed(segments);
    assert here[1..] == [];
    if node.Map? {
      if Clear(segments) {
        EntriesExactly(segments, node.entries);
      } else {
        NothingKept(segments, node.entries);
      }
    }
  }

  lemma {:induction false} EntriesExactly(segments: seq<string>, es: Entries)
    requires Clear(segments)
    ensures ListEntries(Join(segments), es) == Kept(AllEntries(segments, es))
    decreases es
  {
    if es.Entry? {
      JoinMore(segments, es.key);
      ListedExactly(segments + [es.key], es.value);
      EntriesExactly(segments, es.rest);
      KeptConcat(AllNodes(segments + [es.key], es.value), AllEntries(segments, es.rest));
    }
  }

  lemma {:induction false} NothingKept(segments: seq<string>, es: Entries)
    requires !Clear(segments)
    ensures Kept(AllEntries(segments, es)) == []
    decreases es
  {
    if es.Entry? {
      JoinMore(segments, es.key);
      JoinAllowed(segments);
      JoinAllowed(segments + [es.key]);
      ListedExactly(segments + [es.key], es.value);
      NothingKept(segments, es.rest);
      KeptConcat(AllNodes(segments + [es.key], es.value), AllEntries(segments, es.rest));
    }
  }

  predicate PathsAllowed(s: seq<Listed>) {
    forall k :: 0 <= k < |s| ==> Allowed(s[k].path)
  }

  lemma {:induction false} ListedAllowed(prefix: string, node: Node)
    ensures PathsAllowed(ListNode(prefix, node))
    decreases node
  {
    if Allowed(prefix) && node.Map? {
      EntriesAllowed(prefix, node.entries);
    }
  }

  lemma {:induction false} EntriesAllowed(prefix: string, es: Entries)
    ensures PathsAllowed(ListEntries(prefix, es))
    decreases es
  {
    if es.Entry? {
      ListedAllowed(Under(prefix, es.key), es.value);
      EntriesAllowed(prefix, es.rest);
    }
  }

  /** Lower-casing a listed key changes nothing. */
  lemma {:induction false} AllowedIsLower(s: string)
    requires Allowed(s)
    ensures Lower(s) == s
  {
    if s != "" {
      assert forall k :: 0 <= k < |s[1..]| ==> s[1..][k] == s[k + 1];
      AllowedIsLower(s[1..]);
      assert AllowedChar(s[0]);
      assert s == [s[0]] + s[1..];
    }
  }

  // ----- The registry -----

  datatype Found<T> = Known(v: ConfigVar<T>) | Null | InvalidArgument(name: string)

  class Config<T(==)> {
    var datas: map<string, ConfigVar<T>>
    const counter: ListenerIds
    ghost var vars: set<ConfigVar<T>>

    constructor ()
      ensures Valid() && datas == map[] && fresh(vars)
    {
      datas, vars := map[], {};
      counter := new ListenerIds();
    }

    ghost predicate Valid()
      reads this
    {
      && (forall n :: n in datas ==>
            datas[n] in vars && datas[n].name == n && datas[n].counter == counter && Allowed(n))
      && forall v :: v in vars ==> v.name in datas && datas[v.name] == v
    }

    method LookupBase(key: string) returns (v: ConfigVar?<T>)
      requires Valid()
      ensures v == if key in datas then datas[key] else null
    {
      if key in datas {
        v := datas[key];
      } else {
        v := null;
      }
    }

    /** A registered variable of that type, or none; a name with other characters is refused, and any
        other one is registered with its default (nnysl/config.h:384-412). */
    method Lookup(n: string, typeName: string, parse: string -> Option<T>, default': T) returns (r: Found<T>)
      requires Valid()
      modifies this
      ensures Valid() && old(vars) <= vars && fresh(vars - old(vars))
      ensures n in old(datas) ==>
                datas == old(datas) && r == if datas[n].typeName == typeName then Known(datas[n]) else Null
      ensures n !in old(datas) && !Allowed(n) ==> datas == old(datas) && r == InvalidArgument(n)
      ensures n !in old(datas) && Allowed(n) ==>
                && r.Known? && fresh(r.v) && datas == old(datas)[n := r.v]
                && r.v.typeName == typeName && r.v.parse == parse && r.v.View() == Var(default', [], [])
    {
      if n in datas {
        return if datas[n].typeName == typeName then Known(datas[n]) else Null;
      }
      if !Allowed(n) {
        return InvalidArgument(n);
      }
      var v := new ConfigVar(n, typeName, parse, counter, default');
      datas, vars := datas[n := v], vars + {v};
      return Known(v);
    }

    /** One listed value is handed to the variable of its key, if there is one. */
    method LoadOne(l: Listed, dump: Node -> string)
      requires Valid() && Allowed(l.path)
      modifies vars
      ensures forall n :: n in datas ==> datas[n].View() == Taken(l, n, datas[n].parse, dump, old(datas[n].View()))
    {
      var key := l.path;
      if key == "" {
        return;
      }
      AllowedIsLower(key);
      key := Lower(key);
      var v := LookupBase(key);
      if v != null {
        var ok := v.FromString(TextOf(l.node, dump));
      }
    }

    method LoadAll(items: seq<Listed>, dump: Node -> string)
      requires Valid() && PathsAllowed(items)
      modifies vars
      ensures forall n :: n in datas ==>
                datas[n].View() == Loaded(items, n, datas[n].parse, dump, old(datas[n].View()))
    {
      assert items[..0] == [];
      for k := 0 to |items|
        invariant forall n :: n in datas ==>
          datas[n].View() == Loaded(items[..k], n, datas[n].parse, dump, old(datas[n].View()))
      {
        assert items[..k + 1][..k] == items[..k];
        LoadOne(items[k], dump);
      }
      assert items[..|items|] == items;
    }

    /** nnysl/config.cpp:25-49; `dump` writes a node that is not a scalar as text. */
    method LoadFromYaml(root: Node, dump: Node -> string)
      requires Valid()
      modifies vars
      ensures forall n :: n in datas ==>
                datas[n].View() == Loaded(ListNode("", root), n, datas[n].parse, dump, old(datas[n].View()))
    {
      var all := new Listing();
      ListAllMember("", root, all);
      ListedAllowed("", root);
      assert all.items == ListNode("", root);
      LoadAll(all.items, dump);
    }
  }

  function TextOf(node: Node, dump: Node -> string): string {
    if node.Scalar? then node.text else dump(node)
  }

  /** What a variable of name `n` makes of one listed value. */
  ghost function Taken<T>(l: Listed, n: string, parse: string -> Option<T>, dump: Node -> string, was: Var<T>): Var<T> {
    var converted := parse(TextOf(l.node, dump));
    if n != "" && l.path == n && converted.Some? then Applied(was, SetValue(converted.value), 0) else was
  }

  /** What it makes of all of them, one after the other. */
  ghost function Loaded<T>(items: seq<Listed>, n: string, parse: string -> Option<T>, dump: Node -> string,
                           was: Var<T>): Var<T> {
    if items == [] then was
    else Taken(items[|items| - 1], n, parse, dump, Loaded(items[..|items| - 1], n, parse, dump, was))
  }

  /** Position `k` decides: it is listed under the name, it converts, and nothing later does. */
  ghost predicate Decides<T>(ps: seq<Place>, k: int, n: string, parse: string -> Option<T>, dump: Node -> string) {
    && 0 <= k < |ps| && Names(ps[k], n) && parse(TextOf(ps[k].node, dump)).Some?
    && forall j :: k < j < |ps| && Names(ps[j], n) ==> parse(TextOf(ps[j].node, dump)).None?
  }

  /** A scalar stands for its own text, any other node for what `dump` makes of it. */
  lemma TextOfNode(node: Node, dump: Node -> string)
    ensures forall t :: node == Scalar(t) ==> TextOf(node, dump) == t
    ensures !node.Scalar? ==> TextOf(node, dump) == dump(node)
  {
  }

  /** A node whose path is written with allowed characters only and reads `n`. */
  ghost predicate Names(p: Place, n: string) {
    n != "" && Clear(p.segments) && Join(p.segments) == n
  }

  lemma {:induction false} LoadedExactly<T>(ps: seq<Place>, n: string, parse: string -> Option<T>,
                                            dump: Node -> string, was: Var<T>)
    ensures forall k :: Decides(ps, k, n, parse, dump) ==>
              Loaded(Kept(ps), n, parse, dump, was).val == parse(TextOf(ps[k].node, dump)).value
    ensures (forall k :: 0 <= k < |ps| && Names(ps[k], n) ==> parse(TextOf(ps[k].node, dump)).None?) ==>
              Loaded(Kept(ps), n, parse, dump, was) == was
  {
    if ps != [] {
      var front, last := ps[..|ps| - 1], ps[|ps| - 1];
      assert ps == front + [last] && [last][1..] == [];
      KeptConcat(front, [last]);
      var one := Kept([last]);
      assert one == if Clear(last.segments) then [Listed(Join(last.segments), last.node)] else [];
      LoadedExactly(front, n, parse, dump, was);
      LoadedMore(Kept(front), one, n, parse, dump, was);
      forall k | Decides(ps, k, n, parse, dump)
        ensures Loaded(Kept(ps), n, parse, dump, was).val == parse(TextOf(ps[k].node, dump)).value
      {
        if k < |front| {
          assert front[k] == ps[k];
          assert Decides(front, k, n, parse, dump);
        }
      }
      assert forall k :: 0 <= k < |front| ==> front[k] == ps[k];
    }
  }

  lemma LoadedMore<T>(items: seq<Listed>, more: seq<Listed>, n: string, parse: string -> Option<T>,
                      dump: Node -> string, was: Var<T>)
    requires |more| <= 1
    ensures Loaded(items + more, n, parse, dump, was) ==
            if more == [] then Loaded(items, n, parse, dump, was)
            else Taken(more[0], n, parse, dump, Loaded(items, n, parse, dump, was))
  {
    if more == [] {
      assert items + more == items;
    } else {
      assert (items + more)[..|items|] == items;
    }
  }

  /** Loading as a whole, without the flattening: a variable ends with the last node, in pre-order,
      whose path reads as its name and whose text it can convert, and otherwise keeps its value. */
  lemma LoadIsLastConverted<T>(root: Node, n: string, parse: string -> Option<T>, dump: Node -> string, was: Var<T>)
    ensures var (end, ps) := (Loaded(ListNode("", root), n, parse, dump, was), AllNodes([], root));
            && (forall k :: Decides(ps, k, n, parse, dump) ==> end.val == parse(TextOf(ps[k].node, dump)).value)
            && ((forall k :: 0 <= k < |ps| && Names(ps[k], n) ==> parse(TextOf(ps[k].node, dump)).None?) ==> end == was)
  {
    ListedExactly([], root);
    LoadedExactly(AllNodes([], root), n, parse, dump, was);
  }

  // ----- Dotted keys -----

  function FirstDot(s: string): (k: nat)
    ensures k <= |s|
  {
    if s == "" || s[0] == '.' then 0 else 1 + FirstDot(s[1..])
  }

  /** The parts between the dots. */
  function Split(s: string): seq<string>
    decreases |s|
  {
    var d := FirstDot(s);
    if d == |s| then [s] else [s[..d]] + Split(s[d + 1..])
  }

  /** Keys as one writes them: not empty and without dots. */
  predicate PlainKeys(segments: seq<string>) {
    forall k :: 0 <= k < |segments| ==> segments[k] != "" && '.' !in segments[k]
  }

  lemma {:induction false} FirstDotOf(a: string, rest: string)
    requires '.' !in a && (rest == "" || rest[0] == '.')
    ensures FirstDot(a + rest) == |a|
  {
    if a == "" {
      assert a + rest == rest;
    } else {
      assert (a + rest)[1..] == a[1..] + rest && (a + rest)[0] == a[0];
      FirstDotOf(a[1..], rest);
    }
  }

  lemma SplitFirst(a: string, rest: string)
    requires '.' !in a
    ensures Split(a + "." + rest) == [a] + Split(rest) && Split(a) == [a]
  {
    FirstDotOf(a, "." + rest);
    FirstDotOf(a, "");
    assert a + "" == a && a + "." + rest == a + ("." + rest);
    var s := a + ("." + rest);
    assert s[..|a|] == a && s[|a| + 1..] == rest;
  }

  lemma {:induction false} JoinSome(segments: seq<string>)
    requires PlainKeys(segments) && segments != []
    ensures Join(segments) != ""
  {
    if |segments| > 1 {
      JoinSome(segments[..|segments| - 1]);
    }
  }

  /** A joined path is its first key, a dot, and the rest joined. */
  lemma {:induction false} JoinHead(segments: seq<string>)
    requires PlainKeys(segments) && |segments| > 1
    ensures Join(segments) == segments[0] + "." + Join(segments[1..])
  {
    var n := |segments| - 1;
    var front, tail := segments[..n], segments[1..];
    assert tail[..|tail| - 1] == front[1..] && front[0] == segments[0];
    JoinSome(front);
    if n == 1 {
      assert front[..0] == [] && front[1..] == [];
    } else {
      JoinHead(front);
      JoinSome(front[1..]);
      assert (segments[0] + "." + Join(front[1..])) + "." + segments[n]
             == segments[0] + "." + (Join(front[1..]) + "." + segments[n]);
    }
  }

  /** Splitting a joined path at its dots gives the keys back. */
  lemma {:induction false} SplitJoin(segments: seq<string>)
    requires PlainKeys(segments) && segments != []
    ensures Split(Join(segments)) == segments
  {
    if |segments| == 1 {
      assert segments[..0] == [];
      SplitFirst(segments[0], "");
      assert segments == [segments[0]];
    } else {
      JoinHead(segments);
      SplitFirst(segments[0], Join(segments[1..]));
      SplitJoin(segments[1..]);
      assert segments == [segments[0]] + segments[1..];
    }
  }

  /** So different paths have different keys. */
  lemma JoinInjective(a: seq<string>, b: seq<string>)
    requires PlainKeys(a) && PlainKeys(b) && a != [] && b != [] && Join(a) == Join(b)
    ensures a == b
  {
    SplitJoin(a);
    SplitJoin(b);
  }

  lemma {:induction false} SplitExact(s: string)
    ensures Split(s) != [] && forall k :: 0 <= k < |Split(s)| ==> '.' !in Split(s)[k]
    decreases |s|
  {
    FirstDotEnds(s);
    if FirstDot(s) < |s| {
      SplitExact(s[FirstDot(s) + 1..]);
    }
  }

  lemma {:induction false} FirstDotEnds(s: string)
    ensures '.' !in s[..FirstDot(s)]
    ensures FirstDot(s) < |s| ==> s[FirstDot(s)] == '.'
  {
    if s != "" && s[0] != '.' {
      FirstDotEnds(s[1..]);
      assert s[..FirstDot(s)] == [s[0]] + s[1..][..FirstDot(s[1..])];
    }
  }

  lemma CutAt(s: string, d: nat)
    requires d < |s| && s[d] == '.'
    ensures s == s[..d] + "." + s[d + 1..]
  {
  }

  lemma {:induction false} JoinSplit(s: string)
    requires forall k :: 0 <= k < |Split(s)| ==> Split(s)[k] != ""
    ensures Join(Split(s)) == s
    decreases |s|
  {
    var parts, d := Split(s), FirstDot(s);
    SplitExact(s);
    FirstDotEnds(s);
    if d == |s| {
      assert parts[..0] == [];
    } else {
      var rest := s[d + 1..];
      assert parts[1..] == Split(rest);
      SplitExact(rest);
      forall k | 0 <= k < |Split(rest)| ensures Split(rest)[k] != "" {
        assert Split(rest)[k] == parts[k + 1];
      }
      JoinHead(parts);
      JoinSplit(rest);
      CutAt(s, d);
    }
  }

  /** A variable takes the text of a node under plain keys iff the dotted parts of its name are the
      keys on the node's path, and all of them are written with allowed characters. */
  lemma NamesIffParts(p: Place, n: string)
    requires PlainKeys(p.segments) && p.segments != []
    ensures Names(p, n) <==> Split(n) == p.segments && Clear(p.segments)
  {
    SplitJoin(p.segments);
    JoinSome(p.segments);
    if Split(n) == p.segments {
      JoinSplit(n);
    }
  }
}
