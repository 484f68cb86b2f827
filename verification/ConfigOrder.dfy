/** The order of `ListAllMember` (nnysl/config.cpp:12-23), said by positions in the tree: a node comes
    before everything below it, and what stands first in a map comes first. */
module ConfigOrder {
  import opened Wrappers
  import opened ConfigTree

  /** Child `i` of a map. */
  function Child(es: Entries, i: nat): Option<(string, Node)> {
    if es.End? then None else if i == 0 then Some((es.key, es.value)) else Child(es.rest, i - 1)
  }

  /** Going down by the child numbers `path` meets the keys `keys` and ends at `end`. */
  predicate Leads(node: Node, path: seq<nat>, keys: seq<string>, end: Node)
    decreases |path|
  {
    if path == [] then keys == [] && end == node
    else
      && node.Map? && keys != []
      && var c := Child(node.entries, path[0]);
         c.Some? && c.value.0 == keys[0] && Leads(c.value.1, path[1..], keys[1..], end)
  }

  /** Pre-order: a path comes before those that go on from it, and before those that turn later. */
  predicate Before(p: seq<nat>, q: seq<nat>)
    decreases |p|
  {
    q != [] && (p == [] || p[0] < q[0] || (p[0] == q[0] && Before(p[1..], q[1..])))
  }

  // ----- The paths of the listed nodes -----

  function Prefixed(i: nat, ps: seq<seq<nat>>): seq<seq<nat>> {
    if ps == [] then [] else [[i] + ps[0]] + Prefixed(i, ps[1..])
  }

  function Paths(node: Node): seq<seq<nat>>
    decreases node
  {
    [[]] + if node.Map? then PathsFrom(node.entries, 0) else []
  }

  function PathsFrom(es: Entries, i: nat): seq<seq<nat>>
    decreases es
  {
    if es.End? then [] else Prefixed(i, Paths(es.value)) + PathsFrom(es.rest, i + 1)
  }

  lemma {:induction false} PrefixedAt(i: nat, ps: seq<seq<nat>>)
    ensures |Prefixed(i, ps)| == |ps| && forall k :: 0 <= k < |ps| ==> Prefixed(i, ps)[k] == [i] + ps[k]
  {
    if ps != [] {
      PrefixedAt(i, ps[1..]);
    }
  }

  lemma PathsAt(node: Node, k: nat)
    requires k < |Paths(node)|
    ensures k == 0 ==> Paths(node)[k] == []
    ensures k > 0 ==>
              && node.Map? && k - 1 < |PathsFrom(node.entries, 0)|
              && Paths(node)[k] == PathsFrom(node.entries, 0)[k - 1]
  {
  }

  lemma FromAt(es: Entries, i: nat, k: nat)
    requires es.Entry? && k < |PathsFrom(es, i)|
    ensures var n := |Paths(es.value)|;
            && |PathsFrom(es, i)| == n + |PathsFrom(es.rest, i + 1)|
            && PathsFrom(es, i)[k] == if k < n then [i] + Paths(es.value)[k] else PathsFrom(es.rest, i + 1)[k - n]
  {
    PrefixedAt(i, Paths(es.value));
  }

  // ----- Order -----

  lemma {:induction false} FromFirst(es: Entries, i: nat, k: nat)
    requires k < |PathsFrom(es, i)|
    ensures PathsFrom(es, i)[k] != [] && PathsFrom(es, i)[k][0] >= i
    decreases es
  {
    FromAt(es, i, k);
    if k >= |Paths(es.value)| {
      FromFirst(es.rest, i + 1, k - |Paths(es.value)|);
    }
  }

  lemma {:induction false} PathsOrdered(node: Node, j: nat, k: nat)
    requires j < k < |Paths(node)|
    ensures Before(Paths(node)[j], Paths(node)[k])
    decreases node
  {
    PathsAt(node, j);
    PathsAt(node, k);
    if j == 0 {
      FromFirst(node.entries, 0, k - 1);
    } else {
      FromOrdered(node.entries, 0, j - 1, k - 1);
    }
  }

  lemma {:induction false} FromOrdered(es: Entries, i: nat, j: nat, k: nat)
    requires j < k < |PathsFrom(es, i)|
    ensures Before(PathsFrom(es, i)[j], PathsFrom(es, i)[k])
    decreases es
  {
    var n := |Paths(es.value)|;
    FromAt(es, i, j);
    FromAt(es, i, k);
    if k < n {
      PathsOrdered(es.value, j, k);
      assert ([i] + Paths(es.value)[j])[1..] == Paths(es.value)[j];
      assert ([i] + Paths(es.value)[k])[1..] == Paths(es.value)[k];
    } else if j >= n {
      FromOrdered(es.rest, i + 1, j - n, k - n);
    } else {
      FromFirst(es.rest, i + 1, k - n);
    }
  }

  // ----- Each listed node is where its path leads -----

  lemma {:induction false} NodesLead(segments: seq<string>, node: Node, k: nat)
    requires k < |AllNodes(segments, node)|
    ensures |Paths(node)| == |AllNodes(segments, node)|
    ensures var p := AllNodes(segments, node)[k];
            && |segments| <= |p.segments| && p.segments[..|segments|] == segments
            && Leads(node, Paths(node)[k], p.segments[|segments|..], p.node)
    decreases node
  {
    SameLength(segments, node);
    PathsAt(node, k);
    if k > 0 {
      EntriesLead(segments, node.entries, 0, k - 1);
      var p := AllNodes(segments, node)[k];
      assert p == AllEntries(segments, node.entries)[k - 1];
      ThroughMap(node, node.entries, 0, Paths(node)[k], p.segments[|segments|..], p.node);
    }
  }

  /** The same, seen from entry `i` of a map on. */
  predicate LeadsFrom(es: Entries, i: nat, path: seq<nat>, keys: seq<string>, end: Node) {
    && path != [] && path[0] >= i && keys != []
    && var c := Child(es, path[0] - i);
       c.Some? && c.value.0 == keys[0] && Leads(c.value.1, path[1..], keys[1..], end)
  }

  lemma ThroughMap(node: Node, es: Entries, i: nat, path: seq<nat>, keys: seq<string>, end: Node)
    requires node == Map(es) && i == 0 && LeadsFrom(es, i, path, keys, end)
    ensures Leads(node, path, keys, end)
  {
  }

  lemma {:induction false} EntriesLead(segments: seq<string>, es: Entries, i: nat, k: nat)
    requires k < |AllEntries(segments, es)|
    ensures |PathsFrom(es, i)| == |AllEntries(segments, es)|
    ensures var p := AllEntries(segments, es)[k];
            && |segments| < |p.segments| && p.segments[..|segments|] == segments
            && LeadsFrom(es, i, PathsFrom(es, i)[k], p.segments[|segments|..], p.node)
    decreases es
  {
    SameLengths(segments, es, i);
    var inner, n := segments + [es.key], |Paths(es.value)|;
    SameLength(inner, es.value);
    FromAt(es, i, k);
    var p := AllEntries(segments, es)[k];
    if k < n {
      NodesLead(inner, es.value, k);
      assert p == AllNodes(inner, es.value)[k];
      assert p.segments[..|segments|] == p.segments[..|inner|][..|segments|] == segments;
      assert p.segments[|segments|] == p.segments[..|inner|][|segments|] == es.key;
      assert p.segments[|segments|..][1..] == p.segments[|inner|..];
      assert ([i] + Paths(es.value)[k])[1..] == Paths(es.value)[k];
    } else {
      EntriesLead(segments, es.rest, i + 1, k - n);
      assert p == AllEntries(segments, es.rest)[k - n];
    }
  }

  lemma {:induction false} SameLength(segments: seq<string>, node: Node)
    ensures |Paths(node)| == |AllNodes(segments, node)|
    decreases node
  {
    if node.Map? {
      SameLengths(segments, node.entries, 0);
    }
  }

  lemma {:induction false} SameLengths(segments: seq<string>, es: Entries, i: nat)
    ensures |PathsFrom(es, i)| == |AllEntries(segments, es)|
    decreases es
  {
    if es.Entry? {
      PrefixedAt(i, Paths(es.value));
      SameLength(segments + [es.key], es.value);
      SameLengths(segments, es.rest, i + 1);
    }
  }

  // ----- Every node is listed -----

  lemma {:induction false} Complete(node: Node, path: seq<nat>, keys: seq<string>, end: Node) returns (k: nat)
    requires Leads(node, path, keys, end)
    ensures k < |Paths(node)| && Paths(node)[k] == path
    decreases node
  {
    if path == [] {
      k := 0;
    } else {
      var j := CompleteFrom(node.entries, 0, path, keys, end);
      k := j + 1;
      PathsAt(node, k);
    }
  }

  lemma {:induction false} CompleteFrom(es: Entries, i: nat, path: seq<nat>, keys: seq<string>, end: Node)
    returns (k: nat)
    requires LeadsFrom(es, i, path, keys, end)
    ensures k < |PathsFrom(es, i)| && PathsFrom(es, i)[k] == path
    decreases es
  {
    PrefixedAt(i, Paths(es.value));
    if path[0] == i {
      k := Complete(es.value, path[1..], keys[1..], end);
      FromAt(es, i, k);
      assert path == [i] + path[1..];
    } else {
      var j := CompleteFrom(es.rest, i + 1, path, keys, end);
      k := |Paths(es.value)| + j;
      FromAt(es, i, k);
    }
  }

  /** The nodes of a tree, each with the keys on its way, are listed exactly once each and in
      pre-order: position `k` holds the node at `paths[k]`. */
  lemma PreOrder(root: Node) returns (paths: seq<seq<nat>>)
    ensures |paths| == |AllNodes([], root)|
    ensures forall k :: 0 <= k < |paths| ==>
              Leads(root, paths[k], AllNodes([], root)[k].segments, AllNodes([], root)[k].node)
    ensures forall j, k :: 0 <= j < k < |paths| ==> Before(paths[j], paths[k])
    ensures forall path, keys, end :: Leads(root, path, keys, end) ==> path in paths
  {
    paths := Paths(root);
    SameLength([], root);
    forall k | 0 <= k < |paths|
      ensures Leads(root, paths[k], AllNodes([], root)[k].segments, AllNodes([], root)[k].node)
    {
      NodesLead([], root, k);
      assert AllNodes([], root)[k].segments[0..] == AllNodes([], root)[k].segments;
    }
    forall j, k | 0 <= j < k < |paths| ensures Before(paths[j], paths[k]) {
      PathsOrdered(root, j, k);
    }
    forall path, keys, end | Leads(root, path, keys, end) ensures path in paths {
      var k := Complete(root, path, keys, end);
    }
  }
}
