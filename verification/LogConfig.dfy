/** From a configuration tree to the loggers: loading a tree (nnysl/config.cpp:25-49) sets the `logs`
    variable, whose listener rebuilds the loggers (nnysl/log.cpp:777-834). */
module LogConfig {
  import opened Wrappers
  import opened Pattern
  import opened ConfigVar
  import opened ConfigTree
  import opened DefineCodec
  import opened Reconcile
  import opened LogGraph
  import opened LogSystem

  const LOGS := "logs"

  /** The conversion of the `logs` variable; `load` reads a text as a tree. */
  function SetParser(load: string -> Node): string -> Option<DefineSet> {
    (text: string) => match ReadSet(load(text)) case Gives(v) => Some(v) case _ => None
  }

  /** What one node gives the variable. */
  ghost function Setting(l: Listed, load: string -> Node, dump: Node -> string): seq<Op> {
    var v := SetParser(load)(TextOf(l.node, dump));
    if l.path == LOGS && v.Some? then [Op.SetDefines(v.value)] else []
  }

  /** The values that a list of nodes gives the variable, one after the other. */
  ghost function Settings(items: seq<Listed>, load: string -> Node, dump: Node -> string): seq<Op> {
    if items == [] then []
    else Settings(items[..|items| - 1], load, dump) + Setting(items[|items| - 1], load, dump)
  }

  lemma SettingsNext(before: seq<Op>, items: seq<Listed>, k: nat, load: string -> Node, dump: Node -> string)
    requires k < |items|
    ensures before + Settings(items[..k + 1], load, dump) ==
            before + Settings(items[..k], load, dump) + Setting(items[k], load, dump)
  {
    assert items[..k + 1][..k] == items[..k];
  }

  method LoadOne(sys: LogSystem, l: Listed, load: string -> Node, dump: Node -> string, ev: Event, sink: Sink)
    requires sys.Valid() && Allowed(l.path)
    modifies sys, sys.manager, sys.manager.made, sys.manager.attached, sink
    ensures sys.Valid()
    ensures old(sys.manager.made) <= sys.manager.made && fresh(sys.manager.made - old(sys.manager.made))
    ensures fresh(sys.manager.attached - old(sys.manager.attached))
    ensures sys.history == old(sys.history) + Setting(l, load, dump)
  {
    AllowedIsLower(l.path);
    var key := Lower(l.path);
    if key == LOGS {
      var n := load(TextOf(l.node, dump));
      SettingOf(l, load, dump, n);
      var ok := sys.FromTree(n, ev, sink);
    } else {
      assert sys.history + [] == sys.history;
    }
  }

  lemma SettingOf(l: Listed, load: string -> Node, dump: Node -> string, n: Node)
    requires l.path == LOGS && n == load(TextOf(l.node, dump))
    ensures Setting(l, load, dump) == LogSystem.Taking(ReadSet(n))
  {
  }

  method LoadAll(sys: LogSystem, items: seq<Listed>, load: string -> Node, dump: Node -> string, ev: Event, sink: Sink)
    requires sys.Valid() && PathsAllowed(items)
    modifies sys, sys.manager, sys.manager.made, sys.manager.attached, sink
    ensures sys.Valid() && old(sys.manager.made) <= sys.manager.made
    ensures sys.history == old(sys.history) + Settings(items, load, dump)
  {
    assert items[..0] == [];
    for k := 0 to |items|
      invariant sys.Valid()
      invariant old(sys.manager.made) <= sys.manager.made && fresh(sys.manager.made - old(sys.manager.made))
      invariant fresh(sys.manager.attached - old(sys.manager.attached))
      invariant sys.history == old(sys.history) + Settings(items[..k], load, dump)
    {
      SettingsNext(old(sys.history), items, k, load, dump);
      LoadOne(sys, items[k], load, dump, ev, sink);
    }
    assert items[..|items|] == items;
  }

  lemma SettingDecides(sofar: seq<Op>, l: Listed, load: string -> Node, dump: Node -> string, was: Var<DefineSet>)
    requires was.val == LastDefines(sofar)
    ensures LastDefines(sofar + Setting(l, load, dump)) == Taken(l, LOGS, SetParser(load), dump, was).val
  {
    var v := SetParser(load)(TextOf(l.node, dump));
    if l.path == LOGS && v.Some? {
      History(sofar, Op.SetDefines(v.value), "");
    } else {
      assert sofar + [] == sofar;
    }
  }

  /** The definitions in force after the settings are those a variable would hold after loading. */
  lemma {:induction false} SettingsAreLoaded(before: seq<Op>, items: seq<Listed>, load: string -> Node,
                                             dump: Node -> string, was: Var<DefineSet>)
    requires was.val == LastDefines(before)
    ensures LastDefines(before + Settings(items, load, dump)) == Loaded(items, LOGS, SetParser(load), dump, was).val
  {
    if items == [] {
      assert before + [] == before;
    } else {
      var front, l := items[..|items| - 1], items[|items| - 1];
      SettingsAreLoaded(before, front, load, dump, was);
      var sofar := Loaded(front, LOGS, SetParser(load), dump, was);
      SettingDecides(before + Settings(front, load, dump), l, load, dump, sofar);
      SettingsNext(before, items, |front|, load, dump);
      assert items[..|items|] == items;
    }
  }

  /** The definitions in force after loading: those of the last node, in pre-order of the whole tree,
      that stands under `logs` and can be read; without one, those before. */
  lemma TreeDecides(before: seq<Op>, root: Node, load: string -> Node, dump: Node -> string)
    ensures var after := before + Settings(ListNode("", root), load, dump);
            && (forall k :: Decides(AllNodes([], root), k, "logs", SetParser(load), dump) ==>
                  LastDefines(after) == SetParser(load)(TextOf(AllNodes([], root)[k].node, dump)).value)
            && ((forall k :: 0 <= k < |AllNodes([], root)| && Names(AllNodes([], root)[k], "logs") ==>
                   SetParser(load)(TextOf(AllNodes([], root)[k].node, dump)).None?) ==>
                 LastDefines(after) == LastDefines(before))
  {
    var was := Var(LastDefines(before), [], []);
    SettingsAreLoaded(before, ListNode("", root), load, dump, was);
    LoadIsLastConverted(root, "logs", SetParser(load), dump, was);
  }

  /** What that means for the loggers: each one named by the deciding node is as its definition there
      says, and each one it drops is muted. */
  lemma TreeConfigures(before: seq<Op>, root: Node, load: string -> Node, dump: Node -> string, k: nat, n: string)
    requires Decides(AllNodes([], root), k, "logs", SetParser(load), dump)
    ensures var after := before + Settings(ListNode("", root), load, dump);
            var v := SetParser(load)(TextOf(AllNodes([], root)[k].node, dump)).value;
            && (n in v ==>
                  n in Run(after).views && Run(after).views[n] == Configured(LastFormatter(after, n), v[n]))
            && (n in v && Usable(v[n].formatter) ==> LastFormatter(after, n) == v[n].formatter)
            && (n !in v && EverDefined(after, n) ==>
                  n in Run(after).views && Run(after).views[n] == Muted(LastFormatter(after, n)))
  {
    var after := before + Settings(ListNode("", root), load, dump);
    TreeDecides(before, root, load, dump);
    RunReconciles(after, n);
    if n in LastDefines(after) {
      LastIsEver(after, n);
    }
  }

  /** Loading a tree extends the history by what stands under `logs` in it, and the loggers follow. */
  method LoadTree(sys: LogSystem, root: Node, load: string -> Node, dump: Node -> string, ev: Event, sink: Sink)
    requires sys.Valid()
    modifies sys, sys.manager, sys.manager.made, sys.manager.attached, sink
    ensures sys.Valid() && old(sys.manager.made) <= sys.manager.made
    ensures sys.history == old(sys.history) + Settings(ListNode("", root), load, dump)
  {
    ListedAllowed("", root);
    var all := new Listing();
    ListAllMember("", root, all);
    assert all.items == ListNode("", root);
    LoadAll(sys, all.items, load, dump, ev, sink);
  }
}
