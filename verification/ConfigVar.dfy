/** Configuration variables with their listeners, used by one thread (nnysl/config.h:270-372). */
module ConfigVar {
  import opened Chains
  import opened Wrappers

  /** Listener `id` was called. */
  datatype Call<T> = Call(id: nat, change: Change<T>)

  // ----- Variables as values -----

  /** `ids` are the keys of the listener map, which iterates in ascending order; `calls` is
      everything any listener was ever told, in order. */
  datatype Var<T> = Var(val: T, ids: seq<nat>, calls: seq<Call<T>>)

  /** Strictly ascending and below `bound`. */
  ghost predicate Ascending(ids: seq<nat>, bound: nat) {
    ids == [] || (ids[|ids| - 1] < bound && Ascending(ids[..|ids| - 1], ids[|ids| - 1]))
  }

  /** One call to each of `ids`, in that order. */
  function Announced<T>(ids: seq<nat>, c: Change<T>): seq<Call<T>> {
    if ids == [] then [] else Announced(ids[..|ids| - 1], c) + [Call(ids[|ids| - 1], c)]
  }

  function Erase(ids: seq<nat>, id: nat): seq<nat> {
    if ids == [] then [] else Erase(ids[..|ids| - 1], id) + if ids[|ids| - 1] == id then [] else [ids[|ids| - 1]]
  }

  datatype VarOp<T> = SetValue(value: T) | AddListener | DelListener(id: nat) | ClearListener

  /** `next` is the id a new listener gets. */
  function Applied<T(==)>(s: Var<T>, op: VarOp<T>, next: nat): Var<T> {
    match op
    case SetValue(v) =>
      if v == s.val then s else s.(val := v, calls := s.calls + Announced(s.ids, Change(s.val, v)))
    case AddListener => s.(ids := s.ids + [next])
    case DelListener(id) => s.(ids := Erase(s.ids, id))
    case ClearListener => s.(ids := [])
  }

  // ----- The objects -----

  /** The static id counter, one for all variables of a type. */
  class ListenerIds {
    var last: nat

    constructor ()
      ensures last == 0
    {
      last := 0;
    }
  }

  class ConfigVar<T(==)> {
    const name: string
    const typeName: string
    const parse: string -> Option<T>
    const counter: ListenerIds
    var val: T
    var ids: seq<nat>
    var calls: seq<Call<T>>

    constructor (name: string, typeName: string, parse: string -> Option<T>, counter: ListenerIds, default': T)
      ensures this.name == name && this.typeName == typeName && this.parse == parse && this.counter == counter
      ensures View() == Var(default', [], [])
    {
      this.name, this.typeName, this.parse, this.counter := name, typeName, parse, counter;
      val, ids, calls := default', [], [];
    }

    ghost function View(): Var<T>
      reads this
    {
      Var(val, ids, calls)
    }

    method SetValue(v: T)
      modifies this
      ensures View() == Applied(old(View()), VarOp.SetValue(v), 0)
    {
      if v == val {
        return;
      }
      assert ids[..0] == [];
      for k := 0 to |ids|
        invariant val == old(val) && ids == old(ids)
        invariant calls == old(calls) + Announced(ids[..k], Change(val, v))
      {
        assert ids[..k + 1][..k] == ids[..k];
        calls := calls + [Call(ids[k], Change(val, v))];
      }
      assert ids[..|ids|] == ids;
      val := v;
    }

    /** A text that cannot be converted changes nothing. */
    method FromString(text: string) returns (ok: bool)
      modifies this
      ensures ok == parse(text).Some?
      ensures View() == if ok then Applied(old(View()), VarOp.SetValue(parse(text).value), 0) else old(View())
    {
      var v := parse(text);
      if v.None? {
        return false;
      }
      SetValue(v.value);
      return true;
    }

    method AddListener() returns (id: nat)
      modifies this, counter
      ensures id == old(counter.last) + 1 && counter.last == id
      ensures View() == Applied(old(View()), VarOp.AddListener, id)
    {
      counter.last := counter.last + 1;
      ids := ids + [counter.last];
      return counter.last;
    }

    method DelListener(id: nat)
      modifies this
      ensures View() == Applied(old(View()), VarOp.DelListener(id), 0)
    {
      var rest := [];
      assert ids[..0] == [];
      for k := 0 to |ids|
        invariant rest == Erase(ids[..k], id) && View() == old(View())
      {
        assert ids[..k + 1][..k] == ids[..k];
        if ids[k] != id {
          rest := rest + [ids[k]];
        }
      }
      assert ids[..|ids|] == ids;
      ids := rest;
    }

    method ClearListener()
      modifies this
      ensures View() == Applied(old(View()), VarOp.ClearListener, 0)
    {
      ids := [];
    }
  }

  // ----- Several variables of one type, over whole runs -----

  /** A step is an operation on one of the variables. */
  datatype Act<T> = Act(on: nat, op: VarOp<T>)

  datatype World<T> = World(last: nat, vars: seq<Var<T>>)

  ghost function Next<T>(w: World<T>, a: Act<T>): World<T> {
    if a.on >= |w.vars| then w
    else
      World(if a.op.AddListener? then w.last + 1 else w.last,
            w.vars[a.on := Applied(w.vars[a.on], a.op, w.last + 1)])
  }

  /** The worlds that a run goes through, from variables nobody listens to yet. */
  ghost predicate Course<T>(ws: seq<World<T>>, acts: seq<Act<T>>) {
    && |ws| == |acts| + 1
    && ws[0].last == 0
    && (forall x :: 0 <= x < |ws[0].vars| ==> ws[0].vars[x].ids == [] && ws[0].vars[x].calls == [])
    && forall k :: 0 <= k < |acts| ==> ws[k + 1] == Next(ws[k], acts[k])
  }

  /** What listener `id` was told. */
  ghost function ToldTo<T>(calls: seq<Call<T>>, id: nat): seq<Change<T>> {
    if calls == [] then []
    else
      var c := calls[|calls| - 1];
      ToldTo(calls[..|calls| - 1], id) + if c.id == id then [c.change] else []
  }

  lemma {:induction false} ToldToConcat<T>(a: seq<Call<T>>, b: seq<Call<T>>, id: nat)
    ensures ToldTo(a + b, id) == ToldTo(a, id) + ToldTo(b, id)
  {
    if b == [] {
      assert a + b == a;
    } else {
      var n := |b| - 1;
      assert (a + b)[..|a| + n] == a + b[..n];
      ToldToConcat(a, b[..n], id);
    }
  }

  lemma {:induction false} AscendingExact(ids: seq<nat>, bound: nat)
    requires Ascending(ids, bound)
    ensures forall i, j :: 0 <= i < j < |ids| ==> ids[i] < ids[j]
    ensures forall i :: 0 <= i < |ids| ==> ids[i] < bound
    ensures forall higher :: higher >= bound ==> Ascending(ids, higher)
  {
    if ids != [] {
      AscendingExact(ids[..|ids| - 1], ids[|ids| - 1]);
    }
  }

  lemma {:induction false} EraseExact(ids: seq<nat>, id: nat, bound: nat)
    requires Ascending(ids, bound)
    ensures Ascending(Erase(ids, id), bound)
    ensures forall x :: x in Erase(ids, id) <==> x in ids && x != id
  {
    if ids != [] {
      var front, l := ids[..|ids| - 1], ids[|ids| - 1];
      assert ids == front + [l];
      EraseExact(front, id, l);
      if l == id {
        assert Erase(ids, id) == Erase(front, id);
        AscendingExact(Erase(front, id), l);
        AscendingExact(front, l);
      } else {
        assert (Erase(front, id) + [l])[..|Erase(front, id)|] == Erase(front, id);
      }
    }
  }

  /** A change is told to every registered listener, once, in ascending order of their ids, and to
      nobody else. */
  lemma {:induction false} AnnouncedExact<T>(ids: seq<nat>, c: Change<T>, bound: nat, id: nat)
    requires Ascending(ids, bound)
    ensures |Announced(ids, c)| == |ids|
    ensures forall k :: 0 <= k < |ids| ==> Announced(ids, c)[k] == Call(ids[k], c)
    ensures ToldTo(Announced(ids, c), id) == if id in ids then [c] else []
  {
    if ids != [] {
      var front, l := ids[..|ids| - 1], ids[|ids| - 1];
      assert ids == front + [l];
      AnnouncedExact(front, c, l, id);
      AscendingExact(front, l);
      assert (Announced(front, c) + [Call(l, c)])[..|front|] == Announced(front, c);
    }
  }

  /** Listener `id` was registered with variable `x` when its value was `since`, as the last of the
      first `id` registrations. */
  ghost predicate Serves<T>(w: World<T>, x: nat, id: nat, since: T) {
    && x < |w.vars| && id <= w.last
    && var told := ToldTo(w.vars[x].calls, id);
       && Unbroken(told, since)
       && (id in w.vars[x].ids ==> Last(told, since) == w.vars[x].val)
  }

  ghost predicate Foreign<T>(s: Var<T>, id: nat) {
    id !in s.ids && ToldTo(s.calls, id) == []
  }

  ghost predicate Ordered<T>(w: World<T>) {
    forall i :: 0 <= i < |w.vars| ==> Ascending(w.vars[i].ids, w.last + 1)
  }

  lemma TellingAll<T>(calls: seq<Call<T>>, ids: seq<nat>, c: Change<T>, bound: nat, id: nat)
    requires Ascending(ids, bound)
    ensures ToldTo(calls + Announced(ids, c), id) ==
            if id in ids then ToldTo(calls, id) + [c] else ToldTo(calls, id)
  {
    AnnouncedExact(ids, c, bound, id);
    ToldToConcat(calls, Announced(ids, c), id);
    assert ToldTo(calls, id) + [] == ToldTo(calls, id);
  }

  lemma AppliedServes<T>(s: Var<T>, op: VarOp<T>, last: nat, id: nat, since: T)
    requires Ascending(s.ids, last + 1) && id <= last
    requires Unbroken(ToldTo(s.calls, id), since)
    requires id in s.ids ==> Last(ToldTo(s.calls, id), since) == s.val
    ensures var s' := Applied(s, op, last + 1);
            && Unbroken(ToldTo(s'.calls, id), since)
            && (id in s'.ids ==> Last(ToldTo(s'.calls, id), since) == s'.val)
  {
    match op
    case SetValue(v) =>
      if v != s.val {
        TellingAll(s.calls, s.ids, Change(s.val, v), last + 1, id);
        UnbrokenGrows(ToldTo(s.calls, id), since, Change(s.val, v));
      }
    case DelListener(d) => EraseExact(s.ids, d, last + 1);
    case _ =>
  }

  lemma AppliedOrder<T>(s: Var<T>, op: VarOp<T>, last: nat)
    requires Ascending(s.ids, last + 1)
    ensures Ascending(Applied(s, op, last + 1).ids, last + 2)
    ensures !op.AddListener? ==> Ascending(Applied(s, op, last + 1).ids, last + 1)
  {
    AscendingExact(s.ids, last + 1);
    match op
    case DelListener(d) =>
      EraseExact(s.ids, d, last + 1);
      AscendingExact(Erase(s.ids, d), last + 1);
    case AddListener =>
      assert (s.ids + [last + 1])[..|s.ids|] == s.ids;
    case _ =>
  }

  lemma AppliedForeign<T>(s: Var<T>, op: VarOp<T>, last: nat, id: nat)
    requires Ascending(s.ids, last + 1) && Foreign(s, id) && (op.AddListener? ==> id != last + 1)
    ensures Foreign(Applied(s, op, last + 1), id)
  {
    match op
    case SetValue(v) =>
      if v != s.val {
        TellingAll(s.calls, s.ids, Change(s.val, v), last + 1, id);
      }
    case DelListener(d) => EraseExact(s.ids, d, last + 1);
    case _ =>
  }

  lemma StepOrdered<T>(w: World<T>, a: Act<T>)
    requires Ordered(w)
    ensures Ordered(Next(w, a))
  {
    if a.on < |w.vars| {
      AppliedOrder(w.vars[a.on], a.op, w.last);
      forall i | 0 <= i < |w.vars| ensures Ascending(Next(w, a).vars[i].ids, Next(w, a).last + 1) {
        AscendingExact(w.vars[i].ids, w.last + 1);
      }
    }
  }

  /** Ids still to be given out are unknown to every variable. */
  ghost predicate Fresh<T>(w: World<T>, id: nat) {
    id > w.last ==> forall i :: 0 <= i < |w.vars| ==> Foreign(w.vars[i], id)
  }

  lemma StepFresh<T>(w: World<T>, a: Act<T>, id: nat)
    requires Ordered(w) && Fresh(w, id)
    ensures Fresh(Next(w, a), id)
  {
    if a.on < |w.vars| && id > Next(w, a).last {
      AppliedForeign(w.vars[a.on], a.op, w.last, id);
    }
  }

  lemma {:induction false} CourseOrdered<T>(ws: seq<World<T>>, acts: seq<Act<T>>, k: nat, id: nat)
    requires Course(ws, acts) && k < |ws|
    ensures Ordered(ws[k]) && Fresh(ws[k], id) && |ws[k].vars| == |ws[0].vars|
  {
    if k > 0 {
      CourseOrdered(ws, acts, k - 1, id);
      StepOrdered(ws[k - 1], acts[k - 1]);
      StepFresh(ws[k - 1], acts[k - 1], id);
    }
  }

  /** Listener `id` of variable `x` and of no other, since its value was `since`. */
  ghost predicate ServesOnly<T>(w: World<T>, x: nat, id: nat, since: T) {
    Serves(w, x, id, since) && forall y :: 0 <= y < |w.vars| && y != x ==> Foreign(w.vars[y], id)
  }

  /** From registration on, `w` being the world at that time. */
  lemma Registers<T>(w: World<T>, x: nat, w': World<T>)
    requires x < |w.vars| && Ordered(w) && Fresh(w, w.last + 1) && w' == Next(w, Act(x, AddListener))
    ensures ServesOnly(w', x, w.last + 1, w.vars[x].val)
  {
    assert Foreign(w.vars[x], w.last + 1);
  }

  lemma StepAt<T>(w: World<T>, a: Act<T>, y: nat)
    requires y < |w.vars|
    ensures |Next(w, a).vars| == |w.vars| && w.last <= Next(w, a).last
    ensures Next(w, a).vars[y] == if a.on == y then Applied(w.vars[y], a.op, w.last + 1) else w.vars[y]
  {
  }

  lemma OwnerServesOn<T>(w: World<T>, a: Act<T>, x: nat, id: nat, since: T)
    requires Ordered(w) && Serves(w, x, id, since)
    ensures Serves(Next(w, a), x, id, since)
  {
    StepAt(w, a, x);
    if a.on == x {
      AppliedServes(w.vars[x], a.op, w.last, id, since);
    }
  }

  lemma ServesOn<T>(w: World<T>, a: Act<T>, w': World<T>, x: nat, id: nat, since: T)
    requires Ordered(w) && ServesOnly(w, x, id, since) && w' == Next(w, a)
    ensures ServesOnly(w', x, id, since)
  {
    OwnerServesOn(w, a, x, id, since);
    forall y | 0 <= y < |w.vars| && y != x ensures Foreign(w'.vars[y], id) {
      StepAt(w, a, y);
      if a.on == y {
        AppliedForeign(w.vars[y], a.op, w.last, id);
      }
    }
  }

  /** The chain of every listener, over every run on any number of variables, registered by act `i`
      and seen after `k` acts: from the value its variable had when it registered, each call starts
      from what the call before announced, and while it is registered it knows the current value.
      No other variable ever uses its id. */
  lemma {:induction false} ListenerChain<T>(ws: seq<World<T>>, acts: seq<Act<T>>, i: nat, k: nat)
    requires Course(ws, acts) && i < k <= |acts| && acts[i].op == AddListener && acts[i].on < |ws[i].vars|
    ensures ServesOnly(ws[k], acts[i].on, ws[i].last + 1, ws[i].vars[acts[i].on].val)
    decreases k
  {
    var x, id := acts[i].on, ws[i].last + 1;
    CourseOrdered(ws, acts, k - 1, id);
    if k == i + 1 {
      Registers(ws[i], x, ws[k]);
    } else {
      ListenerChain(ws, acts, i, k - 1);
      ServesOn(ws[k - 1], acts[k - 1], ws[k], x, id, ws[i].vars[x].val);
    }
  }

  // ----- Who is registered, and what is heard -----

  /** The act takes listener `id` of variable `x` off its list. */
  predicate Removes<T>(a: Act<T>, x: nat, id: nat) {
    a.on == x && (a.op.ClearListener? || (a.op.DelListener? && a.op.id == id))
  }

  lemma StepRegisters<T>(w: World<T>, a: Act<T>, w': World<T>, x: nat, id: nat)
    requires Ordered(w) && x < |w.vars| && w' == Next(w, a)
    ensures x < |w'.vars|
    ensures id in w'.vars[x].ids <==>
            (id in w.vars[x].ids && !Removes(a, x, id)) || (a == Act(x, AddListener) && id == w.last + 1)
  {
    StepAt(w, a, x);
    if a.op.DelListener? {
      EraseExact(w.vars[x].ids, a.op.id, w.last + 1);
    }
  }

  /** No act from `i` to `k` removes the listener. */
  predicate Kept<T>(acts: seq<Act<T>>, x: nat, id: nat, i: nat, k: nat)
    requires i <= k <= |acts|
  {
    i == k || (Kept(acts, x, id, i, k - 1) && !Removes(acts[k - 1], x, id))
  }

  lemma {:induction false} KeptExactly<T>(acts: seq<Act<T>>, x: nat, id: nat, i: nat, k: nat)
    requires i <= k <= |acts|
    ensures Kept(acts, x, id, i, k) <==> forall j :: i <= j < k ==> !Removes(acts[j], x, id)
  {
    if i < k {
      KeptExactly(acts, x, id, i, k - 1);
    }
  }

  lemma CourseRegisters<T>(ws: seq<World<T>>, acts: seq<Act<T>>, k: nat, x: nat, id: nat)
    requires Course(ws, acts) && k < |acts| && x < |ws[0].vars|
    ensures x < |ws[k].vars| && x < |ws[k + 1].vars| && ws[k].last <= ws[k + 1].last
    ensures id in ws[k + 1].vars[x].ids <==>
            (id in ws[k].vars[x].ids && !Removes(acts[k], x, id))
            || (acts[k] == Act(x, AddListener) && id == ws[k].last + 1)
    ensures id > ws[k].last ==> id !in ws[k].vars[x].ids && ToldTo(ws[k].vars[x].calls, id) == []
    ensures acts[k] == Act(x, AddListener) ==> ws[k + 1].last == ws[k].last + 1
  {
    CourseOrdered(ws, acts, k, id);
    StepRegisters(ws[k], acts[k], ws[k + 1], x, id);
    if id > ws[k].last {
      assert Foreign(ws[k].vars[x], id);
    }
  }

  lemma {:induction false} StaysRegistered<T>(ws: seq<World<T>>, acts: seq<Act<T>>, i: nat, k: nat, x: nat, id: nat)
    requires Course(ws, acts) && i < k <= |acts| && x < |ws[0].vars|
    requires acts[i] == Act(x, AddListener) && id == ws[i].last + 1
    ensures x < |ws[k].vars| && id <= ws[k].last
    ensures id in ws[k].vars[x].ids <==> Kept(acts, x, id, i + 1, k)
    decreases k
  {
    CourseRegisters(ws, acts, i, x, id);
    CourseRegisters(ws, acts, k - 1, x, id);
    if k > i + 1 {
      StaysRegistered(ws, acts, i, k - 1, x, id);
    }
  }

  /** A listener that was added is on its variable's list until it is removed, and from then on not. */
  lemma RegisteredIff<T>(ws: seq<World<T>>, acts: seq<Act<T>>, i: nat, k: nat, x: nat, id: nat)
    requires Course(ws, acts) && i < k <= |acts| && x < |ws[0].vars|
    requires acts[i] == Act(x, AddListener) && id == ws[i].last + 1
    ensures x < |ws[k].vars|
    ensures id in ws[k].vars[x].ids <==> forall j :: i < j < k ==> !Removes(acts[j], x, id)
  {
    StaysRegistered(ws, acts, i, k, x, id);
    KeptExactly(acts, x, id, i + 1, k);
  }

  /** Setting a variable gives it that value, and nothing else changes a value. */
  lemma ValueSet<T>(ws: seq<World<T>>, acts: seq<Act<T>>, k: nat, x: nat)
    requires Course(ws, acts) && k < |acts| && x < |ws[k].vars|
    ensures x < |ws[k + 1].vars|
    ensures ws[k + 1].vars[x].val ==
            if acts[k].on == x && acts[k].op.SetValue? then acts[k].op.value else ws[k].vars[x].val
  {
    StepAt(ws[k], acts[k], x);
  }

  /** The change of variable `x` from one world to the next, seen from its values only. */
  ghost function ChangeOf<T>(w: World<T>, w': World<T>, x: nat): seq<Change<T>>
    requires x < |w.vars| && x < |w'.vars|
  {
    if w.vars[x].val == w'.vars[x].val then [] else [Change(w.vars[x].val, w'.vars[x].val)]
  }

  /** Its changes in steps `i` to `k`. */
  ghost function Changes<T>(ws: seq<World<T>>, x: nat, i: nat, k: nat): seq<Change<T>>
    requires i <= k < |ws| && forall j :: i <= j <= k ==> x < |ws[j].vars|
  {
    if k == i then [] else Changes(ws, x, i, k - 1) + ChangeOf(ws[k - 1], ws[k], x)
  }

  lemma StepTells<T>(w: World<T>, a: Act<T>, w': World<T>, x: nat, id: nat)
    requires Ordered(w) && x < |w.vars| && w' == Next(w, a)
    ensures x < |w'.vars|
    ensures ToldTo(w'.vars[x].calls, id) ==
            ToldTo(w.vars[x].calls, id) + if id in w.vars[x].ids then ChangeOf(w, w', x) else []
  {
    var s := w.vars[x];
    StepAt(w, a, x);
    assert ToldTo(s.calls, id) + [] == ToldTo(s.calls, id);
    if a.on == x && a.op.SetValue? && a.op.value != s.val {
      TellingAll(s.calls, s.ids, Change(s.val, a.op.value), w.last + 1, id);
    }
  }

  lemma CourseTells<T>(ws: seq<World<T>>, acts: seq<Act<T>>, k: nat, x: nat, id: nat)
    requires Course(ws, acts) && k < |acts| && x < |ws[k].vars|
    ensures x < |ws[k + 1].vars|
    ensures ToldTo(ws[k + 1].vars[x].calls, id) ==
            ToldTo(ws[k].vars[x].calls, id) + if id in ws[k].vars[x].ids then ChangeOf(ws[k], ws[k + 1], x) else []
  {
    CourseOrdered(ws, acts, k, id);
    StepTells(ws[k], acts[k], ws[k + 1], x, id);
  }

  /** One change tells everyone on the list, in ascending order of ids, and nobody else. */
  lemma ChangeTellsInOrder<T>(ws: seq<World<T>>, acts: seq<Act<T>>, k: nat, x: nat, v: T)
    requires Course(ws, acts) && k < |acts| && x < |ws[k].vars| && acts[k] == Act(x, SetValue(v))
    requires v != ws[k].vars[x].val
    ensures x < |ws[k + 1].vars|
    ensures var (s, s') := (ws[k].vars[x], ws[k + 1].vars[x]);
            && |s'.calls| == |s.calls| + |s.ids| && s'.calls[..|s.calls|] == s.calls
            && (forall j :: 0 <= j < |s.ids| ==> s'.calls[|s.calls| + j] == Call(s.ids[j], Change(s.val, v)))
            && forall i, j :: 0 <= i < j < |s.ids| ==> s.ids[i] < s.ids[j]
  {
    var s := ws[k].vars[x];
    CourseOrdered(ws, acts, k, 0);
    StepAt(ws[k], acts[k], x);
    AscendingExact(s.ids, ws[k].last + 1);
    AnnouncedExact(s.ids, Change(s.val, v), ws[k].last + 1, 0);
  }

  lemma CourseWidth<T>(ws: seq<World<T>>, acts: seq<Act<T>>)
    requires Course(ws, acts)
    ensures forall k :: 0 <= k < |ws| ==> |ws[k].vars| == |ws[0].vars|
  {
    forall k | 0 <= k < |ws| ensures |ws[k].vars| == |ws[0].vars| {
      CourseOrdered(ws, acts, k, 0);
    }
  }

  lemma {:induction false} HearsWhileKept<T>(ws: seq<World<T>>, acts: seq<Act<T>>, i: nat, k: nat, x: nat, id: nat)
    requires Course(ws, acts) && i < k <= |acts| && forall j :: 0 <= j < |ws| ==> x < |ws[j].vars|
    requires acts[i] == Act(x, AddListener) && id == ws[i].last + 1 && Kept(acts, x, id, i + 1, k)
    ensures ToldTo(ws[k].vars[x].calls, id) == Changes(ws, x, i + 1, k)
    decreases k
  {
    CourseTells(ws, acts, k - 1, x, id);
    if k == i + 1 {
      CourseRegisters(ws, acts, i, x, id);
    } else {
      HearsWhileKept(ws, acts, i, k - 1, x, id);
      StaysRegistered(ws, acts, i, k - 1, x, id);
    }
  }

  /** A listener that was added and not removed has been told exactly the changes of its variable
      since then, each once and in order. */
  lemma HearsAll<T>(ws: seq<World<T>>, acts: seq<Act<T>>, i: nat, k: nat, x: nat, id: nat)
    requires Course(ws, acts) && i < k <= |acts| && x < |ws[0].vars|
    requires acts[i] == Act(x, AddListener) && id == ws[i].last + 1
    requires forall j :: i < j < k ==> !Removes(acts[j], x, id)
    ensures forall j :: 0 <= j < |ws| ==> x < |ws[j].vars|
    ensures ToldTo(ws[k].vars[x].calls, id) == Changes(ws, x, i + 1, k)
  {
    CourseWidth(ws, acts);
    KeptExactly(acts, x, id, i + 1, k);
    HearsWhileKept(ws, acts, i, k, x, id);
  }

  // ----- The objects over whole runs -----

  /** Variables of one type with their common id counter; `acts` is everything done to them, and
      `worlds` where that has led. */
  class Variables<T(==)> {
    const vars: seq<ConfigVar<T>>
    const counter: ListenerIds
    ghost var acts: seq<Act<T>>
    ghost var worlds: seq<World<T>>

    ghost predicate Distinct()
      reads this
    {
      && (forall i, j :: 0 <= i < j < |vars| ==> vars[i] != vars[j])
      && forall i :: 0 <= i < |vars| ==> vars[i].counter == counter
    }

    /** The objects are where the run has come. */
    ghost predicate Valid()
      reads this, vars, counter
    {
      && Distinct() && Course(worlds, acts)
      && var w := worlds[|acts|];
         && |w.vars| == |vars| && w.last == counter.last
         && forall i :: 0 <= i < |vars| ==> vars[i].View() == w.vars[i]
    }

    constructor (vars: seq<ConfigVar<T>>, counter: ListenerIds)
      requires counter.last == 0
      requires forall i, j :: 0 <= i < j < |vars| ==> vars[i] != vars[j]
      requires forall i :: 0 <= i < |vars| ==> vars[i].counter == counter && vars[i].ids == [] && vars[i].calls == []
      ensures Valid() && acts == [] && this.vars == vars && this.counter == counter
    {
      this.vars, this.counter := vars, counter;
      acts := [];
      worlds := [World(0, seq(|vars|, i requires 0 <= i < |vars| reads vars => vars[i].View()))];
    }

    ghost method Note(a: Act<T>)
      requires Course(worlds, acts)
      modifies this`acts, this`worlds
      ensures acts == old(acts) + [a] && worlds == old(worlds) + [Next(old(worlds[|acts|]), a)]
      ensures Course(worlds, acts)
    {
      worlds := worlds + [Next(worlds[|acts|], a)];
      acts := acts + [a];
    }

    method SetValue(x: nat, v: T)
      requires Valid() && x < |vars|
      modifies this`acts, this`worlds, vars[x]
      ensures Valid() && acts == old(acts) + [Act(x, VarOp.SetValue(v))]
    {
      Note(Act(x, VarOp.SetValue(v)));
      vars[x].SetValue(v);
    }

    method DelListener(x: nat, id: nat)
      requires Valid() && x < |vars|
      modifies this`acts, this`worlds, vars[x]
      ensures Valid() && acts == old(acts) + [Act(x, VarOp.DelListener(id))]
    {
      Note(Act(x, VarOp.DelListener(id)));
      vars[x].DelListener(id);
    }

    method ClearListener(x: nat)
      requires Valid() && x < |vars|
      modifies this`acts, this`worlds, vars[x]
      ensures Valid() && acts == old(acts) + [Act(x, VarOp.ClearListener)]
    {
      Note(Act(x, VarOp.ClearListener));
      vars[x].ClearListener();
    }

    method AddListener(x: nat) returns (id: nat)
      requires Valid() && x < |vars|
      modifies this`acts, this`worlds, vars[x], counter
      ensures Valid() && acts == old(acts) + [Act(x, VarOp.AddListener)] && id == old(worlds[|acts|].last) + 1
    {
      Note(Act(x, VarOp.AddListener));
      id := vars[x].AddListener();
    }

    /** Whatever was done since registration `i`, the listener has been told an unbroken chain from
        the value its variable had then, which ends at the current one while it is registered; no
        other object ever used its id. */
    lemma Chains(i: nat, y: nat)
      requires Valid() && i < |acts| && acts[i].op == VarOp.AddListener && acts[i].on < |vars| && y < |vars|
      ensures acts[i].on < |worlds[i].vars|
      ensures var (x, id) := (acts[i].on, worlds[i].last + 1);
              var (since, told) := (worlds[i].vars[x].val, ToldTo(vars[y].calls, id));
              if y == x then Unbroken(told, since) && (id in vars[x].ids ==> Last(told, since) == vars[x].val)
              else id !in vars[y].ids && told == []
    {
      CourseOrdered(worlds, acts, i, 0);
      CourseOrdered(worlds, acts, |acts|, 0);
      ListenerChain(worlds, acts, i, |acts|);
    }

    /** The listener of registration `i` is on its object's list iff nothing has removed it since, and
        then its calls are exactly the changes of the variable's value since. */
    lemma Hears(i: nat, x: nat, id: nat)
      requires Valid() && i < |acts| && x < |vars| && acts[i] == Act(x, VarOp.AddListener) && id == worlds[i].last + 1
      ensures id in vars[x].ids <==> forall j :: i < j < |acts| ==> !Removes(acts[j], x, id)
      ensures forall j :: 0 <= j < |worlds| ==> x < |worlds[j].vars|
      ensures id in vars[x].ids ==> ToldTo(vars[x].calls, id) == Changes(worlds, x, i + 1, |acts|)
    {
      CourseWidth(worlds, acts);
      RegisteredIff(worlds, acts, i, |acts|, x, id);
      if id in vars[x].ids {
        HearsAll(worlds, acts, i, |acts|, x, id);
      }
    }
  }
}
