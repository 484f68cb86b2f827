/** What a listener of a configuration variable is told, call by call (nnysl/config.h:328-330). */
module Chains {

  datatype Change<T> = Change(old': T, new': T)

  /** What a listener was last told. */
  ghost function Last<T>(calls: seq<Change<T>>, default': T): T {
    if calls == [] then default' else calls[|calls| - 1].new'
  }

  /** Each call announces a real change, from what the call before announced. */
  ghost predicate Unbroken<T>(calls: seq<Change<T>>, default': T) {
    calls == [] ||
    var (before, c) := (calls[..|calls| - 1], calls[|calls| - 1]);
    Unbroken(before, default') && c.old' == Last(before, default') && c.old' != c.new'
  }

  lemma UnbrokenGrows<T>(calls: seq<Change<T>>, default': T, c: Change<T>)
    ensures Unbroken(calls + [c], default') <==>
            Unbroken(calls, default') && c.old' == Last(calls, default') && c.old' != c.new'
  {
    assert (calls + [c])[..|calls|] == calls;
  }
}
