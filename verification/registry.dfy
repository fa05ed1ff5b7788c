/** The two-level lookups main.py keeps while it generates identifiers
    (`family_lookup`, `collection_lookup`): a `defaultdict(dict)` from an
    action ID to a dict from a (lower-cased) name to a value. Every row that
    resolves a value records it under its key, so the lookup is determined by
    the log of recordings; this module states what a replayed log holds. */
module Registry {
  import opened Wrappers

  type Registry = map<string, map<string, string>>

  /** One recording: `lookup[action][name] = value`. */
  datatype Entry = Entry(action: string, name: string, value: string)

  /** `lookup[action]` as a `defaultdict` would hand it out. */
  function Group(reg: Registry, action: string): map<string, string> {
    if action in reg then reg[action] else map[]
  }

  /** `len(lookup[action])`: how many names the action has recorded. */
  function Count(reg: Registry, action: string): nat {
    |Group(reg, action)|
  }

  /** `lookup[action].get(name)`. */
  function Stored(reg: Registry, action: string, name: string): Option<string> {
    var g := Group(reg, action);
    if name in g then Some(g[name]) else None
  }

  /** `lookup[e.action][e.name] = e.value`: the recorded key now yields the
      value, every other key yields what it did before, and the action's
      names gain `e.name`. */
  function Record(reg: Registry, e: Entry): (r: Registry)
    ensures Stored(r, e.action, e.name) == Some(e.value)
    ensures forall a, n :: (a != e.action || n != e.name) ==> Stored(r, a, n) == Stored(reg, a, n)
    ensures Group(r, e.action).Keys == Group(reg, e.action).Keys + {e.name}
    ensures forall a :: a != e.action ==> Group(r, a) == Group(reg, a)
  {
    reg[e.action := Group(reg, e.action)[e.name := e.value]]
  }

  /** The lookup after recording every entry of the log in order; `None`
      marks a row that records nothing. */
  function Replay(log: seq<Option<Entry>>): Registry {
    if |log| == 0 then map[]
    else
      var prev := Replay(log[..|log| - 1]);
      match log[|log| - 1]
      case None => prev
      case Some(e) => Record(prev, e)
  }

  /** The log entry at `m` records under (action, name). */
  predicate Hits(log: seq<Option<Entry>>, m: nat, action: string, name: string)
    requires m < |log|
  {
    log[m].Some? && log[m].value.action == action && log[m].value.name == name
  }

  /** The last recording of a key wins: a key recorded at `k` and never
      again afterwards yields the value recorded at `k`. */
  lemma {:induction false} ReplayLatest(log: seq<Option<Entry>>, k: nat)
    requires k < |log| && log[k].Some?
    requires forall m :: k < m < |log| ==> !Hits(log, m, log[k].value.action, log[k].value.name)
    ensures Stored(Replay(log), log[k].value.action, log[k].value.name) == Some(log[k].value.value)
    decreases |log|
  {
    var last := |log| - 1;
    var prefix := log[..last];
    if k < last {
      var e := log[k].value;
      assert forall m :: k < m < |prefix| ==> Hits(prefix, m, e.action, e.name) == Hits(log, m, e.action, e.name);
      ReplayLatest(prefix, k);
      assert !Hits(log, last, log[k].value.action, log[k].value.name);
    }
  }

  /** A key no entry records is absent. */
  lemma {:induction false} ReplayUnseen(log: seq<Option<Entry>>, action: string, name: string)
    requires forall m :: 0 <= m < |log| ==> !Hits(log, m, action, name)
    ensures Stored(Replay(log), action, name) == None
    decreases |log|
  {
    if |log| > 0 {
      var prefix := log[..|log| - 1];
      assert forall m :: 0 <= m < |prefix| ==> Hits(prefix, m, action, name) == Hits(log, m, action, name);
      ReplayUnseen(prefix, action, name);
      assert !Hits(log, |log| - 1, action, name);
    }
  }

  /** The names the log records for an action. */
  function NamesFor(log: seq<Option<Entry>>, action: string): set<string> {
    set m | 0 <= m < |log| && log[m].Some? && log[m].value.action == action :: log[m].value.name
  }

  /** An action's names are exactly those the log records for it, so
      `len(lookup[action])` counts its distinct names. */
  lemma {:induction false} ReplayGroupKeys(log: seq<Option<Entry>>, action: string)
    ensures Group(Replay(log), action).Keys == NamesFor(log, action)
    decreases |log|
  {
    if |log| > 0 {
      var last := |log| - 1;
      var prefix := log[..last];
      ReplayGroupKeys(prefix, action);
      assert forall m :: 0 <= m < |prefix| ==> prefix[m] == log[m];
      var entryNames := if log[last].Some? && log[last].value.action == action then {log[last].value.name} else {};
      assert NamesFor(log, action) == NamesFor(prefix, action) + entryNames by {
        forall x | x in NamesFor(log, action) ensures x in NamesFor(prefix, action) + entryNames {
          var m :| 0 <= m < |log| && log[m].Some? && log[m].value.action == action && log[m].value.name == x;
          if m < last {
            assert prefix[m] == log[m];
          }
        }
        forall x | x in NamesFor(prefix, action) ensures x in NamesFor(log, action) {
          var m :| 0 <= m < |prefix| && prefix[m].Some? && prefix[m].value.action == action && prefix[m].value.name == x;
          assert log[m] == prefix[m];
        }
      }
    }
  }
}
