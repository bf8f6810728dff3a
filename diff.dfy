/**
 * The specification of `getDifferences`: the three lists it builds, each
 * defined as the list its loop has built after a given prefix of the
 * configuration it walks.
 */
module ConfigDiff {
  import opened Configuration

  datatype Entry = Entry(key: string, value: Value)
  datatype Update = Update(key: string, oldValue: Value, newValue: Value)
  datatype Differences = Differences(added: seq<Entry>, removed: seq<Entry>, updated: seq<Update>)

  /** Entries of `newC` (in its order) whose key `oldC` lacks. */
  function AddedIn(oldC: seq<(string, Value)>, newC: seq<(string, Value)>): seq<Entry>
    decreases |newC|
  {
    if newC == [] then []
    else
      var rest := AddedIn(oldC, newC[..|newC| - 1]);
      var p := newC[|newC| - 1];
      if HasKey(oldC, p.0) then rest else rest + [Entry(p.0, p.1)]
  }

  /** Entries of `newC` (in its order) whose key `oldC` has with a value that is not `===`. */
  function UpdatedIn(oldC: seq<(string, Value)>, newC: seq<(string, Value)>): seq<Update>
    decreases |newC|
  {
    if newC == [] then []
    else
      var rest := UpdatedIn(oldC, newC[..|newC| - 1]);
      var p := newC[|newC| - 1];
      if HasKey(oldC, p.0) && !StrictEquals(p.1, Get(oldC, p.0))
      then rest + [Update(p.0, Get(oldC, p.0), p.1)]
      else rest
  }

  /** Entries of `oldC` (in its order) whose key `newC` lacks. */
  function RemovedIn(oldC: seq<(string, Value)>, newC: seq<(string, Value)>): seq<Entry>
    decreases |oldC|
  {
    if oldC == [] then []
    else
      var rest := RemovedIn(oldC[..|oldC| - 1], newC);
      var p := oldC[|oldC| - 1];
      if HasKey(newC, p.0) then rest else rest + [Entry(p.0, p.1)]
  }

  function Diff(oldC: Config, newC: Config): Differences {
    Differences(AddedIn(oldC, newC), RemovedIn(oldC, newC), UpdatedIn(oldC, newC))
  }

  /** Every pair of a configuration as an entry, in order. */
  function Entries(c: seq<(string, Value)>): (es: seq<Entry>)
    ensures |es| == |c|
    ensures forall i | 0 <= i < |c| :: es[i] == Entry(c[i].0, c[i].1)
  {
    seq(|c|, i requires 0 <= i < |c| => Entry(c[i].0, c[i].1))
  }

  predicate InEntries(es: seq<Entry>, k: string) {
    exists i | 0 <= i < |es| :: es[i].key == k
  }

  predicate InUpdates(us: seq<Update>, k: string) {
    exists i | 0 <= i < |us| :: us[i].key == k
  }

  predicate Unchanged(oldC: Config, newC: Config, k: string) {
    HasKey(oldC, k) && HasKey(newC, k) && StrictEquals(Get(newC, k), Get(oldC, k))
  }

  /** `added` holds exactly the pairs of the new configuration whose key the old one lacks. */
  lemma {:induction false} AddedMember(oldC: seq<(string, Value)>, newC: seq<(string, Value)>, e: Entry)
    ensures e in AddedIn(oldC, newC) <==> (e.key, e.value) in newC && !HasKey(oldC, e.key)
    decreases |newC|
  {
    if newC != [] {
      var front := newC[..|newC| - 1];
      AddedMember(oldC, front, e);
      assert newC == front + [newC[|newC| - 1]];
    }
  }

  /** `updated` holds exactly the keys both sides have with values that are not `===`. */
  lemma {:induction false} UpdatedMember(oldC: Config, newC: seq<(string, Value)>, u: Update)
    ensures u in UpdatedIn(oldC, newC) <==>
            (u.key, u.newValue) in newC && (u.key, u.oldValue) in oldC && !StrictEquals(u.newValue, u.oldValue)
    decreases |newC|
  {
    PairInConfig(oldC, u.key, u.oldValue);
    if newC != [] {
      var front := newC[..|newC| - 1];
      UpdatedMember(oldC, front, u);
      assert newC == front + [newC[|newC| - 1]];
    }
  }

  /** `removed` holds exactly the pairs of the old configuration whose key the new one lacks. */
  lemma {:induction false} RemovedMember(oldC: seq<(string, Value)>, newC: seq<(string, Value)>, e: Entry)
    ensures e in RemovedIn(oldC, newC) <==> (e.key, e.value) in oldC && !HasKey(newC, e.key)
    decreases |oldC|
  {
    if oldC != [] {
      var front := oldC[..|oldC| - 1];
      RemovedMember(front, newC, e);
      assert oldC == front + [oldC[|oldC| - 1]];
    }
  }

  /** Each key goes to the list its presence on each side and `===` decide. */
  lemma KeyClassification(oldC: Config, newC: Config, k: string)
    ensures InEntries(AddedIn(oldC, newC), k) <==> HasKey(newC, k) && !HasKey(oldC, k)
    ensures InUpdates(UpdatedIn(oldC, newC), k) <==>
            HasKey(newC, k) && HasKey(oldC, k) && !StrictEquals(Get(newC, k), Get(oldC, k))
    ensures InEntries(RemovedIn(oldC, newC), k) <==> HasKey(oldC, k) && !HasKey(newC, k)
  {
    var added, updated, removed := AddedIn(oldC, newC), UpdatedIn(oldC, newC), RemovedIn(oldC, newC);
    if InEntries(added, k) {
      var i :| 0 <= i < |added| && added[i].key == k;
      AddedMember(oldC, newC, added[i]);
    }
    if HasKey(newC, k) && !HasKey(oldC, k) {
      AddedMember(oldC, newC, Entry(k, Get(newC, k)));
      var i :| 0 <= i < |added| && added[i] == Entry(k, Get(newC, k));
    }
    if InUpdates(updated, k) {
      var i :| 0 <= i < |updated| && updated[i].key == k;
      UpdatedMember(oldC, newC, updated[i]);
      PairInConfig(newC, k, updated[i].newValue);
      PairInConfig(oldC, k, updated[i].oldValue);
    }
    if HasKey(newC, k) && HasKey(oldC, k) && !StrictEquals(Get(newC, k), Get(oldC, k)) {
      var u := Update(k, Get(oldC, k), Get(newC, k));
      UpdatedMember(oldC, newC, u);
      var i :| 0 <= i < |updated| && updated[i] == u;
    }
    if InEntries(removed, k) {
      var i :| 0 <= i < |removed| && removed[i].key == k;
      RemovedMember(oldC, newC, removed[i]);
    }
    if HasKey(oldC, k) && !HasKey(newC, k) {
      RemovedMember(oldC, newC, Entry(k, Get(oldC, k)));
      var i :| 0 <= i < |removed| && removed[i] == Entry(k, Get(oldC, k));
    }
  }

  /**
   * The report partitions the keys of both configurations: each key of
   * either side is added, updated, removed or unchanged, and is exactly one
   * of these; an unchanged key is in no list.
   */
  lemma DiffPartitionsKeys(oldC: Config, newC: Config, k: string)
    requires HasKey(oldC, k) || HasKey(newC, k)
    ensures var d := Diff(oldC, newC);
            var a, u, r, same := InEntries(d.added, k), InUpdates(d.updated, k),
                                 InEntries(d.removed, k), Unchanged(oldC, newC, k);
            && (a || u || r || same)
            && !(a && u) && !(a && r) && !(u && r)
            && (same ==> !a && !u && !r)
  {
    KeyClassification(oldC, newC, k);
  }

  /** `added` keeps the iteration order of the new configuration. */
  lemma {:induction false} AddedOrder(oldC: seq<(string, Value)>, newC: seq<(string, Value)>, i: nat, j: nat)
    requires i < j < |AddedIn(oldC, newC)|
    ensures exists a, b :: 0 <= a < b < |newC| && newC[a].0 == AddedIn(oldC, newC)[i].key
                                               && newC[b].0 == AddedIn(oldC, newC)[j].key
    decreases |newC|
  {
    var front := newC[..|newC| - 1];
    var rest := AddedIn(oldC, front);
    if j < |rest| {
      AddedOrder(oldC, front, i, j);
      var a, b :| 0 <= a < b < |front| && front[a].0 == rest[i].key && front[b].0 == rest[j].key;
      assert newC[a] == front[a] && newC[b] == front[b];
    } else {
      AddedMember(oldC, front, rest[i]);
      var a :| 0 <= a < |front| && front[a] == (rest[i].key, rest[i].value);
      assert newC[a] == front[a];
      assert newC[|newC| - 1].0 == AddedIn(oldC, newC)[j].key;
    }
  }

  /** `updated` keeps the iteration order of the new configuration. */
  lemma {:induction false} UpdatedOrder(oldC: Config, newC: seq<(string, Value)>, i: nat, j: nat)
    requires i < j < |UpdatedIn(oldC, newC)|
    ensures exists a, b :: 0 <= a < b < |newC| && newC[a].0 == UpdatedIn(oldC, newC)[i].key
                                               && newC[b].0 == UpdatedIn(oldC, newC)[j].key
    decreases |newC|
  {
    var front := newC[..|newC| - 1];
    var rest := UpdatedIn(oldC, front);
    if j < |rest| {
      UpdatedOrder(oldC, front, i, j);
      var a, b :| 0 <= a < b < |front| && front[a].0 == rest[i].key && front[b].0 == rest[j].key;
      assert newC[a] == front[a] && newC[b] == front[b];
    } else {
      UpdatedMember(oldC, front, rest[i]);
      var a :| 0 <= a < |front| && front[a] == (rest[i].key, rest[i].newValue);
      assert newC[a] == front[a];
      assert newC[|newC| - 1].0 == UpdatedIn(oldC, newC)[j].key;
    }
  }

  /** `removed` keeps the iteration order of the old configuration. */
  lemma {:induction false} RemovedOrder(oldC: seq<(string, Value)>, newC: seq<(string, Value)>, i: nat, j: nat)
    requires i < j < |RemovedIn(oldC, newC)|
    ensures exists a, b :: 0 <= a < b < |oldC| && oldC[a].0 == RemovedIn(oldC, newC)[i].key
                                               && oldC[b].0 == RemovedIn(oldC, newC)[j].key
    decreases |oldC|
  {
    var front := oldC[..|oldC| - 1];
    var rest := RemovedIn(front, newC);
    if j < |rest| {
      RemovedOrder(front, newC, i, j);
      var a, b :| 0 <= a < b < |front| && front[a].0 == rest[i].key && front[b].0 == rest[j].key;
      assert oldC[a] == front[a] && oldC[b] == front[b];
    } else {
      RemovedMember(front, newC, rest[i]);
      var a :| 0 <= a < |front| && front[a] == (rest[i].key, rest[i].value);
      assert oldC[a] == front[a];
      assert oldC[|oldC| - 1].0 == RemovedIn(oldC, newC)[j].key;
    }
  }

  /** Within each list a key appears at most once. */
  lemma DiffListsHaveDistinctKeys(oldC: Config, newC: Config, i: nat, j: nat)
    requires i < j
    ensures var d := Diff(oldC, newC);
            && (j < |d.added| ==> d.added[i].key != d.added[j].key)
            && (j < |d.updated| ==> d.updated[i].key != d.updated[j].key)
            && (j < |d.removed| ==> d.removed[i].key != d.removed[j].key)
  {
    var d := Diff(oldC, newC);
    if j < |d.added| { AddedOrder(oldC, newC, i, j); }
    if j < |d.updated| { UpdatedOrder(oldC, newC, i, j); }
    if j < |d.removed| { RemovedOrder(oldC, newC, i, j); }
  }

  /** Diffing a NaN-free configuration against itself reports nothing. */
  lemma DiffWithItselfIsEmpty(c: Config)
    requires forall i | 0 <= i < |c| :: c[i].1 != NaN
    ensures Diff(c, c) == Differences([], [], [])
  {
    var d := Diff(c, c);
    if d.added != [] {
      AddedMember(c, c, d.added[0]);
    }
    if d.removed != [] {
      RemovedMember(c, c, d.removed[0]);
    }
    if d.updated != [] {
      var u := d.updated[0];
      UpdatedMember(c, c, u);
      var i :| 0 <= i < |c| && c[i] == (u.key, u.newValue);
      PairInConfig(c, u.key, u.newValue);
      PairInConfig(c, u.key, u.oldValue);
      StrictEqualsProperties(u.newValue, u.oldValue);
    }
  }

  /** With NaN the report is not empty: `NaN !== NaN` makes the key updated. */
  lemma DiffWithItselfReportsNaN()
    ensures Diff([("x", NaN)], [("x", NaN)]) == Differences([], [], [Update("x", NaN, NaN)])
  {
    var c: Config := [("x", NaN)];
    assert c[..0] == [];
    assert c[0].0 == "x";
  }

  /** A new configuration whose keys the old one lacks is added whole, in order. */
  lemma {:induction false} AddedAllWhenNew(oldC: seq<(string, Value)>, newC: seq<(string, Value)>)
    requires forall i | 0 <= i < |newC| :: !HasKey(oldC, newC[i].0)
    ensures AddedIn(oldC, newC) == Entries(newC)
    ensures UpdatedIn(oldC, newC) == []
    decreases |newC|
  {
    if newC != [] {
      var front := newC[..|newC| - 1];
      AddedAllWhenNew(oldC, front);
      assert Entries(newC) == Entries(front) + [Entry(newC[|newC| - 1].0, newC[|newC| - 1].1)];
    }
  }

  /** An old configuration whose keys the new one lacks is removed whole, in order. */
  lemma {:induction false} RemovedAllWhenGone(oldC: seq<(string, Value)>, newC: seq<(string, Value)>)
    requires forall i | 0 <= i < |oldC| :: !HasKey(newC, oldC[i].0)
    ensures RemovedIn(oldC, newC) == Entries(oldC)
    decreases |oldC|
  {
    if oldC != [] {
      var front := oldC[..|oldC| - 1];
      RemovedAllWhenGone(front, newC);
      assert Entries(oldC) == Entries(front) + [Entry(oldC[|oldC| - 1].0, oldC[|oldC| - 1].1)];
    }
  }

  /** For configurations with no key in common every new key is added and every old key removed. */
  lemma DiffOfDisjointConfigs(oldC: Config, newC: Config)
    requires forall i | 0 <= i < |newC| :: !HasKey(oldC, newC[i].0)
    ensures Diff(oldC, newC) == Differences(Entries(newC), Entries(oldC), [])
  {
    AddedAllWhenNew(oldC, newC);
    assert forall i | 0 <= i < |oldC| :: !HasKey(newC, oldC[i].0);
    RemovedAllWhenGone(oldC, newC);
  }

  /** Against the empty prior configuration every key of the new one is added. */
  lemma DiffFromEmpty(newC: Config)
    ensures Diff([], newC) == Differences(Entries(newC), [], [])
  {
    DiffOfDisjointConfigs([], newC);
  }

  /**
   * Two composites that were parsed separately have different identities,
   * so a key holding one on each side is always updated, whatever their contents.
   */
  lemma SeparateCompositesAreUpdated(oldC: Config, newC: Config, k: string)
    requires HasKey(oldC, k) && HasKey(newC, k)
    requires Get(oldC, k).Composite? && Get(newC, k).Composite? && Get(oldC, k).ref != Get(newC, k).ref
    ensures InUpdates(Diff(oldC, newC).updated, k)
  {
    KeyClassification(oldC, newC, k);
  }

  /** One key added, one updated, nothing removed: the configurations of the unit test of `getDifferences`. */
  lemma DiffExample()
    ensures Diff([("key1", Str("value1"))], [("key2", Str("value2")), ("key1", Str("value1-updated"))])
         == Differences([Entry("key2", Str("value2"))], [], [Update("key1", Str("value1"), Str("value1-updated"))])
  {
    var oldC: Config := [("key1", Str("value1"))];
    var newC: Config := [("key2", Str("value2")), ("key1", Str("value1-updated"))];
    assert oldC[0].0 == "key1" && newC[1].0 == "key1";
    assert !HasKey(oldC, "key2");
    var first := newC[..1];
    assert first == [("key2", Str("value2"))] && first[..0] == [];
    assert oldC[..0] == [];
    assert AddedIn(oldC, first) == [Entry("key2", Str("value2"))];
    assert UpdatedIn(oldC, first) == [];
    assert Get(oldC, "key1") == Str("value1");
    assert Str("value1-updated") != Str("value1");
    assert RemovedIn(oldC, newC) == [];
  }
}
