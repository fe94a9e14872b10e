/** Deleting keys at every depth of a nested dictionary, and with it the modules a model does not use. */
module Prune {
  import opened Wrappers
  import opened VarTree

  /** The tree without the given keys at any depth. */
  function Pruned<V>(t: Tree<V>, keys: set<string>): Tree<V> {
    if t.Leaf? then t
    else Node(map k | k in t.kids && k !in keys :: Pruned(t.kids[k], keys))
  }

  function KeySet(keys: seq<string>): set<string> {
    set k | k in keys
  }

  /** A path is cut off exactly by a removed key on it, and otherwise shows what it showed. */
  lemma {:induction false} PrunedProbe<V>(t: Tree<V>, keys: set<string>, q: Path)
    ensures Probe(Pruned(t, keys), q) == if exists k :: k in q && k in keys then Absent else Probe(t, q)
    decreases |q|
  {
    if q != [] {
      if q[0] in keys {
        assert q[0] in q;
      } else {
        assert forall k :: k in q && k in keys ==> k in q[1..];
        if t.Node? && q[0] in t.kids {
          PrunedProbe(t.kids[q[0]], keys, q[1..]);
        }
      }
    }
  }

  /** Removing keys in two rounds, in either order, is removing them all at once. */
  lemma {:induction false} PrunedTwice<V(!new)>(t: Tree<V>, a: set<string>, b: set<string>)
    ensures Pruned(Pruned(t, a), b) == Pruned(t, a + b) == Pruned(Pruned(t, b), a)
    ensures Pruned(Pruned(t, a), a) == Pruned(t, a)
  {
    forall q: Path
      ensures Probe(Pruned(Pruned(t, a), b), q) == Probe(Pruned(t, a + b), q) == Probe(Pruned(Pruned(t, b), a), q)
      ensures Probe(Pruned(Pruned(t, a), a), q) == Probe(Pruned(t, a), q)
    {
      PrunedProbe(Pruned(t, a), b, q);
      PrunedProbe(t, a, q);
      PrunedProbe(Pruned(t, b), a, q);
      PrunedProbe(t, b, q);
      PrunedProbe(Pruned(t, a), a, q);
      PrunedProbe(t, a + b, q);
      assert (exists k :: k in q && k in a + b) <==> (exists k :: k in q && k in a) || (exists k :: k in q && k in b);
    }
    SameProbes(Pruned(Pruned(t, a), b), Pruned(t, a + b));
    SameProbes(Pruned(Pruned(t, b), a), Pruned(t, a + b));
    SameProbes(Pruned(Pruned(t, a), a), Pruned(t, a));
  }

  // ---------- deletion in place ----------

  /** A dictionary from which the listed keys are gone at this level only. */
  function Without<V>(t: Tree<V>, keys: set<string>): Tree<V>
    requires t.Node?
  {
    Node(map k | k in t.kids && k !in keys :: t.kids[k])
  }

  /** The same with the entries in `done` pruned as well. */
  function PrunedPartly<V>(t: Tree<V>, keys: set<string>, done: set<string>): Tree<V>
    requires t.Node?
  {
    Node(map k | k in t.kids && k !in keys :: if k in done then Pruned(t.kids[k], keys) else t.kids[k])
  }

  ghost predicate Descended<V>(before: Tree<V>, now: Tree<V>, branch: Path, keys: set<string>, done: set<string>) {
    && At(before, branch).Some? && At(before, branch).value.Node?
    && now == Graft(before, branch, PrunedPartly(At(before, branch).value, keys, done))
  }

  lemma {:induction false} EntryPruned<V>(
      before: Tree<V>, now: Tree<V>, branch: Path, keys: set<string>, done: set<string>, key: string)
    requires Descended(before, now, branch, keys, done)
    requires key in At(before, branch).value.kids && key !in keys && key !in done
    ensures var sub := At(before, branch).value;
      && At(now, branch + [key]) == Some(sub.kids[key])
      && Descended(before, Graft(now, branch + [key], Pruned(sub.kids[key], keys)), branch, keys, done + {key})
      && (sub.kids[key].Leaf? ==> Descended(before, now, branch, keys, done + {key}))
  {
    var sub := At(before, branch).value;
    var partly, more := PrunedPartly(sub, keys, done), PrunedPartly(sub, keys, done + {key});
    GraftAt(before, branch, partly);
    AtConcat(now, branch, [key]);
    GraftDeeper(now, branch, key, Pruned(sub.kids[key], keys));
    assert more.kids == partly.kids[key := Pruned(sub.kids[key], keys)];
    assert Graft(now, branch, more) == Graft(before, branch, more);
    if sub.kids[key].Leaf? {
      assert more.kids == partly.kids;
    }
  }

  class Model<V> {
    var tree: Tree<V>

    constructor (t: Tree<V>)
      ensures tree == t
    {
      tree := t;
    }

    /** The first loop of remove_nested_keys: deletes the listed keys from the dictionary at `branch`. */
    method DeleteKeys(ghost sub: Tree<V>, keys: seq<string>, branch: Path)
      requires At(tree, branch) == Some(sub) && sub.Node?
      modifies this
      ensures tree == Graft(old(tree), branch, Without(sub, KeySet(keys)))
    {
      ghost var before := tree;
      GraftAt(before, branch, sub);
      assert Without(sub, {}).kids == sub.kids;
      assert KeySet([]) == {};
      var i := 0;
      assert keys[..0] == [];
      while i < |keys|
        invariant 0 <= i <= |keys|
        invariant tree == Graft(before, branch, Without(sub, KeySet(keys[..i])))
      {
        GraftAt(before, branch, Without(sub, KeySet(keys[..i])));
        var here := At(tree, branch).value;
        assert KeySet(keys[..i + 1]) == KeySet(keys[..i]) + {keys[i]};
        ghost var next := Without(sub, KeySet(keys[..i + 1]));
        if keys[i] in here.kids {
          tree := Graft(tree, branch, Node(here.kids - {keys[i]}));
          assert next.kids == here.kids - {keys[i]};
        } else {
          assert next.kids == here.kids;
        }
        i := i + 1;
      }
      assert keys[..i] == keys;
    }

    /** remove_nested_keys on the dictionary at `branch`. */
    method RemoveNestedKeys(ghost sub: Tree<V>, keys: seq<string>, branch: Path)
      requires At(tree, branch) == Some(sub) && sub.Node?
      modifies this
      ensures tree == Graft(old(tree), branch, Pruned(sub, KeySet(keys)))
      decreases sub
    {
      ghost var before := tree;
      DeleteKeys(sub, keys, branch);
      ghost var removed := KeySet(keys);
      GraftAt(before, branch, Without(sub, removed));
      var todo := At(tree, branch).value.kids.Keys;
      ghost var done: set<string> := {};
      assert PrunedPartly(sub, removed, {}).kids == Without(sub, removed).kids;
      while todo != {}
        invariant done + todo == sub.kids.Keys - removed && done * todo == {}
        invariant Descended(before, tree, branch, removed, done)
        decreases todo
      {
        var key :| key in todo;
        EntryPruned(before, tree, branch, removed, done, key);
        var branch_i := branch + [key];
        if At(tree, branch_i).value.Node? {
          RemoveNestedKeys(sub.kids[key], keys, branch_i);
        }
        todo, done := todo - {key}, done + {key};
      }
      assert PrunedPartly(sub, removed, done).kids == Pruned(sub, removed).kids;
    }
  }

  // ---------- modules that are switched off ----------

  /** For each switch, the modules each of its choices stands for. */
  type Switches = map<string, map<int, seq<string>>>

  const OF_MODULES: Switches := map[
    "CompElast" := map[
      1 := ["ElastoDyn", "ElastoDynBlade", "ElastoDynTower"],
      2 := ["ElastoDyn", "ElastoDynTower", "BeamDyn", "BeamDynBlade"],
      3 := ["SimpleElastoDyn"]],
    "CompInflow" := map[0 := [], 1 := ["InflowWind"]],
    "CompAero" := map[0 := [], 1 := ["AeroDisk"], 2 := ["AeroDyn", "AeroDynBlade", "AeroDynPolar"]],
    "CompServo" := map[0 := [], 1 := ["ServoDyn", "DISCON_in"]],
    "CompSeaSt" := map[0 := [], 1 := ["SeaState"]],
    "CompHydro" := map[0 := [], 1 := ["HydroDyn"]],
    "CompSub" := map[0 := [], 1 := ["SubDyn"], 2 := ["read_ExtPtfm"]],
    "CompMooring" := map[0 := [], 1 := ["MAP"], 2 := [], 3 := ["MoorDyn", "WaterKin"], 4 := []],
    "CompIce" := map[0 := [], 1 := [], 2 := []]]

  /** The switch is known and set to one of its choices. */
  ghost predicate Recognised(mods: Switches, fst: map<string, Tree<int>>, s: string) {
    s in fst && s in mods && fst[s].Leaf? && fst[s].value in mods[s]
  }

  /** The key belongs to the choice a recognised switch is set to. */
  ghost predicate Needed(mods: Switches, fst: map<string, Tree<int>>, key: string) {
    exists s :: Recognised(mods, fst, s) && key in mods[s][fst[s].value]
  }

  /** The key belongs to a choice a recognised switch is not set to. */
  ghost predicate Unused(mods: Switches, fst: map<string, Tree<int>>, key: string) {
    exists s, c :: Recognised(mods, fst, s) && c in mods[s] && c != fst[s].value && key in mods[s][c]
  }

  /** The same for the switches in `done` only. */
  ghost predicate NeededBy(mods: Switches, fst: map<string, Tree<int>>, done: set<string>, key: string) {
    exists s :: s in done && Recognised(mods, fst, s) && key in mods[s][fst[s].value]
  }

  ghost predicate UnusedBy(mods: Switches, fst: map<string, Tree<int>>, done: set<string>, key: string) {
    exists s, c :: s in done && Recognised(mods, fst, s) && c in mods[s] && c != fst[s].value && key in mods[s][c]
  }

  lemma SomeElement(s: set<int>)
    ensures s == {} || exists c :: c in s
  {
    assert (forall c :: c !in s) ==> s == {};
  }

  /** The inner loop: extends the list by the modules of every choice but the active one. */
  method OtherChoices(choices: map<int, seq<string>>, active: int, keys2remove: seq<string>) returns (keys: seq<string>)
    ensures forall k :: k in keys <==> k in keys2remove || exists c :: c in choices && c != active && k in choices[c]
  {
    keys := keys2remove;
    var todo := choices.Keys;
    while todo != {}
      invariant todo <= choices.Keys
      invariant forall k :: k in keys <==>
        k in keys2remove || exists c :: c in choices && c !in todo && c != active && k in choices[c]
      decreases todo
    {
      SomeElement(todo);
      var c: int :| c in todo;
      if c != active {
        keys := keys + choices[c];
      }
      todo := todo - {c};
    }
  }

  /** The two lists of removeDeactivatedModules. A dictionary in place of a setting cannot be looked up. */
  method CollectKeys(mods: Switches, fst: map<string, Tree<int>>) returns (keep: seq<string>, remove: seq<string>)
    requires forall s <- fst :: s in mods ==> fst[s].Leaf?
    ensures forall k :: k in keep <==> Needed(mods, fst, k)
    ensures forall k :: k in remove <==> Unused(mods, fst, k)
  {
    keep, remove := [], [];
    var todo := fst.Keys;
    ghost var done: set<string> := {};
    while todo != {}
      invariant done + todo == fst.Keys
      invariant forall k :: k in keep <==> NeededBy(mods, fst, done, k)
      invariant forall k :: k in remove <==> UnusedBy(mods, fst, done, k)
      decreases todo
    {
      var s :| s in todo;
      ghost var keep0, remove0 := keep, remove;
      if s in mods && fst[s].value in mods[s] {
        keep := keep + mods[s][fst[s].value];
        remove := OtherChoices(mods[s], fst[s].value, remove);
      }
      forall k ensures k in keep <==> NeededBy(mods, fst, done + {s}, k) {
        assert k in keep0 <==> NeededBy(mods, fst, done, k);
      }
      forall k ensures k in remove <==> UnusedBy(mods, fst, done + {s}, k) {
        assert k in remove0 <==> UnusedBy(mods, fst, done, k);
      }
      todo, done := todo - {s}, done + {s};
    }
    assert forall s :: Recognised(mods, fst, s) ==> s in done;
  }

  /** [key for key in keys2remove if key not in keys2keep] */
  function Only(remove: seq<string>, keep: seq<string>): (keys: seq<string>)
    ensures forall k :: k in keys <==> k in remove && k !in keep
  {
    if remove == [] then []
    else (if remove[0] in keep then [] else [remove[0]]) + Only(remove[1..], keep)
  }

  ghost function Deactivated(mods: Switches, fst: map<string, Tree<int>>): iset<string> {
    iset k | Unused(mods, fst, k) && !Needed(mods, fst, k)
  }

  method RemoveDeactivatedModules(m: Model<int>) returns (ok: bool)
    requires m.tree.Node?
    modifies m
    ensures ok <==> old(HasSettings(OF_MODULES, m.tree))
    ensures !ok ==> m.tree == old(m.tree)
    ensures ok ==> exists keys: set<string> ::
      && m.tree == Pruned(old(m.tree), keys)
      && forall k :: k in keys <==> k in Deactivated(OF_MODULES, old(m.tree).kids["Fst"].kids)
  {
    if !HasSettings(OF_MODULES, m.tree) {
      return false;
    }
    var keep, remove := CollectKeys(OF_MODULES, m.tree.kids["Fst"].kids);
    var keys := Only(remove, keep);
    ghost var fst := m.tree.kids["Fst"].kids;
    assert forall k :: k in KeySet(keys) <==> k in Deactivated(OF_MODULES, fst);
    m.RemoveNestedKeys(m.tree, keys, []);
    return true;
  }

  /** The 'Fst' dictionary is there, and its known switches hold values. */
  predicate HasSettings(mods: Switches, t: Tree<int>) {
    && t.Node? && "Fst" in t.kids && t.kids["Fst"].Node?
    && forall s <- t.kids["Fst"].kids :: s in mods ==> t.kids["Fst"].kids[s].Leaf?
  }

  /** Every path free of deactivated modules shows what it showed, in particular the modules that are
      needed; every path through a deactivated module is gone, at any depth. */
  lemma {:induction false} DeactivationExactly(
      mods: Switches, t: Tree<int>, fst: map<string, Tree<int>>, keys: set<string>, q: Path)
    requires forall k :: k in keys <==> k in Deactivated(mods, fst)
    ensures Probe(Pruned(t, keys), q) ==
      if exists k :: k in q && Unused(mods, fst, k) && !Needed(mods, fst, k) then Absent else Probe(t, q)
    ensures forall k :: Needed(mods, fst, k) ==> Probe(Pruned(t, keys), [k]) == Probe(t, [k])
  {
    PrunedProbe(t, keys, q);
    if k :| k in q && k in keys {
      assert Unused(mods, fst, k) && !Needed(mods, fst, k);
    }
    if k :| k in q && Unused(mods, fst, k) && !Needed(mods, fst, k) {
      assert k in keys;
    }
    forall k | Needed(mods, fst, k) ensures Probe(Pruned(t, keys), [k]) == Probe(t, [k]) {
      PrunedProbe(t, keys, [k]);
    }
  }

  // ---------- the key of the reduced platform model ----------

  /** The choice the switch CompSub is set to, if it is a known one. */
  predicate SubstructureIs(fst: map<string, Tree<int>>, choice: int) {
    "CompSub" in fst && fst["CompSub"] == Leaf(choice)
  }

  lemma ExtPtfmNowhere(s: string, c: int)
    requires s in OF_MODULES && c in OF_MODULES[s]
    ensures "ExtPtfm" !in OF_MODULES[s][c]
  {
  }

  /** No choice of any switch stands for ExtPtfm, the key under which the model is kept. */
  lemma ExtPtfmNotListed(fst: map<string, Tree<int>>)
    ensures !Unused(OF_MODULES, fst, "ExtPtfm") && !Needed(OF_MODULES, fst, "ExtPtfm")
  {
    forall s, c | s in OF_MODULES && c in OF_MODULES[s] ensures "ExtPtfm" !in OF_MODULES[s][c] {
      ExtPtfmNowhere(s, c);
    }
  }

  lemma ReadExtPtfmListed(s: string, c: int)
    requires s in OF_MODULES && c in OF_MODULES[s]
    ensures "read_ExtPtfm" in OF_MODULES[s][c] <==> s == "CompSub" && c == 2
  {
  }

  /** The key listed in its place is removed exactly when CompSub is 0 or 1. */
  lemma ReadExtPtfmExactly(fst: map<string, Tree<int>>)
    ensures "read_ExtPtfm" in Deactivated(OF_MODULES, fst) <==> SubstructureIs(fst, 0) || SubstructureIs(fst, 1)
  {
    forall s, c | s in OF_MODULES && c in OF_MODULES[s]
      ensures "read_ExtPtfm" in OF_MODULES[s][c] <==> s == "CompSub" && c == 2
    {
      ReadExtPtfmListed(s, c);
    }
    if SubstructureIs(fst, 0) || SubstructureIs(fst, 1) {
      assert Recognised(OF_MODULES, fst, "CompSub");
      assert 2 in OF_MODULES["CompSub"] && "read_ExtPtfm" in OF_MODULES["CompSub"][2];
      assert Unused(OF_MODULES, fst, "read_ExtPtfm");
    }
  }

  /** Whatever the settings are, ExtPtfm itself stays where it was: the model of the substructure is
      gone from the result exactly if there was none. */
  lemma ExtPtfmKept(t: Tree<int>, fst: map<string, Tree<int>>, keys: set<string>)
    requires forall k :: k in keys <==> k in Deactivated(OF_MODULES, fst)
    ensures Probe(Pruned(t, keys), ["ExtPtfm"]) == Probe(t, ["ExtPtfm"])
  {
    ExtPtfmNotListed(fst);
    DeactivationExactly(OF_MODULES, t, fst, keys, ["ExtPtfm"]);
  }

  function OneEntry(key: string, x: int): Tree<int> {
    Node(map[key := Leaf(x)])
  }

  /** A model without a substructure module that still holds the ExtPtfm data. */
  function LeftoverModel(): Tree<int> {
    Node(map["Fst" := OneEntry("CompSub", 0), "ExtPtfm" := OneEntry("Red_FileName", 1)])
  }

  lemma OneEntryStays(key: string, x: int, keys: set<string>)
    requires key !in keys
    ensures Pruned(OneEntry(key, x), keys) == OneEntry(key, x)
  {
    assert Pruned(OneEntry(key, x), keys).kids == OneEntry(key, x).kids;
  }

  lemma TwoEntriesStay(k: string, t: Tree<int>, k': string, t': Tree<int>, keys: set<string>)
    requires k !in keys && k' !in keys && Pruned(t, keys) == t && Pruned(t', keys) == t'
    ensures Pruned(Node(map[k := t, k' := t']), keys) == Node(map[k := t, k' := t'])
  {
    assert Pruned(Node(map[k := t, k' := t']), keys).kids == map[k := t, k' := t'];
  }

  lemma DeactivatedByCompSub(key: string)
    requires key in Deactivated(OF_MODULES, map["CompSub" := Leaf(0)])
    ensures key == "SubDyn" || key == "read_ExtPtfm"
  {
    var fst: map<string, Tree<int>> := map["CompSub" := Leaf(0)];
    var s, c :| Recognised(OF_MODULES, fst, s) && c in OF_MODULES[s] && c != fst[s].value && key in OF_MODULES[s][c];
    assert s == "CompSub";
  }

  /** Removing its deactivated modules changes nothing. */
  lemma LeftoverStays(keys: set<string>)
    requires forall k :: k in keys <==> k in Deactivated(OF_MODULES, map["CompSub" := Leaf(0)])
    ensures LeftoverModel().kids["Fst"].kids == map["CompSub" := Leaf(0)]
    ensures Pruned(LeftoverModel(), keys) == LeftoverModel()
  {
    forall k | k in keys ensures k == "SubDyn" || k == "read_ExtPtfm" {
      DeactivatedByCompSub(k);
    }
    TwoEntriesStay("Fst", OneEntry("CompSub", 0), "ExtPtfm", OneEntry("Red_FileName", 1), keys) by {
      OneEntryStays("CompSub", 0, keys);
      OneEntryStays("Red_FileName", 1, keys);
    }
  }
}
