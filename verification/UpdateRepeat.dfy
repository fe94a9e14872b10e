/**
 update called again without settings. It starts from the nested dictionary the last update left and
 takes its string keys for tuples of letters.
 */
module UpdateRepeat {
  import opened Wrappers
  import opened VarTree
  import opened Update

  // ---------- what a list of entries builds ----------

  /** What lies at q once the entries are in: the last one whose key is comparable to q decides. */
  function Shown<V>(entries: seq<Entry<V>>, q: Path): Obs<V> {
    if entries == [] then if q == [] then Inner else Absent
    else
      var last := entries[|entries| - 1];
      if last.path <= q then Probe(last.tree, q[|last.path|..])
      else if q <= last.path then Inner
      else Shown(entries[..|entries| - 1], q)
  }

  lemma {:induction false} AssembledShows<V>(entries: seq<Entry<V>>, q: Path)
    requires Assembled(entries).Success?
    ensures Probe(Assembled(entries).value, q) == Shown(entries, q)
  {
    if entries == [] {
      EmptyProbe<V>(q);
    } else {
      var n := |entries| - 1;
      AssembledShows(entries[..n], q);
      InsertExactly(Assembled(entries[..n]).value, entries[n].path, entries[n].tree, q);
    }
  }

  /** Key j is not empty and passes no value that the entries before it show. */
  predicate IsFree<V>(entries: seq<Entry<V>>, j: nat)
    requires j < |entries|
  {
    entries[j].path != [] &&
    forall m :: 0 <= m < |entries[j].path| ==> !Shown(entries[..j], entries[j].path[..m]).Held?
  }

  lemma {:induction false} LastFree<V>(entries: seq<Entry<V>>)
    requires entries != [] && Assembled(entries[..|entries| - 1]).Success?
    ensures Assembled(entries).Success? <==> IsFree(entries, |entries| - 1)
  {
    var n := |entries| - 1;
    var t, path := Assembled(entries[..n]).value, entries[n].path;
    InsertExactly(t, path, entries[n].tree, []);
    forall m | 0 <= m < |path| ensures Probe(t, path[..m]) == Shown(entries[..n], path[..m]) {
      AssembledShows(entries[..n], path[..m]);
    }
  }

  /** Assembling succeeds exactly when every key is free. */
  lemma {:induction false} AssembledExactly<V>(entries: seq<Entry<V>>)
    ensures Assembled(entries).Success? <==> forall j :: 0 <= j < |entries| ==> IsFree(entries, j)
  {
    if entries != [] {
      var n := |entries| - 1;
      AssembledExactly(entries[..n]);
      forall j | 0 <= j < n ensures IsFree(entries[..n], j) <==> IsFree(entries, j) {
        assert entries[..n][..j] == entries[..j];
      }
      if Assembled(entries[..n]).Success? {
        LastFree(entries);
      } else {
        var j :| 0 <= j < n && !IsFree(entries[..n], j);
        assert !IsFree(entries, j);
      }
    }
  }

  /** Every value the entries show has a dictionary of the model to go into. */
  ghost predicate HaveParents<V>(vt: Tree<V>, entries: seq<Entry<V>>) {
    forall p: Path :: Shown(entries, p).Held? ==> p != [] && Probe(vt, p[..|p| - 1]) == Inner
  }

  // ---------- the repeated update ----------

  lemma SpelledSolid<V>(t: Tree<V>, order: seq<string>)
    requires t.Node? && Solid(t) && forall k <- order :: k in t.kids
    ensures AllSolid(Spelled(t, order))
  {
    forall i | 0 <= i < |order| ensures Solid(Spelled(t, order)[i].tree) {
      assert order[i] in order && order[i] in t.kids;
    }
  }

  /** An update without settings succeeds if and only if, taking the keys left behind for tuples of
      letters, no key is empty or passes a value, and every value has a dictionary to go into. */
  lemma RepeatExactly<V(!new)>(vt: Tree<V>, t: Tree<V>, order: seq<string>)
    requires t.Node? && Solid(t) && forall k :: k in order <==> k in t.kids
    ensures var entries := Spelled(t, order);
      var again := Assembled(entries);
      (again.Success? && Fits(vt, again.value)) <==>
      ((forall j :: 0 <= j < |entries| ==> IsFree(entries, j)) && HaveParents(vt, entries))
  {
    var entries := Spelled(t, order);
    var k :| k in t.kids;
    assert order != [];
    AssembledExactly(entries);
    if Assembled(entries).Success? {
      SpelledSolid(t, order);
      AssembledSolid(entries);
      FitsExactly(vt, Assembled(entries).value);
      forall p: Path ensures Probe(Assembled(entries).value, p) == Shown(entries, p) {
        AssembledShows(entries, p);
      }
    }
  }

  /** Keys of two letters or more leave a dictionary under each first letter. */
  lemma {:induction false} FirstLettersMade<V>(entries: seq<Entry<V>>, i: nat)
    requires Assembled(entries).Success? && i < |entries|
    requires forall j :: 0 <= j < |entries| ==> |entries[j].path| >= 2
    ensures var t := Assembled(entries).value;
      t.Node? && entries[i].path[0] in t.kids && t.kids[entries[i].path[0]].Node?
  {
    var n := |entries| - 1;
    var before, path := Assembled(entries[..n]).value, entries[n].path;
    InsertExactly(before, path, entries[n].tree, []);
    InsertExactly(Below(before, path[0]), path[1..], entries[n].tree, []);
    if i < n {
      FirstLettersMade(entries[..n], i);
    }
  }

  /** Repeating an update without settings looks for the keys of the last one letter by letter: with
      keys of two letters or more it fails unless the model has an entry for every first letter. */
  lemma RepeatNeedsFirstLetters<V>(vt: Tree<V>, t: Tree<V>, order: seq<string>, i: nat)
    requires t.Node? && i < |order| && forall j :: 0 <= j < |order| ==> order[j] in t.kids && |order[j]| >= 2
    requires vt.Node? ==> [order[i][0]] !in vt.kids
    ensures var again := Assembled(Spelled(t, order)); !(again.Success? && Fits(vt, again.value))
  {
    if Assembled(Spelled(t, order)).Success? {
      FirstLettersMade(Spelled(t, order), i);
      assert Spelled(t, order)[i].path[0] == [order[i][0]];
    }
  }

  // ---------- an input ----------

  function TMaxModel(x: int): Tree<int> {
    Node(map["Fst" := Node(map["TMax" := Leaf(x)])])
  }

  function TMaxSetting(x: int): Setting<int> {
    Setting(["Fst", "TMax"], x)
  }

  lemma TMaxNested(x: int)
    ensures Nested([TMaxSetting(x)]) == Success(TMaxModel(x))
  {
    assert [TMaxSetting(x)][..0] == [];
    var path := ["Fst", "TMax"];
    assert path[1..] == ["TMax"];
    assert Insert(Node(map[]), ["TMax"], Leaf(x)) == Success(Node(map["TMax" := Leaf(x)]));
  }

  /** The first update of an existing value succeeds, and repeating it without settings fails. */
  method RepeatFails() returns (first: bool, again: bool)
    ensures first && !again
  {
    var writer := new Writer(TMaxModel(1));
    TMaxNested(2);
    first := writer.Apply([TMaxSetting(2)], []);
    RepeatNeedsFirstLetters(writer.fst_vt, writer.fst_update, ["Fst"], 0);
    again := writer.Apply([], ["Fst"]);
  }
}
