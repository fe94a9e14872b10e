/**
 InputWriter_OpenFAST.update: a dictionary with tuple keys is first turned into a nested
 dictionary, which is then laid over the model tree in place.
 */
module Update {
  import opened Wrappers
  import opened VarTree

  /** One entry of the user's dictionary; values are never dictionaries. */
  datatype Setting<V> = Setting(path: Path, value: V)

  predicate DistinctPaths<V>(settings: seq<Setting<V>>) {
    forall i, j :: 0 <= i < j < |settings| ==> settings[i].path != settings[j].path
  }

  // ---------- building the nested dictionary ----------

  /** Where the insertion goes on behind the first key. */
  function Below<V>(t: Tree<V>, key: string): Tree<V>
    requires t.Node?
  {
    if key in t.kids then t.kids[key] else Node(map[])
  }

  /** Creates the missing dictionaries along the path and stores a value or a dictionary there. */
  function Insert<V>(t: Tree<V>, path: Path, sub: Tree<V>): Result<Tree<V>>
    decreases |path|
  {
    if path == [] then Failure("tuple index out of range")
    else if t.Leaf? then Failure("not a dictionary")
    else if |path| == 1 then Success(Node(t.kids[path[0] := sub]))
    else
      var below' :- Insert(Below(t, path[0]), path[1..], sub);
      Success(Node(t.kids[path[0] := below']))
  }

  function Nested<V>(settings: seq<Setting<V>>): Result<Tree<V>> {
    if settings == [] then Success(Node(map[])) else
    var n := |settings| - 1;
    var t :- Nested(settings[..n]);
    Insert(t, settings[n].path, Leaf(settings[n].value))
  }

  /** Every dictionary holds something, unless it is the empty root. */
  predicate Solid<V>(t: Tree<V>) {
    t.Leaf? || (t.kids != map[] && forall k <- t.kids :: Solid(t.kids[k]))
  }

  ghost predicate HoldsAt<V>(t: Tree<V>, path: Path, v: V) {
    Probe(t, path) == Held(v)
  }

  lemma BelowProbe<V>(t: Tree<V>, key: string, rest: Path)
    requires t.Node?
    ensures Probe(t, [key] + rest).Held? <==> Probe(Below(t, key), rest).Held?
    ensures Probe(t, [key] + rest) == Probe(Below(t, key), rest) || (key !in t.kids && rest == [])
  {
    ProbeStep(t, key, rest);
    EmptyProbe<V>(rest);
  }

  lemma {:induction false} InsertSucceeds<V>(t: Tree<V>, path: Path, sub: Tree<V>)
    ensures Insert(t, path, sub).Success? <==> path != [] && forall n :: 0 <= n < |path| ==> !Probe(t, path[..n]).Held?
    ensures Insert(t, path, sub).Success? ==> Insert(t, path, sub).value.Node?
    decreases |path|
  {
    assert path != [] ==> path[..0] == [];
    if |path| > 1 && t.Node? {
      var rest := path[1..];
      InsertSucceeds(Below(t, path[0]), rest, sub);
      forall n | 1 <= n < |path| ensures Probe(t, path[..n]).Held? <==> Probe(Below(t, path[0]), rest[..n - 1]).Held? {
        assert path[..n] == [path[0]] + rest[..n - 1];
        BelowProbe(t, path[0], rest[..n - 1]);
      }
      assert forall n :: 0 <= n < |rest| ==>
        (Probe(Below(t, path[0]), rest[..n]).Held? <==> Probe(t, path[..n + 1]).Held?);
    }
  }

  lemma {:induction false} InsertProbe<V>(t: Tree<V>, path: Path, sub: Tree<V>, q: Path)
    requires Insert(t, path, sub).Success?
    ensures Probe(Insert(t, path, sub).value, q) ==
      if path <= q then Probe(sub, q[|path|..])
      else if q <= path then Inner
      else Probe(t, q)
    decreases |path|
  {
    var t' := Insert(t, path, sub).value;
    if q != [] {
      var rest, rest' := q[1..], path[1..];
      assert q == [q[0]] + rest && path == [path[0]] + rest';
      ProbeStep(t', q[0], rest);
      ProbeStep(t, q[0], rest);
      if |path| > 1 {
        InsertProbe(Below(t, path[0]), rest', sub, rest);
        BelowProbe(t, path[0], rest);
      }
    }
  }

  /** Insertion succeeds unless a value stands on the way, and changes what is at and below the path
      and nothing else. */
  lemma {:induction false} InsertExactly<V>(t: Tree<V>, path: Path, sub: Tree<V>, q: Path)
    ensures Insert(t, path, sub).Success? <==> path != [] && forall n :: 0 <= n < |path| ==> !Probe(t, path[..n]).Held?
    ensures Insert(t, path, sub).Success? ==>
      var t' := Insert(t, path, sub).value;
      && t'.Node?
      && Probe(t', q) == (
           if path <= q then Probe(sub, q[|path|..])
           else if q <= path then Inner
           else Probe(t, q))
  {
    InsertSucceeds(t, path, sub);
    if Insert(t, path, sub).Success? {
      InsertProbe(t, path, sub, q);
    }
  }

  lemma {:induction false} EmptyProbe<V>(q: Path)
    ensures Probe<V>(Node(map[]), q) == if q == [] then Inner else Absent
  {
  }

  lemma {:induction false} InsertSolid<V>(t: Tree<V>, path: Path, sub: Tree<V>)
    requires Insert(t, path, sub).Success? && (Solid(t) || t == Node(map[])) && Solid(sub)
    ensures Solid(Insert(t, path, sub).value)
    decreases |path|
  {
    var t' := Insert(t, path, sub).value;
    assert path[0] in t'.kids;
    if |path| > 1 {
      InsertSolid(Below(t, path[0]), path[1..], sub);
    }
  }

  /** A later, shorter key replaces the dictionary in which this key's value was stored. */
  predicate Swallowed<V>(settings: seq<Setting<V>>, i: nat)
    requires i < |settings|
  {
    exists j :: i < j < |settings| && settings[j].path < settings[i].path
  }

  /** An earlier, shorter key has put a value where this key needs a dictionary. */
  predicate Blocked<V>(settings: seq<Setting<V>>, j: nat)
    requires j < |settings|
  {
    settings[j].path == [] || exists i :: 0 <= i < j && settings[i].path < settings[j].path
  }

  lemma BlockedInFront<V(!new)>(settings: seq<Setting<V>>)
    requires settings != []
    ensures var n := |settings| - 1;
      forall j :: 0 <= j < n ==> (Blocked(settings[..n], j) <==> Blocked(settings, j))
  {
  }

  /** Building the nested dictionary fails exactly when some key is blocked; otherwise its leaves are
      exactly the settings that were not swallowed. */
  lemma {:induction false} NestedExactly<V(!new)>(settings: seq<Setting<V>>)
    requires DistinctPaths(settings)
    ensures Nested(settings).Success? <==> forall j :: 0 <= j < |settings| ==> !Blocked(settings, j)
    ensures Nested(settings).Success? ==>
      var t := Nested(settings).value;
      && t.Node? && (Solid(t) || t == Node(map[]))
      && (t == Node(map[]) <==> settings == [])
      && forall q: Path, v :: HoldsAt(t, q, v) <==>
           exists i :: 0 <= i < |settings| && settings[i] == Setting(q, v) && !Swallowed(settings, i)
  {
    if settings == [] {
      forall q: Path, v: V ensures !HoldsAt<V>(Node(map[]), q, v) {
        EmptyProbe<V>(q);
      }
    } else {
      var n := |settings| - 1;
      var before := settings[..n];
      NestedExactly(before);
      BlockedInFront(settings);
      if Nested(before).Success? {
        NestedNext(settings, Nested(before).value);
      }
    }
  }

  /** The leaves of a nested dictionary, as the settings that put them there. */
  ghost predicate Stores<V(!new)>(settings: seq<Setting<V>>, t: Tree<V>) {
    forall q: Path, v :: HoldsAt(t, q, v) <==>
      exists i :: 0 <= i < |settings| && settings[i] == Setting(q, v) && !Swallowed(settings, i)
  }

  lemma {:induction false} NestedNext<V(!new)>(settings: seq<Setting<V>>, t: Tree<V>)
    requires settings != [] && DistinctPaths(settings)
    requires t.Node? && (Solid(t) || t == Node(map[])) && Stores(settings[..|settings| - 1], t)
    requires forall j :: 0 <= j < |settings| - 1 ==> !Blocked(settings, j)
    ensures var n := |settings| - 1;
      var r := Insert(t, settings[n].path, Leaf(settings[n].value));
      && (r.Success? <==> !Blocked(settings, n))
      && (r.Success? ==> r.value.Node? && Solid(r.value) && Stores(settings, r.value))
  {
    var n := |settings| - 1;
    var path, leaf := settings[n].path, Leaf(settings[n].value);
    InsertExactly(t, path, leaf, []);
    NothingInTheWay(settings, t);
    var r := Insert(t, path, leaf);
    if r.Success? {
      InsertSolid(t, path, leaf);
      forall q: Path, w
        ensures HoldsAt(r.value, q, w) <==>
          exists i :: 0 <= i < |settings| && settings[i] == Setting(q, w) && !Swallowed(settings, i)
      {
        InsertExactly(t, path, leaf, q);
        if path <= q {
          LeafProbe(settings[n].value, path, q);
        }
        StoredNext(settings, t, q, w);
      }
    }
  }

  lemma LeafProbe<V>(v: V, path: Path, q: Path)
    requires path <= q
    ensures Probe(Leaf(v), q[|path|..]) == if q == path then Held(v) else Absent
  {
  }

  /** A value stands on the way of the last key exactly when an earlier key is shorter. */
  lemma {:induction false} NothingInTheWay<V(!new)>(settings: seq<Setting<V>>, t: Tree<V>)
    requires settings != [] && DistinctPaths(settings) && Stores(settings[..|settings| - 1], t)
    ensures var n := |settings| - 1;
      var path := settings[n].path;
      (exists i :: 0 <= i < n && settings[i].path < path) <==>
      (exists m :: 0 <= m < |path| && Probe(t, path[..m]).Held?)
  {
    var n := |settings| - 1;
    var before, path := settings[..n], settings[n].path;
    if i :| 0 <= i < n && settings[i].path < path {
      var k := Shortest(before, i);
      ValueOnTheWay(before, t, k, path);
    }
    if m :| 0 <= m < |path| && Probe(t, path[..m]).Held? {
      var i := ShorterKey(before, t, path, m);
      assert settings[i].path < path;
    }
  }

  lemma ShorterKey<V(!new)>(before: seq<Setting<V>>, t: Tree<V>, path: Path, m: nat) returns (i: nat)
    requires Stores(before, t) && m < |path| && Probe(t, path[..m]).Held?
    ensures i < |before| && before[i].path < path
  {
    assert HoldsAt(t, path[..m], Probe(t, path[..m]).value);
    i :| 0 <= i < |before| && before[i] == Setting(path[..m], Probe(t, path[..m]).value) && !Swallowed(before, i);
  }

  lemma {:induction false} ValueOnTheWay<V(!new)>(before: seq<Setting<V>>, t: Tree<V>, k: nat, path: Path)
    requires k < |before| && Stores(before, t) && !Swallowed(before, k) && before[k].path < path
    ensures exists m :: 0 <= m < |path| && Probe(t, path[..m]).Held?
  {
    assert before[k] == Setting(before[k].path, before[k].value);
    assert HoldsAt(t, before[k].path, before[k].value);
    assert path[..|before[k].path|] == before[k].path;
  }

  /** Behind every swallowed setting stands one that survives, with a shorter key. */
  lemma {:induction false} Shortest<V>(settings: seq<Setting<V>>, i: nat) returns (k: nat)
    requires i < |settings|
    ensures k < |settings| && settings[k].path <= settings[i].path && !Swallowed(settings, k)
    decreases |settings| - i
  {
    k := i;
    if Swallowed(settings, i) {
      var j :| i < j < |settings| && settings[j].path < settings[i].path;
      k := Shortest(settings, j);
    }
  }

  lemma {:induction false} SwallowedNext<V>(settings: seq<Setting<V>>, i: nat)
    requires i < |settings| - 1
    ensures var n := |settings| - 1;
      Swallowed(settings, i) <==> Swallowed(settings[..n], i) || settings[n].path < settings[i].path
  {
    var n := |settings| - 1;
    if Swallowed(settings[..n], i) {
      var j :| i < j < n && settings[..n][j].path < settings[..n][i].path;
      assert settings[j].path < settings[i].path;
    }
    if j :| i < j < |settings| && settings[j].path < settings[i].path {
      assert j < n ==> settings[..n][j].path < settings[..n][i].path;
    }
  }

  lemma {:induction false} StoredNext<V(!new)>(settings: seq<Setting<V>>, t: Tree<V>, q: Path, w: V)
    requires settings != [] && DistinctPaths(settings) && Stores(settings[..|settings| - 1], t)
    ensures var n := |settings| - 1;
      (exists i :: 0 <= i < |settings| && settings[i] == Setting(q, w) && !Swallowed(settings, i)) <==>
      (settings[n] == Setting(q, w) || (HoldsAt(t, q, w) && !(settings[n].path <= q)))
  {
    var n := |settings| - 1;
    var before := settings[..n];
    if i :| 0 <= i < |settings| && settings[i] == Setting(q, w) && !Swallowed(settings, i) {
      if i < n {
        SwallowedNext(settings, i);
        assert before[i] == settings[i];
        assert HoldsAt(t, q, w);
      }
    }
    if HoldsAt(t, q, w) && !(settings[n].path <= q) {
      var i :| 0 <= i < n && before[i] == Setting(q, w) && !Swallowed(before, i);
      SwallowedNext(settings, i);
      assert settings[i] == Setting(q, w);
    }
  }

  // ---------- laying it over the model ----------

  /** Every value of the nested dictionary has a dictionary to go into. */
  predicate Fits<V>(vt: Tree<V>, t: Tree<V>)
    requires t.Node?
  {
    vt.Node? && forall k <- t.kids ::
      t.kids[k].Node? ==> k in vt.kids && Fits(vt.kids[k], t.kids[k])
  }

  function Overlay<V>(vt: Tree<V>, t: Tree<V>): Tree<V>
    requires t.Node? && Fits(vt, t)
  {
    Node(map k | k in vt.kids.Keys + t.kids.Keys ::
      if k !in t.kids then vt.kids[k]
      else if t.kids[k].Leaf? then t.kids[k]
      else Overlay(vt.kids[k], t.kids[k]))
  }

  /** The overlay of the entries whose keys are in `done`. */
  function Partly<V>(t: Tree<V>, done: set<string>): Tree<V>
    requires t.Node?
  {
    Node(map k | k in t.kids && k in done :: t.kids[k])
  }

  lemma {:induction false} OverlayNothing<V>(vt: Tree<V>, t: Tree<V>)
    requires t.Node? && vt.Node?
    ensures Fits(vt, Partly(t, {})) && Overlay(vt, Partly(t, {})) == vt
  {
    assert Overlay(vt, Partly(t, {})).kids == vt.kids;
  }

  lemma PartlyAll<V>(t: Tree<V>, done: set<string>)
    requires t.Node? && t.kids.Keys <= done
    ensures Partly(t, done) == t
  {
    assert Partly(t, done).kids == t.kids;
  }

  /** One more entry laid over. */
  lemma {:induction false} OverlayNext<V>(vt: Tree<V>, t: Tree<V>, done: set<string>, name: string)
    requires t.Node? && name in t.kids && name !in done && Fits(vt, Partly(t, done))
    ensures Fits(vt, Partly(t, done + {name})) <==>
      (t.kids[name].Node? ==> name in vt.kids && Fits(vt.kids[name], t.kids[name]))
    ensures Fits(vt, Partly(t, done + {name})) ==>
      Overlay(vt, Partly(t, done + {name})) ==
        Node(Overlay(vt, Partly(t, done)).kids[name :=
          if t.kids[name].Leaf? then t.kids[name] else Overlay(vt.kids[name], t.kids[name])])
  {
    var some, more := Partly(t, done), Partly(t, done + {name});
    assert more.kids == some.kids[name := t.kids[name]];
    if Fits(vt, more) {
      assert Overlay(vt, more).kids == Overlay(vt, some).kids[name :=
          if t.kids[name].Leaf? then t.kids[name] else Overlay(vt.kids[name], t.kids[name])];
    }
  }

  /** Insertion may be continued from any place the path already leads to. */
  lemma {:induction false} InsertBelow<V>(t: Tree<V>, path: Path, sub: Tree<V>, i: nat)
    requires i < |path| && At(t, path[..i]).Some?
    ensures var below := Insert(At(t, path[..i]).value, path[i..], sub);
      Insert(t, path, sub) == if below.Success? then Success(Graft(t, path[..i], below.value)) else below
    decreases i
  {
    if i == 0 {
      assert path[0..] == path;
    } else {
      assert path[..i][1..] == path[1..][..i - 1] && path[1..][i - 1..] == path[i..];
      InsertBelow(t.kids[path[0]], path[1..], sub, i - 1);
    }
  }

  /** What is at the visited place while the entries in `done` have been written. */
  ghost predicate Progress<V>(before: Tree<V>, now: Tree<V>, t: Tree<V>, branch: Path, done: set<string>)
    requires t.Node?
  {
    var sub := At(before, branch);
    if sub.Some? && sub.value.Node? then
      Fits(sub.value, Partly(t, done)) && now == Graft(before, branch, Overlay(sub.value, Partly(t, done)))
    else done == {} && now == before
  }

  /** Writing the value of one entry through its path. */
  lemma {:induction false} ValueWritten<V>(
      before: Tree<V>, now: Tree<V>, t: Tree<V>, branch: Path, done: set<string>, name: string)
    requires t.Node? && name in t.kids && name !in done && t.kids[name].Leaf?
    requires Progress(before, now, t, branch, done)
    ensures var put := Put(now, branch + [name], t.kids[name]);
      && (put.Success? <==> At(before, branch).Some? && At(before, branch).value.Node?)
      && (put.Success? ==> Progress(before, put.value, t, branch, done + {name}))
  {
    var path := branch + [name];
    assert path[..|path| - 1] == branch && path[|path| - 1] == name;
    var sub := At(before, branch);
    if sub.Some? && sub.value.Node? {
      GraftAt(before, branch, Overlay(sub.value, Partly(t, done)));
      OverlayNext(sub.value, t, done, name);
    }
  }

  /** Laying a nested dictionary over the entry of the same name. */
  lemma {:induction false} BranchWritten<V>(
      before: Tree<V>, now: Tree<V>, t: Tree<V>, branch: Path, done: set<string>, name: string)
    requires t.Node? && name in t.kids && name !in done && t.kids[name].Node?
    requires Progress(before, now, t, branch, done)
    ensures var at := At(now, branch + [name]);
      var sub := At(before, branch);
      var inner := t.kids[name];
      && (at.Some? && Fits(at.value, inner) <==>
            sub.Some? && sub.value.Node? && name in sub.value.kids && Fits(sub.value.kids[name], inner))
      && (at.Some? && Fits(at.value, inner) ==>
            Progress(before, Graft(now, branch + [name], Overlay(at.value, inner)), t, branch, done + {name}))
  {
    var sub := At(before, branch);
    AtConcat(now, branch, [name]);
    if sub.Some? && sub.value.Node? {
      var over := Overlay(sub.value, Partly(t, done));
      GraftAt(before, branch, over);
      if name in sub.value.kids {
        assert At(now, branch + [name]) == Some(sub.value.kids[name]);
        OverlayNext(sub.value, t, done, name);
        if Fits(sub.value.kids[name], t.kids[name]) {
          GraftDeeper(now, branch, name, Overlay(sub.value.kids[name], t.kids[name]));
        }
      }
    }
  }

  lemma {:induction false} InsertIntoMade<V>(here: Tree<V>, path: Path, sub: Tree<V>)
    requires here.Node? && |path| >= 2 && path[0] !in here.kids
    ensures Insert(Node(here.kids[path[0] := Node(map[])]), path, sub) == Insert(here, path, sub)
    ensures Insert(here, path, sub).Success?
  {
    var made: map<string, Tree<V>> := here.kids[path[0] := Node(map[])];
    InsertIntoNothing(path[1..], sub);
    var below := Insert(Node(map[]), path[1..], sub);
    assert made[path[0] := below.value] == here.kids[path[0] := below.value];
  }

  lemma {:induction false} InsertIntoNothing<V>(path: Path, sub: Tree<V>)
    requires path != []
    ensures Insert(Node(map[]), path, sub).Success?
  {
    if |path| > 1 {
      InsertIntoNothing(path[1..], sub);
    }
  }

  // ---------- entries ----------

  /** A path with what goes there, a value or a dictionary. */
  datatype Entry<V> = Entry(path: Path, tree: Tree<V>)

  function Entries<V>(settings: seq<Setting<V>>): (entries: seq<Entry<V>>)
    ensures |entries| == |settings|
  {
    seq(|settings|, i requires 0 <= i < |settings| => Entry(settings[i].path, Leaf(settings[i].value)))
  }

  /** The tuple a string is taken for. */
  function Letters(key: string): (path: Path)
    ensures |path| == |key|
  {
    seq(|key|, i requires 0 <= i < |key| => [key[i]])
  }

  /** A nested dictionary whose keys are taken for tuples. */
  function Spelled<V>(t: Tree<V>, order: seq<string>): (entries: seq<Entry<V>>)
    requires t.Node? && forall k <- order :: k in t.kids
    ensures |entries| == |order|
  {
    seq(|order|, i requires 0 <= i < |order| => Entry(Letters(order[i]), t.kids[order[i]]))
  }

  function Assembled<V>(entries: seq<Entry<V>>): Result<Tree<V>> {
    if entries == [] then Success(Node(map[])) else
    var n := |entries| - 1;
    var t :- Assembled(entries[..n]);
    Insert(t, entries[n].path, entries[n].tree)
  }

  predicate AllSolid<V>(entries: seq<Entry<V>>) {
    forall i :: 0 <= i < |entries| ==> Solid(entries[i].tree)
  }

  lemma {:induction false} AssembledSolid<V>(entries: seq<Entry<V>>)
    requires AllSolid(entries) && Assembled(entries).Success?
    ensures var t := Assembled(entries).value; t.Node? && (if entries == [] then t == Node(map[]) else Solid(t))
  {
    if entries != [] {
      var n := |entries| - 1;
      AssembledSolid(entries[..n]);
      var t := Assembled(entries[..n]).value;
      InsertExactly(t, entries[n].path, entries[n].tree, []);
      InsertSolid(t, entries[n].path, entries[n].tree);
    }
  }

  lemma {:induction false} AssembledFailsEarly<V>(entries: seq<Entry<V>>, n: nat)
    requires n <= |entries| && Assembled(entries[..n]).Failure?
    ensures Assembled(entries).Failure?
  {
    if n == |entries| {
      assert entries[..n] == entries;
    } else {
      assert entries[..|entries| - 1][..n] == entries[..n];
      AssembledFailsEarly(entries[..|entries| - 1], n);
    }
  }

  /** For settings the assembled dictionary is the nested one. */
  lemma {:induction false} SettingsAssembled<V>(settings: seq<Setting<V>>)
    ensures Assembled(Entries(settings)) == Nested(settings) && AllSolid(Entries(settings))
  {
    if settings != [] {
      var n := |settings| - 1;
      assert Entries(settings)[..n] == Entries(settings[..n]);
      SettingsAssembled(settings[..n]);
    }
  }

  class Writer<V(!new)> {
    var fst_vt: Tree<V>
    var fst_update: Tree<V>

    constructor (model: Tree<V>)
      ensures fst_vt == model && fst_update == Node(map[]) && Valid()
    {
      fst_vt, fst_update := model, Node(map[]);
    }

    /** loop_dict: visits the nested dictionary `vartree`, which hangs at `branch` of the update, in
        any order of its keys, and writes every value through its path from the root of the model.
        ok is false when a key is missing on the way. */
    method LoopDict(vartree: Tree<V>, branch: Path) returns (ok: bool)
      requires vartree.Node? && Solid(vartree) && At(fst_update, branch) == Some(vartree)
      modifies this`fst_vt
      ensures ok <==> old(At(fst_vt, branch).Some? && Fits(At(fst_vt, branch).value, vartree))
      ensures ok ==> fst_vt == old(Graft(fst_vt, branch, Overlay(At(fst_vt, branch).value, vartree)))
      decreases vartree
    {
      ghost var before := fst_vt;
      var todo := vartree.kids.Keys;
      ghost var done: set<string> := {};
      if At(before, branch).Some? && At(before, branch).value.Node? {
        OverlayNothing(At(before, branch).value, vartree);
        GraftAt(before, branch, At(before, branch).value);
      }
      while todo != {}
        invariant done + todo == vartree.kids.Keys && done * todo == {}
        invariant Progress(before, fst_vt, vartree, branch, done)
        decreases todo
      {
        var name :| name in todo;
        var branch_i := branch + [name];
        AtConcat(fst_update, branch, [name]);
        if vartree.kids[name].Node? {
          BranchWritten(before, fst_vt, vartree, branch, done, name);
          ok := LoopDict(vartree.kids[name], branch_i);
          if !ok {
            return;
          }
        } else {
          ValueWritten(before, fst_vt, vartree, branch, done, name);
          var put := Put(fst_vt, branch_i, At(fst_update, branch_i).value);
          if put.Failure? {
            return false;
          }
          fst_vt := put.value;
        }
        todo, done := todo - {name}, done + {name};
      }
      PartlyAll(vartree, done);
      return true;
    }

    /** An empty dictionary where the path goes on; it changes nothing about what an insertion does. */
    method MakeEntry(branch: Path, path: Path, i: nat, ghost sub: Tree<V>)
      requires i < |path| - 1 && branch == path[..i] && At(fst_update, branch).Some?
      requires At(fst_update, branch).value.Node? && path[i] !in At(fst_update, branch).value.kids
      modifies this`fst_update
      ensures At(fst_update, branch).Some? && At(fst_update, branch).value.Node?
      ensures path[i] in At(fst_update, branch).value.kids
      ensures Insert(fst_update, path, sub) == Insert(old(fst_update), path, sub)
      ensures Insert(fst_update, path, sub).Success?
    {
      ghost var before := fst_update;
      var here := At(fst_update, branch).value;
      var made := Node(here.kids[path[i] := Node(map[])]);
      InsertBelow(fst_update, path, sub, i);
      fst_update := Graft(fst_update, branch, made);
      GraftAt(before, branch, made);
      InsertBelow(fst_update, path, sub, i);
      InsertIntoMade(here, path[i..], sub);
    }

    /** Stores one entry in the nested dictionary, creating dictionaries on the way. */
    method AddSetting(path: Path, sub: Tree<V>) returns (ok: bool)
      modifies this`fst_update
      ensures ok <==> Insert(old(fst_update), path, sub).Success?
      ensures fst_update == if ok then Insert(old(fst_update), path, sub).value else old(fst_update)
    {
      if path == [] {
        return false;
      }
      var branch: Path := [];
      var i := 0;
      assert path[..0] == [];
      while i < |path| - 1
        invariant 0 <= i <= |path| - 1 && branch == path[..i] && At(fst_update, branch).Some?
        invariant Insert(fst_update, path, sub) == Insert(old(fst_update), path, sub)
        invariant fst_update == old(fst_update) || Insert(fst_update, path, sub).Success?
      {
        var here := At(fst_update, branch).value;
        InsertBelow(fst_update, path, sub, i);
        if here.Leaf? {
          return false;
        }
        if path[i] !in here.kids {
          MakeEntry(branch, path, i, sub);
        }
        AtConcat(fst_update, branch, [path[i]]);
        branch := branch + [path[i]];
        assert branch == path[..i + 1];
        i := i + 1;
      }
      InsertBelow(fst_update, path, sub, i);
      assert path[..|path| - 1] == branch && path[i..] == [path[i]];
      var put := Put(fst_update, path, sub);
      if put.Failure? {
        return false;
      }
      fst_update := put.value;
      return true;
    }

    ghost predicate Valid()
      reads this
    {
      fst_update == Node(map[]) || (fst_update.Node? && Solid(fst_update))
    }

    /** Builds the nested dictionary of the entries, which replaces the one of the last update. */
    method Assemble(entries: seq<Entry<V>>) returns (ok: bool)
      requires AllSolid(entries)
      modifies this`fst_update
      ensures ok <==> Assembled(entries).Success?
      ensures ok ==> fst_update == Assembled(entries).value
      ensures Valid()
    {
      fst_update := Node(map[]);
      var n := 0;
      assert entries[..0] == [];
      while n < |entries|
        invariant 0 <= n <= |entries|
        invariant Assembled(entries[..n]) == Success(fst_update)
      {
        assert entries[..n + 1][..n] == entries[..n];
        AssembledSolid(entries[..n]);
        var added := AddSetting(entries[n].path, entries[n].tree);
        if !added {
          AssembledFailsEarly(entries, n + 1);
          return false;
        }
        n := n + 1;
      }
      assert entries[..n] == entries;
      AssembledSolid(entries);
      return true;
    }

    /** update(fst_update). Called without settings it starts from what the last update left, whose
        keys are then taken for tuples of letters; `order` is the order of that dictionary. */
    method Apply(settings: seq<Setting<V>>, order: seq<string>) returns (ok: bool)
      requires Valid() && (settings == [] ==> forall k :: k in order <==> k in fst_update.kids)
      modifies this
      ensures Valid()
      ensures settings == [] && old(fst_update) == Node(map[]) ==> ok && fst_vt == old(fst_vt)
      ensures settings != [] ==>
        && (ok <==> Accepted(old(fst_vt), settings))
        && (ok ==> fst_vt == Updated(old(fst_vt), settings) && Nested(settings) == Success(fst_update))
      ensures settings == [] && old(fst_update) != Node(map[]) ==>
        var again := Assembled(Spelled(old(fst_update), order));
        && (ok <==> again.Success? && Fits(old(fst_vt), again.value))
        && (ok ==> fst_vt == Overlay(old(fst_vt), again.value) && fst_update == again.value)
    {
      if settings == [] && fst_update == Node(map[]) {
        return true;
      }
      var entries := if settings != [] then Entries(settings) else Spelled(fst_update, order);
      SettingsAssembled(settings);
      if settings == [] {
        var k :| k in fst_update.kids;
        assert order != [];
      }
      ok := Assemble(entries);
      if !ok {
        return;
      }
      AssembledSolid(entries);
      ok := LoopDict(fst_update, []);
    }
  }

  // ---------- what the model looks like afterwards ----------

  /** The first key on the way under which a value is stored. */
  ghost predicate ValueAbove<V>(t: Tree<V>, q: Path) {
    exists n :: 0 <= n < |q| && Probe(t, q[..n]).Held?
  }

  lemma {:induction false} ValueAboveStep<V>(t: Tree<V>, q: Path)
    requires t.Node? && q != []
    ensures ValueAbove(t, q) <==> q[0] in t.kids && ValueAbove(t.kids[q[0]], q[1..])
  {
    if n :| 0 <= n < |q| && Probe(t, q[..n]).Held? {
      assert n > 0;
      assert q[..n][1..] == q[1..][..n - 1];
      assert Probe(t.kids[q[0]], q[1..][..n - 1]).Held?;
    }
    if q[0] in t.kids && ValueAbove(t.kids[q[0]], q[1..]) {
      var n :| 0 <= n < |q[1..]| && Probe(t.kids[q[0]], q[1..][..n]).Held?;
      assert q[..n + 1][1..] == q[1..][..n];
      assert Probe(t, q[..n + 1]).Held?;
    }
  }

  /** Along every path, the overlay shows the nested dictionary where it has something to say and the
      model elsewhere. */
  lemma {:induction false} OverlayProbe<V>(vt: Tree<V>, t: Tree<V>, q: Path)
    requires t.Node? && Fits(vt, t)
    ensures Probe(Overlay(vt, t), q) ==
      if Probe(t, q) != Absent then Probe(t, q)
      else if ValueAbove(t, q) then Absent
      else Probe(vt, q)
    decreases |q|
  {
    if q != [] {
      var k, rest := q[0], q[1..];
      assert q == [k] + rest;
      ProbeStep(Overlay(vt, t), k, rest);
      ProbeStep(t, k, rest);
      ProbeStep(vt, k, rest);
      ValueAboveStep(t, q);
      if k in t.kids {
        if t.kids[k].Leaf? {
          if rest != [] {
            assert Probe(t.kids[k], rest[..0]).Held?;
          }
        } else {
          OverlayProbe(vt.kids[k], t.kids[k], rest);
        }
      }
    }
  }

  /** The nested dictionary fits exactly when the parent of each of its values is a dictionary. */
  lemma {:induction false} FitsExactly<V(!new)>(vt: Tree<V>, t: Tree<V>)
    requires t.Node? && Solid(t)
    ensures Fits(vt, t) <==> forall p: Path :: Probe(t, p).Held? ==> p != [] && Probe(vt, p[..|p| - 1]) == Inner
  {
    if Fits(vt, t) {
      forall p: Path | Probe(t, p).Held? ensures p != [] && Probe(vt, p[..|p| - 1]) == Inner {
        FitsParent(vt, t, p);
      }
    } else if vt.Node? {
      var k :| k in t.kids && t.kids[k].Node? && !(k in vt.kids && Fits(vt.kids[k], t.kids[k]));
      var p := Misfit(vt, t, k);
    } else {
      var p := SomeValue(t);
      EmptyAbove(vt, p);
    }
  }

  lemma {:induction false} FitsParent<V>(vt: Tree<V>, t: Tree<V>, p: Path)
    requires t.Node? && Fits(vt, t) && Probe(t, p).Held?
    ensures p != [] && Probe(vt, p[..|p| - 1]) == Inner
    decreases |p|
  {
    if |p| == 1 {
      assert p[..0] == [];
    } else {
      ProbeStep(t, p[0], p[1..]);
      assert p == [p[0]] + p[1..];
      FitsParent(vt.kids[p[0]], t.kids[p[0]], p[1..]);
      assert p[..|p| - 1][1..] == p[1..][..|p| - 2];
    }
  }

  /** A solid tree holds a value somewhere below every dictionary. */
  lemma {:induction false} SomeValue<V>(t: Tree<V>) returns (p: Path)
    requires Solid(t)
    ensures Probe(t, p).Held?
  {
    if t.Leaf? {
      p := [];
    } else {
      var k :| k in t.kids;
      var rest := SomeValue(t.kids[k]);
      p := [k] + rest;
      ProbeStep(t, k, rest);
    }
  }

  lemma EmptyAbove<V>(vt: Tree<V>, p: Path)
    requires vt.Leaf?
    ensures p == [] || Probe(vt, p[..|p| - 1]) != Inner
  {
  }

  lemma {:induction false} Misfit<V(!new)>(vt: Tree<V>, t: Tree<V>, k: string) returns (p: Path)
    requires vt.Node? && t.Node? && Solid(t) && k in t.kids && t.kids[k].Node?
    requires !(k in vt.kids && Fits(vt.kids[k], t.kids[k]))
    ensures Probe(t, p).Held? && !(p != [] && Probe(vt, p[..|p| - 1]) == Inner)
  {
    var inner := t.kids[k];
    var rest: Path;
    if k in vt.kids {
      FitsExactly(vt.kids[k], inner);
      rest :| Probe(inner, rest).Held? && !(rest != [] && Probe(vt.kids[k], rest[..|rest| - 1]) == Inner);
    } else {
      rest := SomeValue(inner);
    }
    p := [k] + rest;
    ProbeStep(t, k, rest);
    assert rest != [];
    assert p[..|p| - 1] == [k] + rest[..|rest| - 1];
    ProbeStep(vt, k, rest[..|rest| - 1]);
  }

  ghost predicate Accepted<V>(vt: Tree<V>, settings: seq<Setting<V>>) {
    Nested(settings).Success? && Fits(vt, Nested(settings).value)
  }

  /** The parent dictionary of every surviving setting exists in the model. */
  ghost predicate ParentsExist<V>(vt: Tree<V>, settings: seq<Setting<V>>) {
    forall i :: 0 <= i < |settings| && !Swallowed(settings, i) ==>
      settings[i].path != [] && Probe(vt, settings[i].path[..|settings[i].path| - 1]) == Inner
  }

  /** An update is accepted exactly when no key needs a dictionary where an earlier, shorter key has
      put a value, and the parents of the surviving keys exist. */
  lemma {:induction false} AcceptedExactly<V(!new)>(vt: Tree<V>, settings: seq<Setting<V>>)
    requires DistinctPaths(settings) && settings != []
    ensures Accepted(vt, settings) <==>
      && (forall j :: 0 <= j < |settings| ==> !Blocked(settings, j))
      && ParentsExist(vt, settings)
  {
    NestedExactly(settings);
    if Nested(settings).Success? {
      var t := Nested(settings).value;
      FitsExactly(vt, t);
      assert forall j :: 0 <= j < |settings| ==> !Blocked(settings, j);
      forall i | 0 <= i < |settings| && !Swallowed(settings, i)
        ensures HoldsAt(t, settings[i].path, settings[i].value)
      {
        assert settings[i] == Setting(settings[i].path, settings[i].value);
      }
      if ParentsExist(vt, settings) {
        forall p: Path | Probe(t, p).Held? ensures p != [] && Probe(vt, p[..|p| - 1]) == Inner {
          assert HoldsAt(t, p, Probe(t, p).value);
        }
      }
    }
  }

  /** Below every dictionary of a solid tree there is a value, and only dictionaries are above one. */
  lemma {:induction false} InnerExactly<V(!new)>(t: Tree<V>, q: Path)
    requires Solid(t)
    ensures Probe(t, q) == Inner <==> exists p: Path :: q < p && Probe(t, p).Held?
    decreases |q|
  {
    if Probe(t, q) == Inner {
      var sub := At(t, q).value;
      SolidBelow(t, q);
      var rest := SomeValue(sub);
      AtConcat(t, q, rest);
      assert q < q + rest && Probe(t, q + rest).Held?;
    }
    if p: Path :| q < p && Probe(t, p).Held? {
      assert p == q + p[|q|..];
      AtConcat(t, q, p[|q|..]);
    }
  }

  lemma {:induction false} SolidBelow<V>(t: Tree<V>, q: Path)
    requires Solid(t) && At(t, q).Some?
    ensures Solid(At(t, q).value)
    decreases |q|
  {
    if q != [] {
      SolidBelow(t.kids[q[0]], q[1..]);
    }
  }

  function Updated<V>(vt: Tree<V>, settings: seq<Setting<V>>): Tree<V>
    requires Accepted(vt, settings)
  {
    Overlay(vt, Nested(settings).value)
  }

  /** What any path shows after an accepted update, in terms of the surviving settings alone: the
      value set there, nothing below a value set, a dictionary above one, and the model elsewhere. */
  lemma {:induction false} UpdatedProbe<V(!new)>(vt: Tree<V>, settings: seq<Setting<V>>, q: Path)
    requires DistinctPaths(settings) && settings != [] && Accepted(vt, settings)
    ensures forall i :: 0 <= i < |settings| && !Swallowed(settings, i) ==>
      && (settings[i].path == q ==> Probe(Updated(vt, settings), q) == Held(settings[i].value))
      && (settings[i].path < q ==> Probe(Updated(vt, settings), q) == Absent)
      && (q < settings[i].path ==> Probe(Updated(vt, settings), q) == Inner)
    ensures (forall i :: 0 <= i < |settings| && !Swallowed(settings, i) ==>
               !(settings[i].path <= q) && !(q <= settings[i].path)) ==>
      Probe(Updated(vt, settings), q) == Probe(vt, q)
  {
    var t := Nested(settings).value;
    NestedExactly(settings);
    OverlayProbe(vt, t, q);
    InnerExactly(t, q);
    forall i | 0 <= i < |settings| && !Swallowed(settings, i)
      ensures HoldsAt(t, settings[i].path, settings[i].value)
      ensures settings[i].path < q ==> ValueAbove(t, q) && Probe(t, q) == Absent
    {
      var p := settings[i].path;
      assert settings[i] == Setting(p, settings[i].value);
      assert HoldsAt(t, p, settings[i].value);
      if p < q {
        assert q[..|p|] == p && q == p + q[|p|..];
        AtConcat(t, p, q[|p|..]);
      }
    }
    if ValueAbove(t, q) {
      var n :| 0 <= n < |q| && Probe(t, q[..n]).Held?;
      assert HoldsAt(t, q[..n], Probe(t, q[..n]).value);
    }
    if Probe(t, q).Held? {
      assert HoldsAt(t, q, Probe(t, q).value);
    }
    if Probe(t, q) == Inner {
      var p: Path :| q < p && Probe(t, p).Held?;
      assert HoldsAt(t, p, Probe(t, p).value);
    }
  }

  /** After an accepted update a setting's value is found at its key exactly when no later, shorter
      key swallowed it; every leaf no key touches is as before. */
  lemma {:induction false} UpdateExactly<V(!new)>(vt: Tree<V>, settings: seq<Setting<V>>)
    requires DistinctPaths(settings) && settings != [] && Accepted(vt, settings)
    ensures forall i :: 0 <= i < |settings| ==>
      (Probe(Updated(vt, settings), settings[i].path) == Held(settings[i].value) <==> !Swallowed(settings, i))
    ensures forall q: Path ::
      (forall i :: 0 <= i < |settings| ==> !(settings[i].path <= q) && !(q <= settings[i].path)) ==>
      Probe(Updated(vt, settings), q) == Probe(vt, q)
  {
    forall i | 0 <= i < |settings|
      ensures Probe(Updated(vt, settings), settings[i].path) == Held(settings[i].value) <==> !Swallowed(settings, i)
    {
      UpdatedProbe(vt, settings, settings[i].path);
      if Swallowed(settings, i) {
        var j :| i < j < |settings| && settings[j].path < settings[i].path;
        var k := Shortest(settings, j);
        assert !Swallowed(settings, k) && settings[k].path < settings[i].path;
      }
    }
    forall q: Path | forall i :: 0 <= i < |settings| ==> !(settings[i].path <= q) && !(q <= settings[i].path)
      ensures Probe(Updated(vt, settings), q) == Probe(vt, q)
    {
      UpdatedProbe(vt, settings, q);
    }
  }

  ghost predicate PrefixFree<V>(settings: seq<Setting<V>>) {
    && (forall i :: 0 <= i < |settings| ==> settings[i].path != [])
    && forall i, j :: 0 <= i < |settings| && 0 <= j < |settings| ==> !(settings[i].path < settings[j].path)
  }

  /** For prefix-free keys the order of insertion is irrelevant, both for success and for the result. */
  lemma {:induction false} UpdateOrderIrrelevant<V(!new)>(vt: Tree<V>, a: seq<Setting<V>>, b: seq<Setting<V>>)
    requires DistinctPaths(a) && DistinctPaths(b) && a != [] && b != []
    requires PrefixFree(a) && PrefixFree(b)
    requires forall s :: s in a <==> s in b
    ensures Accepted(vt, a) <==> Accepted(vt, b)
    ensures Accepted(vt, a) ==> Updated(vt, a) == Updated(vt, b)
  {
    AcceptedExactly(vt, a);
    AcceptedExactly(vt, b);
    SameParents(vt, a, b);
    SameParents(vt, b, a);
    if Accepted(vt, a) {
      forall q: Path ensures Probe(Updated(vt, a), q) == Probe(Updated(vt, b), q) {
        UpdatedProbe(vt, a, q);
        UpdatedProbe(vt, b, q);
        if i :| 0 <= i < |a| && (a[i].path <= q || q <= a[i].path) {
          assert a[i] in b;
          var j :| 0 <= j < |b| && b[j] == a[i];
          assert !Swallowed(a, i) && !Swallowed(b, j);
        } else {
          forall j | 0 <= j < |b| ensures !(b[j].path <= q) && !(q <= b[j].path) {
            assert b[j] in a;
          }
        }
      }
      SameProbes(Updated(vt, a), Updated(vt, b));
    }
  }

  lemma {:induction false} SameParents<V>(vt: Tree<V>, a: seq<Setting<V>>, b: seq<Setting<V>>)
    requires PrefixFree(a) && PrefixFree(b) && forall s :: s in a <==> s in b
    ensures ParentsExist(vt, a) ==> ParentsExist(vt, b)
  {
    if ParentsExist(vt, a) {
      forall i | 0 <= i < |b|
        ensures b[i].path != [] && Probe(vt, b[i].path[..|b[i].path| - 1]) == Inner
      {
        assert b[i] in a;
        var j :| 0 <= j < |a| && a[j] == b[i];
        assert !Swallowed(a, j);
      }
    }
  }
}
