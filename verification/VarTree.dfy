/** Nested dictionaries with string keys, and what a path of keys finds in them. */
module VarTree {
  import opened Wrappers

  datatype Tree<V> = Leaf(value: V) | Node(kids: map<string, Tree<V>>)

  type Path = seq<string>

  /** The subtree a path of keys leads to: get_dict. */
  function At<V>(t: Tree<V>, path: Path): Option<Tree<V>> {
    if path == [] then Some(t)
    else if t.Node? && path[0] in t.kids then At(t.kids[path[0]], path[1..])
    else None
  }

  /** What is seen at the end of a path: nothing, a dictionary, or a value. */
  datatype Obs<V> = Absent | Inner | Held(value: V)

  function Probe<V>(t: Tree<V>, path: Path): Obs<V> {
    match At(t, path)
    case None => Absent
    case Some(Node(_)) => Inner
    case Some(Leaf(v)) => Held(v)
  }

  lemma {:induction false} ProbeStep<V>(t: Tree<V>, key: string, rest: Path)
    ensures Probe(t, [key] + rest) == if t.Node? && key in t.kids then Probe(t.kids[key], rest) else Absent
  {
    assert ([key] + rest)[1..] == rest;
  }

  /** Trees that look alike along every path are equal. */
  lemma {:induction false} SameProbes<V(!new)>(t: Tree<V>, u: Tree<V>)
    requires forall p: Path :: Probe(t, p) == Probe(u, p)
    ensures t == u
  {
    assert Probe(t, []) == Probe(u, []);
    if t.Node? {
      forall k ensures k in t.kids <==> k in u.kids {
        ProbeStep(t, k, []);
        ProbeStep(u, k, []);
        assert Probe(t, [k] + []) == Probe(u, [k] + []);
      }
      forall k | k in t.kids ensures t.kids[k] == u.kids[k] {
        forall p: Path ensures Probe(t.kids[k], p) == Probe(u.kids[k], p) {
          ProbeStep(t, k, p);
          ProbeStep(u, k, p);
          assert Probe(t, [k] + p) == Probe(u, [k] + p);
        }
        SameProbes(t.kids[k], u.kids[k]);
      }
      assert t.kids == u.kids;
    }
  }

  lemma {:induction false} AtConcat<V>(t: Tree<V>, p: Path, q: Path)
    ensures At(t, p + q) == if At(t, p).Some? then At(At(t, p).value, q) else None
  {
    if p == [] {
      assert p + q == q;
    } else {
      assert (p + q)[1..] == p[1..] + q;
      if t.Node? && p[0] in t.kids {
        AtConcat(t.kids[p[0]], p[1..], q);
      }
    }
  }

  /** The tree with the subtree at an existing path replaced. */
  function Graft<V>(t: Tree<V>, path: Path, sub: Tree<V>): Tree<V>
    requires At(t, path).Some?
  {
    if path == [] then sub
    else Node(t.kids[path[0] := Graft(t.kids[path[0]], path[1..], sub)])
  }

  lemma {:induction false} GraftAt<V>(t: Tree<V>, path: Path, sub: Tree<V>)
    requires At(t, path).Some?
    ensures At(Graft(t, path, sub), path) == Some(sub)
    ensures Graft(t, path, At(t, path).value) == t
    ensures forall next :: Graft(Graft(t, path, sub), path, next) == Graft(t, path, next)
  {
    if path != [] {
      var kid, rest := t.kids[path[0]], path[1..];
      GraftAt(kid, rest, sub);
      assert t.kids[path[0] := kid] == t.kids;
      forall next
        ensures Graft(Graft(t, path, sub), path, next) == Graft(t, path, next)
      {
        assert Graft(Graft(kid, rest, sub), rest, next) == Graft(kid, rest, next);
        assert t.kids[path[0] := Graft(kid, rest, sub)][path[0] := Graft(kid, rest, next)] ==
               t.kids[path[0] := Graft(kid, rest, next)];
      }
    }
  }

  /** Grafting one level deeper is updating one entry of the dictionary above. */
  lemma {:induction false} GraftDeeper<V>(t: Tree<V>, path: Path, key: string, sub: Tree<V>)
    requires At(t, path + [key]).Some?
    ensures At(t, path).Some? && At(t, path).value.Node? && key in At(t, path).value.kids
    ensures At(t, path + [key]).value == At(t, path).value.kids[key]
    ensures Graft(t, path + [key], sub) == Graft(t, path, Node(At(t, path).value.kids[key := sub]))
  {
    AtConcat(t, path, [key]);
    if path == [] {
      assert [] + [key] == [key];
    } else {
      assert (path + [key])[1..] == path[1..] + [key];
      GraftDeeper(t.kids[path[0]], path[1..], key, sub);
    }
  }

  /** get_dict(t, path[:-1])[path[-1]] = sub; fails where a key is missing or no dictionary is there. */
  function Put<V>(t: Tree<V>, path: Path, sub: Tree<V>): Result<Tree<V>>
    requires path != []
  {
    var parent := At(t, path[..|path| - 1]);
    if parent.Some? && parent.value.Node? then
      Success(Graft(t, path[..|path| - 1], Node(parent.value.kids[path[|path| - 1] := sub])))
    else Failure("KeyError")
  }

  /** Only what hangs below the path changes; above it there are still dictionaries. */
  lemma {:induction false} GraftProbe<V>(t: Tree<V>, path: Path, sub: Tree<V>, q: Path)
    requires At(t, path).Some?
    ensures Probe(Graft(t, path, sub), q) ==
      if path <= q then Probe(sub, q[|path|..])
      else Probe(t, q)
  {
    if path != [] && q != [] && path[0] == q[0] {
      var kid := t.kids[path[0]];
      GraftProbe(kid, path[1..], sub, q[1..]);
      assert path <= q <==> path[1..] <= q[1..];
      assert path <= q ==> q[1..][|path[1..]|..] == q[|path|..];
    }
  }
}
