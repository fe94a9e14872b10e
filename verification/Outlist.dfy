/**
 Output channel flags: nested dictionaries of booleans in which reader and writer set
 flags by channel name, and the channel list printed into and read from an input file.
 */
module Outlist {
  import opened Wrappers
  import opened VarTree

  type Flags = Tree<bool>

  // ---------- setting flags by name ----------

  /** Sets every leaf of that name, at any depth. */
  function Mark(t: Flags, name: string, val: bool): Flags {
    if t.Leaf? then t
    else Node(map k | k in t.kids ::
      if t.kids[k].Node? then Mark(t.kids[k], name, val)
      else if k == name then Leaf(val)
      else t.kids[k])
  }

  /** name.replace(' ', ''). */
  function DropBlanks(name: string): string {
    if name == [] then []
    else (if name[0] == ' ' then [] else [name[0]]) + DropBlanks(name[1..])
  }

  /** Only the blanks go: the text between them stays as it is. */
  lemma {:induction false} BlanksDropped(a: string, b: string)
    ensures ' ' !in DropBlanks(a)
    ensures ' ' !in a ==> DropBlanks(a) == a
    ensures DropBlanks(a + " " + b) == DropBlanks(a) + DropBlanks(b)
  {
    if a == [] {
      assert a + " " + b == " " + b && (" " + b)[1..] == b;
      assert DropBlanks(" " + b) == DropBlanks(b);
    } else {
      BlanksDropped(a[1..], b);
      var s := a + " " + b;
      assert s[0] == a[0] && s[1..] == a[1..] + " " + b;
      Grouped(if a[0] == ' ' then [] else [a[0]], DropBlanks(a[1..]), DropBlanks(b));
    }
  }

  lemma Grouped(a: string, b: string, c: string)
    ensures a + b + c == a + (b + c)
  {
  }

  datatype Request = Request(name: string, val: bool)

  function MarkAll(t: Flags, requests: seq<Request>): Flags {
    if requests == [] then t
    else
      var n := |requests| - 1;
      Mark(MarkAll(t, requests[..n]), DropBlanks(requests[n].name), requests[n].val)
  }

  /** The node with the entries in `done` treated. */
  function MarkedPartly(t: Flags, name: string, val: bool, done: set<string>): Flags
    requires t.Node?
  {
    Node(map k | k in t.kids :: if k in done then Mark(t, name, val).kids[k] else t.kids[k])
  }

  ghost predicate Visited(before: Flags, now: Flags, branch: Path, name: string, val: bool, done: set<string>) {
    && At(before, branch).Some? && At(before, branch).value.Node?
    && now == Graft(before, branch, MarkedPartly(At(before, branch).value, name, val, done))
  }

  /** One more entry treated, through the path from the head. */
  lemma {:induction false} EntryVisited(
      before: Flags, now: Flags, branch: Path, name: string, val: bool, done: set<string>, key: string)
    requires Visited(before, now, branch, name, val, done)
    requires key in At(before, branch).value.kids && key !in done
    ensures var sub := At(before, branch).value;
      var marked := Mark(sub, name, val).kids[key];
      && At(now, branch + [key]) == Some(sub.kids[key])
      && Visited(before, Graft(now, branch + [key], marked), branch, name, val, done + {key})
      && (marked == sub.kids[key] ==> Visited(before, now, branch, name, val, done + {key}))
      && Put(now, branch + [key], marked) == Success(Graft(now, branch + [key], marked))
  {
    var sub := At(before, branch).value;
    var marked := Mark(sub, name, val).kids[key];
    var partly, more := MarkedPartly(sub, name, val, done), MarkedPartly(sub, name, val, done + {key});
    GraftAt(before, branch, partly);
    AtConcat(now, branch, [key]);
    GraftDeeper(now, branch, key, marked);
    assert more.kids == partly.kids[key := marked];
    assert Graft(now, branch, more) == Graft(before, branch, more);
    if marked == sub.kids[key] {
      assert more.kids == partly.kids;
    }
    var path := branch + [key];
    assert path[..|path| - 1] == branch && path[|path| - 1] == key;
  }

  class ChannelFlags {
    var head: Flags

    constructor (flags: Flags)
      ensures head == flags
    {
      head := flags;
    }

    /** loop_dict of set_outlist and update_outlist: `branch` is the path from the head to the node
        being visited, and the flag of a matching leaf is set through that path. */
    method LoopDict(ghost sub: Flags, name: string, val: bool, branch: Path)
      requires At(head, branch) == Some(sub) && sub.Node?
      modifies this
      ensures head == Graft(old(head), branch, Mark(sub, name, val))
      decreases sub
    {
      ghost var before := head;
      var todo := At(head, branch).value.kids.Keys;
      ghost var done: set<string> := {};
      assert MarkedPartly(sub, name, val, {}).kids == sub.kids;
      GraftAt(head, branch, sub);
      while todo != {}
        invariant done + todo == sub.kids.Keys && done * todo == {}
        invariant Visited(before, head, branch, name, val, done)
        decreases todo
      {
        var key :| key in todo;
        EntryVisited(before, head, branch, name, val, done, key);
        var branch_i := branch + [key];
        if At(head, branch_i).value.Node? {
          LoopDict(sub.kids[key], name, val, branch_i);
        } else if key == name {
          head := Put(head, branch_i, Leaf(val)).value;
        }
        todo, done := todo - {key}, done + {key};
      }
      assert MarkedPartly(sub, name, val, done).kids == Mark(sub, name, val).kids;
    }

    /** set_outlist passes True for every channel; update_outlist takes the value from its dictionary. */
    method SetChannels(requests: seq<Request>)
      requires head.Node?
      modifies this
      ensures head == MarkAll(old(head), requests) && head.Node?
    {
      var i := 0;
      assert requests[..0] == [];
      while i < |requests|
        invariant 0 <= i <= |requests| && head == MarkAll(old(head), requests[..i]) && head.Node?
      {
        assert requests[..i + 1][..i] == requests[..i];
        LoopDict(head, DropBlanks(requests[i].name), requests[i].val, []);
        i := i + 1;
      }
      assert requests[..i] == requests;
    }
  }

  // ---------- what the flags are afterwards ----------

  /** Exactly the leaves whose own name was asked for get the value; the shape of the tree stays. */
  lemma {:induction false} MarkProbe(t: Flags, name: string, val: bool, q: Path)
    requires t.Node?
    ensures Probe(Mark(t, name, val), q) ==
      if Probe(t, q).Held? && q[|q| - 1] == name then Held(val) else Probe(t, q)
    decreases |q|
  {
    if q != [] && q[0] in t.kids {
      var kid, rest := t.kids[q[0]], q[1..];
      ProbeStep(t, q[0], rest);
      ProbeStep(Mark(t, name, val), q[0], rest);
      assert q == [q[0]] + rest;
      if kid.Node? {
        MarkProbe(kid, name, val, rest);
      }
    }
  }

  /** The value requested last for a name, if any. */
  function Requested(requests: seq<Request>, name: string): Option<bool> {
    if requests == [] then None
    else
      var last := requests[|requests| - 1];
      if DropBlanks(last.name) == name then Some(last.val) else Requested(requests[..|requests| - 1], name)
  }

  lemma {:induction false} MarkAllProbe(t: Flags, requests: seq<Request>, q: Path)
    requires t.Node?
    ensures MarkAll(t, requests).Node?
    ensures Probe(MarkAll(t, requests), q) ==
      if Probe(t, q).Held? && Requested(requests, q[|q| - 1]).Some? then Held(Requested(requests, q[|q| - 1]).value)
      else Probe(t, q)
  {
    if requests != [] {
      var n := |requests| - 1;
      MarkAllProbe(t, requests[..n], q);
      MarkProbe(MarkAll(t, requests[..n]), DropBlanks(requests[n].name), requests[n].val, q);
    }
  }

  predicate DistinctNames(requests: seq<Request>) {
    forall i, j :: 0 <= i < j < |requests| ==> DropBlanks(requests[i].name) != DropBlanks(requests[j].name)
  }

  predicate OneValue(requests: seq<Request>) {
    forall r, s :: r in requests && s in requests ==> r.val == s.val
  }

  lemma {:induction false} RequestedExactly(requests: seq<Request>, name: string, i: nat)
    requires i < |requests| && DropBlanks(requests[i].name) == name
    requires DistinctNames(requests) || forall j :: 0 <= j < |requests| ==> requests[j].val == requests[i].val
    ensures Requested(requests, name) == Some(requests[i].val)
  {
    var n := |requests| - 1;
    if i < n && DropBlanks(requests[n].name) != name {
      RequestedExactly(requests[..n], name, i);
    }
  }

  lemma {:induction false} RequestedNone(requests: seq<Request>, name: string)
    requires forall r <- requests :: DropBlanks(r.name) != name
    ensures Requested(requests, name) == None
  {
    if requests != [] {
      RequestedNone(requests[..|requests| - 1], name);
    }
  }

  /** The order of requests is irrelevant when their names are distinct, or all values agree as in set_outlist. */
  lemma {:induction false} RequestOrderIrrelevant(t: Flags, a: seq<Request>, b: seq<Request>)
    requires t.Node? && forall r :: r in a <==> r in b
    requires (DistinctNames(a) && DistinctNames(b)) || OneValue(a)
    ensures MarkAll(t, a) == MarkAll(t, b)
  {
    forall q: Path ensures Probe(MarkAll(t, a), q) == Probe(MarkAll(t, b), q) {
      MarkAllProbe(t, a, q);
      MarkAllProbe(t, b, q);
      if Probe(t, q).Held? {
        SameRequested(a, b, q[|q| - 1]);
      }
    }
    SameProbes(MarkAll(t, a), MarkAll(t, b));
  }

  lemma {:induction false} SameRequested(a: seq<Request>, b: seq<Request>, name: string)
    requires forall r :: r in a <==> r in b
    requires (DistinctNames(a) && DistinctNames(b)) || OneValue(a)
    ensures Requested(a, name) == Requested(b, name)
  {
    if i :| 0 <= i < |a| && DropBlanks(a[i].name) == name {
      assert a[i] in b;
      var j :| 0 <= j < |b| && b[j] == a[i];
      assert forall k :: 0 <= k < |b| ==> b[k] in a;
      RequestedExactly(a, name, i);
      RequestedExactly(b, name, j);
    } else {
      forall r | r in a ensures DropBlanks(r.name) != name {
      }
      RequestedNone(a, name);
      RequestedNone(b, name);
    }
  }

  // ---------- collecting the true names ----------

  ghost predicate IsOn(t: Flags, q: Path) {
    Probe(t, q) == Held(true)
  }

  ghost predicate IsOff(t: Flags, q: Path) {
    Probe(t, q) == Held(false)
  }

  ghost predicate IsTrueName(t: Flags, n: string)
    requires t.Node?
  {
    exists q: Path :: IsOn(t, q) && q[|q| - 1] == n
  }

  /** The same, for leaves below the given entries only. */
  ghost predicate IsTrueBelow(t: Flags, keys: set<string>, n: string)
    requires t.Node?
  {
    exists q: Path :: IsOn(t, q) && q[0] in keys && q[|q| - 1] == n
  }

  /** loop_dict of get_outlist: appends the names of all true leaves. */
  method TrueNames(t: Flags, outlist_i: seq<string>) returns (names: seq<string>)
    requires t.Node?
    ensures forall n :: n in names <==> n in outlist_i || IsTrueName(t, n)
    decreases t
  {
    names := outlist_i;
    var todo := t.kids.Keys;
    ghost var done: set<string> := {};
    while todo != {}
      invariant done + todo == t.kids.Keys
      invariant forall n :: n in names <==> n in outlist_i || IsTrueBelow(t, done, n)
      decreases todo
    {
      var key :| key in todo;
      if t.kids[key].Node? {
        names := TrueNames(t.kids[key], names);
      } else if t.kids[key].value {
        names := names + [key];
      }
      forall n {
        NamesBelow(t, done, key, n);
      }
      todo, done := todo - {key}, done + {key};
    }
    forall n ensures IsTrueBelow(t, done, n) <==> IsTrueName(t, n) {
      AllBelow(t, n);
    }
  }

  lemma AllBelow(t: Flags, n: string)
    requires t.Node?
    ensures IsTrueBelow(t, t.kids.Keys, n) <==> IsTrueName(t, n)
  {
    if q: Path :| IsOn(t, q) && q[|q| - 1] == n {
      assert q[0] in t.kids.Keys;
    }
  }

  /** The names below one more entry. */
  lemma {:induction false} NamesBelow(t: Flags, done: set<string>, key: string, n: string)
    requires t.Node? && key in t.kids
    ensures IsTrueBelow(t, done + {key}, n) <==> (
      IsTrueBelow(t, done, n) ||
      if t.kids[key].Node? then IsTrueName(t.kids[key], n) else t.kids[key].value && n == key)
  {
    var kid := t.kids[key];
    if q: Path :| IsOn(t, q) && q[0] in done + {key} && q[|q| - 1] == n {
      if q[0] == key {
        assert IsOn(kid, q[1..]) by {
          assert q == [key] + q[1..];
          ProbeStep(t, key, q[1..]);
        }
        if kid.Node? {
          assert q[1..][|q[1..]| - 1] == n;
        }
      }
    }
    if kid.Node? && IsTrueName(kid, n) {
      var r: Path :| IsOn(kid, r) && r[|r| - 1] == n;
      var p := [key] + r;
      ProbeStep(t, key, r);
      assert IsOn(t, p) && p[0] in done + {key} && p[|p| - 1] == n;
    }
    if kid.Leaf? && kid.value && n == key {
      var p: Path := [key] + [];
      ProbeStep(t, key, []);
      assert IsOn(t, p) && p[0] in done + {key} && p[|p| - 1] == n;
    }
    if q: Path :| IsOn(t, q) && q[0] in done && q[|q| - 1] == n {
      assert q[0] in done + {key};
    }
  }

  /** The same tree with every flag off. */
  function AllOff(t: Flags): Flags {
    if t.Leaf? then Leaf(false) else Node(map k | k in t.kids :: AllOff(t.kids[k]))
  }

  lemma {:induction false} AllOffProbe(t: Flags, q: Path)
    ensures Probe(AllOff(t), q) == if Probe(t, q).Held? then Held(false) else Probe(t, q)
    decreases |q|
  {
    if q != [] && t.Node? && q[0] in t.kids {
      AllOffProbe(t.kids[q[0]], q[1..]);
    }
  }

  function SetAll(names: seq<string>): seq<Request> {
    seq(|names|, i requires 0 <= i < |names| => Request(names[i], true))
  }

  /** No leaf name is on in one branch and off in another. */
  ghost predicate NamesAgree(t: Flags) {
    forall p: Path, q: Path :: IsOn(t, p) && IsOff(t, q) ==> p[|p| - 1] != q[|q| - 1]
  }

  lemma OnOrOff(t: Flags, q: Path)
    requires Probe(t, q).Held?
    ensures IsOn(t, q) || IsOff(t, q)
  {
    var v: bool := Probe(t, q).value;
    if v {
      assert Probe(t, q) == Held(true);
    } else {
      assert Probe(t, q) == Held(false);
    }
  }

  /** Reading the list of true names into the same tree with all flags off restores every flag exactly
      when no name is on in one branch and off in another. */
  lemma {:induction false} FlagsRestored(t: Flags, names: seq<string>)
    requires t.Node?
    requires forall n :: n in names <==> IsTrueName(t, n)
    requires forall n <- names :: DropBlanks(n) == n
    ensures MarkAll(AllOff(t), SetAll(names)) == t <==> NamesAgree(t)
  {
    var back := MarkAll(AllOff(t), SetAll(names));
    forall q: Path
      ensures Probe(back, q) == if Probe(t, q).Held? then Held(q[|q| - 1] in names) else Probe(t, q)
    {
      AllOffProbe(t, q);
      MarkAllProbe(AllOff(t), SetAll(names), q);
      if Probe(t, q).Held? {
        SetAllRequested(names, q[|q| - 1]);
      }
    }
    if NamesAgree(t) {
      forall q: Path ensures Probe(back, q) == Probe(t, q) {
        if Probe(t, q).Held? {
          var n := q[|q| - 1];
          OnOrOff(t, q);
          if n in names {
            var p: Path :| IsOn(t, p) && p[|p| - 1] == n;
            assert !IsOff(t, q);
          } else {
            assert !IsOn(t, q);
          }
        }
      }
      SameProbes(back, t);
    } else {
      var p: Path, q: Path :| IsOn(t, p) && IsOff(t, q) && p[|p| - 1] == q[|q| - 1];
      assert Probe(back, q) == Held(true);
    }
  }

  lemma {:induction false} SetAllRequested(names: seq<string>, name: string)
    requires forall n <- names :: DropBlanks(n) == n
    ensures Requested(SetAll(names), name) == if name in names then Some(true) else None
  {
    var requests := SetAll(names);
    if name in names {
      var i :| 0 <= i < |names| && names[i] == name;
      RequestedExactly(requests, name, i);
    } else {
      forall r | r in requests ensures DropBlanks(r.name) != name {
        var i :| 0 <= i < |requests| && requests[i] == r;
        assert names[i] in names;
      }
      RequestedNone(requests, name);
    }
  }
}
