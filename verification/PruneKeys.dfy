/** For each module key, by which setting of which switch it is removed from a model. */
module PruneKeys {
  import opened VarTree
  import opened Prune

  /** The switch is set to one of these choices. */
  predicate SetTo(fst: map<string, Tree<int>>, s: string, choices: set<int>) {
    s in fst && fst[s].Leaf? && fst[s].value in choices
  }

  /** The module is switched off by its switch: a choice is set that goes without it. */
  predicate IsOff(fst: map<string, Tree<int>>, key: string) {
    match key
    case "ElastoDyn" | "ElastoDynTower" => SetTo(fst, "CompElast", {3})
    case "ElastoDynBlade" => SetTo(fst, "CompElast", {2, 3})
    case "BeamDyn" | "BeamDynBlade" => SetTo(fst, "CompElast", {1, 3})
    case "SimpleElastoDyn" => SetTo(fst, "CompElast", {1, 2})
    case "InflowWind" => SetTo(fst, "CompInflow", {0})
    case "AeroDisk" => SetTo(fst, "CompAero", {0, 2})
    case "AeroDyn" | "AeroDynBlade" | "AeroDynPolar" => SetTo(fst, "CompAero", {0, 1})
    case "ServoDyn" | "DISCON_in" => SetTo(fst, "CompServo", {0})
    case "SeaState" => SetTo(fst, "CompSeaSt", {0})
    case "HydroDyn" => SetTo(fst, "CompHydro", {0})
    case "SubDyn" => SetTo(fst, "CompSub", {0, 2})
    case "read_ExtPtfm" => SetTo(fst, "CompSub", {0, 1})
    case "MAP" => SetTo(fst, "CompMooring", {0, 2, 3, 4})
    case "MoorDyn" | "WaterKin" => SetTo(fst, "CompMooring", {0, 1, 2, 4})
    case _ => false
  }

  /** The switch whose choices list the key. */
  function Home(key: string): string {
    match key
    case "ElastoDyn" | "ElastoDynTower" | "ElastoDynBlade" | "SimpleElastoDyn" => "CompElast"
    case "BeamDyn" | "BeamDynBlade" => "CompElast"
    case "InflowWind" => "CompInflow"
    case "AeroDisk" | "AeroDyn" | "AeroDynBlade" | "AeroDynPolar" => "CompAero"
    case "ServoDyn" | "DISCON_in" => "CompServo"
    case "SeaState" => "CompSeaSt"
    case "HydroDyn" => "CompHydro"
    case "SubDyn" | "read_ExtPtfm" => "CompSub"
    case "MAP" | "MoorDyn" | "WaterKin" => "CompMooring"
    case _ => ""
  }

  /** The switch has a recognised setting that goes without the key, and another choice lists it. */
  ghost predicate OffAtHome(fst: map<string, Tree<int>>, key: string) {
    var s := Home(key);
    && Recognised(OF_MODULES, fst, s) && key !in OF_MODULES[s][fst[s].value]
    && exists c :: c in OF_MODULES[s] && key in OF_MODULES[s][c]
  }

  lemma ElastListed(c: int, key: string)
    requires c in OF_MODULES["CompElast"] && key in OF_MODULES["CompElast"][c]
    ensures Home(key) == "CompElast"
  {
  }

  lemma AeroListed(c: int, key: string)
    requires c in OF_MODULES["CompAero"] && key in OF_MODULES["CompAero"][c]
    ensures Home(key) == "CompAero"
  {
  }

  lemma MooringListed(c: int, key: string)
    requires c in OF_MODULES["CompMooring"] && key in OF_MODULES["CompMooring"][c]
    ensures Home(key) == "CompMooring"
  {
  }

  lemma OtherListed(s: string, c: int, key: string)
    requires s in {"CompInflow", "CompServo", "CompSeaSt", "CompHydro", "CompSub", "CompIce"}
    requires c in OF_MODULES[s] && key in OF_MODULES[s][c]
    ensures s == Home(key)
  {
  }

  lemma ListedAtHome(s: string, c: int, key: string)
    requires s in OF_MODULES && c in OF_MODULES[s] && key in OF_MODULES[s][c]
    ensures s == Home(key)
  {
    if s == "CompElast" {
      ElastListed(c, key);
    } else if s == "CompAero" {
      AeroListed(c, key);
    } else if s == "CompMooring" {
      MooringListed(c, key);
    } else {
      OtherListed(s, c, key);
    }
  }

  /** A key listed by one switch only is removed exactly if that switch has a recognised setting whose
      choice goes without it, while another choice lists it. */
  lemma RemovedByHome(fst: map<string, Tree<int>>, key: string)
    ensures key in Deactivated(OF_MODULES, fst) <==> OffAtHome(fst, key)
  {
    forall s, c | s in OF_MODULES && c in OF_MODULES[s] && key in OF_MODULES[s][c] ensures s == Home(key) {
      ListedAtHome(s, c, key);
    }
  }

  /** A key of that switch: its condition names the choices that go without it. */
  lemma ElastKeys(fst: map<string, Tree<int>>, key: string)
    requires Home(key) == "CompElast"
    ensures IsOff(fst, key) <==> OffAtHome(fst, key)
  {
    var choices := OF_MODULES["CompElast"];
    assert 1 in choices && choices[1] == ["ElastoDyn", "ElastoDynBlade", "ElastoDynTower"];
    assert 2 in choices && choices[2] == ["ElastoDyn", "ElastoDynTower", "BeamDyn", "BeamDynBlade"];
    assert 3 in choices && choices[3] == ["SimpleElastoDyn"];
  }

  lemma AeroKeys(fst: map<string, Tree<int>>, key: string)
    requires Home(key) == "CompAero"
    ensures IsOff(fst, key) <==> OffAtHome(fst, key)
  {
    var choices := OF_MODULES["CompAero"];
    assert 0 in choices && choices[0] == [];
    assert 1 in choices && choices[1] == ["AeroDisk"];
    assert 2 in choices && choices[2] == ["AeroDyn", "AeroDynBlade", "AeroDynPolar"];
  }

  lemma MooringKeys(fst: map<string, Tree<int>>, key: string)
    requires Home(key) == "CompMooring"
    ensures IsOff(fst, key) <==> OffAtHome(fst, key)
  {
    var choices := OF_MODULES["CompMooring"];
    assert 1 in choices && choices[1] == ["MAP"];
    assert 3 in choices && choices[3] == ["MoorDyn", "WaterKin"];
    assert forall c :: c in choices && c != 1 && c != 3 ==> choices[c] == [];
  }

  lemma SimpleKeys(fst: map<string, Tree<int>>, key: string)
    requires Home(key) in {"CompInflow", "CompServo", "CompSeaSt", "CompHydro"}
    ensures IsOff(fst, key) <==> OffAtHome(fst, key)
  {
    var choices := OF_MODULES[Home(key)];
    assert 0 in choices && choices[0] == [] && 1 in choices && key in choices[1];
  }

  lemma SubstructureKeys(fst: map<string, Tree<int>>, key: string)
    requires Home(key) == "CompSub"
    ensures IsOff(fst, key) <==> OffAtHome(fst, key)
  {
    var choices := OF_MODULES["CompSub"];
    assert 0 in choices && choices[0] == [];
    assert 1 in choices && choices[1] == ["SubDyn"];
    assert 2 in choices && choices[2] == ["read_ExtPtfm"];
  }

  /** A key is removed exactly if its switch is set to one of the choices that go without it; no other
      key is removed. */
  lemma DeactivatedExactly(fst: map<string, Tree<int>>, key: string)
    ensures key in Deactivated(OF_MODULES, fst) <==> IsOff(fst, key)
  {
    RemovedByHome(fst, key);
    match Home(key)
    case "CompElast" => ElastKeys(fst, key);
    case "CompAero" => AeroKeys(fst, key);
    case "CompMooring" => MooringKeys(fst, key);
    case "CompSub" => SubstructureKeys(fst, key);
    case "" =>
    case _ => SimpleKeys(fst, key);
  }

  /** What removing the deactivated modules leaves of a model: a path is gone exactly if a key on it is
      that of a module switched off, and every other path shows what it showed. */
  lemma ModulesRemovedExactly(t: Tree<int>, fst: map<string, Tree<int>>, keys: set<string>, q: Path)
    requires forall k :: k in keys <==> k in Deactivated(OF_MODULES, fst)
    ensures Probe(Pruned(t, keys), q) == if exists k :: k in q && IsOff(fst, k) then Absent else Probe(t, q)
  {
    PrunedProbe(t, keys, q);
    forall k ensures k in keys <==> IsOff(fst, k) {
      DeactivatedExactly(fst, k);
    }
  }
}
