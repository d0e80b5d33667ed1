/** The compact background switcher (`addMiniSwitcher`): one radio option per
    present layer, in the fixed order ortho, topo25, heb, eng; choosing an option
    removes every managed layer from the map and adds only the chosen one. */
module Switcher {
  import opened Layers

  /** A layer on the map: one of the injector's managed layers (by key), or any other
      layer the host page put there. */
  datatype LayerRef = Managed(key: Key) | Other(id: nat)

  /** The switcher's observable state: the layers on the map and the checked option. */
  datatype Ui = Ui(onMap: set<LayerRef>, checked: Key)

  /** Position of a key in the switcher's fixed listing order. */
  function Rank(k: Key): nat {
    match k
    case Ortho => 0
    case Topo25 => 1
    case Heb => 2
    case Eng => 3
  }

  /** The switcher's options: ortho and topo25 when present, then heb and eng always. */
  function Options(layers: LayerSet): (opts: seq<Key>)
    ensures 2 <= |opts| <= 4
    ensures Ortho in opts <==> Ortho in layers
    ensures Topo25 in opts <==> Topo25 in layers
    ensures Heb in opts && Eng in opts
    ensures forall i, j :: 0 <= i < j < |opts| ==> Rank(opts[i]) < Rank(opts[j])
  {
    (if Ortho in layers then [Ortho] else [])
    + (if Topo25 in layers then [Topo25] else [])
    + [Heb, Eng]
  }

  /** The managed layer of key `k` is one the switcher controls. */
  predicate IsManaged(layers: LayerSet, r: LayerRef) {
    r.Managed? && r.key in layers
  }

  /** No managed layer is on the map. */
  predicate NoManagedOn(layers: LayerSet, onMap: set<LayerRef>) {
    forall r :: r in onMap ==> !IsManaged(layers, r)
  }

  /** The radio `change` handler: every managed layer is removed, then the chosen one is
      added. Each removal sits in its own `try`: `removes` says the map's `removeLayer`
      works; without it every removal throws, the error is swallowed, and the chosen layer
      is still added next to whatever managed layers were already there. */
  function OnChange(layers: LayerSet, onMap: set<LayerRef>, k: Key, removes: bool): (onMap': set<LayerRef>)
    requires k in layers
    ensures Managed(k) in onMap'
    ensures removes ==> forall r :: r in onMap' && IsManaged(layers, r) ==> r == Managed(k)
    ensures !removes ==> forall r :: r in onMap' <==> r in onMap || r == Managed(k)
    ensures forall r :: !IsManaged(layers, r) ==> (r in onMap' <==> r in onMap)
  {
    if removes then (set r | r in onMap && !IsManaged(layers, r)) + {Managed(k)}
    else onMap + {Managed(k)}
  }

  /** Mutual exclusion: the checked option's layer is on the map and no other managed layer is. */
  predicate Exclusive(layers: LayerSet, ui: Ui) {
    && ui.checked in layers
    && Managed(ui.checked) in ui.onMap
    && forall r :: r in ui.onMap && IsManaged(layers, r) ==> r == Managed(ui.checked)
  }

  /** Building the switcher: the first option is checked and its change handler fired. The
      result is exclusive when removal works, and also when the map held no managed layer
      yet (the injector's layers are new objects, so on a fresh start it holds none). */
  function AddMiniSwitcher(layers: LayerSet, onMap: set<LayerRef>, removes: bool): (ui: Ui)
    requires HasBaseLayers(layers)
    ensures ui.checked == (if Ortho in layers then Ortho else if Topo25 in layers then Topo25 else Heb)
    ensures Managed(ui.checked) in ui.onMap
    ensures removes || NoManagedOn(layers, onMap) ==> Exclusive(layers, ui)
    ensures forall r :: !IsManaged(layers, r) ==> (r in ui.onMap <==> r in onMap)
  {
    var first := Options(layers)[0];
    Ui(OnChange(layers, onMap, first, removes), first)
  }

  /** The user picks option `k`. A radio that is already checked fires no `change` event. */
  function Select(layers: LayerSet, ui: Ui, k: Key, removes: bool): (ui': Ui)
    requires k in layers
    ensures ui'.checked == k
    ensures Managed(ui.checked) in ui.onMap ==> Managed(k) in ui'.onMap
    ensures removes && (k != ui.checked || Exclusive(layers, ui)) ==> Exclusive(layers, ui')
    ensures !removes && (k != ui.checked || Managed(k) in ui.onMap) ==>
      forall r :: r in ui'.onMap <==> r in ui.onMap || r == Managed(k)
    ensures forall r :: !IsManaged(layers, r) ==> (r in ui'.onMap <==> r in ui.onMap)
  {
    if k == ui.checked then ui else Ui(OnChange(layers, ui.onMap, k, removes), k)
  }

  /** Firing the handler for the already-checked option would change nothing either:
      skipping the event is indistinguishable from handling it. */
  lemma RecheckIsIdempotent(layers: LayerSet, ui: Ui, removes: bool)
    requires Exclusive(layers, ui)
    ensures OnChange(layers, ui.onMap, ui.checked, removes) == ui.onMap
  {
    var after := OnChange(layers, ui.onMap, ui.checked, removes);
    forall r ensures r in after <==> r in ui.onMap {
      if IsManaged(layers, r) {
        assert removes && r in after ==> r == Managed(ui.checked);
      }
    }
  }

  /** The state after a sequence of user choices. */
  function Run(layers: LayerSet, ui: Ui, choices: seq<Key>, removes: bool): Ui
    requires forall i :: 0 <= i < |choices| ==> choices[i] in layers
    decreases |choices|
  {
    if |choices| == 0 then ui
    else Run(layers, Select(layers, ui, choices[0], removes), choices[1..], removes)
  }

  /** When removal works, after any sequence of choices exactly one managed layer is on the
      map, the last one chosen (or the initial one when nothing was chosen), and the host's
      other layers are as they were. Only choices made in the switcher are covered: a host
      layers control that also lists `ortho` can add it independently. */
  lemma {:induction false} RunKeepsExclusive(layers: LayerSet, ui: Ui, choices: seq<Key>, removes: bool)
    requires Exclusive(layers, ui)
    requires forall i :: 0 <= i < |choices| ==> choices[i] in layers
    ensures var final := Run(layers, ui, choices, removes);
      && final.checked == (if |choices| == 0 then ui.checked else choices[|choices| - 1])
      && (removes ==> Exclusive(layers, final))
      && (removes ==> forall r :: IsManaged(layers, r) && r in final.onMap ==> r == Managed(final.checked))
      && (forall r :: !IsManaged(layers, r) ==> (r in final.onMap <==> r in ui.onMap))
    decreases |choices|
  {
    if |choices| > 0 {
      var next := Select(layers, ui, choices[0], removes);
      if removes {
        RunKeepsExclusive(layers, next, choices[1..], removes);
      } else {
        RunKeepsHostLayers(layers, next, choices[1..]);
      }
    }
  }

  /** The host's own layers survive any sequence of choices, whatever removal does. */
  lemma {:induction false} RunKeepsHostLayers(layers: LayerSet, ui: Ui, choices: seq<Key>)
    requires forall i :: 0 <= i < |choices| ==> choices[i] in layers
    ensures var final := Run(layers, ui, choices, false);
      && final.checked == (if |choices| == 0 then ui.checked else choices[|choices| - 1])
      && (forall r :: !IsManaged(layers, r) ==> (r in final.onMap <==> r in ui.onMap))
    decreases |choices|
  {
    if |choices| > 0 {
      RunKeepsHostLayers(layers, Select(layers, ui, choices[0], false), choices[1..]);
    }
  }

  /** On a map whose `removeLayer` does not work, nothing is ever taken off: the map ends
      up holding what it held plus every layer chosen so far. */
  lemma {:induction false} RunAccumulates(layers: LayerSet, ui: Ui, choices: seq<Key>)
    requires Managed(ui.checked) in ui.onMap
    requires forall i :: 0 <= i < |choices| ==> choices[i] in layers
    ensures var final := Run(layers, ui, choices, false);
      forall r :: r in final.onMap <==>
        r in ui.onMap || exists i :: 0 <= i < |choices| && r == Managed(choices[i])
    decreases |choices|
  {
    if |choices| > 0 {
      var next := Select(layers, ui, choices[0], false);
      RunAccumulates(layers, next, choices[1..]);
      var final := Run(layers, ui, choices, false);
      forall r ensures r in final.onMap <==>
        r in ui.onMap || exists i :: 0 <= i < |choices| && r == Managed(choices[i])
      {
        if exists i :: 0 <= i < |choices[1..]| && r == Managed(choices[1..][i]) {
          var i :| 0 <= i < |choices[1..]| && r == Managed(choices[1..][i]);
          assert r == Managed(choices[i + 1]);
        }
        if exists i :: 0 <= i < |choices| && r == Managed(choices[i]) {
          var i :| 0 <= i < |choices| && r == Managed(choices[i]);
          if i > 0 {
            assert r == Managed(choices[1..][i - 1]);
          }
        }
      }
    }
  }

  /** Without a working `removeLayer`, choosing heb after the switcher started on ortho
      leaves both layers on the map. */
  lemma StuckLayers(layers: LayerSet, onMap: set<LayerRef>)
    requires HasBaseLayers(layers) && Ortho in layers
    ensures var ui := Select(layers, AddMiniSwitcher(layers, onMap, false), Heb, false);
      ui.checked == Heb && Managed(Ortho) in ui.onMap && Managed(Heb) in ui.onMap
  {}

  /** With neither ortho nor topo25 resolved, the switcher offers exactly the two
      base-language options and starts on the Hebrew base map. */
  lemma BaseOnlySwitcher(layers: LayerSet, onMap: set<LayerRef>, removes: bool)
    requires HasBaseLayers(layers) && Ortho !in layers && Topo25 !in layers
    ensures Options(layers) == [Heb, Eng]
    ensures AddMiniSwitcher(layers, onMap, removes).checked == Heb
  {}
}
