/** `findMapInstance`: locate the host page's map by duck typing. The well-known
    `window.map` binding is tried first, then every enumerable global in order. */
module Locator {
  import opened Maybe

  /** A host object, reduced to its identity and which of its operations exist: the three
      the locator probes, and `getContainer` and `removeLayer`, which the compact switcher
      calls later without the locator having checked them. */
  datatype HostObject = HostObject(id: nat, getCenter: bool, addLayer: bool, on: bool,
                                   getContainer: bool, removeLayer: bool)

  /** One enumerated global: reading it throws, or it yields a value (None when falsy). */
  datatype Global = Throws | Value(value: Option<HostObject>)

  /** The test applied to `window.map`: `getCenter` and `addLayer` only. */
  predicate WellKnownConforms(o: HostObject) {
    o.getCenter && o.addLayer
  }

  /** The test applied during the scan: `getCenter`, `addLayer` and `on`. */
  predicate Conforms(o: HostObject) {
    o.getCenter && o.addLayer && o.on
  }

  /** The scan accepts this global. */
  predicate Matches(g: Global) {
    g.Value? && g.value.Some? && Conforms(g.value.value)
  }

  /** The `for (const k in window)` scan: the first global whose value conforms; a global
      whose access throws is skipped like a non-conforming one. */
  function Scan(globals: seq<Global>): (r: Option<HostObject>)
    ensures r.Some? ==> exists i :: 0 <= i < |globals| && Matches(globals[i])
                          && globals[i].value.value == r.value
                          && forall j :: 0 <= j < i ==> !Matches(globals[j])
    ensures r.None? <==> forall i :: 0 <= i < |globals| ==> !Matches(globals[i])
    decreases |globals|
  {
    if |globals| == 0 then None
    else if Matches(globals[0]) then Some(globals[0].value.value)
    else
      var rest := Scan(globals[1..]);
      assert forall i :: 1 <= i < |globals| ==> globals[i] == globals[1..][i - 1];
      rest
  }

  /** The locator. `windowMap` is the value of `window.map` (None when absent or falsy). */
  function FindMapInstance(windowMap: Option<HostObject>, globals: seq<Global>): (r: Option<HostObject>)
    ensures windowMap.Some? && WellKnownConforms(windowMap.value) ==> r == windowMap
    ensures r.Some? ==> r.value.getCenter && r.value.addLayer
    ensures r.Some? && r != windowMap ==> Conforms(r.value)
    ensures r.Some? && !(windowMap.Some? && WellKnownConforms(windowMap.value)) ==>
      exists i :: 0 <= i < |globals| && Matches(globals[i]) && globals[i].value.value == r.value
                  && forall j :: 0 <= j < i ==> !Matches(globals[j])
    ensures r.None? <==>
      !(windowMap.Some? && WellKnownConforms(windowMap.value))
      && forall i :: 0 <= i < |globals| ==> !Matches(globals[i])
  {
    if windowMap.Some? && WellKnownConforms(windowMap.value) then windowMap else Scan(globals)
  }

  /** Without a conforming `window.map`, the located map is the first conforming global in
      enumeration order: no earlier global (throwing or not) is returned instead. */
  lemma {:induction false} ScanFindsFirst(globals: seq<Global>, k: nat)
    requires k < |globals| && Matches(globals[k])
    requires forall j :: 0 <= j < k ==> !Matches(globals[j])
    ensures Scan(globals) == Some(globals[k].value.value)
    decreases k
  {
    if k > 0 {
      assert globals[1..][k - 1] == globals[k];
      ScanFindsFirst(globals[1..], k - 1);
    }
  }

  /** The asymmetry of the two tests: a `window.map` lacking `on` is accepted, while the
      very same object met during the scan is passed over. */
  lemma WellKnownAsymmetry(o: HostObject, globals: seq<Global>)
    requires o.getCenter && o.addLayer && !o.on
    requires forall i :: 0 <= i < |globals| ==> !Matches(globals[i])
    ensures FindMapInstance(Some(o), globals) == Some(o)
    ensures FindMapInstance(None, globals + [Value(Some(o))]) == None
  {
    var gs := globals + [Value(Some(o))];
    assert forall i :: 0 <= i < |gs| ==> !Matches(gs[i]) by {
      forall i | 0 <= i < |gs| ensures !Matches(gs[i]) {
        if i < |globals| {
          assert gs[i] == globals[i];
        }
      }
    }
  }
}
