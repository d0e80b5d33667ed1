/** The startup sequence (`start`): wait for the map library, locate the map, resolve
    the layers, register them with the host's layers control or fall back to the
    compact switcher, and always add the probe button. */
module Startup {
  import opened Maybe
  import opened Layers
  import opened Switcher
  import opened Locator
  import opened ProbeButton
  import opened CandidateSet

  /** What the host's layers control offers. `existing`: `window.layersControl` already has an
      `addBaseLayer` function; `createThrows`: creating one with `L.control.layers` throws;
      `addThrows`: the layers whose `addBaseLayer` call throws. */
  datatype ControlHost = ControlHost(existing: bool, createThrows: bool, addThrows: set<Key>)

  /** Everything `start` reads from the page. `libraryReady` is the verdict of the readiness
      wait (false when it timed out); `onMap` are the layers already on the host's map. */
  datatype Host = Host(libraryReady: bool, windowMap: Option<HostObject>, globals: seq<Global>,
                       control: ControlHost, onMap: set<LayerRef>)

  datatype Reason = Timeout | NoMap

  datatype Strategy = LayersControl | CompactSwitcher

  /** The result of `start`: inert, or integrated with the layers resolved, the strategy
      chosen, the layers that reached the layers control and the compact switcher if one was
      built. `probeButton` says whether the probe button was added and `clickListener`
      whether its map-click handler was attached; `probe` is the probe flag as the button
      first sees it (unset).
      Two calls on the located object can throw a TypeError that ends `start` in its
      `catch`: `map.getContainer()` when the compact switcher is built (then neither the
      switcher, nor the button, nor the handler exists) and `map.on` when the handler is
      attached (the button exists, the handler does not). */
  datatype Outcome =
    | Inert(reason: Reason)
    | Integrated(found: HostObject, layers: LayerSet, strategy: Strategy, registered: seq<Key>,
                 switcher: Option<Ui>, probeButton: bool, probe: ProbeState, clickListener: bool)

  /** `ensureLayersControl` returns a control (rather than null). */
  predicate ControlAvailable(c: ControlHost) {
    c.existing || !c.createThrows
  }

  /** Registration with the layers control: ortho then topo25, each only when present;
      the first call that throws ends the `try` block. */
  datatype Registration = Registration(registered: seq<Key>, threw: bool)

  /** Some `addBaseLayer` call that is actually made throws. */
  predicate RegistrationThrows(layers: LayerSet, addThrows: set<Key>) {
    (Ortho in layers && Ortho in addThrows) || (Topo25 in layers && Topo25 in addThrows)
  }

  function RegisterBaseLayers(layers: LayerSet, addThrows: set<Key>): (reg: Registration)
    ensures reg.threw <==> RegistrationThrows(layers, addThrows)
    ensures forall i :: 0 <= i < |reg.registered| ==>
      reg.registered[i] in layers && reg.registered[i] !in addThrows && reg.registered[i] in {Ortho, Topo25}
    ensures !reg.threw ==>
      (Ortho in reg.registered <==> Ortho in layers) && (Topo25 in reg.registered <==> Topo25 in layers)
    ensures Topo25 in reg.registered ==> !(Ortho in layers && Ortho in addThrows)
    ensures |reg.registered| <= 2 && (|reg.registered| == 2 ==> reg.registered == [Ortho, Topo25])
    ensures Ortho in layers && Ortho !in addThrows ==> Ortho in reg.registered
  {
    if Ortho in layers && Ortho in addThrows then Registration([], true)
    else
      var first := if Ortho in layers then [Ortho] else [];
      if Topo25 in layers && Topo25 in addThrows then Registration(first, true)
      else Registration(first + (if Topo25 in layers then [Topo25] else []), false)
  }

  /** After the layers are built: choose the strategy, then add the probe button. */
  function Integrate(found: HostObject, layers: LayerSet, host: Host): (o: Outcome)
    requires HasBaseLayers(layers)
    ensures o.Integrated? && o.found == found && o.layers == layers
    ensures o.probe == Initial
    ensures o.strategy == CompactSwitcher <==>
      !ControlAvailable(host.control) || RegistrationThrows(layers, host.control.addThrows)
    ensures o.switcher.Some? <==> o.strategy == CompactSwitcher && found.getContainer
    ensures o.probeButton <==> o.strategy == LayersControl || found.getContainer
    ensures o.clickListener <==> o.probeButton && found.on
    ensures o.switcher.Some? ==>
      && o.switcher.value.checked == Options(layers)[0]
      && Managed(o.switcher.value.checked) in o.switcher.value.onMap
      && (found.removeLayer || NoManagedOn(layers, host.onMap) ==> Exclusive(layers, o.switcher.value))
      && forall r :: !IsManaged(layers, r) ==> (r in o.switcher.value.onMap <==> r in host.onMap)
    ensures !ControlAvailable(host.control) ==> o.registered == []
  {
    var available := ControlAvailable(host.control);
    var reg := if available then RegisterBaseLayers(layers, host.control.addThrows)
               else Registration([], false);
    var usedControl := available && !reg.threw;
    if usedControl then
      Integrated(found, layers, LayersControl, reg.registered, None, true, Initial, found.on)
    else if found.getContainer then
      Integrated(found, layers, CompactSwitcher, reg.registered,
                 Some(AddMiniSwitcher(layers, host.onMap, found.removeLayer)), true, Initial, found.on)
    else
      Integrated(found, layers, CompactSwitcher, reg.registered, None, false, Initial, false)
  }

  /** `start`, with the probe oracle `ok` standing for every image load. */
  function Start(host: Host, ok: string -> bool): (o: Outcome)
    ensures o == Inert(Timeout) <==> !host.libraryReady
    ensures o == Inert(NoMap) <==>
      host.libraryReady && FindMapInstance(host.windowMap, host.globals).None?
    ensures o.Integrated? ==>
      && Some(o.found) == FindMapInstance(host.windowMap, host.globals)
      && HasBaseLayers(o.layers)
      && ResolvedFrom(o.layers, Ortho, OrthoCandidates(), ok)
      && ResolvedFrom(o.layers, Topo25, TopoCandidates(), ok)
    ensures o.Integrated? ==>
      (o.strategy == CompactSwitcher <==>
        !ControlAvailable(host.control) || RegistrationThrows(o.layers, host.control.addThrows))
    ensures o.Integrated? ==> (o.switcher.Some? <==> o.strategy == CompactSwitcher && o.found.getContainer)
    ensures o.Integrated? ==> (o.probeButton <==> o.strategy == LayersControl || o.found.getContainer)
    ensures o.Integrated? ==> (o.clickListener <==> o.probeButton && o.found.on)
  {
    if !host.libraryReady then Inert(Timeout)
    else
      match FindMapInstance(host.windowMap, host.globals)
      case None => Inert(NoMap)
      case Some(found) =>
        GovMapLayersResolved(ok);
        Integrate(found, BuildGovMapLayers(ok), host)
  }

  /** A map located by the scan always has `on`, so with Start's `clickListener` clause it
      gets the map-click handler whenever the probe button is added; only a `window.map`
      without `on` can lose it. */
  lemma ScannedMapListens(windowMap: Option<HostObject>, globals: seq<Global>)
    requires !(windowMap.Some? && WellKnownConforms(windowMap.value))
    requires FindMapInstance(windowMap, globals).Some?
    ensures FindMapInstance(windowMap, globals).value.on
  {}

  /** A usable layers control that accepts every registration means no compact switcher:
      the background choice is never offered twice. */
  lemma NoDuplicateSwitcher(found: HostObject, layers: LayerSet, host: Host)
    requires HasBaseLayers(layers)
    requires ControlAvailable(host.control) && !RegistrationThrows(layers, host.control.addThrows)
    ensures var o := Integrate(found, layers, host);
      o.strategy == LayersControl && o.switcher.None?
      && (Ortho in o.registered <==> Ortho in layers)
      && (Topo25 in o.registered <==> Topo25 in layers)
  {}

  /** With no layers control and nothing resolved, the fallback still offers the two
      base-language layers, with the Hebrew base map shown. */
  lemma FallbackWithBaseLayersOnly(found: HostObject, layers: LayerSet, host: Host)
    requires HasBaseLayers(layers) && Ortho !in layers && Topo25 !in layers
    requires !ControlAvailable(host.control)
    ensures var o := Integrate(found, layers, host);
      o.strategy == CompactSwitcher && Options(layers) == [Heb, Eng]
      && (o.switcher.Some? <==> found.getContainer)
      && (o.switcher.Some? ==>
            o.switcher.value.checked == Heb && Managed(Heb) in o.switcher.value.onMap
            && (found.removeLayer || NoManagedOn(layers, host.onMap) ==> Managed(Eng) !in o.switcher.value.onMap))
  {
    BaseOnlySwitcher(layers, host.onMap, found.removeLayer);
  }

  /** With a usable layers control and nothing resolved, nothing is registered and no
      switcher is built, so neither base-language layer reaches the map. */
  lemma ControlWithNothingResolved(found: HostObject, layers: LayerSet, host: Host)
    requires HasBaseLayers(layers) && Ortho !in layers && Topo25 !in layers
    requires ControlAvailable(host.control)
    ensures var o := Integrate(found, layers, host);
      o.strategy == LayersControl && o.registered == [] && o.switcher.None?
  {}

  /** A throw on the topo25 registration after ortho went through leaves ortho registered
      AND builds the compact switcher (given a map with `getContainer`). */
  lemma PartialRegistration(found: HostObject, layers: LayerSet, host: Host)
    requires HasBaseLayers(layers) && Ortho in layers && Topo25 in layers
    requires ControlAvailable(host.control)
    requires Ortho !in host.control.addThrows && Topo25 in host.control.addThrows
    ensures var o := Integrate(found, layers, host);
      o.registered == [Ortho] && o.strategy == CompactSwitcher
      && (o.switcher.Some? <==> found.getContainer)
      && (o.switcher.Some? ==> o.switcher.value.checked == Ortho)
  {}

  /** The locator never checks `getContainer`. When the compact switcher is needed for a map
      without it, `start` stops at that call: no switcher, no probe button, no map-click
      handler, while any layer already registered stays registered. */
  lemma MissingContainerAborts(found: HostObject, layers: LayerSet, host: Host)
    requires HasBaseLayers(layers) && !found.getContainer
    requires !ControlAvailable(host.control) || RegistrationThrows(layers, host.control.addThrows)
    ensures var o := Integrate(found, layers, host);
      o.strategy == CompactSwitcher && o.switcher.None? && !o.probeButton && !o.clickListener
  {}
}
