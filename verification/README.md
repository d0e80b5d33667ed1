# GovMap background injector: a Dafny model

This project models the deterministic core of `govmap_bg_injector.js`, a script that is
injected into a page already running a Leaflet map. The script finds working GovMap WMTS tile
endpoints for two background categories: ortho imagery and the 1:25,000 topographic map. It
registers the layers it finds with the page's layers control. If it cannot, it builds a small
switcher of its own. It also adds a button that turns an elevation-probe mode on and off.

The browser pieces are replaced by parameters:

- An image probe is an oracle `ok: string -> bool`: it says whether the probe of a template loads.
- Clock readings (`Date.now()`) are given as plain numbers.
- Leaflet layers are keys (`ortho`, `topo25`, `heb`, `eng`).
- The map's layers are a set of references.
- The page's globals are a sequence of capability records.

Modules follow the script's parts:

| module | file | part of the script |
|---|---|---|
| `Maybe` | maybe.dfy | `null` results |
| `Text` | text.dfy | `indexOf`, `replace` with a string pattern, and number-to-string |
| `CandidateSet` | candidates.dfy | the template lists of `buildGovMapLayers` |
| `Probe` | probe.dfy | `probeTemplate` URL construction and `findWorkingTemplate` |
| `Layers` | layers.dfy | assembly of the layer set in `buildGovMapLayers` |
| `Switcher` | switcher.dfy | `addMiniSwitcher` |
| `Locator` | locator.dfy | `findMapInstance` |
| `ProbeButton` | probe_button.dfy | `addProbeButton` |
| `Startup` | startup.dfy | `ensureLayersControl` and the `start` strategy decision |

Behaviours of the script worth knowing, each shown by a member of the model:

- `findMapInstance` accepts `window.map` with only `getCenter` and `addLayer`; its scan of the other globals also requires `on` (`Locator.WellKnownAsymmetry`). A `window.map` without `on` is located, but the later `map.on('click', …)` call throws, `start` stops in its `catch`, and no map-click handler is attached (`Startup.Integrate`, field `clickListener`).
- The locator never checks `getContainer`, which the compact switcher calls (line 133) outside any `try`. When the switcher is needed for a map without it, `start` stops in its `catch`: no switcher, no probe button and no map-click handler (`Startup.MissingContainerAborts`).
- The locator never checks `removeLayer` either. The switcher's change handler calls it inside a per-layer `try` that swallows errors (line 127), so on a map without it nothing is removed and every chosen layer stays on the map (`Switcher.RunAccumulates`, `Switcher.StuckLayers`). Mutual exclusion (`Switcher.RunKeepsExclusive`) holds only with a working `removeLayer`.
- Only `ortho` and `topo25` are registered with the host's layers control. The base-language layers `heb` and `eng` are not registered.
- With a usable layers control and nothing resolved, nothing is registered, no switcher is built and no managed layer is put on the map (`Startup.ControlWithNothingResolved`).
- Suppose the control is usable, `ortho` registers, and the `topo25` registration throws. Then `ortho` stays registered and the compact switcher is built as well, given a map with `getContainer` (`Startup.PartialRegistration`). The switcher keeps exactly one of its layers on the map only as far as choices made in the switcher go (`Switcher.RunKeepsExclusive`): the host's layers control also lists `ortho` and can add it to the map while the switcher's layer is still there.

## Model

| member | source | states |
|---|---|---|
| Text.IndexOfSpec | govmap_bg_injector.js:49 | `indexOf('?')` returns the first position where the pattern occurs; it is none only when the pattern occurs nowhere |
| Text.HasCharSpec | govmap_bg_injector.js:49 | the test `tmpl.indexOf('?')>-1` holds exactly when the template contains a `?` |
| Text.ReplaceFirstSpec | govmap_bg_injector.js:49 | `replace` with a string pattern splices the replacement in at the position `indexOf` reports, the first occurrence only; without an occurrence the string is unchanged |
| Text.ParseDecimalInverse | govmap_bg_injector.js:49 | the decimal text appended after `ts=` reads back as the timestamp |
| Text.DecimalInjective | govmap_bg_injector.js:49 | different timestamps give different `ts=` values |
| CandidateSet.Candidates | govmap_bg_injector.js:75-82 | the candidate list has \|bases\|·\|aliases\|·\|exts\| entries |
| CandidateSet.CandidateAt | govmap_bg_injector.js:75-82 | the template of base b, alias l and extension e is at index (b·\|aliases\|+l)·\|exts\|+e (base outer, extension inner) |
| CandidateSet.CandidateOrigin | govmap_bg_injector.js:75-82 | every index decodes to a (base, alias, extension) triple whose template is the entry at that index |
| CandidateSet.SixtyCandidates | govmap_bg_injector.js:64-82 | each category has 4·5·3 = 60 candidates |
| Probe.ProbeUrlOfTemplate | govmap_bg_injector.js:49 | the probe URL of a template is that template with tile 12/2218/1546, then `&` if the template has a `?` and `?` otherwise, then `ts=` and the timestamp |
| Probe.CandidateProbeUrl | govmap_bg_injector.js:49 | the probe of each generated candidate asks for tile 12/2218/1546 of its own base, alias and extension; its query starts with `?ts=` and no `{` placeholder is left |
| Probe.InjectorProbeUrls | govmap_bg_injector.js:49 | no probe URL of the script's own 60 ortho and 60 topo candidates contains an unresolved `{` placeholder |
| Probe.FindWorkingTemplate | govmap_bg_injector.js:55-61 | probes form a prefix of the list; every probe before the last failed; a result is the last probe and loaded; no result means every template was probed and failed |
| Probe.FirstSuccessWins | govmap_bg_injector.js:55-61 | the first loading template is returned even when later ones would load, after exactly the probes up to and including it |
| Probe.AllFailNone | govmap_bg_injector.js:55-61 | when nothing loads, the search returns none after probing every candidate |
| Probe.FoundIffSomeLoads | govmap_bg_injector.js:55-61 | a template is found iff some candidate loads |
| Probe.OrthoCandidate37 | govmap_bg_injector.js:55-61 | ortho candidate #37 is the template of the third base, third alias and first extension; when it is the first to load it is returned after 37 probes |
| Layers.AssembleLayers | govmap_bg_injector.js:89-104 | `heb` and `eng` are always present with their fixed URLs; `ortho` and `topo25` are present iff their search result is truthy, and then carry that template; every layer has maxZoom 19 |
| Layers.FoundIsTruthy | govmap_bg_injector.js:90-101 | over non-empty candidates the `if (tmpl)` test is the same as "a template was found" |
| Layers.ResolvedLayers | govmap_bg_injector.js:84-104 | the layer set has `heb` and `eng`; it has `ortho` (`topo25`) iff some candidate of that category loads, with the first loading candidate as its URL |
| Layers.GovMapLayersResolved | govmap_bg_injector.js:84-104 | the injector's own layer set: `ortho` and `topo25` are resolved from the generated ortho and topo candidate lists as first-loading candidates, and `heb`/`eng` are present |
| Layers.GeneratedLayersResolved | govmap_bg_injector.js:75-104 | the same for candidate lists generated from any bases, aliases and extensions |
| Layers.NonEmptyCandidates | govmap_bg_injector.js:76-82 | no generated candidate is the empty string |
| Switcher.Options | govmap_bg_injector.js:137-141 | there are 2 to 4 options; `ortho` and `topo25` appear iff present; `heb` and `eng` always appear; the order is ortho, topo25, heb, eng |
| Switcher.OnChange | govmap_bg_injector.js:126-129 | after a change the chosen layer is on the map and the map's other layers are untouched; when the map's `removeLayer` works no other managed layer is on the map, and when it does not (each removal's error is swallowed) nothing is removed |
| Switcher.AddMiniSwitcher | govmap_bg_injector.js:132-146 | the first present option of ortho, topo25, heb is checked and its layer is on the map; it is the only managed layer there when `removeLayer` works or the map held no managed layer before |
| Switcher.Select | govmap_bg_injector.js:126-129 | choosing an option checks it; with a working `removeLayer` it keeps exactly its layer on the map, without one it adds the layer and removes nothing |
| Switcher.RecheckIsIdempotent | govmap_bg_injector.js:126-129 | re-running the handler of the checked option changes nothing, whether or not `removeLayer` works |
| Switcher.RunKeepsExclusive | govmap_bg_injector.js:126-129 | the last choice is checked and the host's other layers are unchanged; with a working `removeLayer`, exactly one managed layer is on the map after any sequence of choices, the last one chosen |
| Switcher.RunKeepsHostLayers | govmap_bg_injector.js:126-129 | without a working `removeLayer`, the last choice is still checked and the host's other layers are unchanged |
| Switcher.RunAccumulates | govmap_bg_injector.js:126-129 | without a working `removeLayer`, the map ends up holding exactly what it held plus every layer chosen |
| Switcher.StuckLayers | govmap_bg_injector.js:126-129 | without a working `removeLayer`, choosing heb after the switcher started on ortho leaves both on the map |
| Switcher.BaseOnlySwitcher | govmap_bg_injector.js:137-146 | with neither `ortho` nor `topo25`, the options are exactly heb, eng and heb is checked |
| Locator.Scan | govmap_bg_injector.js:21-29 | the scan returns the value of the first global having `getCenter`, `addLayer` and `on`, skipping globals that throw; none iff no global conforms |
| Locator.FindMapInstance | govmap_bg_injector.js:19-30 | a `window.map` with `getCenter` and `addLayer` wins; otherwise the result is the first global in enumeration order that has `getCenter`, `addLayer` and `on`; any result has both operations, and one that is not `window.map` also has `on`; none iff neither test passes |
| Locator.ScanFindsFirst | govmap_bg_injector.js:21-29 | the first conforming global in enumeration order is the one returned |
| Locator.WellKnownAsymmetry | govmap_bg_injector.js:20-26 | `window.map` lacking `on` is accepted, but the same object met in the scan is rejected |
| ProbeButton.ClickButton | govmap_bg_injector.js:160-165 | a click negates the truthiness of the probe flag and toggles the button's `active` class |
| ProbeButton.ClicksParity | govmap_bg_injector.js:160-165 | starting unset, the flag is on after n clicks iff n is odd, and the `active` class agrees with it |
| ProbeButton.MapClick | govmap_bg_injector.js:170-173 | a map click opens a popup, at the clicked point, iff the probe flag is on |
| ProbeButton.PopupAfterClicks | govmap_bg_injector.js:160-173 | after n button clicks a map click opens a popup iff n is odd |
| Startup.RegisterBaseLayers | govmap_bg_injector.js:186-194 | registration throws iff a call that is actually made throws; only present, non-throwing `ortho`/`topo25` layers get registered, each at most once and ortho before topo25; a present, non-throwing ortho is registered even when topo25 then throws; with no throw, exactly the present ones are registered |
| Startup.Integrate | govmap_bg_injector.js:168-200 | the compact-switcher strategy is chosen iff no layers control is usable or a registration threw; the switcher is built iff that strategy is chosen and the map has `getContainer`, and then checks its first option with that layer on the map, exclusively when `removeLayer` works or the map held no managed layer; the probe button is added unless the switcher's `getContainer` call threw; the map-click handler is attached iff the button was added and the map has `on`; the probe flag starts unset |
| Startup.Start | govmap_bg_injector.js:176-205 | a readiness timeout or a missing map leaves the page untouched; otherwise the located map is used, `heb` and `eng` are in the layer set, `ortho` (`topo25`) is present iff some generated candidate of that category loads and then uses the first such candidate, the compact-switcher strategy is chosen iff no control is usable or a registration threw, the switcher exists iff that strategy was chosen and the map has `getContainer`, the probe button is added iff the control strategy was used or the map has `getContainer`, and the map-click handler is attached iff the button was added and the map has `on` |
| Startup.ScannedMapListens | govmap_bg_injector.js:19-30 | a map found by the global scan always has `on`, so (by `Startup.Start`) it gets the map-click handler whenever the probe button is added |
| Startup.NoDuplicateSwitcher | govmap_bg_injector.js:186-199 | a usable control that takes every registration means no compact switcher, and exactly the resolved `ortho`/`topo25` layers are registered |
| Startup.FallbackWithBaseLayersOnly | govmap_bg_injector.js:196-199 | with no control and nothing resolved, the compact switcher is chosen with options heb and eng; when built (the map has `getContainer`) heb is checked and shown, and eng is not on the map when `removeLayer` works or the map held no managed layer |
| Startup.ControlWithNothingResolved | govmap_bg_injector.js:186-199 | with a usable control and nothing resolved, nothing is registered and no switcher is built |
| Startup.PartialRegistration | govmap_bg_injector.js:187-197 | if the topo25 registration throws after ortho succeeded, ortho stays registered and the compact switcher is chosen; when built it is on ortho |
| Startup.MissingContainerAborts | govmap_bg_injector.js:133 | when the compact switcher is needed and the located map has no `getContainer`, there is no switcher, no probe button and no map-click handler |

## Left out

- `waitFor` (lines 8-17): it polls with real time and `setTimeout`. The model reduces it to whether the library became ready (`Host.libraryReady`). Informally, the condition is also evaluated once at the first tick after the deadline, before the promise rejects.
- Image loading (`new Image`, `onload`/`onerror`, `crossOrigin`): replaced by the oracle `ok`. The oracle depends only on the template, not on the cache-busting timestamp. So the search's trace lists templates, not the URLs with their per-probe timestamps.
- `Promise.all`: the ortho and topo searches are independent. They are modelled as two separate searches whose results are paired.
- DOM construction, styling, label and popup texts, and attribution strings: presentation only.
- `Math.random` option ids: they do not affect behaviour.
- Leaflet calls (`L.tileLayer`, `L.control.layers`, `L.Control.extend`, `L.popup`, `addTo`): a foreign library. Layers are keys, and the map is a set of layer references.
- Whether adding the probe control to a map without `on` (line 169, `addTo`) already throws: that depends on Leaflet's `addTo`. The model assumes the control is added and records, in `clickListener`, that the `map.on` call at line 170 fails and ends `start`.
- `window.map` whose access throws: line 20 reads it outside any `try`. The model takes its value as given.
- `ensureLayersControl` storing the new control in `window.layersControl` (this only affects later scripts on the page) and seeding it with `window.baseLayers` (lines 35-36): a created control also lists the host's own base layers. The model does not track the control's entries, only which of the injector's layers were registered.
- Logging: side effects only. Of the errors the outer `catch` swallows, the model covers the `getContainer` and `map.on` calls on the located map; the other calls it could catch are into Leaflet or the DOM.
- Text.ReplaceFirstSpec: does not interpret `$` replacement patterns, because every replacement the script uses is a string of digits.
