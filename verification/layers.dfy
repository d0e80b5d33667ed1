/** The resolved layer set of `buildGovMapLayers`: ortho and topo25 when their
    search found a template, the two base-language layers always. */
module Layers {
  import opened Maybe
  import opened CandidateSet
  import opened Probe

  /** The four logical layer keys, in the order the compact switcher lists them. */
  datatype Key = Ortho | Topo25 | Heb | Eng

  /** A tile layer handle: its URL template and maximum zoom (attribution text is presentation). */
  datatype TileLayer = TileLayer(url: string, maxZoom: nat)

  type LayerSet = map<Key, TileLayer>

  const MaxZoom: nat := 19
  const HebUrl := "https://cdnil.govmap.gov.il/xyz/heb/{z}/{x}/{y}.png"
  const EngUrl := "https://cdnil.govmap.gov.il/xyz/eng/{z}/{x}/{y}.png"

  /** JavaScript truthiness of a search result: null and the empty string are falsy. */
  predicate Truthy(tmpl: Option<string>) {
    tmpl.Some? && tmpl.value != ""
  }

  /** Both base-language layers are present, as addMiniSwitcher needs. */
  predicate HasBaseLayers(layers: LayerSet) {
    Heb in layers && Eng in layers
  }

  /** Assembles the layer set from the two search results. */
  function AssembleLayers(orthoTmpl: Option<string>, topoTmpl: Option<string>): (layers: LayerSet)
    ensures HasBaseLayers(layers)
    ensures layers[Heb] == TileLayer(HebUrl, MaxZoom) && layers[Eng] == TileLayer(EngUrl, MaxZoom)
    ensures Ortho in layers <==> Truthy(orthoTmpl)
    ensures Topo25 in layers <==> Truthy(topoTmpl)
    ensures Ortho in layers ==> layers[Ortho] == TileLayer(orthoTmpl.value, MaxZoom)
    ensures Topo25 in layers ==> layers[Topo25] == TileLayer(topoTmpl.value, MaxZoom)
  {
    var base := map[Heb := TileLayer(HebUrl, MaxZoom), Eng := TileLayer(EngUrl, MaxZoom)];
    var withTopo := if Truthy(topoTmpl) then base[Topo25 := TileLayer(topoTmpl.value, MaxZoom)] else base;
    if Truthy(orthoTmpl) then withTopo[Ortho := TileLayer(orthoTmpl.value, MaxZoom)] else withTopo
  }

  /** The two categories are searched independently (their results are paired, as by
      `Promise.all`) over the same probe oracle, then assembled. */
  function BuildLayers(orthoCs: seq<string>, topoCs: seq<string>, ok: string -> bool): LayerSet {
    AssembleLayers(FindWorkingTemplate(orthoCs, ok).found, FindWorkingTemplate(topoCs, ok).found)
  }

  /** `buildGovMapLayers`, over the injector's own 60 + 60 candidates. */
  function BuildGovMapLayers(ok: string -> bool): LayerSet {
    BuildLayers(OrthoCandidates(), TopoCandidates(), ok)
  }

  /** A search over non-empty candidates never yields the empty string, so "found" and
      "truthy" agree. */
  lemma FoundIsTruthy(templates: seq<string>, ok: string -> bool)
    requires forall i :: 0 <= i < |templates| ==> templates[i] != ""
    ensures var r := FindWorkingTemplate(templates, ok).found;
      Truthy(r) <==> r.Some?
  {
    var r := FindWorkingTemplate(templates, ok);
    if r.found.Some? {
      var n := |r.probed|;
      assert r.probed == templates[..n];
    }
  }

  /** What a search contributes to the layer set: a layer exactly when some candidate's
      probe loads, and then the first such candidate in list order. */
  predicate ResolvedFrom(layers: LayerSet, key: Key, templates: seq<string>, ok: string -> bool) {
    && (key in layers <==> exists j :: 0 <= j < |templates| && ok(templates[j]))
    && (forall k :: 0 <= k < |templates| && ok(templates[k])
          && (forall j :: 0 <= j < k ==> !ok(templates[j]))
          ==> key in layers && layers[key].url == templates[k])
  }

  /** The ortho layer is present exactly when some ortho candidate's probe loads, and it
      then uses the first such candidate in list order; likewise for topo25. The two
      base-language layers are always present. */
  lemma {:induction false} ResolvedLayers(orthoCs: seq<string>, topoCs: seq<string>, ok: string -> bool)
    requires forall i :: 0 <= i < |orthoCs| ==> orthoCs[i] != ""
    requires forall i :: 0 <= i < |topoCs| ==> topoCs[i] != ""
    ensures var layers := BuildLayers(orthoCs, topoCs, ok);
      && HasBaseLayers(layers)
      && ResolvedFrom(layers, Ortho, orthoCs, ok)
      && ResolvedFrom(layers, Topo25, topoCs, ok)
  {
    var layers := BuildLayers(orthoCs, topoCs, ok);
    FoundIsTruthy(orthoCs, ok);
    FoundIsTruthy(topoCs, ok);
    FoundIffSomeLoads(orthoCs, ok);
    FoundIffSomeLoads(topoCs, ok);
    forall k | 0 <= k < |orthoCs| && ok(orthoCs[k]) && (forall j :: 0 <= j < k ==> !ok(orthoCs[j]))
      ensures Ortho in layers && layers[Ortho].url == orthoCs[k]
    {
      FirstSuccessWins(orthoCs, ok, k);
    }
    forall k | 0 <= k < |topoCs| && ok(topoCs[k]) && (forall j :: 0 <= j < k ==> !ok(topoCs[j]))
      ensures Topo25 in layers && layers[Topo25].url == topoCs[k]
    {
      FirstSuccessWins(topoCs, ok, k);
    }
  }

  /** Generated candidates are never empty, so ResolvedLayers applies to the injector's lists. */
  lemma NonEmptyCandidates(bases: seq<string>, aliases: seq<string>, exts: seq<string>)
    ensures var cs := Candidates(bases, aliases, exts);
      forall i :: 0 <= i < |cs| ==> cs[i] != ""
  {
    var cs := Candidates(bases, aliases, exts);
    forall i | 0 <= i < |cs| ensures cs[i] != "" {
      CandidatesNonEmpty(bases, aliases, exts, i);
    }
  }

  /** ResolvedLayers for candidate lists generated from any bases, aliases and extensions. */
  lemma GeneratedLayersResolved(bases: seq<string>, orthoAliases: seq<string>, orthoExts: seq<string>,
                                topoAliases: seq<string>, topoExts: seq<string>, ok: string -> bool)
    ensures HasBaseLayers(BuildLayers(Candidates(bases, orthoAliases, orthoExts), Candidates(bases, topoAliases, topoExts), ok))
    ensures ResolvedFrom(BuildLayers(Candidates(bases, orthoAliases, orthoExts), Candidates(bases, topoAliases, topoExts), ok),
                         Ortho, Candidates(bases, orthoAliases, orthoExts), ok)
    ensures ResolvedFrom(BuildLayers(Candidates(bases, orthoAliases, orthoExts), Candidates(bases, topoAliases, topoExts), ok),
                         Topo25, Candidates(bases, topoAliases, topoExts), ok)
  {
    NonEmptyCandidates(bases, orthoAliases, orthoExts);
    NonEmptyCandidates(bases, topoAliases, topoExts);
    assert forall i :: 0 <= i < |Candidates(bases, orthoAliases, orthoExts)| ==>
      Candidates(bases, orthoAliases, orthoExts)[i] != "";
    assert forall i :: 0 <= i < |Candidates(bases, topoAliases, topoExts)| ==>
      Candidates(bases, topoAliases, topoExts)[i] != "";
    ResolvedLayers(Candidates(bases, orthoAliases, orthoExts), Candidates(bases, topoAliases, topoExts), ok);
  }

  /** The injector's own layer set: the ortho and topo25 layers are resolved from the
      generated candidate lists as ResolvedLayers describes. */
  lemma GovMapLayersResolved(ok: string -> bool)
    ensures var layers := BuildGovMapLayers(ok);
      && HasBaseLayers(layers)
      && ResolvedFrom(layers, Ortho, OrthoCandidates(), ok)
      && ResolvedFrom(layers, Topo25, TopoCandidates(), ok)
  {
    GeneratedLayersResolved(Bases, OrthoAliases, OrthoExts, TopoAliases, TopoExts, ok);
  }
}
