/** Probing candidate templates: the probe URL built from a template, and the
    sequential first-success search over a candidate list. The image load is an
    abstract oracle `ok`: true when the probe of that template loads. */
module Probe {
  import opened Maybe
  import opened Text
  import opened CandidateSet

  /** The fixed tile coordinate every probe asks for. */
  const ProbeZoom := "12"
  const ProbeColumn := "2218"
  const ProbeRow := "1546"

  /** The template with its first `{z}`, `{x}` and `{y}` filled in, in that order. */
  function FillProbeTile(tmpl: string): string {
    ReplaceFirst(ReplaceFirst(ReplaceFirst(tmpl, "{z}", ProbeZoom), "{x}", ProbeColumn), "{y}", ProbeRow)
  }

  /** The query separator: `&` when the template already has a query string, `?` otherwise. */
  function QuerySeparator(tmpl: string): char {
    if HasChar(tmpl, '?') then '&' else '?'
  }

  /** The tile URL a generated template yields for the probe tile. */
  function ProbeTileUrl(base: string, alias: string, ext: string): string {
    base + "/" + alias + "/GoogleMapsCompatible/12/2218/1546" + ext
  }

  /** The URL requested for a probe issued at time `now` (milliseconds). */
  function ProbeUrl(tmpl: string, now: nat): string {
    FillProbeTile(tmpl) + [QuerySeparator(tmpl)] + "ts=" + Decimal(now)
  }

  /** One replacement step: the first `pat` after a prefix free of `pat[0]` is the one replaced. */
  lemma ReplaceAfter(pre: string, pat: string, rep: string, post: string)
    requires |pat| > 0 && pat[0] !in pre
    ensures ReplaceFirst(pre + pat + post, pat, rep) == pre + rep + post
  {
    assert pre + pat + post == pre + (pat + post);
    ReplaceFirstSkipsPrefix(pre, pat + post, pat, rep);
    ReplaceFirstAtStart(pat, post, rep);
  }

  // Sequence algebra for the three filling steps, kept apart from ReplaceFirst so that
  // the solver does not unfold the replacement while rearranging literals.

  lemma SplitZoom(p: string, ext: string)
    ensures p + "{z}/{x}/{y}" + ext == p + "{z}" + ("/{x}/{y}" + ext)
    ensures p + "12" + ("/{x}/{y}" + ext) == (p + "12/") + "{x}" + ("/{y}" + ext)
  {}

  lemma SplitColumn(p: string, ext: string)
    ensures (p + "12/") + "2218" + ("/{y}" + ext) == (p + "12/2218/") + "{y}" + ext
  {}

  lemma JoinRow(p: string, ext: string)
    ensures (p + "12/2218/") + "1546" + ext == p + "12/2218/1546" + ext
  {}

  lemma NoBrace(p: string)
    requires '{' !in p
    ensures '{' !in p + "12/" && '{' !in p + "12/2218/"
  {}

  /** Filling the probe tile into `p` followed by the three placeholders. */
  lemma FillAfter(p: string, ext: string)
    requires '{' !in p
    ensures FillProbeTile(p + "{z}/{x}/{y}" + ext) == p + "12/2218/1546" + ext
  {
    NoBrace(p);
    SplitZoom(p, ext);
    ReplaceAfter(p, "{z}", "12", "/{x}/{y}" + ext);
    ReplaceAfter(p + "12/", "{x}", "2218", "/{y}" + ext);
    SplitColumn(p, ext);
    ReplaceAfter(p + "12/2218/", "{y}", "1546", ext);
    JoinRow(p, ext);
  }

  lemma TemplateParts(base: string, alias: string, ext: string)
    requires '{' !in base && '{' !in alias
    ensures var p := base + "/" + alias + "/GoogleMapsCompatible/";
      '{' !in p
      && Template(base, alias, ext) == p + "{z}/{x}/{y}" + ext
      && p + "12/2218/1546" + ext == base + "/" + alias + "/GoogleMapsCompatible/12/2218/1546" + ext
  {
    assert '{' !in "/GoogleMapsCompatible/";
  }

  /** Filling the probe tile into a generated template. */
  lemma FillTemplate(base: string, alias: string, ext: string)
    requires '{' !in base && '{' !in alias
    ensures FillProbeTile(Template(base, alias, ext)) == ProbeTileUrl(base, alias, ext)
  {
    TemplateParts(base, alias, ext);
    FillAfter(base + "/" + alias + "/GoogleMapsCompatible/", ext);
  }

  /** The separator a generated template gets: `&` exactly when base, alias or extension
      already carry a `?`. */
  lemma TemplateSeparator(base: string, alias: string, ext: string)
    ensures QuerySeparator(Template(base, alias, ext))
         == if '?' in base || '?' in alias || '?' in ext then '&' else '?'
  {
    var t := Template(base, alias, ext);
    HasCharSpec(t, '?');
    assert ('?' in t) <==> ('?' in base || '?' in alias || '?' in ext) by {
      assert '?' !in Placeholders;
      assert t == base + "/" + alias + Placeholders + ext;
    }
  }

  /** The probe URL of a generated template: the three placeholders become the probe
      tile, and the timestamp is appended with `&` exactly when base, alias or
      extension already carry a `?`. Only base and alias must be free of `{`: the
      extension follows the placeholders and is never searched. */
  lemma ProbeUrlOfTemplate(base: string, alias: string, ext: string, now: nat)
    requires '{' !in base && '{' !in alias
    ensures ProbeUrl(Template(base, alias, ext), now)
         == ProbeTileUrl(base, alias, ext)
            + [if '?' in base || '?' in alias || '?' in ext then '&' else '?']
            + "ts=" + Decimal(now)
  {
    FillTemplate(base, alias, ext);
    TemplateSeparator(base, alias, ext);
  }

  /** The concrete probe URL of plain parts carries no placeholder. */
  lemma NoPlaceholderLeft(base: string, alias: string, ext: string, now: nat)
    requires Plain(base) && Plain(alias) && Plain(ext)
    ensures '{' !in ProbeTileUrl(base, alias, ext) + "?ts=" + Decimal(now)
  {
    assert '{' !in "/GoogleMapsCompatible/12/2218/1546";
    assert '{' !in "?ts=";
    var d := Decimal(now);
    assert '{' !in d by {
      forall k | 0 <= k < |d| ensures d[k] != '{' {
        assert IsDigit(d[k]);
      }
    }
  }

  /** Every probe of a candidate built from plain parts asks for tile 12/2218/1546 of that
      base, alias and extension, starts its query string with `?ts=`, and leaves no
      placeholder in the URL. */
  lemma CandidateProbeUrl(bases: seq<string>, aliases: seq<string>, exts: seq<string>, i: nat, now: nat)
    requires AllPlain(bases) && AllPlain(aliases) && AllPlain(exts)
    requires i < |Candidates(bases, aliases, exts)|
    ensures |aliases| > 0 && |exts| > 0
    ensures var c := Coordinates(i, |aliases|, |exts|);
      c.0 < |bases| && c.1 < |aliases| && c.2 < |exts|
      && ProbeUrl(Candidates(bases, aliases, exts)[i], now)
         == ProbeTileUrl(bases[c.0], aliases[c.1], exts[c.2]) + "?ts=" + Decimal(now)
    ensures '{' !in ProbeUrl(Candidates(bases, aliases, exts)[i], now)
  {
    CandidateOrigin(bases, aliases, exts, i);
    var c := Coordinates(i, |aliases|, |exts|);
    PlainTemplateUrl(Candidates(bases, aliases, exts)[i], bases[c.0], aliases[c.1], exts[c.2], now);
  }

  lemma PlainTemplateUrl(t: string, base: string, alias: string, ext: string, now: nat)
    requires Plain(base) && Plain(alias) && Plain(ext) && t == Template(base, alias, ext)
    ensures ProbeUrl(t, now) == ProbeTileUrl(base, alias, ext) + "?ts=" + Decimal(now)
    ensures '{' !in ProbeUrl(t, now)
  {
    ProbeUrlOfTemplate(base, alias, ext, now);
    JoinQuery(ProbeTileUrl(base, alias, ext), Decimal(now));
    NoPlaceholderLeft(base, alias, ext, now);
  }

  lemma JoinQuery(url: string, digits: string)
    ensures url + ['?'] + "ts=" + digits == url + "?ts=" + digits
  {}

  /** The injector's own candidates are all built from plain parts. */
  lemma InjectorProbeUrls(i: nat, now: nat)
    ensures i < 60 ==> '{' !in ProbeUrl(OrthoCandidates()[i], now) && '{' !in ProbeUrl(TopoCandidates()[i], now)
  {
    PlainBases();
    PlainOrthoAliases();
    PlainTopoAliases();
    PlainExts();
    if i < 60 {
      CandidateProbeUrl(Bases, OrthoAliases, OrthoExts, i, now);
      CandidateProbeUrl(Bases, TopoAliases, TopoExts, i, now);
    }
  }

  // ---------------------------------------------------------------------
  // First-success search.

  /** Outcome of a search: the template found, if any, and the templates probed, in order. */
  datatype Search = Search(found: Option<string>, probed: seq<string>)

  /** `findWorkingTemplate`: probe the candidates strictly one after another and stop at
      the first whose probe loads. */
  function FindWorkingTemplate(templates: seq<string>, ok: string -> bool): (r: Search)
    ensures r.probed <= templates
    ensures forall i :: 0 <= i < |r.probed| - 1 ==> !ok(r.probed[i])
    ensures r.found.Some? ==>
      |r.probed| > 0 && r.found.value == r.probed[|r.probed| - 1] && ok(r.found.value)
    ensures r.found.None? ==>
      r.probed == templates && forall i :: 0 <= i < |templates| ==> !ok(templates[i])
    decreases |templates|
  {
    if |templates| == 0 then Search(None, [])
    else if ok(templates[0]) then Search(Some(templates[0]), [templates[0]])
    else
      var rest := FindWorkingTemplate(templates[1..], ok);
      assert templates == [templates[0]] + templates[1..];
      Search(rest.found, [templates[0]] + rest.probed)
  }

  /** The first template in list order whose probe loads is the one returned, even when
      later ones would load too; exactly the templates up to and including it are probed. */
  lemma FirstSuccessWins(templates: seq<string>, ok: string -> bool, k: nat)
    requires k < |templates| && ok(templates[k])
    requires forall j :: 0 <= j < k ==> !ok(templates[j])
    ensures FindWorkingTemplate(templates, ok) == Search(Some(templates[k]), templates[..k + 1])
  {
    var r := FindWorkingTemplate(templates, ok);
    var n := |r.probed|;
    assert r.probed == templates[..n];
  }

  /** When no candidate loads, the search returns none (it does not fail) after probing all of them. */
  lemma AllFailNone(templates: seq<string>, ok: string -> bool)
    requires forall j :: 0 <= j < |templates| ==> !ok(templates[j])
    ensures FindWorkingTemplate(templates, ok) == Search(None, templates)
  {
    var r := FindWorkingTemplate(templates, ok);
  }

  /** A template is found exactly when some candidate's probe loads. */
  lemma FoundIffSomeLoads(templates: seq<string>, ok: string -> bool)
    ensures FindWorkingTemplate(templates, ok).found.Some?
        <==> exists j :: 0 <= j < |templates| && ok(templates[j])
  {
    var r := FindWorkingTemplate(templates, ok);
    if r.found.Some? {
      var n := |r.probed|;
      assert r.probed == templates[..n];
      assert ok(templates[n - 1]);
    }
  }

  /** The 60-candidate ortho scenario: when candidate #37 (index 36, the third base with the
      third alias and the first extension) is the first to load, it is returned after
      exactly 37 probes. */
  lemma OrthoCandidate37(ok: string -> bool)
    requires ok(OrthoCandidates()[36]) && forall j :: 0 <= j < 36 ==> !ok(OrthoCandidates()[j])
    ensures OrthoCandidates()[36] == Template(Bases[2], OrthoAliases[2], OrthoExts[0])
    ensures var r := FindWorkingTemplate(OrthoCandidates(), ok);
      r.found == Some(OrthoCandidates()[36]) && r.probed == OrthoCandidates()[..37]
  {
    SixtyCandidates();
    CandidateAt(Bases, OrthoAliases, OrthoExts, 2, 2, 0);
    FirstSuccessWins(OrthoCandidates(), ok, 36);
  }
}
