/** Candidate tile templates: the ordered cartesian product
    server base × layer alias × file extension (base outermost, extension innermost). */
module CandidateSet {

  const Placeholders := "/GoogleMapsCompatible/{z}/{x}/{y}"

  /** One WMTS tile template, `${b}/${l}/GoogleMapsCompatible/{z}/{x}/{y}${ext}`. */
  function Template(base: string, alias: string, ext: string): string {
    base + "/" + alias + Placeholders + ext
  }

  /** The templates of one base and one alias, one per extension, in extension order. */
  function ForAlias(base: string, alias: string, exts: seq<string>): (r: seq<string>)
    ensures |r| == |exts|
    ensures forall e :: 0 <= e < |exts| ==> r[e] == Template(base, alias, exts[e])
  {
    seq(|exts|, e requires 0 <= e < |exts| => Template(base, alias, exts[e]))
  }

  /** The templates of one base, alias by alias. */
  function ForBase(base: string, aliases: seq<string>, exts: seq<string>): (r: seq<string>)
    ensures |r| == |aliases| * |exts|
    decreases |aliases|
  {
    if |aliases| == 0 then []
    else ForAlias(base, aliases[0], exts) + ForBase(base, aliases[1..], exts)
  }

  /** The whole candidate list, base by base (the three nested `forEach` loops). */
  function Candidates(bases: seq<string>, aliases: seq<string>, exts: seq<string>): (r: seq<string>)
    ensures |r| == |bases| * |aliases| * |exts|
    decreases |bases|
  {
    if |bases| == 0 then []
    else
      var rest := Candidates(bases[1..], aliases, exts);
      assert |rest| == (|bases| - 1) * |aliases| * |exts|;
      ForBase(bases[0], aliases, exts) + rest
  }

  /** Position of the template of (base b, alias l, extension e) in the candidate list. */
  function Position(b: nat, l: nat, e: nat, nAliases: nat, nExts: nat): nat {
    (b * nAliases + l) * nExts + e
  }

  lemma MulLeMul(a: nat, b: nat, c: nat)
    requires a <= b
    ensures a * c <= b * c
  {}

  /** Moving to the next base skips one whole block of |aliases|·|exts| templates. */
  lemma PositionStep(b: nat, l: nat, e: nat, nAliases: nat, nExts: nat)
    requires b > 0
    ensures Position(b, l, e, nAliases, nExts) == nAliases * nExts + Position(b - 1, l, e, nAliases, nExts)
  {
    calc {
      (b * nAliases + l) * nExts;
      ((b - 1) * nAliases + nAliases + l) * nExts;
      ((b - 1) * nAliases + l) * nExts + nAliases * nExts;
    }
  }

  /** Moving to the next alias skips one block of |exts| templates. */
  lemma AliasStep(l: nat, e: nat, nExts: nat)
    requires l > 0
    ensures l * nExts + e == nExts + ((l - 1) * nExts + e)
  {}

  /** Every position lies inside the list. */
  lemma PositionBound(b: nat, l: nat, e: nat, nBases: nat, nAliases: nat, nExts: nat)
    requires b < nBases && l < nAliases && e < nExts
    ensures Position(b, l, e, nAliases, nExts) < nBases * nAliases * nExts
  {
    assert b * nAliases + l + 1 <= nBases * nAliases by {
      MulLeMul(b + 1, nBases, nAliases);
    }
    MulLeMul(b * nAliases + l + 1, nBases * nAliases, nExts);
  }

  lemma {:induction false} ForBaseAt(base: string, aliases: seq<string>, exts: seq<string>, l: nat, e: nat)
    requires l < |aliases| && e < |exts|
    ensures l * |exts| + e < |ForBase(base, aliases, exts)|
    ensures ForBase(base, aliases, exts)[l * |exts| + e] == Template(base, aliases[l], exts[e])
    decreases |aliases|
  {
    PositionBound(0, l, e, 1, |aliases|, |exts|);
    var head := ForAlias(base, aliases[0], exts);
    if l > 0 {
      ForBaseAt(base, aliases[1..], exts, l - 1, e);
      AliasStep(l, e, |exts|);
    }
  }

  /** The template of (base b, alias l, extension e) sits at index (b·|aliases|+l)·|exts|+e. */
  lemma {:induction false} CandidateAt(bases: seq<string>, aliases: seq<string>, exts: seq<string>, b: nat, l: nat, e: nat)
    requires b < |bases| && l < |aliases| && e < |exts|
    ensures Position(b, l, e, |aliases|, |exts|) < |Candidates(bases, aliases, exts)|
    ensures Candidates(bases, aliases, exts)[Position(b, l, e, |aliases|, |exts|)]
            == Template(bases[b], aliases[l], exts[e])
    decreases |bases|
  {
    PositionBound(b, l, e, |bases|, |aliases|, |exts|);
    if b == 0 {
      FirstBaseAt(bases, aliases, exts, l, e);
    } else {
      CandidateAt(bases[1..], aliases, exts, b - 1, l, e);
      LaterBaseAt(bases, aliases, exts, b, l, e);
    }
  }

  /** Within the first base's block, positions are those of `ForBase`. */
  lemma FirstBaseAt(bases: seq<string>, aliases: seq<string>, exts: seq<string>, l: nat, e: nat)
    requires 0 < |bases| && l < |aliases| && e < |exts|
    ensures Position(0, l, e, |aliases|, |exts|) < |Candidates(bases, aliases, exts)|
    ensures Candidates(bases, aliases, exts)[Position(0, l, e, |aliases|, |exts|)]
            == Template(bases[0], aliases[l], exts[e])
  {
    ForBaseAt(bases[0], aliases, exts, l, e);
    var head := ForBase(bases[0], aliases, exts);
    assert Candidates(bases, aliases, exts) == head + Candidates(bases[1..], aliases, exts);
    assert Position(0, l, e, |aliases|, |exts|) == l * |exts| + e;
  }

  /** Past the first base's block, positions shift by one block. */
  lemma LaterBaseAt(bases: seq<string>, aliases: seq<string>, exts: seq<string>, b: nat, l: nat, e: nat)
    requires 0 < b < |bases| && l < |aliases| && e < |exts|
    requires Position(b - 1, l, e, |aliases|, |exts|) < |Candidates(bases[1..], aliases, exts)|
    ensures Position(b, l, e, |aliases|, |exts|) < |Candidates(bases, aliases, exts)|
    ensures Candidates(bases, aliases, exts)[Position(b, l, e, |aliases|, |exts|)]
            == Candidates(bases[1..], aliases, exts)[Position(b - 1, l, e, |aliases|, |exts|)]
  {
    PositionStep(b, l, e, |aliases|, |exts|);
    var head := ForBase(bases[0], aliases, exts);
    var rest := Candidates(bases[1..], aliases, exts);
    assert Candidates(bases, aliases, exts) == head + rest;
    assert |head| == |aliases| * |exts|;
  }

  /** The (base, alias, extension) coordinates of candidate index `i`. */
  function Coordinates(i: nat, nAliases: nat, nExts: nat): (nat, nat, nat)
    requires nAliases > 0 && nExts > 0
  {
    var n := nAliases * nExts;
    (i / n, (i % n) / nExts, (i % n) % nExts)
  }

  lemma ProductPositive(nBases: nat, nAliases: nat, nExts: nat, i: nat)
    requires i < nBases * nAliases * nExts
    ensures nAliases > 0 && nExts > 0 && nAliases * nExts > 0
  {}

  lemma QuotientBound(i: nat, m: nat, n: nat)
    requires n > 0 && i < m * n
    ensures i / n < m
  {
    if i / n >= m {
      MulLeMul(m, i / n, n);
    }
  }

  lemma PositionOfParts(b: nat, l: nat, e: nat, nAliases: nat, nExts: nat)
    ensures Position(b, l, e, nAliases, nExts) == b * (nAliases * nExts) + (l * nExts + e)
  {
    calc {
      (b * nAliases + l) * nExts + e;
      b * nAliases * nExts + l * nExts + e;
    }
  }

  lemma DivModParts(i: nat, n: nat)
    requires n > 0
    ensures i == (i / n) * n + i % n && i % n < n
  {}

  lemma Associate(a: nat, b: nat, c: nat)
    ensures a * b * c == a * (b * c)
  {}

  /** Splitting an index into coordinates inverts Position. */
  lemma Decompose(i: nat, nBases: nat, nAliases: nat, nExts: nat)
    requires i < nBases * nAliases * nExts
    ensures nAliases > 0 && nExts > 0
    ensures var c := Coordinates(i, nAliases, nExts);
      c.0 < nBases && c.1 < nAliases && c.2 < nExts && Position(c.0, c.1, c.2, nAliases, nExts) == i
  {
    ProductPositive(nBases, nAliases, nExts, i);
    var n := nAliases * nExts;
    Associate(nBases, nAliases, nExts);
    var b, r := i / n, i % n;
    DivModParts(i, n);
    var l, e := r / nExts, r % nExts;
    DivModParts(r, nExts);
    QuotientBound(i, nBases, n);
    QuotientBound(r, nAliases, nExts);
    PositionOfParts(b, l, e, nAliases, nExts);
  }

  /** Conversely, every candidate is the template of the triple its index decodes to, so the
      list holds nothing but templates of the three inputs. */
  lemma CandidateOrigin(bases: seq<string>, aliases: seq<string>, exts: seq<string>, i: nat)
    requires i < |Candidates(bases, aliases, exts)|
    ensures |aliases| > 0 && |exts| > 0
    ensures var c := Coordinates(i, |aliases|, |exts|);
      c.0 < |bases| && c.1 < |aliases| && c.2 < |exts|
      && Candidates(bases, aliases, exts)[i] == Template(bases[c.0], aliases[c.1], exts[c.2])
  {
    Decompose(i, |bases|, |aliases|, |exts|);
    var c := Coordinates(i, |aliases|, |exts|);
    CandidateAt(bases, aliases, exts, c.0, c.1, c.2);
  }

  /** No candidate is empty, so `if (tmpl)` in the caller is the same as "a template was found". */
  lemma CandidatesNonEmpty(bases: seq<string>, aliases: seq<string>, exts: seq<string>, i: nat)
    requires i < |Candidates(bases, aliases, exts)|
    ensures |Candidates(bases, aliases, exts)[i]| > 0
  {
    CandidateOrigin(bases, aliases, exts, i);
  }

  // ---------------------------------------------------------------------
  // The injector's constant inputs.

  const MapBase := "https://map.govmap.gov.il/wmts/1.0.0"
  const GisBase := "https://gis.govmap.gov.il/wmts/1.0.0"
  const CdnBase := "https://cdn.govmap.gov.il/wmts/1.0.0"
  const CdnIlBase := "https://cdnil.govmap.gov.il/wmts/1.0.0"

  const Bases: seq<string> := [MapBase, GisBase, CdnBase, CdnIlBase]
  const OrthoAliases: seq<string> := ["ORTHOPHOTO", "Orthophoto", "orthophoto", "Aerial", "AIRPHOTO"]
  const TopoAliases: seq<string> := ["TOPO_25K", "Topo_25K", "TOPOGRAPHIC", "TOPO", "Topographic"]
  const OrthoExts: seq<string> := [".jpeg", ".jpg", ".png"]
  const TopoExts: seq<string> := [".png", ".jpg", ".jpeg"]

  function OrthoCandidates(): seq<string> {
    Candidates(Bases, OrthoAliases, OrthoExts)
  }

  function TopoCandidates(): seq<string> {
    Candidates(Bases, TopoAliases, TopoExts)
  }

  /** Each category probes 4 · 5 · 3 = 60 candidates. */
  lemma SixtyCandidates()
    ensures |OrthoCandidates()| == 60 && |TopoCandidates()| == 60
  {}

  /** A template part that can neither start a placeholder nor open a query string. */
  predicate Plain(part: string) {
    '{' !in part && '?' !in part
  }

  predicate AllPlain(parts: seq<string>) {
    forall i :: 0 <= i < |parts| ==> Plain(parts[i])
  }

  lemma PlainMapBase() ensures Plain(MapBase) {}
  lemma PlainGisBase() ensures Plain(GisBase) {}
  lemma PlainCdnBase() ensures Plain(CdnBase) {}
  lemma PlainCdnIlBase() ensures Plain(CdnIlBase) {}

  lemma PlainBases()
    ensures AllPlain(Bases)
  {
    PlainMapBase();
    PlainGisBase();
    PlainCdnBase();
    PlainCdnIlBase();
  }

  lemma PlainOrthoAliases()
    ensures AllPlain(OrthoAliases)
  {
    assert Plain(OrthoAliases[0]);
    assert Plain(OrthoAliases[1]);
    assert Plain(OrthoAliases[2]);
    assert Plain(OrthoAliases[3]);
    assert Plain(OrthoAliases[4]);
  }

  lemma PlainTopoAliases()
    ensures AllPlain(TopoAliases)
  {
    assert Plain(TopoAliases[0]);
    assert Plain(TopoAliases[1]);
    assert Plain(TopoAliases[2]);
    assert Plain(TopoAliases[3]);
    assert Plain(TopoAliases[4]);
  }

  lemma PlainExts()
    ensures AllPlain(OrthoExts) && AllPlain(TopoExts)
  {
    assert Plain(OrthoExts[0]) && Plain(OrthoExts[1]) && Plain(OrthoExts[2]);
    assert Plain(TopoExts[0]) && Plain(TopoExts[1]) && Plain(TopoExts[2]);
  }
}
