/** String primitives the injector relies on: `String.prototype.indexOf`,
    `String.prototype.replace` with a string pattern, and the decimal
    rendering of an integral Number when it is concatenated to a string. */
module Text {
  import opened Maybe

  /** True when `pat` occurs in `s` starting at position `i`. */
  predicate OccursAt(s: string, pat: string, i: nat) {
    i <= |s| && pat <= s[i..]
  }

  /** Position of the first occurrence of `pat` in `s` (`s.indexOf(pat)`, with -1 as None);
      IndexOfSpec states that it is the first occurrence. */
  function IndexOf(s: string, pat: string): Option<nat>
    decreases |s|
  {
    if pat <= s then Some(0)
    else if |s| == 0 then None
    else
      match IndexOf(s[1..], pat)
      case None => None
      case Some(i) => Some(i + 1)
  }

  /** IndexOf reports an occurrence with none before it, and reports none only when
      there is no occurrence at all. */
  lemma {:induction false} IndexOfSpec(s: string, pat: string)
    ensures IndexOf(s, pat).Some? ==> OccursAt(s, pat, IndexOf(s, pat).value)
    ensures IndexOf(s, pat).Some? ==> forall j: nat :: j < IndexOf(s, pat).value ==> !OccursAt(s, pat, j)
    ensures IndexOf(s, pat).None? ==> forall j: nat :: !OccursAt(s, pat, j)
    decreases |s|
  {
    if !(pat <= s) && |s| > 0 {
      IndexOfSpec(s[1..], pat);
      ShiftOccurrence(s, pat);
    } else if pat <= s {
      assert OccursAt(s, pat, 0) by {
        assert s[0..] == s;
      }
    }
  }

  /** An occurrence at `j + 1` in `s` is an occurrence at `j` in the tail of `s`. */
  lemma ShiftOccurrence(s: string, pat: string)
    requires |s| > 0
    ensures OccursAt(s, pat, 0) <==> pat <= s
    ensures forall j: nat :: OccursAt(s, pat, j + 1) <==> OccursAt(s[1..], pat, j)
    ensures forall j: nat :: 0 < j ==> (OccursAt(s, pat, j) <==> OccursAt(s[1..], pat, j - 1))
  {
    assert s[0..] == s;
    forall j: nat
      ensures OccursAt(s, pat, j + 1) <==> OccursAt(s[1..], pat, j)
    {
      if j + 1 <= |s| {
        assert s[j + 1..] == s[1..][j..];
      }
    }
  }

  /** `s.indexOf(c) > -1` for a one-character pattern `c`. */
  predicate HasChar(s: string, c: char) {
    IndexOf(s, [c]).Some?
  }

  /** `indexOf` of one character finds it exactly when it occurs in the string. */
  lemma HasCharSpec(s: string, c: char)
    ensures HasChar(s, c) <==> c in s
  {
    IndexOfSpec(s, [c]);
    if c in s {
      var i :| 0 <= i < |s| && s[i] == c;
      assert [c] <= s[i..];
      assert OccursAt(s, [c], i);
    }
    if HasChar(s, c) {
      var i := IndexOf(s, [c]).value;
      assert OccursAt(s, [c], i);
      assert s[i..][0] == c;
    }
  }

  /** `s.replace(pat, rep)` with a string pattern: only the FIRST occurrence of
      `pat` is replaced; when `pat` does not occur, `s` is returned unchanged
      (ReplaceFirstSpec). Replacement patterns such as `$&` are not interpreted:
      every replacement used by the injector is a string of digits. */
  function ReplaceFirst(s: string, pat: string, rep: string): string
    decreases |s|
  {
    if pat <= s then rep + s[|pat|..]
    else if |s| == 0 then s
    else [s[0]] + ReplaceFirst(s[1..], pat, rep)
  }

  lemma ReplaceAtPrefix(s: string, pat: string, rep: string)
    requires pat <= s
    ensures IndexOf(s, pat) == Some(0)
    ensures ReplaceFirst(s, pat, rep) == s[..0] + rep + s[|pat|..]
  {
    assert s[..0] + rep + s[|pat|..] == rep + s[|pat|..];
  }

  lemma ReplacePastHead(s: string, pat: string, rep: string)
    requires !(pat <= s) && |s| > 0
    ensures ReplaceFirst(s, pat, rep) == [s[0]] + ReplaceFirst(s[1..], pat, rep)
    ensures IndexOf(s[1..], pat).None? ==> IndexOf(s, pat).None?
    ensures IndexOf(s[1..], pat).Some? ==> IndexOf(s, pat) == Some(IndexOf(s[1..], pat).value + 1)
  {}

  lemma SpliceInTail(s: string, i: nat, n: nat, rep: string)
    requires |s| > 0 && i + n <= |s| - 1
    ensures [s[0]] + (s[1..][..i] + rep + s[1..][i + n..]) == s[..i + 1] + rep + s[i + 1 + n..]
    ensures [s[0]] + s[1..] == s
  {
    assert s[..i + 1] == [s[0]] + s[1..][..i];
    assert s[i + 1 + n..] == s[1..][i + n..];
  }

  /** The meaning of ReplaceFirst on `s`: `rep` spliced in at the position `indexOf`
      reports, or `s` unchanged when there is no occurrence. */
  predicate SplicesAtIndexOf(s: string, pat: string, rep: string) {
    match IndexOf(s, pat)
    case None => ReplaceFirst(s, pat, rep) == s
    case Some(i) => i + |pat| <= |s| && ReplaceFirst(s, pat, rep) == s[..i] + rep + s[i + |pat|..]
  }

  lemma SplicesPastHead(s: string, pat: string, rep: string)
    requires !(pat <= s) && |s| > 0
    requires SplicesAtIndexOf(s[1..], pat, rep)
    ensures SplicesAtIndexOf(s, pat, rep)
  {
    ReplacePastHead(s, pat, rep);
    if IndexOf(s[1..], pat).Some? {
      SplicesPastHeadFound(s, pat, rep, IndexOf(s[1..], pat).value);
    } else {
      assert [s[0]] + s[1..] == s;
    }
  }

  lemma SplicesPastHeadFound(s: string, pat: string, rep: string, i: nat)
    requires |s| > 0 && i + |pat| <= |s| - 1
    requires ReplaceFirst(s, pat, rep) == [s[0]] + ReplaceFirst(s[1..], pat, rep)
    requires ReplaceFirst(s[1..], pat, rep) == s[1..][..i] + rep + s[1..][i + |pat|..]
    ensures ReplaceFirst(s, pat, rep) == s[..i + 1] + rep + s[i + 1 + |pat|..]
  {
    SpliceInTail(s, i, |pat|, rep);
  }

  /** ReplaceFirst splices `rep` in at the position `indexOf` reports, and nowhere else. */
  lemma {:induction false} ReplaceFirstSpec(s: string, pat: string, rep: string)
    ensures SplicesAtIndexOf(s, pat, rep)
    decreases |s|
  {
    if pat <= s {
      ReplaceAtPrefix(s, pat, rep);
    } else if |s| > 0 {
      ReplaceFirstSpec(s[1..], pat, rep);
      SplicesPastHead(s, pat, rep);
    }
  }

  /** A prefix that cannot start an occurrence of `pat` is carried through the replacement. */
  lemma {:induction false} ReplaceFirstSkipsPrefix(p: string, q: string, pat: string, rep: string)
    requires |pat| > 0 && pat[0] !in p
    ensures ReplaceFirst(p + q, pat, rep) == p + ReplaceFirst(q, pat, rep)
    decreases |p|
  {
    if |p| > 0 {
      assert !(pat <= p + q) by {
        assert (p + q)[0] == p[0] != pat[0];
      }
      assert (p + q)[1..] == p[1..] + q;
      ReplaceFirstSkipsPrefix(p[1..], q, pat, rep);
      assert [p[0]] + p[1..] == p;
    } else {
      assert p + q == q;
    }
  }

  /** Replacing at the very start of the string. */
  lemma ReplaceFirstAtStart(pat: string, q: string, rep: string)
    ensures ReplaceFirst(pat + q, pat, rep) == rep + q
  {
    assert pat <= pat + q;
    assert (pat + q)[|pat|..] == q;
  }

  // ---------------------------------------------------------------------
  // Decimal rendering of a non-negative integer (`'ts=' + Date.now()`).

  predicate IsDigit(c: char) {
    '0' <= c <= '9'
  }

  function DigitChar(d: nat): (c: char)
    requires d < 10
    ensures IsDigit(c)
  {
    ('0' as int + d) as char
  }

  function DigitValue(c: char): (d: nat)
    requires IsDigit(c)
    ensures d < 10 && DigitChar(d) == c
  {
    c as int - '0' as int
  }

  /** The shortest decimal numeral of `n`, as JavaScript prints an integral Number below 1e21. */
  function Decimal(n: nat): (r: string)
    ensures |r| > 0
    ensures forall i :: 0 <= i < |r| ==> IsDigit(r[i])
    ensures |r| > 1 ==> r[0] != '0'
    decreases n
  {
    if n < 10 then [DigitChar(n)] else Decimal(n / 10) + [DigitChar(n % 10)]
  }

  /** Reads a string of decimal digits back as a number. */
  function ParseDecimal(s: string): nat
    requires forall i :: 0 <= i < |s| ==> IsDigit(s[i])
    decreases |s|
  {
    if |s| == 0 then 0 else ParseDecimal(s[..|s| - 1]) * 10 + DigitValue(s[|s| - 1])
  }

  /** Rendering then reading a timestamp gives the timestamp back. */
  lemma {:induction false} ParseDecimalInverse(n: nat)
    ensures ParseDecimal(Decimal(n)) == n
    decreases n
  {
    var r := Decimal(n);
    if n >= 10 {
      ParseDecimalInverse(n / 10);
      assert r[..|r| - 1] == Decimal(n / 10);
      assert DigitValue(r[|r| - 1]) == n % 10;
    } else {
      assert r[..0] == [];
    }
  }

  /** Distinct timestamps give distinct numerals: probes issued at distinct times get distinct `ts=` values. */
  lemma DecimalInjective(m: nat, n: nat)
    requires Decimal(m) == Decimal(n)
    ensures m == n
  {
    ParseDecimalInverse(m);
    ParseDecimalInverse(n);
  }
}
