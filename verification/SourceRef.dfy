/** Canonical report source references of internal/domain/report.go. */
module SourceRef {
  import opened Text
  import opened StringLists

  const MAX_INT64 := 0x7FFF_FFFF_FFFF_FFFF
  const REFERENCE_LIMIT := 10

  predicate IsSourceKind(kind: string) { kind == "sub_report" || kind == "final_report" }

  // ------------------------------------------------------------ decimal text

  function Digit(d: nat): char
    requires d < 10
  {
    '0' + (d as char)
  }

  /** `strconv.FormatInt(n, 10)` for n >= 0. */
  function Format(n: nat): (s: string)
    ensures s != "" && forall i | 0 <= i < |s| :: IsDigit(s[i])
  {
    if n < 10 then [Digit(n)] else Format(n / 10) + [Digit(n % 10)]
  }

  predicate AllDigits(s: string) { s != "" && forall i | 0 <= i < |s| :: IsDigit(s[i]) }

  function DigitOf(c: char): nat
    requires IsDigit(c)
  {
    c as nat - '0' as nat
  }

  function DigitsValue(s: string): nat
    requires forall i | 0 <= i < |s| :: IsDigit(s[i])
  {
    if s == "" then 0 else 10 * DigitsValue(s[..|s| - 1]) + DigitOf(s[|s| - 1])
  }

  /** `strconv.ParseInt(s, 10, 64)`: an optional sign and digits, within range. */
  function ParseInt(s: string): Option<int> {
    var signed := s != "" && (s[0] == '+' || s[0] == '-');
    var digits := if signed then s[1..] else s;
    if !AllDigits(digits) then None
    else
      var magnitude: int := DigitsValue(digits);
      var value: int := if signed && s[0] == '-' then -magnitude else magnitude;
      if -MAX_INT64 - 1 <= value <= MAX_INT64 then Some(value) else None
  }

  lemma {:induction false} FormatValue(n: nat)
    ensures DigitsValue(Format(n)) == n
  {
    if n >= 10 {
      FormatValue(n / 10);
      assert Format(n)[..|Format(n)| - 1] == Format(n / 10);
    }
  }

  /** The decimal of a number is the one text of digits with its value that does not
      begin with a needless zero. */
  lemma FormatIff(n: nat, s: string)
    ensures s == Format(n) <==> AllDigits(s) && DigitsValue(s) == n && (|s| == 1 || s[0] != '0')
  {
    FormatValue(n);
    NoLeadingZero(n);
    if AllDigits(s) && DigitsValue(s) == n && (|s| == 1 || s[0] != '0') {
      DecimalUnique(s);
    }
  }

  lemma {:induction false} NoLeadingZero(n: nat)
    ensures |Format(n)| == 1 || Format(n)[0] != '0'
    ensures n > 0 ==> Format(n)[0] != '0'
  {
    if n >= 10 {
      NoLeadingZero(n / 10);
    }
  }

  lemma {:induction false} DecimalUnique(s: string)
    requires AllDigits(s) && (|s| == 1 || s[0] != '0')
    ensures s == Format(DigitsValue(s))
    ensures s[0] != '0' ==> DigitsValue(s) > 0
  {
    var n := |s| - 1;
    DigitBack(s[n]);
    if n == 0 {
      assert s[..n] == "" && s == [s[n]];
    } else {
      var front := s[..n];
      assert front[0] == s[0] && s == front + [s[n]];
      DecimalUnique(front);
      FormatStep(DigitsValue(front), DigitOf(s[n]));
    }
  }

  lemma DigitBack(c: char)
    requires IsDigit(c)
    ensures DigitOf(c) < 10 && Digit(DigitOf(c)) == c
  {
  }

  lemma FormatStep(n: nat, d: nat)
    requires n > 0 && d < 10
    ensures Format(10 * n + d) == Format(n) + [Digit(d)]
  {
  }

  lemma ParseFormat(n: nat)
    requires n <= MAX_INT64
    ensures ParseInt(Format(n)) == Some(n)
  {
    FormatValue(n);
    assert IsDigit(Format(n)[0]);
  }

  // -------------------------------------------------------------- references

  datatype Source = Source(kind: string, id: int)

  /** `strings.Cut(s, ":")`: the texts around the first colon. */
  function Cut(s: string): Option<(string, string)> {
    if s == "" then None
    else if s[0] == ':' then Some(("", s[1..]))
    else match Cut(s[1..])
      case None => None
      case Some((before, after)) => Some(([s[0]] + before, after))
  }

  /** `ParseRetrievalSourceRef`. */
  function ParseRef(ref: string): Option<Source> {
    if ref != TrimSpace(ref) || ref == "" then None
    else match Cut(ref)
      case None => None
      case Some((kind, idText)) =>
        if !IsSourceKind(kind) || idText == "" then None
        else match ParseInt(idText)
          case None => None
          case Some(id) => if id <= 0 || Format(id) != idText then None else Some(Source(kind, id))
  }

  /** The one text that names a source. */
  function RefText(source: Source): string
    requires source.id >= 0
  {
    source.kind + ":" + Format(source.id)
  }

  predicate IsSource(source: Source) { IsSourceKind(source.kind) && 1 <= source.id <= MAX_INT64 }

  lemma {:induction false} CutAt(before: string, after: string)
    requires ':' !in before
    ensures Cut(before + ":" + after) == Some((before, after))
  {
    var s := before + ":" + after;
    if before == "" {
      assert s[1..] == after;
    } else {
      assert s[1..] == before[1..] + ":" + after;
      assert forall c | c in before[1..] :: c in before;
      assert before[0] in before && before == [before[0]] + before[1..];
      CutAt(before[1..], after);
    }
  }

  lemma {:induction false} CutRebuilds(s: string)
    requires Cut(s).Some?
    ensures s == Cut(s).value.0 + ":" + Cut(s).value.1
  {
    if s[0] == ':' {
      assert s == "" + ":" + s[1..];
    } else {
      CutRebuilds(s[1..]);
      assert s == [s[0]] + s[1..];
    }
  }

  /** A reference parses to `source` exactly when it is that source's canonical
      text: a valid kind, a colon and the decimal of an id in 1..2^63-1. */
  lemma ParseRefIff(ref: string, source: Source)
    ensures ParseRef(ref) == Some(source) <==> IsSource(source) && ref == RefText(source)
  {
    if ParseRef(ref) == Some(source) {
      CutRebuilds(ref);
    }
    if IsSource(source) && ref == RefText(source) {
      RefTextParses(source);
    }
  }

  /** The same with the texts written out. */
  lemma ParseRefText(ref: string, source: Source)
    ensures ParseRef(ref) == Some(source)
       <==> && (source.kind == "sub_report" || source.kind == "final_report")
            && 1 <= source.id <= 9223372036854775807
            && ref == source.kind + ":" + Format(source.id)
  {
    ParseRefIff(ref, source);
  }

  lemma RefTextParses(source: Source)
    requires IsSource(source)
    ensures ParseRef(RefText(source)) == Some(source)
  {
    var ref := RefText(source);
    var idText := Format(source.id);
    assert ref[0] == source.kind[0] && ref[|ref| - 1] == idText[|idText| - 1];
    assert IsDigit(ref[|ref| - 1]);
    TrimSpaceFixed(ref);
    CutAt(source.kind, idText);
    ParseFormat(source.id);
  }

  lemma RefTextInjective(source1: Source, source2: Source)
    requires IsSource(source1) && IsSource(source2) && RefText(source1) == RefText(source2)
    ensures source1 == source2
  {
    RefTextParses(source1);
    RefTextParses(source2);
  }

  // ------------------------------------------- the reference loop of a sub report

  predicate AcceptableRefs(refs: seq<string>) {
    |refs| <= REFERENCE_LIMIT && DistinctRefs(Trims(refs))
  }

  predicate DistinctRefs(trims: seq<string>) {
    (forall r | r in trims :: ParseRef(r).Some?) && Distinct(trims)
  }

  /** The part of `NewSubReport` that checks and rewrites `RetrievalRefs`: it
      trims each entry in place, in a copy of the caller's slice. */
  method NormalizeRefs(refs: array<string>) returns (ok: bool, out: array<string>)
    ensures ok <==> AcceptableRefs(refs[..])
    ensures ok ==> fresh(out) && out[..] == Trims(refs[..])
    ensures refs[..] == old(refs[..])
  {
    out := new string[refs.Length](i requires 0 <= i < refs.Length reads refs => refs[i]);
    if refs.Length > REFERENCE_LIMIT {
      return false, out;
    }
    assert out[..] == refs[..];
    ok := TrimRefs(out, Trims(refs[..]));
  }

  /** The loop over the copied slice. */
  method TrimRefs(refs: array<string>, ghost trims: seq<string>) returns (ok: bool)
    requires |trims| == refs.Length && forall j | 0 <= j < refs.Length :: trims[j] == TrimSpace(refs[j])
    modifies refs
    ensures ok <==> DistinctRefs(trims)
    ensures ok ==> refs[..] == trims
  {
    var seen: set<string> := {};
    ghost var orig := refs[..];
    for i := 0 to refs.Length
      invariant refs[..] == trims[..i] + orig[i..]
      invariant Checked(trims, i, seen)
    {
      FillNext(trims, orig, i);
      assert refs[i] == refs[..][i] == orig[i];
      ok, seen := TrimRef(refs, i, seen, trims);
      if !ok {
        return false;
      }
    }
    WholeSlice(trims);
    WholeSlice(orig);
    return true;
  }

  lemma FillNext(done: seq<string>, orig: seq<string>, i: nat)
    requires i < |done| == |orig|
    ensures (done[..i] + orig[i..])[i] == orig[i]
    ensures (done[..i] + orig[i..])[i := done[i]] == done[..i + 1] + orig[i + 1..]
  {
  }

  /** One round of the loop. */
  method TrimRef(refs: array<string>, i: nat, seen: set<string>, ghost trims: seq<string>)
    returns (ok: bool, after: set<string>)
    requires i < refs.Length == |trims| && trims[i] == TrimSpace(refs[i]) && Checked(trims, i, seen)
    modifies refs
    ensures ok ==> refs[..] == old(refs[..])[i := trims[i]] && Checked(trims, i + 1, after)
    ensures !ok ==> !DistinctRefs(trims)
  {
    var ref := TrimSpace(refs[i]);
    CheckNext(trims, i, seen);
    if ParseRef(ref).None? {
      return false, seen;
    }
    if ref in seen {
      return false, seen;
    }
    after := seen + {ref};
    refs[i] := ref;
    ok := true;
  }

  /** The first `i` references have passed; `seen` holds them. */
  predicate Checked(refs: seq<string>, i: nat, seen: set<string>)
    requires i <= |refs|
  {
    DistinctRefs(refs[..i]) && seen == Elements(refs[..i])
  }

  lemma CheckNext(refs: seq<string>, i: nat, seen: set<string>)
    requires i < |refs| && Checked(refs, i, seen)
    ensures ParseRef(refs[i]).None? || refs[i] in seen ==> !DistinctRefs(refs)
    ensures ParseRef(refs[i]).Some? && refs[i] !in seen ==> Checked(refs, i + 1, seen + {refs[i]})
  {
    assert refs[i] in refs;
    assert refs[..i + 1] == refs[..i] + [refs[i]];
    ElementsStep(refs[..i], refs[i]);
  }

  ghost predicate NamesSource(text: string) {
    exists source :: IsSource(source) && text == RefText(source)
  }

  lemma NamesSourceIff(text: string)
    ensures ParseRef(text).Some? <==> NamesSource(text)
  {
    if ParseRef(text).Some? {
      ParseRefIff(text, ParseRef(text).value);
    }
    if NamesSource(text) {
      var source :| IsSource(source) && text == RefText(source);
      ParseRefIff(text, source);
    }
  }

  /** A list of references is accepted exactly when it has at most ten, each names a
      source once trimmed, and no two are the same. */
  lemma RefsIff(refs: seq<string>)
    ensures AcceptableRefs(refs)
       <==> && |refs| <= 10 && (forall r | r in Trims(refs) :: NamesSource(r))
            && forall i, j | 0 <= i < j < |refs| :: TrimSpace(refs[i]) != TrimSpace(refs[j])
  {
    forall r | r in Trims(refs) ensures ParseRef(r).Some? <==> NamesSource(r) { NamesSourceIff(r); }
    assert forall i | 0 <= i < |refs| :: Trims(refs)[i] == TrimSpace(refs[i]);
  }

  /** Accepted references are canonical and name pairwise distinct sources, at
      most ten of them. */
  lemma AcceptedRefsAreDistinct(refs: seq<string>)
    requires AcceptableRefs(refs)
    ensures |refs| <= 10
    ensures forall r | r in Trims(refs) :: IsSource(ParseRef(r).value) && r == RefText(ParseRef(r).value)
    ensures forall i, j | 0 <= i < j < |refs| :: ParseRef(Trims(refs)[i]).value != ParseRef(Trims(refs)[j]).value
  {
    forall r | r in Trims(refs)
      ensures IsSource(ParseRef(r).value) && r == RefText(ParseRef(r).value) {
      ParseRefIff(r, ParseRef(r).value);
    }
  }
}
