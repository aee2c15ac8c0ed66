/** What compiling, expanding, matching and resolving promise each other, for
    every template, value set and query. */
module TemplateProofs {
  import opened Text
  import opened Placeholder
  import opened Template

  // ---------------------------------------------------------------- segments

  function Occurrences(queryTemplate: string): seq<Occurrence> {
    FindAll(TrimSpace(queryTemplate), 0)
  }

  function Texts(t: string, ms: seq<Occurrence>, last: nat): (texts: seq<string>)
    requires InOrder(ms, last, |t|)
    ensures |texts| == |ms|
  {
    InOrderFits(ms, last, |t|);
    if ms == [] then [] else [t[ms[0].start..ms[0].end]] + Texts(t, ms[1..], ms[0].end)
  }

  /** Every literal meets its placeholders with a double quote. */
  predicate Anchored(lits: seq<string>) {
    && lits != []
    && (forall i | 0 <= i < |lits| - 1 :: lits[i] != "" && lits[i][|lits[i]| - 1] == '"')
    && (forall i | 1 <= i < |lits| :: lits[i] != "" && lits[i][0] == '"')
  }

  lemma {:induction false} LiteralsAnchored(t: string, ms: seq<Occurrence>, last: nat)
    requires InOrder(ms, last, |t|) && forall m | m in ms :: Flanked(t, m)
    requires last == 0 || (last < |t| && t[last] == '"')
    ensures Anchored(Literals(t, ms, last))
    ensures 0 < last ==> StartsQuoted(Literals(t, ms, last)[0])
  {
    if ms != [] {
      InOrderFits(ms, last, |t|);
      var m := ms[0];
      var lit := t[last..m.start];
      assert m in ms && last < m.start;
      assert lit[|lit| - 1] == t[m.start - 1] == '"';
      LiteralsAnchored(t, ms[1..], m.end);
      AnchoredCons(lit, Literals(t, ms[1..], m.end));
    }
  }

  predicate Flanked(t: string, m: Occurrence) {
    && 0 < m.start <= m.end < |t|
    && t[m.start - 1] == '"' && t[m.start] == '{' && t[m.end] == '"'
  }

  predicate StartsQuoted(s: string) { s != "" && s[0] == '"' }

  lemma AnchoredCons(lit: string, rest: seq<string>)
    requires Anchored(rest) && StartsQuoted(rest[0]) && lit != "" && lit[|lit| - 1] == '"'
    ensures Anchored([lit] + rest)
  {
  }

  lemma OccurrenceOpens(t: string, m: Occurrence)
    requires PlaceholderAt(t, m.start) == Some(m)
    ensures m.start + 1 < |t| && t[m.start] == t[m.start + 1] == '{' && IsKind(m.kind)
  {
    assert t[m.start] == OPENING[0] && t[m.start + 1] == OPENING[1];
  }

  /** The one fact about compiled literals that matching rests on. */
  lemma CompileAnchored(queryTemplate: string)
    requires Compile(queryTemplate).Some?
    ensures Anchored(Compile(queryTemplate).value.literals)
  {
    var t := TrimSpace(queryTemplate);
    FindAllFinds(t, 0);
    LiteralsFreeOfDelimiters(t, FindAll(t, 0), 0);
    forall m | m in FindAll(t, 0) ensures Flanked(t, m) {
      OccurrenceOpens(t, m);
      assert IsQuotedValue(t, m.start, m.end);
    }
    LiteralsAnchored(t, FindAll(t, 0), 0);
  }

  lemma {:induction false} SegmentsRebuild(t: string, ms: seq<Occurrence>, last: nat)
    requires last <= |t| && InOrder(ms, last, |t|)
    ensures Weave(Literals(t, ms, last), Texts(t, ms, last)) == t[last..]
  {
    InOrderFits(ms, last, |t|);
    if ms != [] {
      var m := ms[0];
      SegmentsRebuild(t, ms[1..], m.end);
      assert t[last..] == t[last..m.start] + t[m.start..m.end] + t[m.end..];
      assert Literals(t, ms, last)[1..] == Literals(t, ms[1..], m.end);
      assert Texts(t, ms, last)[1..] == Texts(t, ms[1..], m.end);
    }
  }

  lemma {:induction false} LiteralsFreeOfDelimiters(t: string, ms: seq<Occurrence>, last: nat)
    requires InOrder(ms, last, |t|) && Acceptable(t, ms, last)
    ensures forall lit | lit in Literals(t, ms, last) :: !HasDelimiter(lit)
    ensures forall m | m in ms :: IsQuotedValue(t, m.start, m.end)
  {
    if ms != [] {
      InOrderFits(ms, last, |t|);
      LiteralsFreeOfDelimiters(t, ms[1..], ms[0].end);
    }
  }

  /** A compiled template is its trimmed text, cut at the placeholders: the
      pieces concatenate back to it, no literal holds a delimiter, and every
      placeholder stands in double quotes after `name =` or `name !=`. */
  lemma CompileSegments(queryTemplate: string)
    requires Compile(queryTemplate).Some?
    ensures var t := TrimSpace(queryTemplate);
      var c := Compile(queryTemplate).value;
      var ms := Occurrences(queryTemplate);
      && ms != [] && c.placeholders == Names(ms)
      && Weave(c.literals, Texts(t, ms, 0)) == t
      && (forall lit | lit in c.literals :: !HasDelimiter(lit))
      && (forall m | m in ms :: IsPlaceholderText(t, m) && IsMatcherValue(t, m))
  {
    var t := TrimSpace(queryTemplate);
    var ms := Occurrences(queryTemplate);
    FindAllFinds(t, 0);
    SegmentsRebuild(t, ms, 0);
    assert t[0..] == t;
    LiteralsFreeOfDelimiters(t, ms, 0);
    forall m | m in ms
      ensures IsPlaceholderText(t, m) && IsMatcherValue(t, m)
    {
      assert IsQuotedValue(t, m.start, m.end);
      PlaceholderSpelling(t, m.start, m.end, m.kind, m.key);
      MatcherSpelling(t[..m.start - 1], Equal);
      MatcherSpelling(t[..m.start - 1], NotEqual);
    }
  }

  /** The occurrence is a placeholder, said in whole texts. */
  ghost predicate IsPlaceholderText(t: string, m: Occurrence) {
    m.start <= m.end <= |t| && SpellsPlaceholder(t[m.start..m.end], m.kind, m.key)
  }

  /** The occurrence stands in double quotes after `name =` or `name !=`. */
  ghost predicate IsMatcherValue(t: string, m: Occurrence) {
    && 0 < m.start <= m.end < |t| && t[m.start - 1] == '"' && t[m.end] == '"'
    && (SpellsMatcher(t[..m.start - 1], Equal) || SpellsMatcher(t[..m.start - 1], NotEqual))
  }

  /** `ms` cuts `t` into placeholders that are quoted matcher values and literals
      without delimiters: the templates the package documents, said without
      reference to any scan. */
  ghost predicate IsCut(t: string, ms: seq<Occurrence>) {
    && ms != [] && InOrder(ms, 0, |t|)
    && (forall m | m in ms :: IsPlaceholderText(t, m) && IsMatcherValue(t, m))
    && (forall lit | lit in Literals(t, ms, 0) :: !HasDelimiter(lit))
  }

  /** A template compiles exactly when its trimmed text can be so cut, and there
      is only one way to cut it: the one that compiling finds. */
  lemma CompileIff(queryTemplate: string, ms: seq<Occurrence>)
    ensures IsCut(TrimSpace(queryTemplate), ms)
       <==> Compile(queryTemplate).Some? && ms == Occurrences(queryTemplate)
  {
    var t := TrimSpace(queryTemplate);
    if Compile(queryTemplate).Some? && ms == Occurrences(queryTemplate) {
      CompileSegments(queryTemplate);
    }
    if IsCut(t, ms) {
      CutIsFound(t, ms);
      CutIsAcceptable(t, ms, 0);
    }
  }

  lemma CutIsFound(t: string, ms: seq<Occurrence>)
    requires IsCut(t, ms)
    ensures ms == FindAll(t, 0) && forall m | m in ms :: IsQuotedValue(t, m.start, m.end)
  {
    forall m | m in ms
      ensures Flanked(t, m) && PlaceholderPattern(t)(m.start) == Some(m) && IsQuotedValue(t, m.start, m.end)
    {
      MatcherValueIsQuoted(t, m);
    }
    CutHasEmptyGaps(t, ms, 0);
    LeftmostUnique(PlaceholderPattern(t), |t|, ms, 0);
  }

  lemma MatcherValueIsQuoted(t: string, m: Occurrence)
    requires IsPlaceholderText(t, m) && IsMatcherValue(t, m)
    ensures Flanked(t, m) && PlaceholderAt(t, m.start) == Some(m) && IsQuotedValue(t, m.start, m.end)
  {
    PlaceholderSpelling(t, m.start, m.end, m.kind, m.key);
    OccurrenceOpens(t, m);
    MatcherSpelling(t[..m.start - 1], Equal);
    MatcherSpelling(t[..m.start - 1], NotEqual);
  }

  lemma {:induction false} CutIsAcceptable(t: string, ms: seq<Occurrence>, last: nat)
    requires InOrder(ms, last, |t|) && forall m | m in ms :: IsQuotedValue(t, m.start, m.end)
    requires forall lit | lit in Literals(t, ms, last) :: !HasDelimiter(lit)
    ensures Acceptable(t, ms, last)
  {
    if ms != [] {
      InOrderFits(ms, last, |t|);
      var lits := Literals(t, ms, last);
      assert ms[0] in ms && lits[0] in lits && lits[1..] == Literals(t, ms[1..], ms[0].end);
      CutIsAcceptable(t, ms[1..], ms[0].end);
    }
  }

  lemma {:induction false} CutHasEmptyGaps(t: string, ms: seq<Occurrence>, last: nat)
    requires last <= |t| && InOrder(ms, last, |t|) && forall m | m in ms :: Flanked(t, m)
    requires forall lit | lit in Literals(t, ms, last) :: !HasDelimiter(lit)
    requires last == 0 || (last < |t| && t[last] == '"')
    ensures GapsEmpty(PlaceholderPattern(t), |t|, ms, last)
    decreases |ms|
  {
    var lits := Literals(t, ms, last);
    assert lits[0] in lits;
    if ms == [] {
      assert t[last..|t|] == t[last..];
      NoneInLiteral(t, last, |t|);
    } else {
      InOrderFits(ms, last, |t|);
      var m := ms[0];
      assert m in ms && last < m.start;
      assert lits[0] == t[last..m.start] && lits[1..] == Literals(t, ms[1..], m.end);
      NoneInLiteral(t, last, m.start);
      CutHasEmptyGaps(t, ms[1..], m.end);
    }
  }

  lemma NoneInLiteral(t: string, from: nat, to: nat)
    requires from <= to <= |t| && !HasDelimiter(t[from..to])
    requires to == |t| || (from < to && t[to - 1] == '"')
    ensures NoneBetween(PlaceholderPattern(t), from, to)
  {
    forall p: nat | from <= p < to ensures PlaceholderPattern(t)(p).None? {
      OpensWithBraces(t, p);
      if BracesAt(t, p) {
        BracesAreDelimiter(t, from, to, p);
      }
    }
  }

  predicate BracesAt(t: string, p: nat) { p + 1 < |t| && t[p] == t[p + 1] == '{' }

  lemma OpensWithBraces(t: string, p: nat)
    ensures PlaceholderAt(t, p).Some? ==> BracesAt(t, p)
  {
    if PlaceholderAt(t, p).Some? {
      OccurrenceOpens(t, PlaceholderAt(t, p).value);
    }
  }

  lemma BracesAreDelimiter(t: string, from: nat, to: nat, p: nat)
    requires from <= p < to <= |t| && (to == |t| || t[to - 1] == '"') && BracesAt(t, p)
    ensures HasDelimiter(t[from..to])
  {
    assert DelimiterAt(t[from..to], p - from);
  }

  lemma TrimKeepsDelimiters(s: string)
    ensures HasDelimiter(TrimSpace(s)) <==> HasDelimiter(s)
  {
    var left, right := TrimSpaceSplits(s);
    var t := TrimSpace(s);
    if HasDelimiter(t) {
      var i :| 0 <= i < |t| - 1 && DelimiterAt(t, i);
      assert t[i] == s[|left| + i] && t[i + 1] == s[|left| + i + 1];
      assert DelimiterAt(s, |left| + i);
    }
    if HasDelimiter(s) {
      var i :| 0 <= i < |s| - 1 && DelimiterAt(s, i);
      forall k | 0 <= k < |left| ensures IsSpace(s[k]) { assert Space.Has(left[k]); }
      forall k | |left| + |t| <= k < |s| ensures IsSpace(s[k]) { assert Space.Has(right[k - |left| - |t|]); }
      assert !IsSpace(s[i]) && !IsSpace(s[i + 1]);
      assert t[i - |left|] == s[i] && t[i + 1 - |left|] == s[i + 1];
      assert DelimiterAt(t, i - |left|);
    }
  }

  lemma OccurrenceHasDelimiter(t: string, m: Occurrence)
    requires PlaceholderAt(t, m.start) == Some(m)
    ensures HasDelimiter(t)
  {
    OccurrenceOpens(t, m);
    assert DelimiterAt(t, m.start);
  }

  lemma CompiledHasDelimiter(queryTemplate: string)
    requires Compile(queryTemplate).Some?
    ensures HasDelimiter(TrimSpace(queryTemplate)) && HasDelimiter(queryTemplate)
  {
    FindAllFinds(TrimSpace(queryTemplate), 0);
    OccurrenceHasDelimiter(TrimSpace(queryTemplate), Occurrences(queryTemplate)[0]);
    TrimKeepsDelimiters(queryTemplate);
  }

  /** A template that `ValidateTemplate` rejects is refused by every operation. */
  lemma InvalidIsRefused(queryTemplate: string, values: Values, query: string)
    requires !Valid(queryTemplate)
    ensures Expand(queryTemplate, values).None?
    ensures !Permits(queryTemplate, query)
    ensures Resolve(queryTemplate, query).None?
  {
    TrimKeepsDelimiters(queryTemplate);
    CompileTrimmed(queryTemplate);
    TrimSpaceFixed(TrimSpace(queryTemplate));
  }

  /** On a valid template, expansion succeeds exactly when every placeholder's
      value is present and safe. */
  lemma ExpandIff(queryTemplate: string, values: Values)
    requires Valid(queryTemplate)
    ensures Expand(queryTemplate, values).Some?
       <==> SuppliesAll(values, Occurrences(queryTemplate))
  {
    var t := TrimSpace(queryTemplate);
    TrimKeepsDelimiters(queryTemplate);
    if !HasDelimiter(t) {
      FindAllFinds(t, 0);
      forall m | m in Occurrences(queryTemplate) ensures false {
        OccurrenceHasDelimiter(t, m);
      }
    }
  }

  // ---------------------------------------------------------------- matching

  predicate AllCaptured(caps: seq<string>) {
    forall i | 0 <= i < |caps| :: All(Captured, caps[i])
  }

  /** The texts a match reports fill the pattern's gaps and give back the query. */
  lemma {:induction false} FindSound(lits: seq<string>, q: string)
    requires lits != [] && Find(lits, q).Some?
    ensures AllCaptured(Find(lits, q).value) && Weave(lits, Find(lits, q).value) == q
    decreases |lits|, 0
  {
    if |lits| > 1 {
      var rest := q[|lits[0]|..];
      CaptureSound(lits[1..], rest, SkipWhile(rest, 0, Captured));
      var caps := Find(lits, q).value;
      WeaveStep(lits, caps);
      assert q == lits[0] + rest;
    }
  }

  lemma WeaveStep(lits: seq<string>, vals: seq<string>)
    requires |lits| == |vals| + 1 && vals != []
    ensures Weave(lits, vals) == lits[0] + (vals[0] + Weave(lits[1..], vals[1..]))
  {
    var tail := Weave(lits[1..], vals[1..]);
    assert lits[0] + vals[0] + tail == lits[0] + (vals[0] + tail);
  }

  lemma {:induction false} CaptureSound(lits: seq<string>, q: string, k: nat)
    requires lits != [] && k <= |q| && AllBetween(Captured, q, 0, k) && Capture(lits, q, k).Some?
    ensures var caps := Capture(lits, q, k).value;
      AllCaptured(caps) && caps[0] + Weave(lits, caps[1..]) == q
    decreases |lits|, k + 1
  {
    if Find(lits, q[k..]).Some? {
      FindSound(lits, q[k..]);
      var caps := Capture(lits, q, k).value;
      assert caps[1..] == Find(lits, q[k..]).value;
      assert q == q[..k] + q[k..];
    } else {
      CaptureSound(lits, q, k - 1);
    }
  }

  /** Captures stop at the quote that follows each gap, so a query is read in
      the one way that fills the gaps: there is nothing to back off from. */
  lemma {:induction false} FindComplete(lits: seq<string>, vals: seq<string>)
    requires |lits| == |vals| + 1 && Anchored(lits) && AllCaptured(vals)
    ensures Find(lits, Weave(lits, vals)) == Some(vals)
  {
    if vals != [] {
      var q := Weave(lits, vals);
      var tail := Weave(lits[1..], vals[1..]);
      var rest := q[|lits[0]|..];
      FindComplete(lits[1..], vals[1..]);
      WeaveStep(lits, vals);
      assert rest == vals[0] + tail;
      WeaveStarts(lits[1..], vals[1..]);
      assert rest[|vals[0]|] == tail[0] == '"';
      SkipWhileUnique(rest, 0, Captured, |vals[0]|);
      assert rest[..|vals[0]|] == vals[0] && rest[|vals[0]|..] == tail;
      assert vals == [vals[0]] + vals[1..];
    }
  }

  lemma WeaveStarts(lits: seq<string>, vals: seq<string>)
    requires |lits| == |vals| + 1
    ensures lits[0] <= Weave(lits, vals)
  {
  }

  lemma {:induction false} WeaveEnds(lits: seq<string>, vals: seq<string>)
    requires |lits| == |vals| + 1
    ensures var w := Weave(lits, vals); var end := lits[|lits| - 1];
      |end| <= |w| && w[|w| - |end|..] == end
  {
    if vals != [] {
      WeaveEnds(lits[1..], vals[1..]);
    }
  }

  // -------------------------------------------------------------- assignments

  function Fill(names: seq<string>, a: map<string, string>): (vals: seq<string>)
    requires forall name | name in names :: name in a
    ensures |vals| == |names|
    ensures forall i | 0 <= i < |names| :: vals[i] == a[names[i]]
  {
    seq(|names|, i requires 0 <= i < |names| => a[names[i]])
  }

  /** `a` gives each placeholder name of the template one value without quotes,
      backslashes or line ends, and substituting the values gives `q`. */
  ghost predicate Instantiates(c: Compiled, a: map<string, string>, q: string)
    requires |c.literals| == |c.placeholders| + 1
  {
    && (forall name :: name in a <==> name in c.placeholders)
    && (forall name | name in a :: All(Captured, a[name]))
    && Weave(c.literals, Fill(c.placeholders, a)) == q
  }

  /** A query is permitted exactly when it is the template with one value put
      for each placeholder name. Names, not spellings, carry the values: equal
      names with different inner spacing get equal values. */
  lemma PermitsIffInstance(queryTemplate: string, query: string)
    requires Compile(queryTemplate).Some?
    ensures Permits(queryTemplate, query)
       <==> exists a :: Instantiates(Compile(queryTemplate).value, a, TrimSpace(query))
  {
    var c := Compile(queryTemplate).value;
    var q := TrimSpace(query);
    CompileAnchored(queryTemplate);
    CompiledHasDelimiter(queryTemplate);
    if Permits(queryTemplate, query) {
      var a := FoundIsInstance(c, q);
    }
    if a :| Instantiates(c, a, q) {
      InstanceIsFound(c, a, q);
    }
  }

  lemma InstanceIsFound(c: Compiled, a: map<string, string>, q: string)
    requires |c.literals| == |c.placeholders| + 1 && Anchored(c.literals) && Instantiates(c, a, q)
    ensures Find(c.literals, q) == Some(Fill(c.placeholders, a))
    ensures Consistent(c.placeholders, Fill(c.placeholders, a))
  {
    FindComplete(c.literals, Fill(c.placeholders, a));
  }

  lemma FoundIsInstance(c: Compiled, q: string) returns (a: map<string, string>)
    requires |c.literals| == |c.placeholders| + 1
    requires Find(c.literals, q).Some? && Consistent(c.placeholders, Find(c.literals, q).value)
    ensures Instantiates(c, a, q)
  {
    FindSound(c.literals, q);
    a := ReadBack(c.placeholders, Find(c.literals, q).value);
  }

  /** The assignment that consistent captures spell out. */
  lemma {:induction false} ReadBack(names: seq<string>, caps: seq<string>) returns (a: map<string, string>)
    requires |names| == |caps| && Consistent(names, caps) && AllCaptured(caps)
    ensures forall name :: name in a <==> name in names
    ensures forall name | name in a :: All(Captured, a[name])
    ensures Fill(names, a) == caps
  {
    if names == [] {
      a := map[];
    } else {
      var n := |names| - 1;
      var b := ReadBack(names[..n], caps[..n]);
      assert names == names[..n] + [names[n]];
      a := b[names[n] := caps[n]];
      forall i | 0 <= i < |names| ensures a[names[i]] == caps[i] {
        if i < n { assert names[i] == names[..n][i] && b[names[i]] == Fill(names[..n], b)[i] == caps[..n][i]; }
      }
    }
  }

  /** No query can be read as an instance of the template in two ways. */
  lemma InstanceUnique(queryTemplate: string, a: map<string, string>, b: map<string, string>, q: string)
    requires Compile(queryTemplate).Some?
    requires Instantiates(Compile(queryTemplate).value, a, q)
    requires Instantiates(Compile(queryTemplate).value, b, q)
    ensures a == b
  {
    CompileAnchored(queryTemplate);
    AnchoredUnique(Compile(queryTemplate).value, a, b, q);
  }

  lemma AnchoredUnique(c: Compiled, a: map<string, string>, b: map<string, string>, q: string)
    requires |c.literals| == |c.placeholders| + 1 && Anchored(c.literals)
    requires Instantiates(c, a, q) && Instantiates(c, b, q)
    ensures a == b
  {
    InstanceIsFound(c, a, q);
    InstanceIsFound(c, b, q);
    FillInjective(c.placeholders, a, b);
  }

  lemma FillInjective(names: seq<string>, a: map<string, string>, b: map<string, string>)
    requires forall name :: name in a <==> name in names
    requires forall name :: name in b <==> name in names
    requires Fill(names, a) == Fill(names, b)
    ensures a == b
  {
    forall name | name in a ensures a[name] == b[name] {
      var i :| 0 <= i < |names| && names[i] == name;
      assert Fill(names, a)[i] == Fill(names, b)[i];
    }
  }

  // ------------------------------------------------- expand, match and resolve

  lemma SafeIsCaptured(value: string)
    requires Safe(value)
    ensures All(Captured, value)
  {
    forall i | 0 <= i < |value| ensures Captured.Has(value[i]) {
      assert !IsControl(value[i]);
    }
  }

  predicate KindsKnown(ms: seq<Occurrence>) {
    forall m | m in ms :: IsKind(m.kind)
  }

  /** A value set, seen as an assignment of the placeholder names. */
  function Assignment(ms: seq<Occurrence>, values: Values): (a: map<string, string>)
    requires KindsKnown(ms) && SuppliesAll(values, ms)
  {
    if ms == [] then map[]
    else
      var m := ms[0];
      assert Supplies(values, m) && forall n | n in ms[1..] :: n in ms;
      Assignment(ms[1..], values)[m.Name() := Lookup(values, m.kind, m.key).value]
  }

  lemma {:induction false} AssignmentIs(ms: seq<Occurrence>, values: Values)
    requires KindsKnown(ms) && SuppliesAll(values, ms)
    ensures forall name :: name in Assignment(ms, values) <==> name in Names(ms)
    ensures forall name | name in Assignment(ms, values) :: Safe(Assignment(ms, values)[name])
  {
    if ms != [] {
      assert Supplies(values, ms[0]) && forall n | n in ms[1..] :: n in ms;
      AssignmentIs(ms[1..], values);
      NamesHead(ms);
    }
  }

  lemma NamesHead(ms: seq<Occurrence>)
    requires ms != []
    ensures Names(ms) == [ms[0].Name()] + Names(ms[1..])
  {
  }

  lemma {:induction false} AssignmentReads(ms: seq<Occurrence>, values: Values, m: Occurrence)
    requires KindsKnown(ms) && SuppliesAll(values, ms)
    requires m in ms
    ensures m.Name() in Assignment(ms, values)
    ensures Lookup(values, m.kind, m.key) == Some(Assignment(ms, values)[m.Name()])
  {
    assert Supplies(values, ms[0]) && forall n | n in ms[1..] :: n in ms;
    if m.Name() == ms[0].Name() {
      NameInjective(m.kind, m.key, ms[0].kind, ms[0].key);
    } else {
      AssignmentReads(ms[1..], values, m);
    }
  }

  lemma AssignmentFills(ms: seq<Occurrence>, values: Values)
    requires KindsKnown(ms) && SuppliesAll(values, ms)
    ensures forall name :: name in Assignment(ms, values) <==> name in Names(ms)
    ensures Fill(Names(ms), Assignment(ms, values)) == Supplied(values, ms)
  {
    AssignmentIs(ms, values);
    forall i | 0 <= i < |ms|
      ensures Names(ms)[i] in Assignment(ms, values)
      ensures Assignment(ms, values)[Names(ms)[i]] == Supplied(values, ms)[i]
    {
      AssignmentReads(ms, values, ms[i]);
    }
  }

  /** An expansion is the template's instance under the assignment it looks up. */
  lemma ExpansionIsInstance(queryTemplate: string, values: Values)
    requires Compile(queryTemplate).Some? && Expand(queryTemplate, values).Some?
    ensures SuppliesAll(values, Occurrences(queryTemplate)) && KindsKnown(Occurrences(queryTemplate))
    ensures Instantiates(Compile(queryTemplate).value, Assignment(Occurrences(queryTemplate), values),
                         Expand(queryTemplate, values).value)
    ensures forall name | name in Compile(queryTemplate).value.placeholders ::
      && name in Assignment(Occurrences(queryTemplate), values)
      && Safe(Assignment(Occurrences(queryTemplate), values)[name])
  {
    CompiledHasDelimiter(queryTemplate);
    var ms := Occurrences(queryTemplate);
    FindAllFinds(TrimSpace(queryTemplate), 0);
    forall m | m in ms ensures IsKind(m.kind) { OccurrenceOpens(TrimSpace(queryTemplate), m); }
    AssignmentIs(ms, values);
    AssignmentFills(ms, values);
    var a := Assignment(ms, values);
    forall name | name in a ensures All(Captured, a[name]) { SafeIsCaptured(a[name]); }
  }

  /** An instance starts and ends like its template. */
  lemma InstanceTrimmed(queryTemplate: string, a: map<string, string>, q: string)
    requires Compile(queryTemplate).Some? && Instantiates(Compile(queryTemplate).value, a, q)
    ensures Trimmed(q) && q != ""
  {
    var t := TrimSpace(queryTemplate);
    var c := Compile(queryTemplate).value;
    var ms := Occurrences(queryTemplate);
    CompileAnchored(queryTemplate);
    SegmentsRebuild(t, ms, 0);
    assert t[0..] == t;
    WeavesTrimmed(c.literals, Texts(t, ms, 0), Fill(c.placeholders, a));
  }

  lemma WeavesTrimmed(lits: seq<string>, vals1: seq<string>, vals2: seq<string>)
    requires |lits| == |vals1| + 1 == |vals2| + 1 && Anchored(lits) && vals1 != []
    requires Trimmed(Weave(lits, vals1))
    ensures Trimmed(Weave(lits, vals2)) && Weave(lits, vals2) != ""
  {
    var w1, w2 := Weave(lits, vals1), Weave(lits, vals2);
    var end := lits[|lits| - 1];
    WeaveStarts(lits, vals1);
    WeaveStarts(lits, vals2);
    WeaveEnds(lits, vals1);
    WeaveEnds(lits, vals2);
    assert w1[0] == lits[0][0] == w2[0];
    assert w1[|w1| - 1] == end[|end| - 1] == w2[|w2| - 1];
  }

  /** Whatever a template expands to, it permits, and resolving that query
      returns it unchanged. */
  lemma ExpandThenResolve(queryTemplate: string, values: Values)
    requires Expand(queryTemplate, values).Some?
    ensures var q := Expand(queryTemplate, values).value;
      && Trimmed(q)
      && Permits(queryTemplate, q)
      && Resolve(queryTemplate, q) == if q == "" then None else Some(q)
  {
    var t := TrimSpace(queryTemplate);
    var q := Expand(queryTemplate, values).value;
    if HasDelimiter(t) {
      ExpansionIsInstance(queryTemplate, values);
      InstanceTrimmed(queryTemplate, Assignment(Occurrences(queryTemplate), values), q);
      TrimSpaceFixed(q);
      PermitsIffInstance(queryTemplate, q);
      PermitsTrimmed(queryTemplate, q);
    } else {
      TrimSpaceFixed(t);
    }
  }

  lemma PermitsTrimmed(queryTemplate: string, query: string)
    ensures Permits(TrimSpace(queryTemplate), TrimSpace(query)) <==> Permits(queryTemplate, query)
  {
    CompileTrimmed(queryTemplate);
    TrimSpaceFixed(TrimSpace(queryTemplate));
    TrimSpaceFixed(TrimSpace(query));
  }

  /** What an expansion puts in: label values for label placeholders, annotation
      values for annotation placeholders. */
  lemma ExpansionReadsValues(queryTemplate: string, values: Values) returns (a: map<string, string>)
    requires Compile(queryTemplate).Some? && Expand(queryTemplate, values).Some?
    ensures Instantiates(Compile(queryTemplate).value, a, Expand(queryTemplate, values).value)
    ensures forall key | "label." + key in a :: key in values.labels && a["label." + key] == values.labels[key]
    ensures forall key | "annotation." + key in a ::
      key in values.annotations && a["annotation." + key] == values.annotations[key]
  {
    ExpansionIsInstance(queryTemplate, values);
    a := Assignment(Occurrences(queryTemplate), values);
    AssignmentSources(Occurrences(queryTemplate), values);
  }

  lemma AssignmentSources(ms: seq<Occurrence>, values: Values)
    requires KindsKnown(ms) && SuppliesAll(values, ms)
    ensures var a := Assignment(ms, values);
      && (forall key | "label." + key in a :: key in values.labels && a["label." + key] == values.labels[key])
      && (forall key | "annotation." + key in a ::
            key in values.annotations && a["annotation." + key] == values.annotations[key])
  {
    var a := Assignment(ms, values);
    forall key | "label." + key in a ensures key in values.labels && a["label." + key] == values.labels[key] {
      assert "label" + "." + key == "label." + key;
      AssignmentSource(ms, values, "label", key);
    }
    forall key | "annotation." + key in a
      ensures key in values.annotations && a["annotation." + key] == values.annotations[key]
    {
      assert "annotation" + "." + key == "annotation." + key;
      AssignmentSource(ms, values, "annotation", key);
    }
  }

  lemma AssignmentSource(ms: seq<Occurrence>, values: Values, kind: string, key: string)
    requires KindsKnown(ms) && SuppliesAll(values, ms) && IsKind(kind)
    requires kind + "." + key in Assignment(ms, values)
    ensures Lookup(values, kind, key) == Some(Assignment(ms, values)[kind + "." + key])
  {
    AssignmentIs(ms, values);
    var i :| 0 <= i < |Names(ms)| && Names(ms)[i] == kind + "." + key;
    NameInjective(ms[i].kind, ms[i].key, kind, key);
    AssignmentReads(ms, values, ms[i]);
  }

  /** A resolved query is trimmed, permitted, and resolves to itself. */
  lemma ResolvedIsFixed(queryTemplate: string, requestedQuery: string)
    requires Resolve(queryTemplate, requestedQuery).Some?
    ensures var q := Resolve(queryTemplate, requestedQuery).value;
      Trimmed(q) && q != "" && Permits(queryTemplate, q) && Resolve(queryTemplate, q) == Some(q)
  {
    var t := TrimSpace(queryTemplate);
    var q := Resolve(queryTemplate, requestedQuery).value;
    TrimSpaceFixed(t);
    TrimSpaceFixed(q);
    PermitsTrimmed(queryTemplate, q);
  }

  /** Two value sets with the same expansion agree on every placeholder. */
  lemma ExpandInjective(queryTemplate: string, values1: Values, values2: Values)
    requires Expand(queryTemplate, values1).Some?
    requires Expand(queryTemplate, values1) == Expand(queryTemplate, values2)
    ensures forall m | m in Occurrences(queryTemplate) ::
      Lookup(values1, m.kind, m.key) == Lookup(values2, m.kind, m.key)
  {
    var t := TrimSpace(queryTemplate);
    var ms := Occurrences(queryTemplate);
    if HasDelimiter(t) {
      ExpansionIsInstance(queryTemplate, values1);
      ExpansionIsInstance(queryTemplate, values2);
      var a1, a2 := Assignment(ms, values1), Assignment(ms, values2);
      InstanceUnique(queryTemplate, a1, a2, Expand(queryTemplate, values1).value);
      SameAssignment(ms, values1, values2);
    } else {
      FindAllFinds(t, 0);
      forall m | m in ms ensures false { OccurrenceHasDelimiter(t, m); }
    }
  }

  lemma SameAssignment(ms: seq<Occurrence>, values1: Values, values2: Values)
    requires KindsKnown(ms) && SuppliesAll(values1, ms) && SuppliesAll(values2, ms)
    requires Assignment(ms, values1) == Assignment(ms, values2)
    ensures forall m | m in ms :: Lookup(values1, m.kind, m.key) == Lookup(values2, m.kind, m.key)
  {
    forall m | m in ms ensures Lookup(values1, m.kind, m.key) == Lookup(values2, m.kind, m.key) {
      AssignmentReads(ms, values1, m);
      AssignmentReads(ms, values2, m);
    }
  }

  /** Matching is wider than expanding, for every template with placeholders:
      a tab is captured but is never a safe value. */
  lemma MatchesMoreThanExpansions(queryTemplate: string) returns (query: string)
    requires Compile(queryTemplate).Some?
    ensures Permits(queryTemplate, query)
    ensures forall values :: Expand(queryTemplate, values) != Some(TrimSpace(query))
  {
    query := TabQuery(queryTemplate);
    var a := TabForEach(Compile(queryTemplate).value.placeholders);
    forall values ensures Expand(queryTemplate, values) != Some(query) {
      TabIsNotExpanded(queryTemplate, values, a, query);
    }
  }

  lemma TabQuery(queryTemplate: string) returns (query: string)
    requires Compile(queryTemplate).Some?
    ensures Permits(queryTemplate, query) && TrimSpace(query) == query
    ensures Instantiates(Compile(queryTemplate).value, TabForEach(Compile(queryTemplate).value.placeholders), query)
  {
    var c := Compile(queryTemplate).value;
    var a := TabForEach(c.placeholders);
    query := TabInstance(c);
    InstanceTrimmed(queryTemplate, a, query);
    TrimSpaceFixed(query);
    PermitsIffInstance(queryTemplate, query);
  }

  lemma TabInstance(c: Compiled) returns (query: string)
    requires |c.literals| == |c.placeholders| + 1
    ensures Instantiates(c, TabForEach(c.placeholders), query)
  {
    query := Weave(c.literals, Fill(c.placeholders, TabForEach(c.placeholders)));
  }

  function TabForEach(names: seq<string>): map<string, string> {
    map name | name in names :: "\t"
  }

  lemma TabIsNotExpanded(queryTemplate: string, values: Values, a: map<string, string>, query: string)
    requires Compile(queryTemplate).Some? && a == TabForEach(Compile(queryTemplate).value.placeholders)
    requires Instantiates(Compile(queryTemplate).value, a, query)
    ensures Expand(queryTemplate, values) != Some(query)
  {
    if Expand(queryTemplate, values) == Some(query) {
      ExpansionIsInstance(queryTemplate, values);
      var name := Compile(queryTemplate).value.placeholders[0];
      assert a[name][0] == '\t' && IsControl('\t');
      InstanceUnique(queryTemplate, a, Assignment(Occurrences(queryTemplate), values), query);
    }
  }

  /** A permitted query is some expansion exactly when the values it captures
      are all safe. */
  lemma PermittedIsExpansionIff(queryTemplate: string, query: string, a: map<string, string>)
    requires Compile(queryTemplate).Some? && Instantiates(Compile(queryTemplate).value, a, TrimSpace(query))
    ensures (exists values :: Expand(queryTemplate, values) == Some(TrimSpace(query)))
       <==> forall name | name in a :: Safe(a[name])
  {
    var q := TrimSpace(query);
    if values :| Expand(queryTemplate, values) == Some(q) {
      ExpansionIsInstance(queryTemplate, values);
      InstanceUnique(queryTemplate, a, Assignment(Occurrences(queryTemplate), values), q);
    }
    if forall name | name in a :: Safe(a[name]) {
      var values := ValuesFor(queryTemplate, a);
      assert Expand(queryTemplate, values) == Some(q);
    }
  }

  function LabelsOf(ms: seq<Occurrence>, a: map<string, string>): map<string, string> {
    map m | m in ms && "label." + m.key in a :: m.key := a["label." + m.key]
  }

  function AnnotationsOf(ms: seq<Occurrence>, a: map<string, string>): map<string, string> {
    map m | m in ms && "annotation." + m.key in a :: m.key := a["annotation." + m.key]
  }

  lemma LookupReads(ms: seq<Occurrence>, a: map<string, string>, m: Occurrence)
    requires m in ms && IsKind(m.kind) && m.Name() in a
    ensures Lookup(Values(LabelsOf(ms, a), AnnotationsOf(ms, a)), m.kind, m.key) == Some(a[m.Name()])
  {
    assert m.kind == "label" ==> m.Name() == "label." + m.key;
    assert m.kind == "annotation" ==> m.Name() == "annotation." + m.key;
  }

  lemma ValuesFor(queryTemplate: string, a: map<string, string>) returns (values: Values)
    requires Compile(queryTemplate).Some?
    requires forall name | name in Compile(queryTemplate).value.placeholders :: name in a && Safe(a[name])
    ensures var c := Compile(queryTemplate).value;
      Expand(queryTemplate, values) == Some(Weave(c.literals, Fill(c.placeholders, a)))
  {
    var ms := Occurrences(queryTemplate);
    CompiledHasDelimiter(queryTemplate);
    FindAllFinds(TrimSpace(queryTemplate), 0);
    forall m | m in ms ensures IsKind(m.kind) && m.Name() in Names(ms) {
      OccurrenceOpens(TrimSpace(queryTemplate), m);
      var i :| 0 <= i < |ms| && ms[i] == m;
      assert Names(ms)[i] == m.Name();
    }
    values := Values(LabelsOf(ms, a), AnnotationsOf(ms, a));
    LookupsReadAll(ms, a);
  }

  lemma LookupsReadAll(ms: seq<Occurrence>, a: map<string, string>)
    requires forall m | m in ms :: IsKind(m.kind) && m.Name() in a && Safe(a[m.Name()])
    ensures var values := Values(LabelsOf(ms, a), AnnotationsOf(ms, a));
      && SuppliesAll(values, ms)
      && (forall name | name in Names(ms) :: name in a)
      && Supplied(values, ms) == Fill(Names(ms), a)
  {
    var values := Values(LabelsOf(ms, a), AnnotationsOf(ms, a));
    forall i | 0 <= i < |ms|
      ensures Supplies(values, ms[i]) && Lookup(values, ms[i].kind, ms[i].key) == Some(a[ms[i].Name()]) {
      LookupReads(ms, a, ms[i]);
    }
  }
}
