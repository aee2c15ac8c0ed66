/** Filling a compiled template never changes how its quotes and backslashes
    are read: the lexical side of internal/diagnosisquery/template.go. */
module QuoteNeutrality {
  import opened Text
  import opened Placeholder
  import opened Template
  import opened TemplateProofs

  /** A scanner for double-quoted strings with backslash escapes. */
  datatype LexState = Outside | Inside | Escaped

  function Step(st: LexState, c: char): LexState {
    match st
    case Outside => if c == '"' then Inside else Outside
    case Inside => if c == '"' then Outside else if c == '\\' then Escaped else Inside
    case Escaped => Inside
  }

  function Scan(st: LexState, s: string): LexState
    decreases |s|
  {
    if s == "" then st else Scan(Step(st, s[0]), s[1..])
  }

  /** The quotes and backslashes of a text, in order. */
  function Skeleton(s: string): string {
    if s == "" then ""
    else (if IsMark(s[0]) then [s[0]] else []) + Skeleton(s[1..])
  }

  predicate IsMark(c: char) { c == '"' || c == '\\' }

  /** The text before literal `i`: literals and values in turn. */
  function Before(lits: seq<string>, vals: seq<string>, i: nat): string
    requires i <= |vals| && |lits| == |vals| + 1
  {
    if i == 0 then "" else Before(lits, vals, i - 1) + lits[i - 1] + vals[i - 1]
  }

  lemma {:induction false} ScanConcat(st: LexState, a: string, b: string)
    ensures Scan(st, a + b) == Scan(Scan(st, a), b)
    decreases |a|
  {
    if a == "" {
      assert a + b == b;
    } else {
      assert (a + b)[1..] == a[1..] + b;
      ScanConcat(Step(st, a[0]), a[1..], b);
    }
  }

  lemma Grouping(a: string, b: string, c: string)
    ensures a + (b + c) == a + b + c
  {
  }

  lemma {:induction false} SkeletonConcat(a: string, b: string)
    ensures Skeleton(a + b) == Skeleton(a) + Skeleton(b)
  {
    if a == "" {
      assert a + b == b;
    } else {
      assert (a + b)[0] == a[0] && (a + b)[1..] == a[1..] + b;
      SkeletonConcat(a[1..], b);
      Grouping(if IsMark(a[0]) then [a[0]] else [], Skeleton(a[1..]), Skeleton(b));
    }
  }

  /** The skeleton keeps every quote and every backslash. */
  lemma {:induction false} SkeletonCounts(s: string)
    ensures multiset(Skeleton(s))['"'] == multiset(s)['"']
    ensures multiset(Skeleton(s))['\\'] == multiset(s)['\\']
  {
    if s != "" {
      SkeletonCounts(s[1..]);
      assert s == [s[0]] + s[1..];
    }
  }

  /** A text without quotes and backslashes, such as a value or a placeholder. */
  predicate Plain(s: string) {
    forall i | 0 <= i < |s| :: s[i] != '"' && s[i] != '\\'
  }

  lemma {:induction false} PlainIsNeutral(st: LexState, s: string)
    requires Plain(s)
    ensures Skeleton(s) == ""
    ensures st != Escaped ==> Scan(st, s) == st
    decreases |s|
  {
    if s != "" {
      PlainIsNeutral(st, s[1..]);
    }
  }

  lemma ScanEndsOnQuote(st: LexState, lit: string)
    requires lit != "" && lit[|lit| - 1] == '"'
    ensures Scan(st, lit) != Escaped
  {
    var n := |lit| - 1;
    assert lit == lit[..n] + [lit[n]];
    ScanConcat(st, lit[..n], [lit[n]]);
    assert [lit[n]][1..] == "";
  }

  predicate AllPlain(vals: seq<string>) {
    forall i | 0 <= i < |vals| :: Plain(vals[i])
  }

  /** The scanner reaches every literal in a state the values do not influence. */
  lemma {:induction false} BoundaryStates(lits: seq<string>, vals1: seq<string>, vals2: seq<string>, i: nat)
    requires |lits| == |vals1| + 1 == |vals2| + 1 && i <= |vals1|
    requires Anchored(lits) && AllPlain(vals1) && AllPlain(vals2)
    ensures Scan(Outside, Before(lits, vals1, i)) == Scan(Outside, Before(lits, vals2, i))
    ensures Skeleton(Before(lits, vals1, i)) == Skeleton(Before(lits, vals2, i))
  {
    if i > 0 {
      BoundaryStates(lits, vals1, vals2, i - 1);
      PieceIsNeutral(Before(lits, vals1, i - 1), lits[i - 1], vals1[i - 1]);
      PieceIsNeutral(Before(lits, vals2, i - 1), lits[i - 1], vals2[i - 1]);
    }
  }

  lemma PieceIsNeutral(done: string, lit: string, val: string)
    requires lit != "" && lit[|lit| - 1] == '"' && Plain(val)
    ensures Scan(Outside, done + lit + val) == Scan(Scan(Outside, done), lit)
    ensures Skeleton(done + lit + val) == Skeleton(done) + Skeleton(lit)
  {
    ScanConcat(Outside, done + lit, val);
    ScanConcat(Outside, done, lit);
    ScanEndsOnQuote(Scan(Outside, done), lit);
    PlainIsNeutral(Scan(Outside, done + lit), val);
    SkeletonConcat(done + lit, val);
    SkeletonConcat(done, lit);
  }

  lemma {:induction false} WeaveIsBefore(lits: seq<string>, vals: seq<string>, i: nat)
    requires |lits| == |vals| + 1 && i <= |vals|
    ensures Weave(lits, vals) == Before(lits, vals, i) + Weave(lits[i..], vals[i..])
  {
    if i == 0 {
      assert lits[0..] == lits && vals[0..] == vals;
    } else {
      WeaveIsBefore(lits, vals, i - 1);
      assert lits[i - 1..][1..] == lits[i..] && vals[i - 1..][1..] == vals[i..];
      WeaveStep(lits[i - 1..], vals[i - 1..]);
      Regroup(Before(lits, vals, i - 1), lits[i - 1], vals[i - 1], Weave(lits[i..], vals[i..]));
      var w := Weave(lits[i..], vals[i..]);
      assert lits[i - 1] + (vals[i - 1] + w) == lits[i - 1] + vals[i - 1] + w;
    }
  }

  /** Two fillings of the same literals are read alike, to the end. */
  lemma FillingsReadAlike(lits: seq<string>, vals1: seq<string>, vals2: seq<string>)
    requires |lits| == |vals1| + 1 == |vals2| + 1
    requires Anchored(lits) && AllPlain(vals1) && AllPlain(vals2)
    ensures Scan(Outside, Weave(lits, vals1)) == Scan(Outside, Weave(lits, vals2))
    ensures Skeleton(Weave(lits, vals1)) == Skeleton(Weave(lits, vals2))
  {
    var n := |vals1|;
    BoundaryStates(lits, vals1, vals2, n);
    WholeWeave(lits, vals1);
    WholeWeave(lits, vals2);
    ScanConcat(Outside, Before(lits, vals1, n), lits[n]);
    ScanConcat(Outside, Before(lits, vals2, n), lits[n]);
    SkeletonConcat(Before(lits, vals1, n), lits[n]);
    SkeletonConcat(Before(lits, vals2, n), lits[n]);
  }

  lemma WholeWeave(lits: seq<string>, vals: seq<string>)
    requires |lits| == |vals| + 1
    ensures Weave(lits, vals) == Before(lits, vals, |vals|) + lits[|vals|]
  {
    WeaveIsBefore(lits, vals, |vals|);
    assert vals[|vals|..] == [] && lits[|vals|..][0] == lits[|vals|];
  }

  // ------------------------------------------------------------ main results

  lemma CapturedIsPlain(names: seq<string>, a: map<string, string>)
    requires forall name | name in names :: name in a && All(Captured, a[name])
    ensures AllPlain(Fill(names, a))
  {
    forall i | 0 <= i < |names| ensures Plain(a[names[i]]) {
      assert names[i] in names;
      forall k | 0 <= k < |a[names[i]]| ensures a[names[i]][k] != '"' && a[names[i]][k] != '\\' {
        assert Captured.Has(a[names[i]][k]);
      }
    }
  }

  /** Substitution is lexically neutral: for any two expansions of a template,
      the scanner is in the same state at the start of every literal segment,
      and both results have the same quotes and backslashes in order. */
  lemma ExpansionsReadAlike(queryTemplate: string, values1: Values, values2: Values, i: nat)
    requires Compile(queryTemplate).Some? && i <= |Occurrences(queryTemplate)|
    requires Expand(queryTemplate, values1).Some? && Expand(queryTemplate, values2).Some?
    ensures var ms := Occurrences(queryTemplate);
      var c := Compile(queryTemplate).value;
      && SuppliesAll(values1, ms) && SuppliesAll(values2, ms)
      && Scan(Outside, Before(c.literals, Supplied(values1, ms), i))
         == Scan(Outside, Before(c.literals, Supplied(values2, ms), i))
      && Skeleton(Expand(queryTemplate, values1).value) == Skeleton(Expand(queryTemplate, values2).value)
  {
    var ms := Occurrences(queryTemplate);
    var c := Compile(queryTemplate).value;
    CompiledHasDelimiter(queryTemplate);
    CompileAnchored(queryTemplate);
    SuppliedIsPlain(ms, values1);
    SuppliedIsPlain(ms, values2);
    BoundaryStates(c.literals, Supplied(values1, ms), Supplied(values2, ms), i);
    FillingsReadAlike(c.literals, Supplied(values1, ms), Supplied(values2, ms));
  }

  lemma SuppliedIsPlain(ms: seq<Occurrence>, values: Values)
    requires SuppliesAll(values, ms)
    ensures AllPlain(Supplied(values, ms))
  {
    forall i | 0 <= i < |ms| ensures Plain(Supplied(values, ms)[i]) {
      assert Supplies(values, ms[i]);
    }
  }

  /** A placeholder's own text holds no quote and no backslash. */
  lemma PlaceholderIsPlain(t: string, m: Occurrence)
    requires PlaceholderAt(t, m.start) == Some(m)
    ensures Plain(t[m.start..m.end])
  {
    PlaceholderAtIff(t, m.start, m.end, m.kind, m.key);
    var a: nat, k: nat, e: nat :| PlaceholderParts(t, m.start, m.end, m.kind, m.key, a, k, e);
    forall n | m.start <= n < m.end ensures t[n] != '"' && t[n] != '\\' {
      PartIsPlain(t, m.start, m.end, m.kind, m.key, a, k, e, n);
    }
  }

  lemma PartIsPlain(t: string, i: nat, j: nat, kind: string, key: string, a: nat, k: nat, e: nat, n: nat)
    requires PlaceholderParts(t, i, j, kind, key, a, k, e) && i <= n < j
    ensures t[n] != '"' && t[n] != '\\'
  {
    if n < i + 2 {
      assert OPENING[n - i] == t[n];
    } else if a <= n < k {
      assert (kind + ".")[n - a] == t[n];
    } else if j - 2 <= n {
      assert CLOSING[n - (j - 2)] == t[n];
    } else {
      assert RegexSpace.Has(t[n]) || NameChar.Has(t[n]);
    }
  }

  lemma {:induction false} TextsArePlain(t: string, ms: seq<Occurrence>, last: nat)
    requires InOrder(ms, last, |t|) && forall m | m in ms :: PlaceholderAt(t, m.start) == Some(m)
    ensures AllPlain(Texts(t, ms, last))
  {
    if ms != [] {
      InOrderFits(ms, last, |t|);
      PlaceholderIsPlain(t, ms[0]);
      TextsArePlain(t, ms[1..], ms[0].end);
    }
  }

  /** An instance of a template is read like the template's own text: up to every
      literal segment the scanner has come to the same state in both, and both have
      the same quotes and backslashes in order. */
  lemma InstanceReadsLikeTemplate(queryTemplate: string, a: map<string, string>, q: string, i: nat)
    requires Compile(queryTemplate).Some? && Instantiates(Compile(queryTemplate).value, a, q)
    requires i <= |Occurrences(queryTemplate)|
    ensures var t, ms, c := TrimSpace(queryTemplate), Occurrences(queryTemplate), Compile(queryTemplate).value;
      var vals, own := Fill(c.placeholders, a), Texts(t, ms, 0);
      && |vals| == |own| == |ms|
      && Before(c.literals, vals, i) <= q && Before(c.literals, own, i) <= t
      && Scan(Outside, Before(c.literals, vals, i)) == Scan(Outside, Before(c.literals, own, i))
      && Skeleton(Before(c.literals, vals, i)) == Skeleton(Before(c.literals, own, i))
      && Scan(Outside, q) == Scan(Outside, t) && Skeleton(q) == Skeleton(t)
  {
    var t, ms, c := TrimSpace(queryTemplate), Occurrences(queryTemplate), Compile(queryTemplate).value;
    var vals, own := Fill(c.placeholders, a), Texts(t, ms, 0);
    OwnTextsFill(queryTemplate);
    CapturedIsPlain(c.placeholders, a);
    WeaveIsBefore(c.literals, vals, i);
    WeaveIsBefore(c.literals, own, i);
    BoundaryStates(c.literals, vals, own, i);
    FillingsReadAlike(c.literals, vals, own);
  }

  /** A template is its literals filled with its own placeholder texts. */
  lemma OwnTextsFill(queryTemplate: string)
    requires Compile(queryTemplate).Some?
    ensures var t, ms, c := TrimSpace(queryTemplate), Occurrences(queryTemplate), Compile(queryTemplate).value;
      && Anchored(c.literals) && AllPlain(Texts(t, ms, 0)) && |c.literals| == |ms| + 1
      && Weave(c.literals, Texts(t, ms, 0)) == t
  {
    var t := TrimSpace(queryTemplate);
    CompileAnchored(queryTemplate);
    FindAllFinds(t, 0);
    TextsArePlain(t, Occurrences(queryTemplate), 0);
    SegmentsRebuild(t, Occurrences(queryTemplate), 0);
    assert t[0..] == t;
  }

  /** Whatever a requester asks for, a query that resolves has exactly the
      quotes and backslashes of its template, and leaves a string literal open
      exactly when the template does. */
  lemma ResolvedReadsLikeTemplate(queryTemplate: string, requestedQuery: string)
    requires Resolve(queryTemplate, requestedQuery).Some?
    ensures var t := TrimSpace(queryTemplate);
      var q := Resolve(queryTemplate, requestedQuery).value;
      && Skeleton(q) == Skeleton(t) && Scan(Outside, q) == Scan(Outside, t)
      && multiset(q)['"'] == multiset(t)['"'] && multiset(q)['\\'] == multiset(t)['\\']
  {
    var t := TrimSpace(queryTemplate);
    var q := TrimSpace(requestedQuery);
    if q != "" && HasDelimiter(t) {
      PermitsTrimmed(queryTemplate, requestedQuery);
      PermittedReadsLikeTemplate(queryTemplate, requestedQuery);
    } else {
      TrimSpaceFixed(t);
      TrimSpaceFixed(q);
    }
    SkeletonCounts(t);
    SkeletonCounts(Resolve(queryTemplate, requestedQuery).value);
  }

  lemma PermittedReadsLikeTemplate(queryTemplate: string, query: string)
    requires Compile(queryTemplate).Some? && Permits(queryTemplate, query)
    ensures Skeleton(TrimSpace(query)) == Skeleton(TrimSpace(queryTemplate))
    ensures Scan(Outside, TrimSpace(query)) == Scan(Outside, TrimSpace(queryTemplate))
  {
    PermitsIffInstance(queryTemplate, query);
    var a :| Instantiates(Compile(queryTemplate).value, a, TrimSpace(query));
    InstanceReadsLikeTemplate(queryTemplate, a, TrimSpace(query), 0);
  }
}
