/** The query-template engine of internal/diagnosisquery/template.go: compile,
    expand, match and resolve. What these promise each other is proved in
    TemplateProofs. */
module Template {
  import opened Text
  import opened Placeholder

  const MAX_PLACEHOLDER_VALUE_BYTES := 200

  datatype Values = Values(labels: map<string, string>, annotations: map<string, string>)

  /** A compiled template. The pattern `^lit0([^"\\\r\n]*)lit1...$` is kept as
      its quoted literal segments, one more than there are placeholders. */
  datatype Compiled = Compiled(literals: seq<string>, placeholders: seq<string>)

  // ----------------------------------------------------------------- compile

  /** The segments of `t` from `last` on, around the occurrences `ms`. */
  function Literals(t: string, ms: seq<Occurrence>, last: nat): (lits: seq<string>)
    requires InOrder(ms, last, |t|)
    ensures |lits| == |ms| + 1
  {
    InOrderFits(ms, last, |t|);
    if ms == [] then [t[last..]]
    else [t[last..ms[0].start]] + Literals(t, ms[1..], ms[0].end)
  }

  /** What `compileTemplate` checks: no segment holds a delimiter and every
      occurrence is a quoted matcher value. */
  predicate Acceptable(t: string, ms: seq<Occurrence>, last: nat)
    requires InOrder(ms, last, |t|)
  {
    InOrderFits(ms, last, |t|);
    if ms == [] then !HasDelimiter(t[last..])
    else
      && !HasDelimiter(t[last..ms[0].start])
      && IsQuotedValue(t, ms[0].start, ms[0].end)
      && Acceptable(t, ms[1..], ms[0].end)
  }

  /** One step of the loops over the occurrences. */
  lemma SegmentStep(t: string, ms: seq<Occurrence>, i: nat, last: nat)
    requires i < |ms| && InOrder(ms[i..], last, |t|)
    ensures last <= ms[i].start <= ms[i].end <= |t| && InOrder(ms[i + 1..], ms[i].end, |t|)
    ensures Literals(t, ms[i..], last) == [t[last..ms[i].start]] + Literals(t, ms[i + 1..], ms[i].end)
    ensures Acceptable(t, ms[i..], last) <==>
      !HasDelimiter(t[last..ms[i].start]) && IsQuotedValue(t, ms[i].start, ms[i].end)
      && Acceptable(t, ms[i + 1..], ms[i].end)
  {
    InOrderFits(ms[i..], last, |t|);
    assert ms[i..][0] == ms[i] && ms[i..][1..] == ms[i + 1..];
  }

  function Names(ms: seq<Occurrence>): (names: seq<string>)
    ensures |names| == |ms|
    ensures forall i | 0 <= i < |ms| :: names[i] == ms[i].Name()
  {
    seq(|ms|, i requires 0 <= i < |ms| => ms[i].Name())
  }

  lemma NamesStep(ms: seq<Occurrence>, i: nat)
    requires i < |ms|
    ensures Names(ms)[..i + 1] == Names(ms)[..i] + [ms[i].Name()]
  {
  }

  lemma NextLiteral(done: seq<string>, lit: string, rest: seq<string>)
    ensures done + ([lit] + rest) == done + [lit] + rest
  {
  }

  function Compile(queryTemplate: string): (r: Option<Compiled>)
    ensures r.Some? ==> |r.value.literals| == |r.value.placeholders| + 1
  {
    var t := TrimSpace(queryTemplate);
    var ms := FindAll(t, 0);
    if ms != [] && Acceptable(t, ms, 0) then Some(Compiled(Literals(t, ms, 0), Names(ms)))
    else None
  }

  lemma CompileTrimmed(queryTemplate: string)
    ensures Compile(TrimSpace(queryTemplate)) == Compile(queryTemplate)
  {
    TrimSpaceFixed(TrimSpace(queryTemplate));
  }

  method CompileTemplate(queryTemplate: string) returns (r: Option<Compiled>)
    ensures r == Compile(queryTemplate)
  {
    var t := TrimSpace(queryTemplate);
    var matches := FindAll(t, 0);
    if |matches| == 0 {
      return None;
    }
    r := CompileMatches(t, matches);
  }

  /** The loop of `compileTemplate`. */
  method CompileMatches(t: string, matches: seq<Occurrence>) returns (r: Option<Compiled>)
    requires InOrder(matches, 0, |t|)
    ensures r == if Acceptable(t, matches, 0) then Some(Compiled(Literals(t, matches, 0), Names(matches))) else None
  {
    var placeholders: seq<string> := [];
    var pattern: seq<string> := [];
    var last: nat := 0;
    for i := 0 to |matches|
      invariant last <= |t| && InOrder(matches[i..], last, |t|)
      invariant pattern + Literals(t, matches[i..], last) == Literals(t, matches, 0)
      invariant placeholders == Names(matches)[..i]
      invariant Acceptable(t, matches, 0) <==> Acceptable(t, matches[i..], last)
    {
      var m := matches[i];
      SegmentStep(t, matches, i, last);
      if HasDelimiter(t[last..m.start]) {
        return None;
      }
      if !IsQuotedValue(t, m.start, m.end) {
        return None;
      }
      NamesStep(matches, i);
      placeholders := placeholders + [m.kind + "." + m.key];
      NextLiteral(pattern, t[last..m.start], Literals(t, matches[i + 1..], m.end));
      pattern := pattern + [t[last..m.start]];
      last := m.end;
    }
    WholeSlice(matches);
    WholeSlice(Names(matches));
    if HasDelimiter(t[last..]) {
      return None;
    }
    pattern := pattern + [t[last..]];
    return Some(Compiled(pattern, placeholders));
  }

  /** `ValidateTemplate` returns no error. */
  predicate Valid(queryTemplate: string) {
    HasDelimiter(queryTemplate) ==> Compile(queryTemplate).Some?
  }

  // ------------------------------------------------------------------ expand

  function Lookup(values: Values, kind: string, key: string): Option<string> {
    if kind == "label" && key in values.labels then Some(values.labels[key])
    else if kind == "annotation" && key in values.annotations then Some(values.annotations[key])
    else None
  }

  /** `safePlaceholderValue`. */
  predicate Safe(value: string) {
    && Utf8Len(value) <= MAX_PLACEHOLDER_VALUE_BYTES
    && forall i | 0 <= i < |value| :: !IsControl(value[i]) && value[i] != '"' && value[i] != '\\'
  }

  predicate Supplies(values: Values, m: Occurrence) {
    Lookup(values, m.kind, m.key).Some? && Safe(Lookup(values, m.kind, m.key).value)
  }

  predicate SuppliesAll(values: Values, ms: seq<Occurrence>) {
    forall m | m in ms :: Supplies(values, m)
  }

  function Supplied(values: Values, ms: seq<Occurrence>): (vals: seq<string>)
    requires SuppliesAll(values, ms)
    ensures |vals| == |ms|
  {
    assert forall i | 0 <= i < |ms| :: ms[i] in ms;
    seq(|ms|, i requires 0 <= i < |ms| && Supplies(values, ms[i]) => Lookup(values, ms[i].kind, ms[i].key).value)
  }

  /** The literals with one text put between each two. */
  function Weave(lits: seq<string>, vals: seq<string>): string
    requires |lits| == |vals| + 1
  {
    if vals == [] then lits[0] else lits[0] + vals[0] + Weave(lits[1..], vals[1..])
  }

  lemma SupplyStep(t: string, ms: seq<Occurrence>, i: nat, last: nat, values: Values)
    requires i < |ms| && InOrder(ms[i..], last, |t|)
    requires SuppliesAll(values, ms[i..])
    ensures last <= ms[i].start <= ms[i].end <= |t| && InOrder(ms[i + 1..], ms[i].end, |t|)
    ensures Supplies(values, ms[i]) && SuppliesAll(values, ms[i + 1..])
    ensures Weave(Literals(t, ms[i..], last), Supplied(values, ms[i..]))
      == t[last..ms[i].start] + Lookup(values, ms[i].kind, ms[i].key).value
         + Weave(Literals(t, ms[i + 1..], ms[i].end), Supplied(values, ms[i + 1..]))
  {
    SegmentStep(t, ms, i, last);
    assert ms[i..][0] == ms[i] && ms[i..][1..] == ms[i + 1..];
    assert ms[i] in ms[i..] && forall m | m in ms[i + 1..] :: m in ms[i..];
    var lits := Literals(t, ms[i..], last);
    var vals := Supplied(values, ms[i..]);
    assert lits[1..] == Literals(t, ms[i + 1..], ms[i].end);
    assert vals[1..] == Supplied(values, ms[i + 1..]);
  }

  /** `ExpandTemplate`; None is its `false`. */
  function Expand(queryTemplate: string, values: Values): Option<string> {
    var t := TrimSpace(queryTemplate);
    var ms := FindAll(t, 0);
    if !HasDelimiter(t) then Some(t)
    else match Compile(queryTemplate)
      case None => None
      case Some(c) =>
        if SuppliesAll(values, ms) then Some(Weave(c.literals, Supplied(values, ms)))
        else None
  }

  method ExpandTemplate(queryTemplate: string, values: Values) returns (query: string, ok: bool)
    ensures ok <==> Expand(queryTemplate, values).Some?
    ensures query == if ok then Expand(queryTemplate, values).value else ""
  {
    var t := TrimSpace(queryTemplate);
    if !HasDelimiter(t) {
      return t, true;
    }
    CompileTrimmed(queryTemplate);
    var compiled := CompileTemplate(t);
    if compiled.None? {
      return "", false;
    }
    var matches := FindAll(t, 0);
    query, ok := ExpandMatches(t, matches, values);
  }

  /** The loop of `ExpandTemplate`. */
  method ExpandMatches(t: string, matches: seq<Occurrence>, values: Values) returns (query: string, ok: bool)
    requires InOrder(matches, 0, |t|)
    ensures ok <==> SuppliesAll(values, matches)
    ensures query == if ok then Weave(Literals(t, matches, 0), Supplied(values, matches)) else ""
  {
    var out := "";
    var last: nat := 0;
    for i := 0 to |matches|
      invariant last <= |t| && InOrder(matches[i..], last, |t|)
      invariant SuppliesAll(values, matches[..i])
      invariant SuppliesAll(values, matches) ==>
        out + Weave(Literals(t, matches[i..], last), Supplied(values, matches[i..]))
        == Weave(Literals(t, matches, 0), Supplied(values, matches))
    {
      var m := matches[i];
      SegmentStep(t, matches, i, last);
      ghost var before := out;
      out := out + t[last..m.start];
      var value := Lookup(values, m.kind, m.key);
      if value.None? || !Safe(value.value) {
        assert m in matches && !Supplies(values, m);
        return "", false;
      }
      if SuppliesAll(values, matches) {
        SupplyStep(t, matches, i, last, values);
        var rest := Weave(Literals(t, matches[i + 1..], m.end), Supplied(values, matches[i + 1..]));
        Regroup(before, t[last..m.start], value.value, rest);
      }
      out := out + value.value;
      last := m.end;
      assert matches[..i + 1] == matches[..i] + [m];
    }
    WholeSlice(matches);
    out := out + t[last..];
    return out, true;
  }

  lemma Regroup(a: string, b: string, c: string, d: string)
    ensures a + (b + c + d) == a + b + c + d
  {
  }

  // ------------------------------------------------------------------- match

  /** Leftmost-first matching of the pattern `lits[0] ([^"\\\r\n]*) lits[1] ...`
      anchored at both ends: a capture group tries its longest run first and
      backs off one character at a time. */
  function Find(lits: seq<string>, q: string): (r: Option<seq<string>>)
    requires lits != []
    ensures r.Some? ==> |lits| == |r.value| + 1
    decreases |lits|, 0
  {
    if |lits| == 1 then (if q == lits[0] then Some([]) else None)
    else if lits[0] <= q then
      var rest := q[|lits[0]|..];
      Capture(lits[1..], rest, SkipWhile(rest, 0, Captured))
    else None
  }

  /** A capture group that takes at most `k` characters of `q`, then the rest. */
  function Capture(lits: seq<string>, q: string, k: nat): (r: Option<seq<string>>)
    requires lits != [] && k <= |q|
    ensures r.Some? ==> |lits| == |r.value|
    decreases |lits|, k + 1
  {
    match Find(lits, q[k..])
    case Some(caps) => Some([q[..k]] + caps)
    case None => if k == 0 then None else Capture(lits, q, k - 1)
  }

  /** Repeated placeholders captured the same text. */
  predicate Consistent(names: seq<string>, caps: seq<string>)
    requires |names| == |caps|
  {
    forall i, j | 0 <= i < |names| && 0 <= j < |names| && names[i] == names[j] :: caps[i] == caps[j]
  }

  predicate Permits(queryTemplate: string, query: string) {
    var t := TrimSpace(queryTemplate);
    var q := TrimSpace(query);
    if !HasDelimiter(t) then q == t
    else match Compile(queryTemplate)
      case None => false
      case Some(c) =>
        var caps := Find(c.literals, q);
        caps.Some? && Consistent(c.placeholders, caps.value)
  }

  method MatchesTemplate(queryTemplate: string, query: string) returns (ok: bool)
    ensures ok <==> Permits(queryTemplate, query)
  {
    var t := TrimSpace(queryTemplate);
    var q := TrimSpace(query);
    if !HasDelimiter(t) {
      return q == t;
    }
    CompileTrimmed(queryTemplate);
    var compiled := CompileTemplate(t);
    if compiled.None? {
      return false;
    }
    var found := Find(compiled.value.literals, q);
    if found.None? {
      return false;
    }
    ok := CapturesConsistent(compiled.value.placeholders, found.value);
  }

  /** The loop of `MatchesTemplate`. */
  method CapturesConsistent(names: seq<string>, caps: seq<string>) returns (ok: bool)
    requires |names| == |caps|
    ensures ok <==> Consistent(names, caps)
  {
    var seen: map<string, string> := map[];
    for i := 0 to |names|
      invariant forall name | name in seen :: exists j :: 0 <= j < i && names[j] == name
      invariant forall j | 0 <= j < i :: names[j] in seen && seen[names[j]] == caps[j]
    {
      if names[i] in seen && seen[names[i]] != caps[i] {
        return false;
      }
      seen := seen[names[i] := caps[i]];
    }
    return true;
  }

  // ----------------------------------------------------------------- resolve

  /** `ResolveExecutableQuery`; None is its `false`. */
  function Resolve(queryTemplate: string, requestedQuery: string): Option<string> {
    var t := TrimSpace(queryTemplate);
    var q := TrimSpace(requestedQuery);
    if q == "" then (if HasDelimiter(t) || t == "" then None else Some(t))
    else if Permits(t, q) then Some(q)
    else None
  }
}
