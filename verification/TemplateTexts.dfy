/** What internal/diagnosisquery/template.go does with templates and queries that
    are written out as texts, without reference to its scanners. */
module TemplateTexts {
  import opened Text
  import opened Placeholder
  import opened Template
  import opened TemplateProofs

  // --------------------------------------------------------------- delimiters

  ghost predicate Contains(s: string, w: string) {
    exists before, after :: s == before + w + after
  }

  /** The delimiter test is for two opening or two closing braces. */
  lemma DelimiterIff(s: string)
    ensures HasDelimiter(s) <==> Contains(s, "{{") || Contains(s, "}}")
  {
    if HasDelimiter(s) {
      var i :| 0 <= i < |s| - 1 && DelimiterAt(s, i);
      assert s == s[..i] + [s[i], s[i]] + s[i + 2..];
      assert [s[i], s[i]] == "{{" || [s[i], s[i]] == "}}";
    }
    if Contains(s, "{{") {
      var before, after :| s == before + "{{" + after;
      assert DelimiterAt(s, |before|);
    }
    if Contains(s, "}}") {
      var before, after :| s == before + "}}" + after;
      assert DelimiterAt(s, |before|);
    }
  }

  lemma BracelessBehind(a: string, b: string)
    requires forall c | c in b :: c != '{' && c != '}'
    ensures HasDelimiter(a + b) <==> HasDelimiter(a)
  {
    var s := a + b;
    assert forall i | |a| <= i < |s| :: s[i] in b;
    if HasDelimiter(s) {
      var i :| 0 <= i < |s| - 1 && DelimiterAt(s, i);
      assert DelimiterAt(a, i);
    }
    if HasDelimiter(a) {
      var i :| 0 <= i < |a| - 1 && DelimiterAt(a, i);
      assert DelimiterAt(s, i);
    }
  }

  lemma QuoteBefore(b: string)
    ensures HasDelimiter("\"" + b) <==> HasDelimiter(b)
  {
    var s := "\"" + b;
    if HasDelimiter(s) {
      var i :| 0 <= i < |s| - 1 && DelimiterAt(s, i);
      assert DelimiterAt(b, i - 1);
    }
    if HasDelimiter(b) {
      var i :| 0 <= i < |b| - 1 && DelimiterAt(b, i);
      assert DelimiterAt(s, i + 1);
    }
  }

  // -------------------------------------------------------- values, written out

  /** At most 200 bytes of UTF-8, and no control character, quote or backslash. */
  predicate IsSafeText(s: string) {
    && |s| + CountFrom(s, 0x80) + CountFrom(s, 0x800) + CountFrom(s, 0x10000) <= 200
    && forall c | c in s :: ' ' <= c && !('\U{007F}' <= c <= '\U{009F}') && c != '"' && c != '\\'
  }

  lemma SafeIff(s: string)
    ensures Safe(s) <==> IsSafeText(s)
  {
    Utf8LenCounts(s);
    assert (forall c | c in s :: ' ' <= c && !('\U{007F}' <= c <= '\U{009F}') && c != '"' && c != '\\')
      <==> (forall i | 0 <= i < |s| :: !IsControl(s[i]) && s[i] != '"' && s[i] != '\\') by {
      assert forall i | 0 <= i < |s| :: s[i] in s;
    }
  }

  /** No quote, no backslash, no carriage return and no line feed. */
  predicate IsCapturable(s: string) {
    forall c | c in s :: c != '"' && c != '\\' && c != '\r' && c != '\n'
  }

  lemma CapturableIff(s: string)
    ensures All(Captured, s) <==> IsCapturable(s)
  {
    if IsCapturable(s) {
      forall i | 0 <= i < |s| ensures Captured.Has(s[i]) { assert s[i] in s; }
    }
    if All(Captured, s) {
      forall c | c in s ensures IsCapturable([c]) {
        var i :| 0 <= i < |s| && s[i] == c;
        assert Captured.Has(s[i]);
      }
      forall c | c in s ensures c in [c] { }
    }
  }

  // ------------------------------------------- a template with one placeholder

  /** A template written out: text, a label matcher with a placeholder for its
      value, and text. */
  datatype Matcher = Matcher(pre: string, gap0: string, name: string, gap1: string, op: Operator, gap2: string,
                             gap3: string, kind: string, key: string, gap4: string, post: string)
  {
    function Prefix(): string { MatcherText(pre, gap0, name, gap1, op, gap2) }

    function Hole(): string { PlaceholderText(gap3, kind, key, gap4) }

    /** The matcher with `text` as its quoted value. */
    function Around(text: string): string { Prefix() + "\"" + text + ("\"" + post) }

    function Whole(): string { Around(Hole()) }

    /** Any white space, name, kind and key; the other texts hold no delimiter, and
        the whole has no white space around it. The text before the matcher ends
        where the white space or the name begins. */
    predicate IsWellSpelled() {
      && IsBlank(gap0) && IsBlank(gap1) && IsBlank(gap2) && IsBlank(gap3) && IsBlank(gap4)
      && IsWord(name) && (kind == "label" || kind == "annotation") && IsWord(key)
      && !HasDelimiter(pre) && !HasDelimiter(post)
      && (pre != "" ==> !(IsBlankChar(pre[|pre| - 1]) || IsWordChar(pre[|pre| - 1])))
      && (if pre == "" then gap0 == "" else !IsSpace(pre[0]))
      && (post != "" ==> !IsSpace(post[|post| - 1]))
    }

    function Only(): Occurrence { Occurrence(|Prefix()| + 1, |Prefix()| + 1 + |Hole()|, kind, key) }
  }

  lemma OnlyFound(x: Matcher)
    requires x.IsWellSpelled()
    ensures var t, m := x.Whole(), x.Only();
      && FindAll(t, 0) == [m] && HasDelimiter(t) && InOrder([m], 0, |t|)
      && Literals(t, [m], 0) == [x.Prefix() + "\"", "\"" + x.post]
      && !HasDelimiter(x.Prefix() + "\"") && !HasDelimiter("\"" + x.post)
  {
    OnlyMatches(x);
    OnlyLiterals(x);
    HeadHasNoDelimiter(x);
    QuoteBefore(x.post);
    FoundOnce(x.Whole(), x.Only(), x.Prefix() + "\"", "\"" + x.post);
  }

  lemma FoundOnce(t: string, m: Occurrence, head: string, tail: string)
    requires PlaceholderAt(t, m.start) == Some(m) && Flanked(t, m) && InOrder([m], 0, |t|)
    requires Literals(t, [m], 0) == [head, tail] && !HasDelimiter(head) && !HasDelimiter(tail)
    ensures FindAll(t, 0) == [m] && HasDelimiter(t)
    ensures Acceptable(t, [m], 0) <==> IsQuotedValue(t, m.start, m.end)
  {
    assert PlaceholderPattern(t)(m.start) == Some(m);
    CutHasEmptyGaps(t, [m], 0);
    LeftmostUnique(PlaceholderPattern(t), |t|, [m], 0);
    OccurrenceHasDelimiter(t, m);
    AcceptedOnce(t, m, head, tail);
  }

  lemma AcceptedOnce(t: string, m: Occurrence, head: string, tail: string)
    requires InOrder([m], 0, |t|) && Literals(t, [m], 0) == [head, tail]
    requires !HasDelimiter(head) && !HasDelimiter(tail)
    ensures Acceptable(t, [m], 0) <==> IsQuotedValue(t, m.start, m.end)
  {
    SegmentStep(t, [m], 0, 0);
    assert [m][0..] == [m] && [m][0 + 1..] == [];
    assert [t[0..m.start]] + Literals(t, [], m.end) == [t[0..m.start], t[m.end..]];
  }

  lemma WholeTrimmed(x: Matcher)
    requires x.IsWellSpelled()
    ensures TrimSpace(x.Whole()) == x.Whole()
  {
    var t := x.Whole();
    assert t[0] == if x.pre == "" then x.name[0] else x.pre[0];
    assert x.name[0] in x.name;
    assert t[|t| - 1] == if x.post == "" then '"' else x.post[|x.post| - 1];
    TrimSpaceFixed(t);
  }

  lemma OnlyMatches(x: Matcher)
    requires x.IsWellSpelled()
    ensures var t, m := x.Whole(), x.Only();
      && PlaceholderAt(t, m.start) == Some(m) && Flanked(t, m) && m.end < |t|
      && t[..m.start - 1] == x.Prefix()
  {
    var t, m := x.Whole(), x.Only();
    HolePlace(x.Prefix(), x.Hole(), x.post);
    assert SpellsPlaceholder(x.Hole(), x.kind, x.key);
    PlaceholderSpelling(t, m.start, m.end, x.kind, x.key);
    OccurrenceOpens(t, m);
  }

  lemma HolePlace(prefix: string, hole: string, post: string)
    ensures var t := prefix + "\"" + hole + ("\"" + post);
      var i, j := |prefix| + 1, |prefix| + 1 + |hole|;
      && j < |t| && t[i..j] == hole && t[..i - 1] == prefix && t[i - 1] == '"' && t[j] == '"'
      && t[..i] == prefix + "\"" && t[j..] == "\"" + post
  {
  }

  lemma OnlyLiterals(x: Matcher)
    requires x.IsWellSpelled()
    ensures var t, m := x.Whole(), x.Only();
      InOrder([m], 0, |t|) && Literals(t, [m], 0) == [x.Prefix() + "\"", "\"" + x.post]
  {
    var t, m := x.Whole(), x.Only();
    HolePlace(x.Prefix(), x.Hole(), x.post);
    assert [m][1..] == [];
    assert t[0..m.start] == t[..m.start];
  }

  lemma HeadHasNoDelimiter(x: Matcher)
    requires x.IsWellSpelled()
    ensures !HasDelimiter(x.Prefix() + "\"")
  {
    BlankHasNoBrace(x.gap0);
    BlankHasNoBrace(x.gap1);
    BlankHasNoBrace(x.gap2);
    BracelessBehind(x.pre, x.gap0);
    BracelessBehind(x.pre + x.gap0, x.name);
    BracelessBehind(x.pre + x.gap0 + x.name, x.gap1);
    BracelessBehind(x.pre + x.gap0 + x.name + x.gap1, OperatorText(x.op));
    BracelessBehind(x.pre + x.gap0 + x.name + x.gap1 + OperatorText(x.op), x.gap2);
    BracelessBehind(x.Prefix(), "\"");
  }

  lemma BlankHasNoBrace(s: string)
    requires IsBlank(s)
    ensures forall c | c in s :: c != '{' && c != '}'
  {
  }

  /** The one placeholder is a quoted value behind a brace or a comma, or not. */
  lemma OnlyQuoted(x: Matcher)
    requires x.IsWellSpelled()
    ensures IsQuotedValue(x.Whole(), x.Only().start, x.Only().end)
       <==> OpensMatcher(x.pre) && (x.op == Equal || x.op == NotEqual)
  {
    OnlyMatches(x);
    MatcherAfter(x.Prefix(), x.pre, x.gap0, x.name, x.gap1, x.op, x.gap2);
  }

  lemma OnlyCompiled(x: Matcher)
    requires x.IsWellSpelled()
    ensures var compiles := OpensMatcher(x.pre) && (x.op == Equal || x.op == NotEqual);
      && TrimSpace(x.Whole()) == x.Whole() && Occurrences(x.Whole()) == [x.Only()] && HasDelimiter(x.Whole())
      && Compile(x.Whole())
         == if compiles then Some(Compiled([x.Prefix() + "\"", "\"" + x.post], [x.Only().Name()])) else None
  {
    WholeTrimmed(x);
    OnlyMatches(x);
    OnlyFound(x);
    OnlyQuoted(x);
    FoundOnce(x.Whole(), x.Only(), x.Prefix() + "\"", "\"" + x.post);
    CompiledOnce(x.Whole(), x.Only(), x.Prefix() + "\"", "\"" + x.post);
  }

  lemma CompiledOnce(t: string, m: Occurrence, head: string, tail: string)
    requires TrimSpace(t) == t && FindAll(t, 0) == [m] && InOrder([m], 0, |t|) && Literals(t, [m], 0) == [head, tail]
    ensures Compile(t) == if Acceptable(t, [m], 0) then Some(Compiled([head, tail], [m.Name()])) else None
  {
    assert Names([m]) == [m.Name()];
  }

  /** The values that a placeholder of the given kind reads. */
  function Source(values: Values, kind: string): map<string, string> {
    if kind == "label" then values.labels else values.annotations
  }

  /** Such a template compiles exactly when its matcher stands at the start or
      behind a brace or a comma and compares with `=` or `!=`. It expands to the
      same text around the value exactly when it compiles and the value is there
      and safe. */
  lemma MatcherExpands(x: Matcher, values: Values)
    requires x.IsWellSpelled()
    ensures var compiles := OpensMatcher(x.pre) && (x.op == Equal || x.op == NotEqual);
      var source := Source(values, x.kind);
      && (Compile(x.Whole()).Some? <==> compiles)
      && Expand(x.Whole(), values)
         == if compiles && x.key in source && IsSafeText(source[x.key]) then Some(x.Around(source[x.key])) else None
  {
    OnlyCompiled(x);
    OneValue(x.Only(), values);
    var source := Source(values, x.kind);
    if x.key in source {
      SafeIff(source[x.key]);
      WeaveOne(x.Prefix() + "\"", source[x.key], "\"" + x.post);
    }
  }

  lemma OneValue(m: Occurrence, values: Values)
    requires m.kind == "label" || m.kind == "annotation"
    ensures var source := Source(values, m.kind);
      && (SuppliesAll(values, [m]) <==> m.key in source && Safe(source[m.key]))
      && (SuppliesAll(values, [m]) ==> Supplied(values, [m]) == [source[m.key]])
  {
    assert m in [m];
  }

  lemma WeaveOne(head: string, value: string, tail: string)
    ensures Weave([head, tail], [value]) == head + value + tail
  {
    assert [head, tail][1..] == [tail] && [value][1..] == [];
  }

  /** It permits exactly the same text around a value without quotes, backslashes
      and line ends, when it compiles, and nothing else. */
  lemma MatcherPermitsIff(x: Matcher, query: string)
    requires x.IsWellSpelled()
    ensures Permits(x.Whole(), query)
       <==> && OpensMatcher(x.pre) && (x.op == Equal || x.op == NotEqual)
            && exists value :: IsCapturable(value) && TrimSpace(query) == x.Around(value)
  {
    OnlyCompiled(x);
    if Compile(x.Whole()).Some? {
      PermitsIffInstance(x.Whole(), query);
      OneInstance(Compile(x.Whole()).value, x.Prefix() + "\"", "\"" + x.post, x.Only().Name(), TrimSpace(query));
      assert forall value :: x.Around(value) == x.Prefix() + "\"" + value + ("\"" + x.post);
    }
  }

  lemma OneInstance(c: Compiled, head: string, tail: string, name: string, q: string)
    requires c == Compiled([head, tail], [name])
    ensures (exists a :: Instantiates(c, a, q)) <==> exists value :: IsCapturable(value) && q == head + value + tail
  {
    if a :| Instantiates(c, a, q) {
      assert name in c.placeholders && Fill([name], a) == [a[name]];
      CapturableIff(a[name]);
      WeaveOne(head, a[name], tail);
    }
    if value :| IsCapturable(value) && q == head + value + tail {
      CapturableIff(value);
      WeaveOne(head, value, tail);
      assert Fill([name], map[name := value]) == [value];
      assert Instantiates(c, map[name := value], q);
    }
  }

  /** The smallest selector with a placeholder. */
  lemma SelectorExpands(name: string, key: string, values: Values)
    requires IsWord(name) && IsWord(key)
    ensures var t := name + "=\"{{label." + key + "}}\"";
      && Compile(t).Some?
      && Expand(t, values) == if key in values.labels && IsSafeText(values.labels[key])
                              then Some(name + "=\"" + values.labels[key] + "\"") else None
  {
    var x := Matcher("", "", name, "", Equal, "", "", "label", key, "", "");
    MatcherExpands(x, values);
    SelectorText(x, x.Hole());
    SelectorHole(name, key);
    if key in values.labels {
      SelectorText(x, values.labels[key]);
    }
  }

  lemma SelectorHole(name: string, key: string)
    ensures name + "=\"" + PlaceholderText("", "label", key, "") + "\"" == name + "=\"{{label." + key + "}}\""
  {
    var hole := PlaceholderText("", "label", key, "");
    assert hole == "{{label." + key + "}}";
    var left := name + "=\"";
    assert left + "{{label." == name + "=\"{{label.";
    assert left + hole == left + "{{label." + key + "}}";
    assert left + hole + "\"" == left + "{{label." + key + "}}\"";
  }

  lemma SelectorText(x: Matcher, text: string)
    requires x.pre == x.gap0 == x.gap1 == x.gap2 == x.post == "" && x.op == Equal
    ensures x.Around(text) == x.name + "=\"" + text + "\""
  {
    assert x.Prefix() == x.name + "=";
    assert "\"" + x.post == "\"" && x.name + "=" + "\"" == x.name + "=\"";
  }

  // ------------------------------------------------------- every template

  /** `a` has a value without quotes, backslashes and line ends for each of `names`. */
  ghost predicate GivesCapturable(a: map<string, string>, names: seq<string>) {
    forall name | name in names :: name in a && IsCapturable(a[name])
  }

  /** Which queries a template permits: without delimiters the template itself, and
      with delimiters the instances of what it compiles to. */
  lemma PermitsIff(queryTemplate: string, query: string)
    ensures var t, q := TrimSpace(queryTemplate), TrimSpace(query);
      Permits(queryTemplate, query)
      <==> if !Contains(t, "{{") && !Contains(t, "}}") then q == t
           else && Compile(queryTemplate).Some?
                && var c := Compile(queryTemplate).value;
                   exists a :: GivesCapturable(a, c.placeholders) && Weave(c.literals, Fill(c.placeholders, a)) == q
  {
    var t, q := TrimSpace(queryTemplate), TrimSpace(query);
    DelimiterIff(t);
    if Compile(queryTemplate).Some? {
      var c := Compile(queryTemplate).value;
      PermitsIffInstance(queryTemplate, query);
      CompiledHasDelimiter(queryTemplate);
      if a :| Instantiates(c, a, q) {
        InstanceCaptures(c, a, q);
      }
      if a :| GivesCapturable(a, c.placeholders) && Weave(c.literals, Fill(c.placeholders, a)) == q {
        var b := OnNames(c, a, q);
      }
    }
  }

  lemma InstanceCaptures(c: Compiled, a: map<string, string>, q: string)
    requires |c.literals| == |c.placeholders| + 1 && Instantiates(c, a, q)
    ensures GivesCapturable(a, c.placeholders) && Weave(c.literals, Fill(c.placeholders, a)) == q
  {
    forall name | name in c.placeholders ensures IsCapturable(a[name]) { CapturableIff(a[name]); }
  }

  lemma OnNames(c: Compiled, a: map<string, string>, q: string) returns (b: map<string, string>)
    requires |c.literals| == |c.placeholders| + 1 && GivesCapturable(a, c.placeholders)
    requires Weave(c.literals, Fill(c.placeholders, a)) == q
    ensures Instantiates(c, b, q)
  {
    b := map name | name in c.placeholders :: a[name];
    assert Fill(c.placeholders, b) == Fill(c.placeholders, a);
    forall name | name in b ensures All(Captured, b[name]) { CapturableIff(a[name]); }
  }

  /** What a request resolves to. An empty request resolves to a template that
      always expands to one and the same non-empty query, and to nothing
      otherwise; any other request resolves to itself when it is permitted. */
  lemma ResolveIff(queryTemplate: string, requestedQuery: string, r: string)
    ensures TrimSpace(requestedQuery) == "" ==>
      (Resolve(queryTemplate, requestedQuery) == Some(r)
       <==> r != "" && forall values :: Expand(queryTemplate, values) == Some(r))
    ensures TrimSpace(requestedQuery) != "" ==>
      (Resolve(queryTemplate, requestedQuery) == Some(r)
       <==> r == TrimSpace(requestedQuery) && Permits(queryTemplate, requestedQuery))
  {
    var t := TrimSpace(queryTemplate);
    PermitsTrimmed(queryTemplate, requestedQuery);
    if HasDelimiter(t) {
      NothingWithoutValues(queryTemplate);
    } else {
      assert Expand(queryTemplate, Values(map[], map[])) == Some(t);
    }
  }

  lemma NothingWithoutValues(queryTemplate: string)
    requires HasDelimiter(TrimSpace(queryTemplate))
    ensures Expand(queryTemplate, Values(map[], map[])) == None
  {
    if Compile(queryTemplate).Some? {
      var m := Occurrences(queryTemplate)[0];
      assert m in Occurrences(queryTemplate) && !Supplies(Values(map[], map[]), m);
    }
  }
}
