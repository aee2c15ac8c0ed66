/** The workflow-type list and the Temporal visibility query of the
    workflow-backlog command in cmd/openclarion/main.go. */
module VisibilityQuery {
  import opened Text
  import opened StringLists

  const MAX_LIMIT := 500

  datatype Config = Config(query: string, limit: int, workflowTypes: seq<string>, status: string)

  predicate IsTypeChar(c: char) {
    'a' <= c <= 'z' || 'A' <= c <= 'Z' || IsDigit(c) || c == '_' || c == '-' || c == '.' || c == ':'
  }

  /** `isWorkflowBacklogCLIWorkflowType`. */
  predicate IsWorkflowType(value: string) {
    forall i | 0 <= i < |value| :: IsTypeChar(value[i])
  }

  // ------------------------------------------------------------------ parsing

  /** The list that `parseWorkflowBacklogCLIWorkflowTypes` accepts, if any: the
      distinct non-empty parts in order, all of them legal names. */
  function TypesOf(raw: string): Option<seq<string>> {
    var values := Kept(Split(raw, ','));
    if values == [] || !AllLegal(values) then None
    else Some(FirstOccurrences(values))
  }

  predicate AllLegal(values: seq<string>) {
    forall v | v in values :: IsWorkflowType(v)
  }

  lemma LegalNext(parts: seq<string>, i: nat)
    requires i < |parts|
    ensures var value := TrimSpace(parts[i]);
      AllLegal(Kept(parts[..i + 1])) <==> AllLegal(Kept(parts[..i])) && (value == "" || IsWorkflowType(value))
  {
    KeptStep(parts, i);
    assert TrimSpace(parts[i]) in [TrimSpace(parts[i])];
  }

  lemma IllegalPart(parts: seq<string>, i: nat)
    requires i < |parts| && TrimSpace(parts[i]) != "" && !IsWorkflowType(TrimSpace(parts[i]))
    ensures !AllLegal(Kept(parts))
  {
    KeptHas(parts, i);
  }

  method ParseWorkflowTypes(raw: string) returns (r: Option<seq<string>>)
    ensures r == TypesOf(raw)
  {
    var parts := Split(raw, ',');
    var out: seq<string> := [];
    var seen: set<string> := {};
    NoneYet(parts);
    for i := 0 to |parts|
      invariant KeptOnce(parts, i, out, seen)
      invariant AllLegal(Kept(parts[..i]))
    {
      var value := TrimSpace(parts[i]);
      KeepNext(parts, i, out, seen);
      LegalNext(parts, i);
      if value == "" {
        continue;
      }
      if !IsWorkflowType(value) {
        IllegalPart(parts, i);
        return None;
      }
      if value in seen {
        continue;
      }
      seen := seen + {value};
      out := out + [value];
    }
    AllKept(parts, out, seen);
    NoneKept(Kept(parts));
    if |out| == 0 {
      return None;
    }
    return Some(out);
  }

  lemma NoneKept(values: seq<string>)
    ensures FirstOccurrences(values) == [] <==> values == []
  {
    if values != [] { assert values[0] in Elements(FirstOccurrences(values)); }
  }

  /** `parseWorkflowBacklogCLIArgs` after flag parsing; `status` is the flag's
      text, trimmed and in lower case. */
  function ParseArgs(limit: int, query: string, rawTypes: string, status: string, allTypes: bool): Option<Config> {
    var q := TrimSpace(query);
    if limit <= 0 || limit > MAX_LIMIT || '\r' in q || '\n' in q then None
    else if q != "" then Some(Config(q, limit, [], ""))
    else if status != "running" && status != "all" then None
    else if allTypes then (if status == "all" then None else Some(Config("", limit, [], status)))
    else match TypesOf(rawTypes)
      case None => None
      case Some(types) => Some(Config("", limit, types, status))
  }

  // ----------------------------------------------------------------- printing

  const RUNNING := "ExecutionStatus = \"Running\""
  const TYPE := "WorkflowType = \""
  const AND := " AND "
  const OR := " OR "

  function Clause(workflowType: string): string { TYPE + workflowType + "\"" }

  function Clauses(types: seq<string>): (r: seq<string>)
    ensures |r| == |types|
  {
    seq(|types|, i requires 0 <= i < |types| => Clause(types[i]))
  }

  /** `workflowBacklogCLIVisibilityQuery`. */
  function Query(cfg: Config): string {
    if cfg.query != "" then cfg.query
    else
      var status := if cfg.status == "running" then [RUNNING] else [];
      var types :=
        if cfg.workflowTypes == [] then []
        else if |cfg.workflowTypes| == 1 then [Clause(cfg.workflowTypes[0])]
        else ["(" + Join(Clauses(cfg.workflowTypes), OR) + ")"];
      Join(status + types, AND)
  }

  // ------------------------------------------------------------- reading back

  /** Reads one type clause; returns the type and the text after the clause. */
  function ReadClause(q: string): (r: Option<(string, string)>)
    ensures r.Some? ==> |r.value.1| < |q|
  {
    if !(TYPE <= q) then None
    else
      var body := q[|TYPE|..];
      var n := SkipWhile(body, 0, Captured);
      if n < |body| && body[n] == '"' then Some((body[..n], body[n + 1..])) else None
  }

  /** Reads clauses joined by OR, up to the closing parenthesis. */
  function ReadList(q: string): Option<seq<string>>
    decreases |q|
  {
    match ReadClause(q)
    case None => None
    case Some((t, rest)) =>
      if rest == ")" then Some([t])
      else if OR <= rest then
        match ReadList(rest[|OR|..])
        case None => None
        case Some(more) => Some([t] + more)
      else None
  }

  function ReadTypes(q: string): Option<seq<string>> {
    if q != "" && q[0] == '(' then ReadList(q[1..])
    else match ReadClause(q)
      case Some((t, rest)) => if rest == "" then Some([t]) else None
      case None => None
  }

  datatype Filter = Filter(status: string, workflowTypes: seq<string>)

  function ReadQuery(q: string): Option<Filter> {
    if RUNNING <= q then
      var rest := q[|RUNNING|..];
      if rest == "" then Some(Filter("running", []))
      else if !(AND <= rest) then None
      else match ReadTypes(rest[|AND|..])
        case None => None
        case Some(types) => Some(Filter("running", types))
    else match ReadTypes(q)
      case None => None
      case Some(types) => Some(Filter("all", types))
  }

  // -------------------------------------------------------------- main results

  lemma ReadClauseBack(t: string, rest: string)
    requires IsWorkflowType(t)
    ensures ReadClause(Clause(t) + rest) == Some((t, rest))
  {
    var q := Clause(t) + rest;
    var body := t + ("\"" + rest);
    assert q == TYPE + body;
    assert q[|TYPE|..] == body;
    assert body[|t|] == '"';
    forall i | 0 <= i < |t| ensures Captured.Has(body[i]) { assert body[i] == t[i]; }
    SkipWhileUnique(body, 0, Captured, |t|);
    assert body[..|t|] == t && body[|t| + 1..] == rest;
  }

  /** The list text after the opening parenthesis. */
  function ListText(types: seq<string>): string
    requires types != []
  {
    if |types| == 1 then Clause(types[0]) + ")" else Clause(types[0]) + (OR + ListText(types[1..]))
  }

  lemma {:induction false} ListTextIs(types: seq<string>)
    requires types != []
    ensures Join(Clauses(types), OR) + ")" == ListText(types)
  {
    if |types| > 1 {
      ListTextIs(types[1..]);
      assert Clauses(types)[1..] == Clauses(types[1..]);
      Reassociate(Clause(types[0]), OR, Join(Clauses(types[1..]), OR), ")");
    }
  }

  lemma Reassociate(a: string, b: string, c: string, d: string)
    ensures a + b + c + d == a + (b + (c + d))
  {
  }

  lemma {:induction false} ReadListBack(types: seq<string>)
    requires types != [] && forall t | t in types :: IsWorkflowType(t)
    ensures ReadList(ListText(types)) == Some(types)
  {
    if |types| == 1 {
      ReadLast(types[0]);
      assert types == [types[0]];
    } else {
      ReadListBack(types[1..]);
      ReadMore(types);
    }
  }

  lemma ReadMore(types: seq<string>)
    requires |types| > 1 && IsWorkflowType(types[0]) && ReadList(ListText(types[1..])) == Some(types[1..])
    ensures ReadList(ListText(types)) == Some(types)
  {
    ReadNext(types[0], ListText(types[1..]), types[1..]);
    assert types == [types[0]] + types[1..];
  }

  lemma ReadLast(t: string)
    requires IsWorkflowType(t)
    ensures ReadList(Clause(t) + ")") == Some([t])
  {
    ReadClauseBack(t, ")");
  }

  lemma ReadNext(t: string, more: string, types: seq<string>)
    requires IsWorkflowType(t) && ReadList(more) == Some(types)
    ensures ReadList(Clause(t) + (OR + more)) == Some([t] + types)
  {
    ReadClauseBack(t, OR + more);
    OrContinues(more);
  }

  lemma OrContinues(more: string)
    ensures OR <= OR + more && (OR + more)[|OR|..] == more && OR + more != ")"
  {
    assert (OR + more)[0] == OR[0];
  }

  function TypesText(types: seq<string>): string
    requires types != []
  {
    if |types| == 1 then Clause(types[0]) else "(" + Join(Clauses(types), OR) + ")"
  }

  lemma ReadTypesBack(types: seq<string>)
    requires types != [] && forall t | t in types :: IsWorkflowType(t)
    ensures ReadTypes(TypesText(types)) == Some(types)
  {
    if |types| == 1 {
      ReadSingleBack(types[0]);
      assert types == [types[0]];
    } else {
      ReadListBack(types);
      ListTextIs(types);
      ReadGroup(ListText(types));
      Reassociated("(", Join(Clauses(types), OR), ")");
    }
  }

  lemma ReadSingleBack(t: string)
    requires IsWorkflowType(t)
    ensures ReadTypes(Clause(t)) == Some([t])
  {
    ReadClauseBack(t, "");
    assert Clause(t) + "" == Clause(t);
    assert Clause(t)[0] == TYPE[0];
  }

  lemma ReadGroup(list: string)
    ensures ReadTypes("(" + list) == ReadList(list)
  {
    assert ("(" + list)[1..] == list;
  }

  lemma QueryShape(cfg: Config)
    requires cfg.query == ""
    ensures cfg.workflowTypes == [] && cfg.status == "running" ==> Query(cfg) == RUNNING
    ensures cfg.workflowTypes != [] && cfg.status == "running" ==>
      Query(cfg) == RUNNING + (AND + TypesText(cfg.workflowTypes))
    ensures cfg.workflowTypes != [] && cfg.status != "running" ==> Query(cfg) == TypesText(cfg.workflowTypes)
  {
    if cfg.workflowTypes != [] {
      JoinTwo(RUNNING, TypesText(cfg.workflowTypes));
      assert [] + [TypesText(cfg.workflowTypes)] == [TypesText(cfg.workflowTypes)];
    }
  }

  lemma JoinTwo(a: string, b: string)
    ensures Join([a] + [b], AND) == a + (AND + b)
  {
    assert ([a] + [b])[1..] == [b];
    assert a + AND + b == a + (AND + b);
  }

  /** A raw list is accepted exactly when some part is non-blank and every
      non-blank part is a legal name, and then its names are those parts. */
  lemma TypesOfIff(raw: string)
    ensures TypesOf(raw).Some?
       <==> && (exists p :: p in Split(raw, ',') && TrimSpace(p) != "")
            && (forall p | p in Split(raw, ',') && TrimSpace(p) != "" :: IsWorkflowType(TrimSpace(p)))
    ensures TypesOf(raw).Some? ==> forall t ::
      t in TypesOf(raw).value <==> t != "" && exists p :: p in Split(raw, ',') && TrimSpace(p) == t
  {
    var values := Kept(Split(raw, ','));
    TypesOfParts(Split(raw, ','));
    SameNames(values);
  }

  lemma SameNames(values: seq<string>)
    ensures forall t :: t in FirstOccurrences(values) <==> t in Elements(values)
  {
  }

  lemma TypesOfParts(parts: seq<string>)
    ensures Kept(parts) != [] <==> exists p :: p in parts && TrimSpace(p) != ""
    ensures (forall v | v in Kept(parts) :: IsWorkflowType(v))
       <==> forall p | p in parts && TrimSpace(p) != "" :: IsWorkflowType(TrimSpace(p))
    ensures forall t :: t in Elements(Kept(parts)) <==> t != "" && exists p :: p in parts && TrimSpace(p) == t
  {
    KeptElements(parts);
    if Kept(parts) != [] {
      assert Kept(parts)[0] in Kept(parts);
    }
    forall p | p in parts && TrimSpace(p) != "" ensures TrimSpace(p) in Kept(parts) {
    }
  }

  lemma AcceptedTypes(raw: string)
    requires TypesOf(raw).Some?
    ensures var types := TypesOf(raw).value;
      types != [] && Distinct(types) && forall t | t in types :: t != "" && Trimmed(t) && IsWorkflowType(t)
  {
    var values := Kept(Split(raw, ','));
    var types := FirstOccurrences(values);
    assert values[0] in Elements(types);
    forall t | t in types ensures t in values { assert t in Elements(types); }
  }

  /** Which arguments are accepted, and what configuration they give. */
  lemma ParseArgsIff(limit: int, query: string, rawTypes: string, status: string, allTypes: bool)
    ensures var q := TrimSpace(query);
      var types := if allTypes then (if status == "running" then Some([]) else None) else TypesOf(rawTypes);
      ParseArgs(limit, query, rawTypes, status, allTypes)
      == if !(1 <= limit <= 500) || '\r' in q || '\n' in q then None
         else if q != "" then Some(Config(q, limit, [], ""))
         else if (status == "running" || status == "all") && types.Some?
         then Some(Config("", limit, types.value, status))
         else None
  {
  }

  /** The alternatives of a type filter, as Temporal reads them. */
  function Alternatives(types: seq<string>): string
    requires types != []
  {
    "WorkflowType = \"" + types[0] + "\"" + (if |types| == 1 then "" else " OR " + Alternatives(types[1..]))
  }

  lemma {:induction false} AlternativesAre(types: seq<string>)
    requires types != []
    ensures Join(Clauses(types), OR) == Alternatives(types)
  {
    if |types| > 1 {
      AlternativesAre(types[1..]);
      assert Clauses(types)[1..] == Clauses(types[1..]);
      JoinCons(Clause(types[0]), Clauses(types[1..]), OR);
      assert Clauses(types) == [Clause(types[0])] + Clauses(types[1..]);
      Reassociated(Clause(types[0]), OR, Join(Clauses(types[1..]), OR));
    } else {
      assert Alternatives(types) == Clause(types[0]);
    }
  }

  lemma Reassociated(a: string, b: string, c: string)
    ensures a + b + c == a + (b + c)
  {
  }

  /** The printed query, letter by letter. */
  lemma QueryText(cfg: Config)
    requires cfg.query == "" && (cfg.workflowTypes != [] || cfg.status == "running")
    ensures var running := "ExecutionStatus = \"Running\"";
      Query(cfg)
      == if cfg.workflowTypes == [] then running
         else var types := if |cfg.workflowTypes| == 1 then "WorkflowType = \"" + cfg.workflowTypes[0] + "\""
                           else "(" + Alternatives(cfg.workflowTypes) + ")";
              if cfg.status == "running" then running + (" AND " + types) else types
  {
    QueryShape(cfg);
    if cfg.workflowTypes != [] {
      AlternativesAre(cfg.workflowTypes);
    }
  }

  /** The characters of a type name, among the ASCII characters from `-` to `z`. */
  lemma TypeCharsAre(c: char)
    ensures IsTypeChar(c) <==> '-' <= c <= 'z' && c !in {'/', ';', '<', '=', '>', '?', '@', '[', '\\', ']', '^', '`'}
  {
  }

  /** The printed query reads back to the status and the ordered type list, for
      every configuration accepted without `--query`. */
  lemma QueryReadsBack(limit: int, rawTypes: string, status: string, allTypes: bool)
    requires ParseArgs(limit, "", rawTypes, status, allTypes).Some?
    ensures var cfg := ParseArgs(limit, "", rawTypes, status, allTypes).value;
      ReadQuery(Query(cfg)) == Some(Filter(cfg.status, cfg.workflowTypes))
  {
    TrimSpaceFixed("");
    var cfg := ParseArgs(limit, "", rawTypes, status, allTypes).value;
    if !allTypes { AcceptedTypes(rawTypes); }
    ConfigReadsBack(cfg);
  }

  lemma StatusFirst(q: string)
    requires q != "" && q[0] != 'E'
    ensures !(RUNNING <= q)
  {
  }

  lemma ReadRunning(text: string)
    requires ReadTypes(text).Some?
    ensures ReadQuery(RUNNING + (AND + text)) == Some(Filter("running", ReadTypes(text).value))
  {
    var q := RUNNING + (AND + text);
    assert q[|RUNNING|..] == AND + text && (AND + text)[|AND|..] == text;
  }

  lemma TextStarts(types: seq<string>)
    requires types != []
    ensures TypesText(types) != "" && TypesText(types)[0] != 'E'
  {
    assert TYPE[0] == 'W';
  }

  lemma ConfigReadsBack(cfg: Config)
    requires cfg.query == "" && (cfg.status == "running" || (cfg.status == "all" && cfg.workflowTypes != []))
    requires forall t | t in cfg.workflowTypes :: IsWorkflowType(t)
    ensures ReadQuery(Query(cfg)) == Some(Filter(cfg.status, cfg.workflowTypes))
  {
    var q := Query(cfg);
    QueryShape(cfg);
    if cfg.workflowTypes == [] {
      assert q[|RUNNING|..] == "";
    } else {
      var text := TypesText(cfg.workflowTypes);
      ReadTypesBack(cfg.workflowTypes);
      if cfg.status == "running" {
        ReadRunning(text);
      } else {
        TextStarts(cfg.workflowTypes);
        StatusFirst(q);
      }
    }
  }

  /** Every accepted configuration has a non-empty query and asks for 1 to 500
      rows. */
  lemma AcceptedIsBounded(limit: int, query: string, rawTypes: string, status: string, allTypes: bool)
    requires ParseArgs(limit, query, rawTypes, status, allTypes).Some?
    ensures var cfg := ParseArgs(limit, query, rawTypes, status, allTypes).value;
      Query(cfg) != "" && 1 <= cfg.limit <= 500
  {
    var cfg := ParseArgs(limit, query, rawTypes, status, allTypes).value;
    if cfg.query == "" {
      if !allTypes { AcceptedTypes(rawTypes); }
      QueryShape(cfg);
      if cfg.workflowTypes != [] { NonEmptyText(cfg.workflowTypes); }
    }
  }

  lemma NonEmptyText(types: seq<string>)
    requires types != []
    ensures TypesText(types) != ""
  {
    assert |TypesText(types)| >= 1;
  }

  /** Different accepted filters print different queries. */
  lemma QueryInjective(cfg1: Config, cfg2: Config, limit1: int, raw1: string, status1: string, all1: bool,
                       limit2: int, raw2: string, status2: string, all2: bool)
    requires ParseArgs(limit1, "", raw1, status1, all1) == Some(cfg1)
    requires ParseArgs(limit2, "", raw2, status2, all2) == Some(cfg2)
    requires Query(cfg1) == Query(cfg2)
    ensures cfg1.status == cfg2.status && cfg1.workflowTypes == cfg2.workflowTypes
  {
    QueryReadsBack(limit1, raw1, status1, all1);
    QueryReadsBack(limit2, raw2, status2, all2);
  }

  lemma NoComma(t: string)
    requires IsWorkflowType(t)
    ensures ',' !in t
  {
    forall i | 0 <= i < |t| ensures t[i] != ',' { assert IsTypeChar(t[i]); }
  }

  /** An accepted list, joined with commas as the default list is, parses to
      itself. */
  lemma TypesRoundTrip(raw: string)
    requires TypesOf(raw).Some?
    ensures TypesOf(Join(TypesOf(raw).value, ",")) == TypesOf(raw)
  {
    var types := TypesOf(raw).value;
    AcceptedTypes(raw);
    forall t | t in types ensures ',' !in t { NoComma(t); }
    SplitJoin(types, ',');
    KeptFixed(types);
    FirstOccurrencesFixed(types);
  }
}
