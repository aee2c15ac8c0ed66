/** Grouping policies of internal/domain/grouping_policy.go. */
module GroupingPolicy {
  import opened Text
  import opened StringLists

  const MAX_NAME := 120
  const MAX_KEY := 64
  const MAX_ENTRIES := 16

  predicate HasControlOrSpace(s: string) {
    exists i | 0 <= i < |s| :: IsControl(s[i]) || IsSpace(s[i])
  }

  /** `validatePolicyKey`, and the same two checks on source names. */
  predicate IsPolicyKey(value: string) { Utf8Len(value) <= MAX_KEY && !HasControlOrSpace(value) }

  predicate AreKeys(values: seq<string>) {
    forall v | v in Trims(values) :: v != "" && IsPolicyKey(v)
  }

  /** A non-empty list after trimming, checking, removing duplicates and sorting. */
  function CleanList(values: seq<string>): Option<seq<string>> {
    if !AreKeys(values) || |Elements(Trims(values))| > MAX_ENTRIES then None
    else Some(Canonical(Trims(values)))
  }

  /** `normalizePolicyKeyList`. */
  function KeyList(values: seq<string>): Option<seq<string>> {
    if values == [] then None else CleanList(values)
  }

  /** `normalizeSourceFilter`: an empty filter stays empty. */
  function SourceFilter(values: seq<string>): Option<seq<string>> {
    if values == [] then Some([]) else CleanList(values)
  }

  /** The body of both normalisers: collect, count, drain the map, sort. */
  method NormalizeList(values: seq<string>) returns (r: Option<seq<string>>)
    ensures r == CleanList(values)
  {
    var ok, seen := CollectKeys(values);
    if !ok || |seen| > MAX_ENTRIES {
      return None;
    }
    var out := DrainSorted(seen);
    CanonicalIs(Trims(values));
    SortedUnique(out, Canonical(Trims(values)));
    return Some(out);
  }

  /** The loop of both normalisers. */
  method CollectKeys(values: seq<string>) returns (ok: bool, seen: set<string>)
    ensures ok <==> AreKeys(values)
    ensures ok ==> seen == Elements(Trims(values))
  {
    seen := {};
    ghost var trims := Trims(values);
    for i := 0 to |values|
      invariant seen == Elements(trims[..i])
      invariant forall v | v in trims[..i] :: v != "" && IsPolicyKey(v)
    {
      var value := TrimSpace(values[i]);
      assert value == trims[i] && trims[i] in trims;
      if value == "" || !IsPolicyKey(value) {
        return false, seen;
      }
      assert trims[..i + 1] == trims[..i] + [value];
      ElementsStep(trims[..i], value);
      seen := seen + {value};
    }
    WholeSlice(trims);
    ok := true;
  }

  datatype Policy = Policy(name: string, dimensionKeys: seq<string>, severityKey: string,
                           sourceFilter: seq<string>, enabled: bool)

  function NewGroupingPolicy(input: Policy): Option<Policy> {
    var name := TrimSpace(input.name);
    var severity := TrimSpace(input.severityKey);
    if name == "" || Utf8Len(name) > MAX_NAME || severity == "" || !IsPolicyKey(severity) then None
    else match (KeyList(input.dimensionKeys), SourceFilter(input.sourceFilter))
      case (Some(keys), Some(sources)) => Some(Policy(name, keys, severity, sources, input.enabled))
      case _ => None
  }

  lemma ListBySet(values: seq<string>, others: seq<string>)
    requires Elements(Trims(values)) == Elements(Trims(others))
    ensures CleanList(values) == CleanList(others)
    ensures CleanList(values).Some? ==>
      StrictlySorted(CleanList(values).value) && Elements(CleanList(values).value) == Elements(Trims(values))
  {
    CanonicalBySet(Trims(values), Trims(others));
    CanonicalIs(Trims(values));
    assert forall v :: v in Trims(values) <==> v in Elements(Trims(others));
  }

  lemma ListFixed(values: seq<string>)
    requires CleanList(values).Some? && values != []
    ensures CleanList(CleanList(values).value) == CleanList(values) && CleanList(values).value != []
  {
    var trims := Trims(values);
    var out := Canonical(trims);
    CanonicalIs(trims);
    NoElements(trims);
    NoElements(out);
    forall v | v in out ensures v in trims && TrimSpace(v) == v {
      assert v in Elements(out);
      var i :| 0 <= i < |trims| && trims[i] == v;
      TrimSpaceFixed(v);
    }
    assert Trims(out) == out;
    CanonicalFixed(out);
  }

  /** A policy normalises to itself, and its lists are sorted and depend only on
      the sets of trimmed inputs. */
  lemma PolicyCanonical(input: Policy, other: Policy)
    requires NewGroupingPolicy(input).Some?
    requires other == input.(dimensionKeys := other.dimensionKeys, sourceFilter := other.sourceFilter)
    requires Elements(Trims(input.dimensionKeys)) == Elements(Trims(other.dimensionKeys))
    requires Elements(Trims(input.sourceFilter)) == Elements(Trims(other.sourceFilter))
    ensures NewGroupingPolicy(other) == NewGroupingPolicy(input)
    ensures NewGroupingPolicy(NewGroupingPolicy(input).value) == NewGroupingPolicy(input)
    ensures StrictlySorted(NewGroupingPolicy(input).value.dimensionKeys)
    ensures StrictlySorted(NewGroupingPolicy(input).value.sourceFilter)
  {
    SameEmptiness(input.dimensionKeys, other.dimensionKeys);
    SameEmptiness(input.sourceFilter, other.sourceFilter);
    ListBySet(input.dimensionKeys, other.dimensionKeys);
    ListBySet(input.sourceFilter, other.sourceFilter);
    ListFixed(input.dimensionKeys);
    if input.sourceFilter != [] { ListFixed(input.sourceFilter); }
    TrimSpaceFixed(TrimSpace(input.name));
    TrimSpaceFixed(TrimSpace(input.severityKey));
  }

  /** A key as policies accept it: 1 to 64 bytes, no white space and no control
      character. */
  predicate IsKeyText(s: string) {
    s != "" && Utf8Len(s) <= 64 && forall c | c in s :: !IsSpace(c) && !IsControl(c)
  }

  lemma KeyTextIff(s: string)
    ensures s != "" && IsPolicyKey(s) <==> IsKeyText(s)
  {
    assert forall i | 0 <= i < |s| :: s[i] in s;
  }

  /** Every value is a key when trimmed, and there are at most 16 different ones. */
  predicate AreFewKeys(values: seq<string>) {
    (forall v | v in values :: IsKeyText(TrimSpace(v))) && |Texts(values)| <= 16
  }

  lemma ListIff(values: seq<string>)
    ensures CleanList(values).Some? <==> AreFewKeys(values)
    ensures CleanList(values).Some? ==>
      StrictlySorted(CleanList(values).value) && Elements(CleanList(values).value) == Texts(values)
  {
    var trims := Trims(values);
    CanonicalIs(trims);
    forall v | v in values ensures TrimSpace(v) in trims {
      var i :| 0 <= i < |values| && values[i] == v;
      assert trims[i] == TrimSpace(v);
    }
    forall t | t in trims ensures exists v :: v in values && TrimSpace(v) == t {
      var i :| 0 <= i < |trims| && trims[i] == t;
      assert values[i] in values;
    }
    forall v | v in values ensures TrimSpace(v) != "" && IsPolicyKey(TrimSpace(v)) <==> IsKeyText(TrimSpace(v)) {
      KeyTextIff(TrimSpace(v));
    }
    if AreKeys(values) || AreFewKeys(values) {
      assert Elements(trims) == Texts(values);
    }
  }

  /** Which policies are accepted, and where every field of a policy comes from. */
  lemma PolicyIff(input: Policy)
    ensures NewGroupingPolicy(input).Some?
       <==> && TrimSpace(input.name) != "" && Utf8Len(TrimSpace(input.name)) <= 120
            && IsKeyText(TrimSpace(input.severityKey))
            && input.dimensionKeys != [] && AreFewKeys(input.dimensionKeys) && AreFewKeys(input.sourceFilter)
    ensures NewGroupingPolicy(input).Some? ==>
      var p := NewGroupingPolicy(input).value;
      && p.name == TrimSpace(input.name) && p.severityKey == TrimSpace(input.severityKey) && p.enabled == input.enabled
      && StrictlySorted(p.dimensionKeys) && Elements(p.dimensionKeys) == Texts(input.dimensionKeys)
      && StrictlySorted(p.sourceFilter) && Elements(p.sourceFilter) == Texts(input.sourceFilter)
  {
    KeyTextIff(TrimSpace(input.severityKey));
    ListIff(input.dimensionKeys);
    ListIff(input.sourceFilter);
  }

  lemma SameEmptiness(values: seq<string>, others: seq<string>)
    requires Elements(Trims(values)) == Elements(Trims(others))
    ensures values == [] <==> others == []
  {
    NoElements(Trims(values));
    NoElements(Trims(others));
  }
}
