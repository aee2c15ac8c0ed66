/** Lists of strings kept without duplicates: in order of first occurrence, or
    sorted. Go's `map[string]struct{}` is a set here and `slices.Sort` an
    insertion sort. */
module StringLists {
  import opened Text

  predicate Distinct(xs: seq<string>) {
    forall i, j | 0 <= i < j < |xs| :: xs[i] != xs[j]
  }

  function Elements(xs: seq<string>): set<string> { set x | x in xs }

  lemma ElementsStep(xs: seq<string>, x: string)
    ensures Elements(xs + [x]) == Elements(xs) + {x}
  {
    assert forall y :: y in xs + [x] <==> y in xs || y == x;
  }

  // ------------------------------------------------------- first occurrences

  /** The first occurrence of each element, in order. */
  function FirstOccurrences(xs: seq<string>): (r: seq<string>)
    ensures Elements(r) == Elements(xs)
    ensures Distinct(r)
  {
    if xs == [] then []
    else
      var n := |xs| - 1;
      var r := FirstOccurrences(xs[..n]);
      assert xs == xs[..n] + [xs[n]];
      assert forall x :: x in xs[..n] <==> x in Elements(r);
      if xs[n] in xs[..n] then r else r + [xs[n]]
  }

  /** The result lists the positions at which a value is seen for the first time,
      from left to right. */
  lemma {:induction false} FirstOccurrencesOrder(xs: seq<string>) returns (at: seq<nat>)
    ensures SeenFirst(xs, at, FirstOccurrences(xs))
  {
    if xs == [] {
      at := [];
    } else {
      var n := |xs| - 1;
      at := FirstOccurrencesOrder(xs[..n]);
      assert xs == xs[..n] + [xs[n]];
      SeenFirstNext(xs[..n], xs[n], at, FirstOccurrences(xs[..n]));
      if xs[n] !in xs[..n] {
        at := at + [n];
      }
    }
  }

  /** `values` stand in `xs` at the ascending positions `at`, none of them earlier. */
  predicate SeenFirst(xs: seq<string>, at: seq<nat>, values: seq<string>) {
    && |at| == |values|
    && (forall k | 0 <= k < |at| :: at[k] < |xs| && xs[at[k]] == values[k] && xs[at[k]] !in xs[..at[k]])
    && (forall j, k | 0 <= j < k < |at| :: at[j] < at[k])
  }

  lemma SeenFirstNext(xs: seq<string>, x: string, at: seq<nat>, values: seq<string>)
    requires SeenFirst(xs, at, values)
    ensures SeenFirst(xs + [x], at, values)
    ensures x !in xs ==> SeenFirst(xs + [x], at + [|xs|], values + [x])
  {
    assert forall i | 0 <= i <= |xs| :: (xs + [x])[..i] == xs[..i];
  }

  lemma FirstOccurrencesStep(xs: seq<string>, x: string)
    ensures FirstOccurrences(xs + [x])
      == if x in Elements(FirstOccurrences(xs)) then FirstOccurrences(xs) else FirstOccurrences(xs) + [x]
  {
    assert (xs + [x])[..|xs|] == xs;
    assert x in xs <==> x in Elements(xs);
  }

  lemma {:induction false} FirstOccurrencesFixed(xs: seq<string>)
    requires Distinct(xs)
    ensures FirstOccurrences(xs) == xs
  {
    if xs != [] {
      var n := |xs| - 1;
      FirstOccurrencesFixed(xs[..n]);
      assert xs == xs[..n] + [xs[n]];
    }
  }

  function Trims(values: seq<string>): (r: seq<string>)
    ensures |r| == |values|
  {
    seq(|values|, i requires 0 <= i < |values| => TrimSpace(values[i]))
  }

  lemma {:induction false} DistinctSize(xs: seq<string>)
    requires Distinct(xs)
    ensures |Elements(xs)| == |xs|
  {
    if xs != [] {
      var n := |xs| - 1;
      assert xs == xs[..n] + [xs[n]];
      DistinctSize(xs[..n]);
      ElementsStep(xs[..n], xs[n]);
      assert xs[n] !in Elements(xs[..n]);
    }
  }

  /** Putting the first element in front once more changes nothing. */
  lemma {:induction false} RepeatFirst(xs: seq<string>)
    requires xs != [] && Distinct(xs)
    ensures FirstOccurrences([xs[0]] + xs) == xs
  {
    var n := |xs| - 1;
    var ys := [xs[0]] + xs;
    assert xs == xs[..n] + [xs[n]];
    assert ys == ([xs[0]] + xs[..n]) + [xs[n]];
    FirstOccurrencesStep([xs[0]] + xs[..n], xs[n]);
    if n == 0 {
      assert [xs[0]] + xs[..n] == xs;
      FirstOccurrencesFixed(xs);
    } else {
      RepeatFirst(xs[..n]);
    }
  }

  lemma {:induction false} FirstStaysFirst(xs: seq<string>)
    requires xs != []
    ensures FirstOccurrences(xs) != [] && FirstOccurrences(xs)[0] == xs[0]
  {
    if |xs| > 1 {
      FirstStaysFirst(xs[..|xs| - 1]);
    }
  }

  /** The trimmed non-empty texts of a list, in order. */
  function Kept(parts: seq<string>): (r: seq<string>)
    ensures forall x | x in r :: x != "" && Trimmed(x)
  {
    if parts == [] then []
    else
      var n := |parts| - 1;
      var value := TrimSpace(parts[n]);
      Kept(parts[..n]) + (if value == "" then [] else [value])
  }

  lemma KeptStep(parts: seq<string>, i: nat)
    requires i < |parts|
    ensures Kept(parts[..i + 1])
      == if TrimSpace(parts[i]) == "" then Kept(parts[..i]) else Kept(parts[..i]) + [TrimSpace(parts[i])]
  {
    assert parts[..i + 1][..i] == parts[..i];
  }

  lemma {:induction false} KeptPrefix(parts: seq<string>, k: nat)
    requires k <= |parts|
    ensures Kept(parts[..k]) <= Kept(parts)
    decreases |parts|
  {
    if k < |parts| {
      var front := parts[..|parts| - 1];
      KeptPrefix(front, k);
      assert front[..k] == parts[..k];
    } else {
      assert parts[..k] == parts;
    }
  }

  /** Every part that is not blank is kept. */
  lemma KeptHas(parts: seq<string>, i: nat)
    requires i < |parts| && TrimSpace(parts[i]) != ""
    ensures TrimSpace(parts[i]) in Kept(parts)
  {
    KeptStep(parts, i);
    KeptPrefix(parts, i + 1);
    var last := |Kept(parts[..i + 1])| - 1;
    assert Kept(parts[..i + 1])[last] == TrimSpace(parts[i]);
    assert Kept(parts)[last] == TrimSpace(parts[i]);
  }

  /** Of the first `i` values, `out` holds each trimmed non-empty one once, in order
      of first occurrence, and `seen` the same ones as a set. */
  ghost predicate KeptOnce(values: seq<string>, i: nat, out: seq<string>, seen: set<string>) {
    i <= |values| && out == FirstOccurrences(Kept(values[..i])) && seen == Elements(out)
  }

  lemma NoneYet(values: seq<string>)
    ensures KeptOnce(values, 0, [], {})
  {
  }

  /** The trimmed texts of a list that are not blank, as a set. */
  function Texts(values: seq<string>): set<string> {
    set v | v in values && TrimSpace(v) != "" :: TrimSpace(v)
  }

  lemma KeptTexts(values: seq<string>)
    ensures Elements(Kept(values)) == Texts(values)
    ensures |FirstOccurrences(Kept(values))| == |Texts(values)|
  {
    KeptElements(values);
    assert forall x :: x in Elements(Kept(values)) <==> x in Texts(values);
    DistinctSize(FirstOccurrences(Kept(values)));
  }

  /** One round of the loops that keep each trimmed non-empty value once. */
  lemma KeepNext(values: seq<string>, i: nat, out: seq<string>, seen: set<string>)
    requires i < |values| && KeptOnce(values, i, out, seen)
    ensures var value := TrimSpace(values[i]);
      if value == "" || value in seen then KeptOnce(values, i + 1, out, seen)
      else KeptOnce(values, i + 1, out + [value], seen + {value})
  {
    KeptStep(values, i);
    FirstOccurrencesStep(Kept(values[..i]), TrimSpace(values[i]));
    ElementsStep(out, TrimSpace(values[i]));
  }

  lemma AllKept(values: seq<string>, out: seq<string>, seen: set<string>)
    requires KeptOnce(values, |values|, out, seen)
    ensures values[..|values|] == values && out == FirstOccurrences(Kept(values))
  {
  }

  lemma {:induction false} KeptFixed(xs: seq<string>)
    requires forall x | x in xs :: x != "" && Trimmed(x)
    ensures Kept(xs) == xs
  {
    if xs != [] {
      var n := |xs| - 1;
      assert xs[n] in xs && forall x | x in xs[..n] :: x in xs;
      assert xs == xs[..n] + [xs[n]];
      KeptFixed(xs[..n]);
      TrimSpaceFixed(xs[n]);
    }
  }

  lemma {:induction false} KeptElements(parts: seq<string>)
    ensures forall x :: x in Kept(parts) <==> x != "" && exists p :: p in parts && TrimSpace(p) == x
  {
    if parts != [] {
      var n := |parts| - 1;
      assert parts == parts[..n] + [parts[n]];
      KeptElements(parts[..n]);
    }
  }

  // ----------------------------------------------------------------- sorting

  /** Go's order of strings; on valid UTF-8 the byte order is the order of the
      characters. */
  predicate Below(a: string, b: string) {
    if b == "" then false
    else if a == "" then true
    else a[0] < b[0] || (a[0] == b[0] && Below(a[1..], b[1..]))
  }

  /** At the first difference of two texts the smaller character decides, and a
      proper prefix comes before its continuations. */
  ghost predicate FirstDifferenceBelow(a: string, b: string, k: nat) {
    k <= |a| && k < |b| && a[..k] == b[..k] && (k == |a| || a[k] < b[k])
  }

  lemma {:induction false} BelowIff(a: string, b: string)
    ensures Below(a, b) <==> exists k: nat :: FirstDifferenceBelow(a, b, k)
  {
    if a == "" || b == "" {
      assert b != "" ==> FirstDifferenceBelow(a, b, 0);
    } else {
      BelowIff(a[1..], b[1..]);
      if a[0] < b[0] {
        assert FirstDifferenceBelow(a, b, 0);
      }
      if a[0] == b[0] && Below(a[1..], b[1..]) {
        var k: nat :| FirstDifferenceBelow(a[1..], b[1..], k);
        assert a[..k + 1] == [a[0]] + a[1..][..k] && b[..k + 1] == [b[0]] + b[1..][..k];
        assert FirstDifferenceBelow(a, b, k + 1);
      }
      if k: nat :| FirstDifferenceBelow(a, b, k) && k > 0 {
        assert a[0] == a[..k][0] == b[..k][0] == b[0];
        assert a[1..][..k - 1] == a[..k][1..] && b[1..][..k - 1] == b[..k][1..];
        assert FirstDifferenceBelow(a[1..], b[1..], k - 1);
      }
    }
  }

  predicate StrictlySorted(xs: seq<string>) {
    forall i, j | 0 <= i < j < |xs| :: Below(xs[i], xs[j])
  }

  lemma {:induction false} BelowTransitive(a: string, b: string, c: string)
    requires Below(a, b) && Below(b, c)
    ensures Below(a, c)
  {
    if a != "" && a[0] == b[0] == c[0] {
      BelowTransitive(a[1..], b[1..], c[1..]);
    }
  }

  lemma {:induction false} BelowTotal(a: string, b: string)
    ensures Below(a, b) || a == b || Below(b, a)
    ensures !(Below(a, b) && Below(b, a)) && !Below(a, a)
  {
    if a != "" && b != "" && a[0] == b[0] {
      BelowTotal(a[1..], b[1..]);
      assert a == [a[0]] + a[1..] && b == [b[0]] + b[1..];
      BelowTotal(a[1..], a[1..]);
    } else if a != "" {
      BelowTotal(a[1..], a[1..]);
    }
  }

  /** `slices.Sort`, by insertion. */
  function Sort(xs: seq<string>): (r: seq<string>)
    ensures |r| == |xs|
  {
    if xs == [] then [] else Insert(xs[0], Sort(xs[1..]))
  }

  function Insert(x: string, xs: seq<string>): (r: seq<string>)
    ensures |r| == |xs| + 1
  {
    if xs == [] || Below(x, xs[0]) then [x] + xs else [xs[0]] + Insert(x, xs[1..])
  }

  lemma {:induction false} InsertSorts(x: string, xs: seq<string>)
    requires StrictlySorted(xs) && x !in xs
    ensures StrictlySorted(Insert(x, xs)) && Elements(Insert(x, xs)) == Elements(xs) + {x}
  {
    if xs != [] {
      var tail := xs[1..];
      assert xs == [xs[0]] + tail && xs[0] in xs;
      BelowTotal(x, xs[0]);
      if Below(x, xs[0]) {
        forall y | y in tail ensures Below(x, y) { BelowTransitive(x, xs[0], y); }
      } else {
        InsertSorts(x, tail);
        forall y | y in Insert(x, tail) ensures Below(xs[0], y) { assert y in Elements(tail) + {x}; }
      }
    }
  }

  lemma {:induction false} SortSorts(xs: seq<string>)
    requires Distinct(xs)
    ensures StrictlySorted(Sort(xs)) && Elements(Sort(xs)) == Elements(xs)
  {
    if xs != [] {
      SortSorts(xs[1..]);
      assert xs == [xs[0]] + xs[1..];
      assert xs[0] !in Elements(xs[1..]);
      InsertSorts(xs[0], Sort(xs[1..]));
    }
  }

  lemma NoElements(xs: seq<string>)
    ensures Elements(xs) == {} <==> xs == []
  {
    if xs != [] { assert xs[0] in Elements(xs); }
  }

  /** Strictly sorted lists are determined by their elements. */
  lemma {:induction false} SortedUnique(xs: seq<string>, ys: seq<string>)
    requires StrictlySorted(xs) && StrictlySorted(ys) && Elements(xs) == Elements(ys)
    ensures xs == ys
  {
    if xs == [] || ys == [] {
      NoElements(xs);
      NoElements(ys);
    } else {
      var x, y := xs[0], ys[0];
      assert x in Elements(ys) && y in Elements(xs);
      BelowTotal(x, y);
      assert x == y;
      assert xs == [x] + xs[1..] && ys == [y] + ys[1..];
      BelowTotal(x, x);
      forall z ensures z in xs[1..] <==> z in ys[1..] {
        assert z in xs <==> z in Elements(xs);
        assert z in ys <==> z in Elements(ys);
      }
      SortedUnique(xs[1..], ys[1..]);
    }
  }

  /** The strictly sorted list of a list's elements. */
  function Canonical(xs: seq<string>): seq<string> { Sort(FirstOccurrences(xs)) }

  lemma CanonicalIs(xs: seq<string>)
    ensures StrictlySorted(Canonical(xs)) && Elements(Canonical(xs)) == Elements(xs)
  {
    SortSorts(FirstOccurrences(xs));
  }

  /** Order and repetition of the input do not matter. */
  lemma CanonicalBySet(xs: seq<string>, ys: seq<string>)
    requires Elements(xs) == Elements(ys)
    ensures Canonical(xs) == Canonical(ys)
  {
    CanonicalIs(xs);
    CanonicalIs(ys);
    SortedUnique(Canonical(xs), Canonical(ys));
  }

  lemma CanonicalFixed(xs: seq<string>)
    requires StrictlySorted(xs)
    ensures Canonical(xs) == xs
  {
    CanonicalIs(xs);
    SortedUnique(Canonical(xs), xs);
  }

  /** Drains a `seen` map in whatever order the iteration takes and sorts the
      result: the order of iteration leaves no trace. */
  method DrainSorted(seen: set<string>) returns (out: seq<string>)
    ensures StrictlySorted(out) && Elements(out) == seen
  {
    out := [];
    var rest := seen;
    while rest != {}
      invariant Distinct(out) && Elements(out) !! rest && Elements(out) + rest == seen
      decreases |rest|
    {
      var value :| value in rest;
      assert value !in out by { assert value !in Elements(out); }
      ElementsStep(out, value);
      out := out + [value];
      rest := rest - {value};
    }
    SortSorts(out);
    out := Sort(out);
  }
}
