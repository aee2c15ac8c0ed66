/** The two regular expressions of internal/diagnosisquery/template.go, each as
    a deterministic scanner that is proved to recognise the expression's
    language. */
module Placeholder {
  import opened Text

  /** A name occupies positions `k` to `e`. */
  predicate NameAt(s: string, k: nat, e: nat) {
    k < e <= |s| && IsNameStart(s[k]) && AllBetween(NameChar, s, k, e)
  }

  const OPENING := "{{"
  const CLOSING := "}}"

  /** `strings.Contains(value, "{{") || strings.Contains(value, "}}")`. */
  predicate HasDelimiter(s: string) {
    exists i | 0 <= i < |s| - 1 :: DelimiterAt(s, i)
  }

  predicate DelimiterAt(s: string, i: nat)
    requires i < |s| - 1
  {
    s[i] == s[i + 1] && (s[i] == '{' || s[i] == '}')
  }

  // -------------------------------------------------------------- placeholders

  /** One match of `placeholderPattern`, with its two submatches. */
  datatype Occurrence = Occurrence(start: nat, end: nat, kind: string, key: string) {
    function Name(): string { kind + "." + key }
  }

  predicate IsKind(kind: string) { kind == "label" || kind == "annotation" }

  /** `s` from `i` to `j` reads: delimiter, white space, kind, dot, key, white
      space, delimiter. The kind starts at `a` and the key runs from `k` to `e`. */
  predicate PlaceholderParts(s: string, i: nat, j: nat, kind: string, key: string, a: nat, k: nat, e: nat) {
    && i + 2 <= a && k == a + |kind| + 1 && e + 2 <= j <= |s|
    && HasAt(s, i, OPENING) && HasAt(s, j - 2, CLOSING)
    && IsKind(kind) && HasAt(s, a, kind + ".")
    && NameAt(s, k, e) && key == s[k..e]
    && AllBetween(RegexSpace, s, i + 2, a) && AllBetween(RegexSpace, s, e, j - 2)
  }

  /** `s[i..j]` is in the language of `placeholderPattern`, with these submatches. */
  ghost predicate IsPlaceholder(s: string, i: nat, j: nat, kind: string, key: string) {
    exists a: nat, k: nat, e: nat :: PlaceholderParts(s, i, j, kind, key, a, k, e)
  }

  /** `placeholderPattern` anchored at position `i`. */
  function PlaceholderAt(s: string, i: nat): (r: Option<Occurrence>)
    ensures r.Some? ==> r.value.start == i < r.value.end <= |s|
  {
    if !HasAt(s, i, OPENING) then None
    else
      var a := SkipWhile(s, i + 2, RegexSpace);
      if HasAt(s, a, "label" + ".") then KeyAt(s, i, "label", a)
      else if HasAt(s, a, "annotation" + ".") then KeyAt(s, i, "annotation", a)
      else None
  }

  function KeyAt(s: string, i: nat, kind: string, a: nat): (r: Option<Occurrence>)
    requires i <= a && a + |kind| + 1 <= |s|
    ensures r.Some? ==> r.value.start == i < r.value.end <= |s|
  {
    var k := a + |kind| + 1;
    if k == |s| || !IsNameStart(s[k]) then None
    else
      var e := SkipWhile(s, k, NameChar);
      var b := SkipWhile(s, e, RegexSpace);
      if HasAt(s, b, CLOSING) then Some(Occurrence(i, b + 2, kind, s[k..e])) else None
  }

  /** The scanner accepts at `i` exactly the texts of the pattern's language,
      and reads the same kind and key out of them: greedy scanning loses
      nothing, and a text has only one reading. */
  lemma PlaceholderAtIff(s: string, i: nat, j: nat, kind: string, key: string)
    ensures PlaceholderAt(s, i) == Some(Occurrence(i, j, kind, key))
       <==> IsPlaceholder(s, i, j, kind, key)
  {
    if PlaceholderAt(s, i) == Some(Occurrence(i, j, kind, key)) {
      PlaceholderAtSound(s, i);
    }
    if IsPlaceholder(s, i, j, kind, key) {
      var a: nat, k: nat, e: nat :| PlaceholderParts(s, i, j, kind, key, a, k, e);
      PlaceholderAtComplete(s, i, j, kind, key, a, k, e);
    }
  }

  lemma PlaceholderAtSound(s: string, i: nat)
    requires PlaceholderAt(s, i).Some?
    ensures var m := PlaceholderAt(s, i).value; IsPlaceholder(s, i, m.end, m.kind, m.key)
  {
    var a := SkipWhile(s, i + 2, RegexSpace);
    KeyAtSound(s, i, PlaceholderAt(s, i).value.kind, a);
  }

  lemma KeyAtSound(s: string, i: nat, kind: string, a: nat)
    requires HasAt(s, i, OPENING) && i + 2 <= a <= |s| && AllBetween(RegexSpace, s, i + 2, a)
    requires IsKind(kind) && HasAt(s, a, kind + ".") && KeyAt(s, i, kind, a).Some?
    ensures var m := KeyAt(s, i, kind, a).value; IsPlaceholder(s, i, m.end, kind, m.key)
  {
    var m := KeyAt(s, i, kind, a).value;
    var k := a + |kind| + 1;
    assert PlaceholderParts(s, i, m.end, kind, m.key, a, k, SkipWhile(s, k, NameChar));
  }

  lemma PlaceholderAtComplete(s: string, i: nat, j: nat, kind: string, key: string, a: nat, k: nat, e: nat)
    requires PlaceholderParts(s, i, j, kind, key, a, k, e)
    ensures PlaceholderAt(s, i) == Some(Occurrence(i, j, kind, key))
  {
    KeyAtComplete(s, i, j, kind, key, a, k, e);
    assert s[a] == (kind + ".")[0];
    SkipWhileUnique(s, i + 2, RegexSpace, a);
    PlaceholderAtKind(s, i, kind, a);
  }

  lemma PlaceholderAtKind(s: string, i: nat, kind: string, a: nat)
    requires HasAt(s, i, OPENING) && a == SkipWhile(s, i + 2, RegexSpace)
    requires IsKind(kind) && HasAt(s, a, kind + ".")
    ensures PlaceholderAt(s, i) == KeyAt(s, i, kind, a)
  {
    if kind == "annotation" { NotLabel(s, a); }
  }

  lemma NotLabel(s: string, a: nat)
    requires HasAt(s, a, "annotation" + ".")
    ensures !HasAt(s, a, "label" + ".")
  {
    assert s[a] == ("annotation" + ".")[0] != ("label" + ".")[0];
  }

  lemma KeyAtComplete(s: string, i: nat, j: nat, kind: string, key: string, a: nat, k: nat, e: nat)
    requires PlaceholderParts(s, i, j, kind, key, a, k, e)
    ensures KeyAt(s, i, kind, a) == Some(Occurrence(i, j, kind, key))
  {
    assert s[j - 2] == CLOSING[0];
    SkipWhileUnique(s, k, NameChar, e);
    SkipWhileUnique(s, e, RegexSpace, j - 2);
  }

  /** A pattern, as what it matches when anchored at each position of a text of
      length `n`. */
  type Pattern = nat -> Option<Occurrence>

  ghost predicate Anchors(at: Pattern, n: nat) {
    forall i: nat :: at(i).Some? ==> at(i).value.start == i < at(i).value.end <= n
  }

  /** `FindAllStringSubmatchIndex` from position `from`: leftmost matches that
      do not overlap. */
  function Leftmost(at: Pattern, n: nat, from: nat): (ms: seq<Occurrence>)
    requires from <= n && Anchors(at, n)
    ensures InOrder(ms, from, n)
    decreases n - from
  {
    if from == n then []
    else match at(from)
      case Some(m) => [m] + Leftmost(at, n, m.end)
      case None => Leftmost(at, n, from + 1)
  }

  function PlaceholderPattern(s: string): (at: Pattern)
    ensures Anchors(at, |s|)
  {
    (i: nat) => PlaceholderAt(s, i)
  }

  function FindAll(s: string, from: nat): (ms: seq<Occurrence>)
    requires from <= |s|
    ensures InOrder(ms, from, |s|)
  {
    Leftmost(PlaceholderPattern(s), |s|, from)
  }

  /** The occurrences lie one after the other between `from` and `to`. */
  predicate InOrder(ms: seq<Occurrence>, from: nat, to: nat) {
    if ms == [] then from <= to
    else from <= ms[0].start <= ms[0].end && InOrder(ms[1..], ms[0].end, to)
  }

  lemma InOrderFits(ms: seq<Occurrence>, from: nat, to: nat)
    requires InOrder(ms, from, to)
    ensures from <= to && forall m | m in ms :: from <= m.start <= m.end <= to
  {
    if ms != [] {
      InOrderFits(ms[1..], ms[0].end, to);
      assert forall m | m in ms :: m == ms[0] || m in ms[1..];
    }
  }

  ghost predicate NoneBetween(at: Pattern, from: nat, to: nat) {
    forall p: nat | from <= p < to :: at(p).None?
  }

  /** The pattern matches nowhere outside the occurrences `ms`. */
  ghost predicate GapsEmpty(at: Pattern, n: nat, ms: seq<Occurrence>, last: nat) {
    if ms == [] then NoneBetween(at, last, n)
    else NoneBetween(at, last, ms[0].start) && GapsEmpty(at, n, ms[1..], ms[0].end)
  }

  ghost predicate AllMatch(at: Pattern, ms: seq<Occurrence>) {
    forall m | m in ms :: at(m.start) == Some(m)
  }

  lemma {:induction false} SkipGap(at: Pattern, n: nat, from: nat, to: nat)
    requires from <= to <= n && Anchors(at, n) && NoneBetween(at, from, to)
    ensures Leftmost(at, n, from) == Leftmost(at, n, to)
    decreases n - from
  {
    if from < to {
      SkipGap(at, n, from + 1, to);
    }
  }

  /** Every reported occurrence is a match and none is passed over. */
  lemma {:induction false} LeftmostFinds(at: Pattern, n: nat, from: nat)
    requires from <= n && Anchors(at, n)
    ensures AllMatch(at, Leftmost(at, n, from)) && GapsEmpty(at, n, Leftmost(at, n, from), from)
    decreases n - from
  {
    if from < n {
      match at(from)
      case Some(m) => LeftmostFinds(at, n, m.end);
      case None =>
        LeftmostFinds(at, n, from + 1);
        var ms := Leftmost(at, n, from + 1);
        assert forall to | NoneBetween(at, from + 1, to) :: NoneBetween(at, from, to);
    }
  }

  /** No other list of matches in order leaves the gaps empty. */
  lemma {:induction false} LeftmostUnique(at: Pattern, n: nat, ms: seq<Occurrence>, from: nat)
    requires from <= n && Anchors(at, n) && InOrder(ms, from, n)
    requires AllMatch(at, ms) && GapsEmpty(at, n, ms, from)
    ensures Leftmost(at, n, from) == ms
  {
    if ms == [] {
      SkipGap(at, n, from, n);
    } else {
      InOrderFits(ms, from, n);
      assert ms[0] in ms && ms == [ms[0]] + ms[1..];
      SkipGap(at, n, from, ms[0].start);
      LeftmostUnique(at, n, ms[1..], ms[0].end);
    }
  }

  lemma FindAllFinds(s: string, from: nat)
    requires from <= |s|
    ensures forall m | m in FindAll(s, from) :: PlaceholderAt(s, m.start) == Some(m)
  {
    LeftmostFinds(PlaceholderPattern(s), |s|, from);
    forall m | m in FindAll(s, from) ensures PlaceholderAt(s, m.start) == Some(m) {
      assert PlaceholderPattern(s)(m.start) == Some(m);
    }
  }

  lemma NameInjective(kind1: string, key1: string, kind2: string, key2: string)
    requires IsKind(kind1) && IsKind(kind2) && kind1 + "." + key1 == kind2 + "." + key2
    ensures kind1 == kind2 && key1 == key2
  {
    var n := kind1 + "." + key1;
    assert n[0] == kind1[0] == kind2[0];
    assert n[|kind1| + 1..] == key1 && n[|kind2| + 1..] == key2;
  }

  // ---------------------------------------------------------- matcher prefixes

  /** The operators `labelMatcherPrefixPattern` knows: `=`, `!=`, `=~`, `!~`. */
  datatype Operator = Equal | NotEqual | Matches | NotMatches {
    function Length(): nat { if Equal? then 1 else 2 }
  }

  /** The operator `op` is written at positions `o` onwards. */
  predicate OperatorAt(p: string, o: nat, op: Operator) {
    && o + op.Length() <= |p|
    && match op
       case Equal => p[o] == '='
       case NotEqual => p[o] == '!' && p[o + 1] == '='
       case Matches => p[o] == '=' && p[o + 1] == '~'
       case NotMatches => p[o] == '!' && p[o + 1] == '~'
  }

  predicate Separated(p: string, a: nat)
    requires a <= |p|
  {
    a == 0 || p[a - 1] == ',' || p[a - 1] == '{'
  }

  /** A label name ends before position `o`: at the start of the text or after
      `,` or `{`, white space to `n`, the name to `b`, white space to `o`. */
  predicate LabelParts(p: string, a: nat, n: nat, b: nat, o: nat) {
    && a <= n && b <= o <= |p|
    && NameAt(p, n, b) && Separated(p, a)
    && AllBetween(RegexSpace, p, a, n) && AllBetween(RegexSpace, p, b, o)
  }

  ghost predicate LabelEnds(p: string, o: nat) {
    exists a: nat, n: nat, b: nat :: LabelParts(p, a, n, b, o)
  }

  /** The language of `labelMatcherPrefixPattern`: a label name, the operator,
      and white space to the end. */
  ghost predicate MatcherParts(p: string, op: Operator, o: nat) {
    LabelEnds(p, o) && OperatorAt(p, o, op) && AllBetween(RegexSpace, p, o + op.Length(), |p|)
  }

  ghost predicate EndsWithMatcher(p: string, op: Operator) {
    exists o: nat :: MatcherParts(p, op, o)
  }

  datatype Found = Found(op: Operator, start: nat)

  /** The longest operator that ends at `e`. */
  function OperatorBefore(p: string, e: nat): (r: Option<Found>)
    requires e <= |p|
    ensures r.Some? ==> r.value.start + r.value.op.Length() == e && OperatorAt(p, r.value.start, r.value.op)
  {
    if e >= 2 && OperatorAt(p, e - 2, NotEqual) then Some(Found(NotEqual, e - 2))
    else if e >= 2 && OperatorAt(p, e - 2, Matches) then Some(Found(Matches, e - 2))
    else if e >= 2 && OperatorAt(p, e - 2, NotMatches) then Some(Found(NotMatches, e - 2))
    else if e >= 1 && OperatorAt(p, e - 1, Equal) then Some(Found(Equal, e - 1))
    else None
  }

  /** The operator `labelMatcherPrefixPattern` captures, scanned from the right
      end, where the pattern is anchored. */
  function MatcherOperator(p: string): Option<Operator> {
    match OperatorBefore(p, BackWhile(p, |p|, RegexSpace))
    case None => None
    case Some(found) => if LabelEndsAt(p, found.start) then Some(found.op) else None
  }

  predicate LabelEndsAt(p: string, o: nat)
    requires o <= |p|
  {
    var b := BackWhile(p, o, RegexSpace);
    var n := BackWhile(p, b, NameChar);
    var a := BackWhile(p, n, RegexSpace);
    n < b && IsNameStart(p[n]) && Separated(p, a)
  }

  /** The scanner captures `op` exactly when the text ends with a matcher whose
      operator is `op`, so no text captures two operators. */
  lemma MatcherOperatorIff(p: string, op: Operator)
    ensures MatcherOperator(p) == Some(op) <==> EndsWithMatcher(p, op)
  {
    if MatcherOperator(p) == Some(op) {
      MatcherOperatorSound(p);
    }
    if EndsWithMatcher(p, op) {
      var o: nat :| MatcherParts(p, op, o);
      MatcherOperatorComplete(p, op, o);
    }
  }

  lemma MatcherOperatorSound(p: string)
    requires MatcherOperator(p).Some?
    ensures EndsWithMatcher(p, MatcherOperator(p).value)
  {
    var found := OperatorBefore(p, BackWhile(p, |p|, RegexSpace)).value;
    LabelEndsAtSound(p, found.start);
    assert MatcherParts(p, found.op, found.start);
  }

  lemma MatcherOperatorComplete(p: string, op: Operator, o: nat)
    requires MatcherParts(p, op, o)
    ensures MatcherOperator(p) == Some(op)
  {
    var a: nat, n: nat, b: nat :| LabelParts(p, a, n, b, o);
    LabelEndsAtComplete(p, a, n, b, o);
    OperatorComplete(p, op, o);
  }

  lemma LabelEndsAtSound(p: string, o: nat)
    requires o <= |p| && LabelEndsAt(p, o)
    ensures LabelEnds(p, o)
  {
    var b := BackWhile(p, o, RegexSpace);
    var n := BackWhile(p, b, NameChar);
    assert LabelParts(p, BackWhile(p, n, RegexSpace), n, b, o);
  }

  lemma LabelEndsAtComplete(p: string, a: nat, n: nat, b: nat, o: nat)
    requires LabelParts(p, a, n, b, o)
    ensures LabelEndsAt(p, o)
    ensures 0 < o && (NameChar.Has(p[o - 1]) || RegexSpace.Has(p[o - 1]))
  {
    BackWhileUnique(p, o, RegexSpace, b);
    BackWhileUnique(p, b, NameChar, n);
    BackWhileUnique(p, n, RegexSpace, a);
  }

  lemma OperatorComplete(p: string, op: Operator, o: nat)
    requires 0 < o && OperatorAt(p, o, op)
    requires NameChar.Has(p[o - 1]) || RegexSpace.Has(p[o - 1])
    requires AllBetween(RegexSpace, p, o + op.Length(), |p|)
    ensures OperatorBefore(p, BackWhile(p, |p|, RegexSpace)) == Some(Found(op, o))
  {
    BackWhileUnique(p, |p|, RegexSpace, o + op.Length());
    OperatorBeforeIs(p, o, op);
  }

  /** After a name or white space there is only one way to read an operator. */
  lemma OperatorBeforeIs(p: string, o: nat, op: Operator)
    requires 0 < o && OperatorAt(p, o, op)
    requires NameChar.Has(p[o - 1]) || RegexSpace.Has(p[o - 1])
    ensures OperatorBefore(p, o + op.Length()) == Some(Found(op, o))
  {
  }

  // ------------------------------------------------- the quoted-value condition

  /** `placeholderIsQuotedValue`. */
  predicate IsQuotedValue(t: string, start: nat, end: nat) {
    && 0 < start <= end < |t|
    && t[start - 1] == '"' && t[end] == '"'
    && MatcherOperator(t[..start - 1]) in {Some(Equal), Some(NotEqual)}
  }

  // --------------------------------------------- the expressions, written out

  /** Text of the five characters of `\s`. */
  predicate IsBlank(s: string) {
    forall c | c in s :: IsBlankChar(c)
  }

  predicate IsBlankChar(c: char) { c == ' ' || c == '\t' || c == '\n' || c == '\U{000C}' || c == '\r' }

  predicate IsWordChar(c: char) {
    'a' <= c <= 'z' || 'A' <= c <= 'Z' || '0' <= c <= '9' || c == '_'
  }

  /** `[A-Za-z_][A-Za-z0-9_]*`. */
  predicate IsWord(s: string) {
    s != "" && !('0' <= s[0] <= '9') && forall c | c in s :: IsWordChar(c)
  }

  lemma SliceHas(s: string, i: nat, j: nat)
    requires i <= j <= |s|
    ensures IsBlank(s[i..j]) ==> AllBetween(RegexSpace, s, i, j)
    ensures IsWord(s[i..j]) ==> NameAt(s, i, j)
  {
    forall k | i <= k < j ensures s[k] in s[i..j] {
      assert s[i..j][k - i] == s[k];
    }
  }

  lemma SpelledAt(s: string, before: string, text: string)
    requires before + text <= s
    ensures |before| + |text| <= |s| && s[|before|..|before| + |text|] == text
  {
    assert s[..|before| + |text|] == before + text;
  }

  lemma Longer(a: string, b: string, s: string)
    requires a + b <= s
    ensures a <= s
  {
    assert a <= a + b;
  }

  lemma CutSpells(s: string, i: nat, j: nat)
    requires i <= j <= |s|
    ensures AllBetween(RegexSpace, s, i, j) ==> IsBlank(s[i..j])
    ensures NameAt(s, i, j) ==> IsWord(s[i..j])
  {
    forall c | c in s[i..j] && AllBetween(RegexSpace, s, i, j) ensures IsBlankChar(c) {
      var k :| i <= k < j && s[k] == c;
      assert RegexSpace.Has(s[k]);
    }
    forall c | c in s[i..j] && NameAt(s, i, j) ensures IsWordChar(c) {
      var k :| i <= k < j && s[k] == c;
      assert NameChar.Has(s[k]);
    }
  }

  function PlaceholderText(gap1: string, kind: string, key: string, gap2: string): string {
    "{{" + gap1 + kind + "." + key + gap2 + "}}"
  }

  ghost predicate SpellsPlaceholder(text: string, kind: string, key: string) {
    && (kind == "label" || kind == "annotation") && IsWord(key)
    && exists gap1, gap2 :: IsBlank(gap1) && IsBlank(gap2) && text == PlaceholderText(gap1, kind, key, gap2)
  }

  /** The placeholder scanner, said in whole texts: it matches `s[i..j]` exactly
      when that is two braces, a kind, a dot, a key and two braces, with white space
      around the name. */
  lemma PlaceholderSpelling(s: string, i: nat, j: nat, kind: string, key: string)
    ensures PlaceholderAt(s, i) == Some(Occurrence(i, j, kind, key))
       <==> i <= j <= |s| && SpellsPlaceholder(s[i..j], kind, key)
  {
    PlaceholderAtIff(s, i, j, kind, key);
    if IsPlaceholder(s, i, j, kind, key) {
      var a: nat, k: nat, e: nat :| PlaceholderParts(s, i, j, kind, key, a, k, e);
      PartsSpell(s, i, j, kind, key, a, k, e);
    }
    if i <= j <= |s| && SpellsPlaceholder(s[i..j], kind, key) {
      var gap1, gap2 :| IsBlank(gap1) && IsBlank(gap2) && s[i..j] == PlaceholderText(gap1, kind, key, gap2);
      SpelledParts(s, i, j, gap1, kind, key, gap2);
    }
  }

  lemma CutOn(s: string, i: nat, j: nat, k: nat)
    requires i <= j <= k <= |s|
    ensures s[i..j] + s[j..k] == s[i..k]
  {
  }

  lemma PartsSpell(s: string, i: nat, j: nat, kind: string, key: string, a: nat, k: nat, e: nat)
    requires PlaceholderParts(s, i, j, kind, key, a, k, e)
    ensures i <= j <= |s| && SpellsPlaceholder(s[i..j], kind, key)
  {
    var gap1, gap2 := s[i + 2..a], s[e..j - 2];
    CutSpells(s, i + 2, a);
    CutSpells(s, k, e);
    CutSpells(s, e, j - 2);
    SliceIs(s, i, OPENING);
    SliceIs(s, a, kind + ".");
    SliceIs(s, j - 2, CLOSING);
    Recompose(s, i, j, gap1, kind, key, gap2, a, k, e);
  }

  lemma Recompose(s: string, i: nat, j: nat, gap1: string, kind: string, key: string, gap2: string,
                  a: nat, k: nat, e: nat)
    requires i + 2 <= a <= k <= e && e + 2 <= j <= |s|
    requires s[i..i + 2] == "{{" && s[i + 2..a] == gap1 && s[a..k] == kind + "." && s[k..e] == key
    requires s[e..j - 2] == gap2 && s[j - 2..j] == "}}"
    ensures s[i..j] == PlaceholderText(gap1, kind, key, gap2)
  {
    CutOn(s, i, i + 2, a);
    CutOn(s, i, a, k);
    CutOn(s, i, k, e);
    CutOn(s, i, e, j - 2);
    CutOn(s, i, j - 2, j);
    Dotted(gap1, kind);
  }

  lemma Dotted(gap1: string, kind: string)
    ensures "{{" + gap1 + kind + "." == "{{" + gap1 + (kind + ".")
  {
  }

  /** Where the pieces of a text lie. */
  lemma PiecesInPlace(w: string, p0: string, p1: string, p2: string, p3: string, p4: string, p5: string)
    requires w == p0 + p1 + p2 + p3 + p4 + p5
    ensures var a := |p0|;
      var b := a + |p1|;
      var c := b + |p2|;
      var d := c + |p3|;
      var e := d + |p4|;
      && |w| == e + |p5| && w[..a] == p0 && w[a..b] == p1 && w[b..c] == p2 && w[c..d] == p3
      && w[d..e] == p4 && w[e..|w|] == w[e..] == p5
  {
    Longer(p0 + p1 + p2 + p3, p4, w);
    Longer(p0 + p1 + p2, p3, w);
    Longer(p0 + p1, p2, w);
    Longer(p0, p1, w);
    SpelledAt(w, p0, p1);
    SpelledAt(w, p0 + p1, p2);
    SpelledAt(w, p0 + p1 + p2, p3);
    SpelledAt(w, p0 + p1 + p2 + p3, p4);
  }

  lemma SpelledParts(s: string, i: nat, j: nat, gap1: string, kind: string, key: string, gap2: string)
    requires i <= j <= |s| && s[i..j] == PlaceholderText(gap1, kind, key, gap2)
    requires IsBlank(gap1) && IsBlank(gap2) && IsWord(key) && (kind == "label" || kind == "annotation")
    ensures IsPlaceholder(s, i, j, kind, key)
  {
    var a := 2 + |gap1|;
    var k := a + |kind| + 1;
    var e := k + |key|;
    TextParts(s[i..j], gap1, kind, key, gap2);
    ShiftParts(s, i, j, kind, key, a, k, e);
  }

  lemma TextParts(w: string, gap1: string, kind: string, key: string, gap2: string)
    requires w == PlaceholderText(gap1, kind, key, gap2)
    requires IsBlank(gap1) && IsBlank(gap2) && IsWord(key) && (kind == "label" || kind == "annotation")
    ensures var a := 2 + |gap1|;
      var k := a + |kind| + 1;
      PlaceholderParts(w, 0, |w|, kind, key, a, k, k + |key|)
  {
    var a := 2 + |gap1|;
    var k := a + |kind| + 1;
    TextPieces(w, gap1, kind, key, gap2);
    SlicesAreParts(w, kind, key, a, k, k + |key|);
  }

  lemma TextPieces(w: string, gap1: string, kind: string, key: string, gap2: string)
    requires w == PlaceholderText(gap1, kind, key, gap2)
    ensures var a := 2 + |gap1|;
      var k := a + |kind| + 1;
      var e := k + |key|;
      && e + |gap2| + 2 == |w| && w[..2] == "{{" && w[2..a] == gap1 && w[a..k] == kind + "." && w[k..e] == key
      && w[e..|w| - 2] == gap2 && w[|w| - 2..] == "}}"
  {
    Dotted(gap1, kind);
    PiecesInPlace(w, "{{", gap1, kind + ".", key, gap2, "}}");
  }

  lemma ShiftParts(s: string, i: nat, j: nat, kind: string, key: string, a: nat, k: nat, e: nat)
    requires i <= j <= |s| && PlaceholderParts(s[i..j], 0, j - i, kind, key, a, k, e)
    ensures PlaceholderParts(s, i, j, kind, key, i + a, i + k, i + e)
  {
    ShiftHas(s, i, j, 0, OPENING);
    ShiftHas(s, i, j, j - i - 2, CLOSING);
    ShiftHas(s, i, j, a, kind + ".");
    ShiftBetween(RegexSpace, s, i, j, 2, a);
    ShiftBetween(NameChar, s, i, j, k, e);
    ShiftBetween(RegexSpace, s, i, j, e, j - i - 2);
    ShiftSlice(s, i, j, k, e);
  }

  lemma ShiftSlice(s: string, i: nat, j: nat, m: nat, n: nat)
    requires i <= j <= |s| && m <= n <= j - i
    ensures s[i + m..i + n] == s[i..j][m..n]
    ensures m < n ==> s[i + m] == s[i..j][m]
  {
    var w := s[i..j];
    forall k | 0 <= k < n - m ensures s[i + m..i + n][k] == w[m..n][k] {
      assert w[m..n][k] == w[m + k] == s[i + (m + k)];
    }
  }

  lemma ShiftBetween(p: CharClass, s: string, i: nat, j: nat, m: nat, n: nat)
    requires i <= j <= |s| && n <= j - i && AllBetween(p, s[i..j], m, n)
    ensures AllBetween(p, s, i + m, i + n)
  {
    forall k | i + m <= k < i + n ensures p.Has(s[k]) { assert s[k] == s[i..j][k - i]; }
  }

  lemma ShiftHas(s: string, i: nat, j: nat, m: nat, w: string)
    requires i <= j <= |s| && HasAt(s[i..j], m, w)
    ensures HasAt(s, i + m, w)
  {
    forall k | 0 <= k < |w| ensures w[k] == s[i + m + k] { assert w[k] == s[i..j][m + k]; }
  }

  lemma SlicesAreParts(w: string, kind: string, key: string, a: nat, k: nat, e: nat)
    requires 2 <= a && k == a + |kind| + 1 <= e && e + 2 <= |w| && (kind == "label" || kind == "annotation")
    requires w[..2] == "{{" && w[|w| - 2..] == "}}" && w[a..k] == kind + "." && w[k..e] == key && IsWord(key)
    requires IsBlank(w[2..a]) && IsBlank(w[e..|w| - 2])
    ensures PlaceholderParts(w, 0, |w|, kind, key, a, k, e)
  {
    SliceHas(w, 2, a);
    SliceHas(w, k, e);
    SliceHas(w, e, |w| - 2);
    HasSlice(w, 0, "{{");
    HasSlice(w, |w| - 2, "}}");
    HasSlice(w, a, kind + ".");
  }

  lemma HasSlice(s: string, i: nat, w: string)
    requires i + |w| <= |s| && s[i..i + |w|] == w
    ensures HasAt(s, i, w)
  {
    forall k | 0 <= k < |w| ensures w[k] == s[i + k] {
      assert s[i..i + |w|][k] == s[i + k];
    }
  }

  lemma SliceIs(s: string, i: nat, w: string)
    requires HasAt(s, i, w)
    ensures s[i..i + |w|] == w
  {
    assert forall k | 0 <= k < |w| :: s[i..i + |w|][k] == s[i + k] == w[k];
  }

  // ------------------------------------------------------ matchers, written out

  function OperatorText(op: Operator): string {
    match op
    case Equal => "="
    case NotEqual => "!="
    case Matches => "=~"
    case NotMatches => "!~"
  }

  function MatcherText(pre: string, gap0: string, name: string, gap1: string, op: Operator, gap2: string): string {
    pre + gap0 + name + gap1 + OperatorText(op) + gap2
  }

  /** A label name may follow this text: nothing, or a text that ends in a brace or
      a comma. */
  predicate OpensMatcher(pre: string) {
    pre == "" || pre[|pre| - 1] == '{' || pre[|pre| - 1] == ','
  }

  /** The operator of a matcher is captured exactly when the name stands at the
      start of the text or behind an opening brace or a comma; white space may
      stand around it. */
  lemma MatcherAfter(p: string, pre: string, gap0: string, name: string, gap1: string, op: Operator, gap2: string)
    requires IsBlank(gap0) && IsWord(name) && IsBlank(gap1) && IsBlank(gap2)
    requires pre == "" || !(IsBlankChar(pre[|pre| - 1]) || IsWordChar(pre[|pre| - 1]))
    requires p == MatcherText(pre, gap0, name, gap1, op, gap2)
    ensures MatcherOperator(p) == if OpensMatcher(pre) then Some(op) else None
  {
    var n := |pre| + |gap0|;
    MatcherPieces(p, pre, gap0, name, gap1, op, gap2);
    SlicesAreMatcher(p, |pre|, n, n + |name|, n + |name| + |gap1|, op);
  }

  lemma MatcherPieces(p: string, pre: string, gap0: string, name: string, gap1: string, op: Operator, gap2: string)
    requires p == MatcherText(pre, gap0, name, gap1, op, gap2)
    ensures var n := |pre| + |gap0|;
      var b := n + |name|;
      var o := b + |gap1|;
      && o + op.Length() <= |p| && p[|pre|..n] == gap0 && p[n..b] == name && p[b..o] == gap1
      && p[o..o + op.Length()] == OperatorText(op) && p[o + op.Length()..|p|] == gap2
      && (pre != "" ==> p[|pre| - 1] == pre[|pre| - 1])
  {
    PiecesInPlace(p, pre, gap0, name, gap1, OperatorText(op), gap2);
  }

  lemma SlicesAreMatcher(p: string, a: nat, n: nat, b: nat, o: nat, op: Operator)
    requires a <= n <= b <= o && o + op.Length() <= |p| && p[o..o + op.Length()] == OperatorText(op)
    requires IsBlank(p[a..n]) && IsWord(p[n..b]) && IsBlank(p[b..o]) && IsBlank(p[o + op.Length()..|p|])
    requires a == 0 || !(IsBlankChar(p[a - 1]) || IsWordChar(p[a - 1]))
    ensures MatcherOperator(p) == if a == 0 || p[a - 1] == '{' || p[a - 1] == ',' then Some(op) else None
  {
    SliceHas(p, a, n);
    SliceHas(p, n, b);
    SliceHas(p, b, o);
    SliceHas(p, o + op.Length(), |p|);
    OperatorSlice(p, o, op);
    if a > 0 {
      CharsAgree(p[a - 1]);
    }
    MatcherWhere(p, a, n, b, o, op);
  }

  lemma MatcherWhere(p: string, a: nat, n: nat, b: nat, o: nat, op: Operator)
    requires a <= n && b <= o && o + op.Length() <= |p| && NameAt(p, n, b) && OperatorAt(p, o, op)
    requires AllBetween(RegexSpace, p, a, n) && AllBetween(RegexSpace, p, b, o)
    requires AllBetween(RegexSpace, p, o + op.Length(), |p|)
    requires a == 0 || !(RegexSpace.Has(p[a - 1]) || NameChar.Has(p[a - 1]))
    ensures MatcherOperator(p) == if a == 0 || p[a - 1] == '{' || p[a - 1] == ',' then Some(op) else None
  {
    LabelEndsWhere(p, a, n, b, o);
    OperatorComplete(p, op, o);
  }

  lemma OperatorSlice(p: string, o: nat, op: Operator)
    requires o + op.Length() <= |p|
    ensures p[o..o + op.Length()] == OperatorText(op) <==> OperatorAt(p, o, op)
  {
    var w := p[o..o + op.Length()];
    assert w[0] == p[o] && (op != Equal ==> w[1] == p[o + 1]);
  }

  /** A label name and its white space are found where they stand. */
  lemma LabelEndsWhere(p: string, a: nat, n: nat, b: nat, o: nat)
    requires a <= n && b <= o <= |p| && NameAt(p, n, b)
    requires AllBetween(RegexSpace, p, a, n) && AllBetween(RegexSpace, p, b, o)
    requires a == 0 || !(RegexSpace.Has(p[a - 1]) || NameChar.Has(p[a - 1]))
    ensures LabelEndsAt(p, o) <==> a == 0 || p[a - 1] == '{' || p[a - 1] == ','
    ensures 0 < o && (NameChar.Has(p[o - 1]) || RegexSpace.Has(p[o - 1]))
  {
    BackWhileUnique(p, o, RegexSpace, b);
    BackWhileUnique(p, b, NameChar, n);
    BackWhileUnique(p, n, RegexSpace, a);
  }

  lemma CharsAgree(c: char)
    ensures IsBlankChar(c) <==> RegexSpace.Has(c)
    ensures IsWordChar(c) <==> NameChar.Has(c)
  {
  }

  /** The language of `labelMatcherPrefixPattern`, said in whole texts. */
  ghost predicate SpellsMatcher(p: string, op: Operator) {
    exists pre, gap0, name, gap1, gap2 :: IsMatcherText(p, pre, gap0, name, gap1, op, gap2)
  }

  predicate IsMatcherText(p: string, pre: string, gap0: string, name: string, gap1: string, op: Operator,
                          gap2: string) {
    && OpensMatcher(pre) && IsBlank(gap0) && IsWord(name) && IsBlank(gap1) && IsBlank(gap2)
    && p == MatcherText(pre, gap0, name, gap1, op, gap2)
  }

  /** The matcher scanner captures an operator exactly when the text can be so
      spelled with it. */
  lemma MatcherSpelling(p: string, op: Operator)
    ensures MatcherOperator(p) == Some(op) <==> SpellsMatcher(p, op)
  {
    MatcherOperatorIff(p, op);
    if MatcherOperator(p) == Some(op) {
      var o: nat :| MatcherParts(p, op, o);
      var a: nat, n: nat, b: nat :| LabelParts(p, a, n, b, o);
      MatcherPartsSpell(p, op, a, n, b, o);
    }
    if SpellsMatcher(p, op) {
      var pre, gap0, name, gap1, gap2 :| IsMatcherText(p, pre, gap0, name, gap1, op, gap2);
      SpelledIsCaptured(p, pre, gap0, name, gap1, op, gap2);
    }
  }

  lemma SpelledIsCaptured(p: string, pre: string, gap0: string, name: string, gap1: string, op: Operator, gap2: string)
    requires IsMatcherText(p, pre, gap0, name, gap1, op, gap2)
    ensures MatcherOperator(p) == Some(op)
  {
    MatcherAfter(p, pre, gap0, name, gap1, op, gap2);
  }

  lemma MatcherPartsSpell(p: string, op: Operator, a: nat, n: nat, b: nat, o: nat)
    requires LabelParts(p, a, n, b, o) && OperatorAt(p, o, op) && AllBetween(RegexSpace, p, o + op.Length(), |p|)
    ensures SpellsMatcher(p, op)
  {
    var w := o + op.Length();
    MatcherSlices(p, op, a, n, b, o);
    RecomposeMatcher(p, op, a, n, b, o);
    SpelledMatcher(p, p[0..a], p[a..n], p[n..b], p[b..o], op, p[w..|p|]);
  }

  lemma MatcherSlices(p: string, op: Operator, a: nat, n: nat, b: nat, o: nat)
    requires LabelParts(p, a, n, b, o) && OperatorAt(p, o, op) && AllBetween(RegexSpace, p, o + op.Length(), |p|)
    ensures IsBlank(p[a..n]) && IsWord(p[n..b]) && IsBlank(p[b..o]) && IsBlank(p[o + op.Length()..|p|])
    ensures p[o..o + op.Length()] == OperatorText(op) && OpensMatcher(p[0..a])
  {
    OperatorSlice(p, o, op);
    CutSpells(p, a, n);
    CutSpells(p, n, b);
    CutSpells(p, b, o);
    CutSpells(p, o + op.Length(), |p|);
    assert a > 0 ==> p[0..a][a - 1] == p[a - 1];
  }

  lemma SpelledMatcher(p: string, pre: string, gap0: string, name: string, gap1: string, op: Operator, gap2: string)
    requires OpensMatcher(pre) && IsBlank(gap0) && IsWord(name) && IsBlank(gap1) && IsBlank(gap2)
    requires p == MatcherText(pre, gap0, name, gap1, op, gap2)
    ensures SpellsMatcher(p, op)
  {
    assert IsMatcherText(p, pre, gap0, name, gap1, op, gap2);
  }

  lemma RecomposeMatcher(p: string, op: Operator, a: nat, n: nat, b: nat, o: nat)
    requires a <= n <= b <= o && o + op.Length() <= |p| && p[o..o + op.Length()] == OperatorText(op)
    ensures p == MatcherText(p[0..a], p[a..n], p[n..b], p[b..o], op, p[o + op.Length()..|p|])
  {
    CutOn(p, 0, a, n);
    CutOn(p, 0, n, b);
    CutOn(p, 0, b, o);
    CutOn(p, 0, o, o + op.Length());
    CutOn(p, 0, o + op.Length(), |p|);
    assert p[0..|p|] == p;
  }
}
