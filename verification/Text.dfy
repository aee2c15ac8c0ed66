/** Text as sequences of Unicode characters: the parts of Go's `strings` and
    `unicode` packages that the modelled code relies on. */
module Text {
  datatype Option<+T> = None | Some(value: T)

  /** A slice to the end of a sequence, as loops leave it behind. */
  lemma WholeSlice<T>(s: seq<T>)
    ensures s[..|s|] == s && s[|s|..] == []
  {
  }

  /** Unicode White_Space, the class `unicode.IsSpace` tests. */
  predicate IsSpace(c: char) {
    var n := c as int;
    || 9 <= n <= 13 || n == 32 || n == 0x85 || n == 0xA0 || n == 0x1680
    || 0x2000 <= n <= 0x200A || n == 0x2028 || n == 0x2029 || n == 0x202F
    || n == 0x205F || n == 0x3000
  }

  /** Category Cc, the class `unicode.IsControl` tests. */
  predicate IsControl(c: char) {
    var n := c as int;
    n <= 0x1F || 0x7F <= n <= 0x9F
  }

  predicate IsDigit(c: char) { '0' <= c <= '9' }

  predicate IsNameStart(c: char) { 'A' <= c <= 'Z' || 'a' <= c <= 'z' || c == '_' }

  /** The character classes the modelled code scans runs of. `RegexSpace` is
      `\s` of Go's regular expressions, which has no vertical tab and no
      Unicode spaces; `Captured` is `[^"\\\r\n]`. */
  datatype CharClass = Space | RegexSpace | NameChar | Captured {
    predicate Has(c: char) {
      match this
      case Space => IsSpace(c)
      case RegexSpace => c == ' ' || c == '\t' || c == '\n' || c == '\r' || c as int == 12
      case NameChar => IsNameStart(c) || IsDigit(c)
      case Captured => c != '"' && c != '\\' && c != '\r' && c != '\n'
    }
  }

  predicate All(p: CharClass, s: string) {
    AllBetween(p, s, 0, |s|)
  }

  /** Length of the UTF-8 encoding, which is what `len` measures in Go. */
  function Utf8Len(s: string): nat {
    if s == [] then 0 else Utf8Width(s[0]) + Utf8Len(s[1..])
  }

  function Utf8Width(c: char): nat {
    var n := c as int;
    if n < 0x80 then 1 else if n < 0x800 then 2 else if n < 0x10000 then 3 else 4
  }

  /** How many characters have a code of at least `code`. */
  function CountFrom(s: string, code: int): nat {
    if s == [] then 0 else (if s[0] as int >= code then 1 else 0) + CountFrom(s[1..], code)
  }

  /** A character takes one byte, and one more from each of three codes on. */
  lemma {:induction false} Utf8LenCounts(s: string)
    ensures Utf8Len(s) == |s| + CountFrom(s, 0x80) + CountFrom(s, 0x800) + CountFrom(s, 0x10000)
  {
    if s != [] {
      Utf8LenCounts(s[1..]);
    }
  }

  /** The white space of Unicode, code by code. */
  lemma SpacesAre(c: char)
    ensures IsSpace(c) <==> c as int in {
      0x09, 0x0A, 0x0B, 0x0C, 0x0D, 0x20, 0x85, 0xA0, 0x1680, 0x2000, 0x2001, 0x2002, 0x2003, 0x2004, 0x2005, 0x2006,
      0x2007, 0x2008, 0x2009, 0x200A, 0x2028, 0x2029, 0x202F, 0x205F, 0x3000}
  {
  }

  // ---------------------------------------------------------------- scanning

  predicate AllBetween(p: CharClass, s: string, i: nat, j: nat)
    requires j <= |s|
  {
    forall k | i <= k < j :: p.Has(s[k])
  }

  /** End of the longest run of `p` characters that starts at `i`. */
  function SkipWhile(s: string, i: nat, p: CharClass): (j: nat)
    requires i <= |s|
    ensures i <= j <= |s| && AllBetween(p, s, i, j)
    ensures j == |s| || !p.Has(s[j])
    decreases |s| - i
  {
    if i < |s| && p.Has(s[i]) then SkipWhile(s, i + 1, p) else i
  }

  lemma SkipWhileUnique(s: string, i: nat, p: CharClass, j: nat)
    requires i <= j <= |s| && AllBetween(p, s, i, j) && (j == |s| || !p.Has(s[j]))
    ensures SkipWhile(s, i, p) == j
  {
    var k := SkipWhile(s, i, p);
  }

  /** Start of the longest run of `p` characters that ends at `i`. */
  function BackWhile(s: string, i: nat, p: CharClass): (j: nat)
    requires i <= |s|
    ensures j <= i && AllBetween(p, s, j, i)
    ensures j == 0 || !p.Has(s[j - 1])
  {
    if 0 < i && p.Has(s[i - 1]) then BackWhile(s, i - 1, p) else i
  }

  lemma BackWhileUnique(s: string, i: nat, p: CharClass, j: nat)
    requires j <= i <= |s| && AllBetween(p, s, j, i) && (j == 0 || !p.Has(s[j - 1]))
    ensures BackWhile(s, i, p) == j
  {
    var k := BackWhile(s, i, p);
  }

  /** Whether `w` occurs in `s` at position `i`. */
  predicate HasAt(s: string, i: nat, w: string) {
    i + |w| <= |s| && forall k | 0 <= k < |w| :: w[k] == s[i + k]
  }

  // ---------------------------------------------------------------- trimming

  /** `strings.TrimSpace`. */
  function TrimSpace(s: string): (r: string)
    ensures Trimmed(r)
  {
    var a := SkipWhile(s, 0, Space);
    var b := BackWhile(s, |s|, Space);
    if a < b then s[a..b] else ""
  }

  predicate Trimmed(s: string) {
    s == "" || (!IsSpace(s[0]) && !IsSpace(s[|s| - 1]))
  }

  /** Trimming finds the one trimmed text between two runs of white space. */
  lemma TrimSpaceIs(left: string, t: string, right: string)
    requires All(Space, left) && All(Space, right) && Trimmed(t)
    ensures TrimSpace(left + t + right) == t
  {
    var s := left + t + right;
    if t == "" {
      assert s == left + right;
      SkipWhileUnique(s, 0, Space, |s|);
    } else {
      MiddleAt(left, t, right);
      SkipWhileUnique(s, 0, Space, |left|);
      BackWhileUnique(s, |s|, Space, |left| + |t|);
    }
  }

  lemma MiddleAt(left: string, t: string, right: string)
    ensures var s := left + t + right;
      && s[..|left|] == left && s[|left|..|left| + |t|] == t && s[|left| + |t|..] == right
      && (t != "" ==> s[|left|] == t[0] && s[|left| + |t| - 1] == t[|t| - 1])
  {
  }

  lemma TrimSpaceFixed(t: string)
    requires Trimmed(t)
    ensures TrimSpace(t) == t
  {
    TrimSpaceIs("", t, "");
    assert "" + t + "" == t;
  }

  lemma SliceIsAll(p: CharClass, s: string, i: nat, j: nat)
    requires i <= j <= |s| && AllBetween(p, s, i, j)
    ensures All(p, s[i..j])
  {
  }

  lemma CutTwice(s: string, a: nat, b: nat)
    requires a <= b <= |s|
    ensures s == s[..a] + s[a..b] + s[b..]
  {
  }

  /** Every text is its trimmed form between two runs of white space. */
  lemma TrimSpaceSplits(s: string) returns (left: string, right: string)
    ensures s == left + TrimSpace(s) + right
    ensures All(Space, left) && All(Space, right)
  {
    var a := SkipWhile(s, 0, Space);
    var b := BackWhile(s, |s|, Space);
    if a < b {
      left, right := s[..a], s[b..];
      CutTwice(s, a, b);
      SliceIsAll(Space, s, 0, a);
      SliceIsAll(Space, s, b, |s|);
    } else {
      left, right := s, "";
      CutTwice(s, |s|, |s|);
    }
  }

  // ------------------------------------------------------------ split and join

  /** `strings.Split` with a one-character separator. */
  function Split(s: string, sep: char): (parts: seq<string>)
    ensures parts != []
    ensures forall p | p in parts :: sep !in p
  {
    if s == "" then [""]
    else if s[0] == sep then [""] + Split(s[1..], sep)
    else
      var rest := Split(s[1..], sep);
      [[s[0]] + rest[0]] + rest[1..]
  }

  /** `strings.Join`. */
  function Join(parts: seq<string>, sep: string): string {
    if parts == [] then ""
    else if |parts| == 1 then parts[0]
    else parts[0] + sep + Join(parts[1..], sep)
  }

  lemma JoinCons(part: string, parts: seq<string>, sep: string)
    requires parts != []
    ensures Join([part] + parts, sep) == part + sep + Join(parts, sep)
  {
    assert ([part] + parts)[1..] == parts;
  }

  lemma JoinHead(c: char, parts: seq<string>, sep: string)
    requires parts != []
    ensures Join([[c] + parts[0]] + parts[1..], sep) == [c] + Join(parts, sep)
  {
    if |parts| > 1 {
      JoinCons([c] + parts[0], parts[1..], sep);
      assert [c] + parts[0] + sep + Join(parts[1..], sep) == [c] + (parts[0] + sep + Join(parts[1..], sep));
    }
  }

  lemma {:induction false} JoinSplit(s: string, sep: char)
    ensures Join(Split(s, sep), [sep]) == s
  {
    if s != "" {
      var rest := Split(s[1..], sep);
      JoinSplit(s[1..], sep);
      assert s == [s[0]] + s[1..];
      if s[0] == sep {
        JoinCons("", rest, [sep]);
      } else {
        JoinHead(s[0], rest, [sep]);
      }
    }
  }

  lemma {:induction false} SplitOne(p: string, sep: char)
    requires sep !in p
    ensures Split(p, sep) == [p]
  {
    if p != "" {
      assert p == [p[0]] + p[1..];
      assert forall c | c in p[1..] :: c in p;
      SplitOne(p[1..], sep);
    }
  }

  lemma {:induction false} SplitFirst(p: string, sep: char, rest: string)
    requires sep !in p
    ensures Split(p + [sep] + rest, sep) == [p] + Split(rest, sep)
  {
    var s := p + [sep] + rest;
    if p == "" {
      assert s[1..] == rest;
    } else {
      assert s[0] == p[0] && s[1..] == p[1..] + [sep] + rest;
      assert p[0] in p && forall c | c in p[1..] :: c in p;
      assert p == [p[0]] + p[1..];
      SplitFirst(p[1..], sep, rest);
    }
  }

  lemma {:induction false} SplitJoin(parts: seq<string>, sep: char)
    requires parts != []
    requires forall p | p in parts :: sep !in p
    ensures Split(Join(parts, [sep]), sep) == parts
  {
    if |parts| == 1 {
      SplitOne(parts[0], sep);
    } else {
      SplitFirst(parts[0], sep, Join(parts[1..], [sep]));
      SplitJoin(parts[1..], sep);
    }
  }
}
