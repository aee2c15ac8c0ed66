/** Tenant keys of internal/domain/tenant.go. */
module Tenant {
  import opened Text

  const MAX_TENANT_KEY_LENGTH := 63

  predicate IsLower(c: char) { 'a' <= c <= 'z' }

  predicate IsKeyChar(c: char, first: bool) {
    IsLower(c) || (!first && (IsDigit(c) || c == '-'))
  }

  predicate HasDoubleHyphen(s: string) {
    exists i | 0 <= i < |s| - 1 :: s[i] == '-' && s[i + 1] == '-'
  }

  /** What `NormalizeTenantKey` checks. */
  predicate IsAcceptedKey(key: string) {
    && key != "" && Utf8Len(key) <= MAX_TENANT_KEY_LENGTH
    && (forall i | 0 <= i < |key| :: IsKeyChar(key[i], i == 0))
    && key[|key| - 1] != '-' && !HasDoubleHyphen(key)
  }

  method NormalizeTenantKey(raw: string) returns (r: Option<string>)
    ensures r == if IsAcceptedKey(TrimSpace(raw)) then Some(TrimSpace(raw)) else None
  {
    var key := TrimSpace(raw);
    if key == "" || Utf8Len(key) > MAX_TENANT_KEY_LENGTH {
      return None;
    }
    for i := 0 to |key|
      invariant forall j | 0 <= j < i :: IsKeyChar(key[j], j == 0)
    {
      var valid := IsLower(key[i]);
      if i > 0 {
        valid := valid || IsDigit(key[i]) || key[i] == '-';
      }
      if !valid {
        return None;
      }
    }
    if key[|key| - 1] == '-' || HasDoubleHyphen(key) {
      return None;
    }
    return Some(key);
  }

  // ------------------------------------------------------------------ grammar

  predicate IsSegment(s: string) {
    s != "" && forall i | 0 <= i < |s| :: 'a' <= s[i] <= 'z' || '0' <= s[i] <= '9'
  }

  /** Hyphen-joined segments of lower-case letters and digits, the first of
      which begins with a letter. */
  predicate AreSegments(segments: seq<string>) {
    && segments != [] && (forall s | s in segments :: IsSegment(s))
    && segments[0] != "" && 'a' <= segments[0][0] <= 'z'
  }

  predicate SimpleHyphens(s: string) {
    && (forall i | 0 <= i < |s| :: IsLower(s[i]) || IsDigit(s[i]) || s[i] == '-')
    && s != "" && s[0] != '-' && s[|s| - 1] != '-' && !HasDoubleHyphen(s)
  }

  lemma SuffixHyphens(s: string, n: nat)
    requires n <= |s| && !HasDoubleHyphen(s)
    ensures !HasDoubleHyphen(s[n..])
  {
    forall i | 0 <= i < |s[n..]| - 1 ensures !(s[n..][i] == '-' && s[n..][i + 1] == '-') {
      assert s[n..][i] == s[n + i] && s[n..][i + 1] == s[n + i + 1];
    }
  }

  lemma {:induction false} SplitGivesSegments(s: string)
    requires SimpleHyphens(s)
    ensures forall p | p in Split(s, '-') :: IsSegment(p)
    ensures Split(s, '-')[0][0] == s[0]
  {
    if |s| == 1 {
      assert s[1..] == "" && Split(s[1..], '-') == [""];
      assert [s[0]] + "" == [s[0]];
      assert Split(s, '-') == [[s[0]]];
    } else if s[1] == '-' {
      SuffixHyphens(s, 2);
      assert s[2] != '-' && s[2..][|s| - 3] != '-';
      SplitGivesSegments(s[2..]);
      assert s[1..][1..] == s[2..];
      assert Split(s[1..], '-') == [""] + Split(s[2..], '-');
      assert [s[0]] + "" == [s[0]];
      assert Split(s, '-') == [[s[0]]] + Split(s[2..], '-');
    } else {
      SuffixHyphens(s, 1);
      SplitGivesSegments(s[1..]);
      var rest := Split(s[1..], '-');
      assert Split(s, '-') == [[s[0]] + rest[0]] + rest[1..];
      assert rest[0] in rest;
      assert IsSegment([s[0]] + rest[0]);
    }
  }

  lemma HyphenJoins(first: string, rest: string)
    requires IsSegment(first) && SimpleHyphens(rest)
    ensures SimpleHyphens(first + "-" + rest) && (first + "-" + rest)[0] == first[0]
  {
    var s := first + "-" + rest;
    forall i | 0 <= i < |s|
      ensures s[i] == if i < |first| then first[i] else if i == |first| then '-' else rest[i - |first| - 1] {
    }
    forall i | 0 <= i < |s| - 1 ensures !(s[i] == '-' && s[i + 1] == '-') {
      if i > |first| {
        assert !(rest[i - |first| - 1] == '-' && rest[i - |first|] == '-');
      }
    }
  }

  lemma {:induction false} JoinOfSegments(segments: seq<string>)
    requires segments != [] && forall s | s in segments :: IsSegment(s)
    ensures SimpleHyphens(Join(segments, "-")) && Join(segments, "-")[0] == segments[0][0]
  {
    var first := segments[0];
    assert first in segments;
    if |segments| > 1 {
      JoinOfSegments(segments[1..]);
      HyphenJoins(first, Join(segments[1..], "-"));
    }
  }

  /** A key is accepted exactly when it has at most 63 bytes and is a hyphen-join
      of segments; splitting at the hyphens recovers the segments. */
  lemma AcceptedIffSegments(key: string)
    ensures IsAcceptedKey(key)
       <==> && Utf8Len(key) <= 63
            && exists segments :: AreSegments(segments) && key == Join(segments, "-")
    ensures IsAcceptedKey(key) ==> AreSegments(Split(key, '-'))
    ensures Join(Split(key, '-'), "-") == key
  {
    JoinSplit(key, '-');
    if IsAcceptedKey(key) {
      SplitGivesSegments(key);
      assert AreSegments(Split(key, '-'));
    }
    if segments :| AreSegments(segments) && key == Join(segments, "-") {
      JoinOfSegments(segments);
      assert forall i | 0 <= i < |key| :: IsLower(key[i]) || IsDigit(key[i]) || key[i] == '-';
    }
  }

  /** The segments are unique, and an accepted key normalises to itself. */
  lemma SegmentsUnique(key: string, segments: seq<string>)
    requires AreSegments(segments) && key == Join(segments, "-")
    ensures segments == Split(key, '-')
    ensures TrimSpace(key) == key
  {
    forall s | s in segments ensures '-' !in s {
      assert forall i | 0 <= i < |s| :: IsLower(s[i]) || IsDigit(s[i]);
    }
    SplitJoin(segments, '-');
    JoinOfSegments(segments);
    TrimSpaceFixed(key);
  }
}
