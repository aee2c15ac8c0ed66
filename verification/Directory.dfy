/** Directory users of internal/domain/directory.go: trimming, defaults, and
    the two list normalisers. */
module Directory {
  import opened Text
  import opened Time
  import opened StringLists

  const MAX_PROVIDER := 64
  const MAX_EXTERNAL_ID := 256
  const MAX_SUBJECT := 256
  const MAX_USERNAME := 128
  const MAX_DISPLAY_NAME := 256
  const MAX_EMAIL := 320
  const MAX_TITLE := 256
  const MAX_DEPARTMENT := 256
  const MAX_PATH := 1024
  const MAX_PATHS := 32
  const MAX_IDS := 32

  // ------------------------------------------------------------- normalisers

  predicate AllFit(values: seq<string>, max: nat) {
    forall v | v in values :: Utf8Len(v) <= max
  }

  /** `normalizeDirectoryPaths`: first occurrences in order, the primary first. */
  function Paths(primary: string, paths: seq<string>): Option<seq<string>> {
    var kept := Kept([primary] + paths);
    if !AllFit(kept, MAX_PATH) || |FirstOccurrences(kept)| > MAX_PATHS then None
    else Some(FirstOccurrences(kept))
  }

  /** `normalizeDirectoryExternalIDs`: the distinct ids, sorted. */
  function ExternalIds(ids: seq<string>): Option<seq<string>> {
    var kept := Kept(ids);
    if !AllFit(kept, MAX_EXTERNAL_ID) || |FirstOccurrences(kept)| > MAX_IDS then None
    else Some(Canonical(kept))
  }

  lemma FitNext(values: seq<string>, i: nat, max: nat)
    requires i < |values|
    ensures var value := TrimSpace(values[i]);
      AllFit(Kept(values[..i + 1]), max)
      <==> AllFit(Kept(values[..i]), max) && (value == "" || Utf8Len(value) <= max)
  {
    KeptStep(values, i);
    assert TrimSpace(values[i]) in [TrimSpace(values[i])];
  }

  lemma TooLong(values: seq<string>, i: nat, max: nat)
    requires i < |values| && TrimSpace(values[i]) != "" && Utf8Len(TrimSpace(values[i])) > max
    ensures !AllFit(Kept(values), max)
  {
    KeptHas(values, i);
  }

  /** The loops of both normalisers: keep each trimmed non-empty value once. */
  method KeepDistinct(values: seq<string>, max: nat) returns (ok: bool, out: seq<string>)
    ensures ok <==> AllFit(Kept(values), max)
    ensures ok ==> out == FirstOccurrences(Kept(values))
  {
    out := [];
    var seen: set<string> := {};
    NoneYet(values);
    for i := 0 to |values|
      invariant KeptOnce(values, i, out, seen)
      invariant AllFit(Kept(values[..i]), max)
    {
      var value := TrimSpace(values[i]);
      KeepNext(values, i, out, seen);
      FitNext(values, i, max);
      if value == "" {
        continue;
      }
      if Utf8Len(value) > max {
        TooLong(values, i, max);
        return false, out;
      }
      if value in seen {
        continue;
      }
      seen := seen + {value};
      out := out + [value];
    }
    AllKept(values, out, seen);
    ok := true;
  }

  method NormalizePaths(primary: string, paths: seq<string>) returns (r: Option<seq<string>>)
    ensures r == Paths(primary, paths)
  {
    var ok, out := KeepDistinct([primary] + paths, MAX_PATH);
    r := if !ok || |out| > MAX_PATHS then None else Some(out);
  }

  method NormalizeExternalIds(ids: seq<string>) returns (r: Option<seq<string>>)
    ensures r == ExternalIds(ids)
  {
    var ok, out := KeepDistinct(ids, MAX_EXTERNAL_ID);
    r := if !ok || |out| > MAX_IDS then None else Some(Sort(out));
  }

  /** External ids are strictly sorted and depend only on the set of trimmed
      non-empty inputs: not on order, repetition or padding. */
  lemma ExternalIdsBySet(ids: seq<string>, others: seq<string>)
    requires Elements(Kept(ids)) == Elements(Kept(others))
    ensures ExternalIds(ids) == ExternalIds(others)
    ensures ExternalIds(ids).Some? ==>
      StrictlySorted(ExternalIds(ids).value) && Elements(ExternalIds(ids).value) == Elements(Kept(ids))
  {
    CanonicalBySet(Kept(ids), Kept(others));
    CanonicalIs(Kept(ids));
    DistinctSize(FirstOccurrences(Kept(ids)));
    DistinctSize(FirstOccurrences(Kept(others)));
    assert forall v :: v in Kept(ids) <==> v in Elements(Kept(others));
  }

  lemma KeptPrimary(primary: string, paths: seq<string>)
    requires TrimSpace(primary) != ""
    ensures Kept([primary] + paths) != [] && Kept([primary] + paths)[0] == TrimSpace(primary)
  {
    var values := [primary] + paths;
    KeptStep(values, 0);
    KeptPrefix(values, 1);
    assert values[..1] == [primary];
  }

  /** The primary path, when there is one, comes first. */
  lemma PrimaryFirst(primary: string, paths: seq<string>)
    requires Paths(primary, paths).Some? && TrimSpace(primary) != ""
    ensures Paths(primary, paths).value != [] && Paths(primary, paths).value[0] == TrimSpace(primary)
  {
    KeptPrimary(primary, paths);
    FirstStaysFirst(Kept([primary] + paths));
  }

  /** Paths are accepted exactly when none has more than 1024 bytes and there are at
      most 32 different ones, and the result holds each of them once. */
  lemma PathsIff(primary: string, paths: seq<string>)
    ensures var all := [primary] + paths;
      && (Paths(primary, paths).Some? <==> (forall p | p in Texts(all) :: Utf8Len(p) <= 1024) && |Texts(all)| <= 32)
      && (Paths(primary, paths).Some? ==>
            Distinct(Paths(primary, paths).value) && Elements(Paths(primary, paths).value) == Texts(all))
  {
    KeptFit([primary] + paths, 1024);
  }

  lemma ExternalIdsIff(ids: seq<string>)
    ensures ExternalIds(ids).Some? <==> (forall v | v in Texts(ids) :: Utf8Len(v) <= 256) && |Texts(ids)| <= 32
    ensures ExternalIds(ids).Some? ==>
      StrictlySorted(ExternalIds(ids).value) && Elements(ExternalIds(ids).value) == Texts(ids)
  {
    KeptFit(ids, 256);
    CanonicalIs(Kept(ids));
  }

  lemma KeptFit(values: seq<string>, max: nat)
    ensures AllFit(Kept(values), max) <==> forall v | v in Texts(values) :: Utf8Len(v) <= max
    ensures Elements(Kept(values)) == Texts(values) && |FirstOccurrences(Kept(values))| == |Texts(values)|
  {
    KeptTexts(values);
    assert forall v :: v in Kept(values) <==> v in Elements(Kept(values));
  }

  // ------------------------------------------------------------------- users

  datatype User = User(provider: string, subject: string, externalId: string, username: string, displayName: string,
                       email: string, jobTitle: string, department: string, section: string, departmentPath: string,
                       departmentPaths: seq<string>, departmentExternalIds: seq<string>, active: bool,
                       sourceUpdatedAt: Option<Time>, syncedAt: Time)

  function NormalizeOptionalTime(t: Option<Time>): Option<Time> {
    if t.None? || IsZero(t.value) then None else Some(NormalizeUTCMicro(t.value))
  }

  /** `strings.ToLower`, one character at a time. */
  function Lower(lower: char -> char, s: string): (r: string)
    ensures |r| == |s| && forall i | 0 <= i < |s| :: r[i] == lower(s[i])
  {
    seq(|s|, i requires 0 <= i < |s| => lower(s[i]))
  }

  function Default(value: string, fallback: string): string {
    if value == "" then fallback else value
  }

  function TrimFields(lower: char -> char, u: User): User {
    var subject := TrimSpace(u.subject);
    var username := Default(TrimSpace(u.username), subject);
    User(TrimSpace(u.provider), subject, Default(TrimSpace(u.externalId), subject), username,
         Default(TrimSpace(u.displayName), username), TrimSpace(Lower(lower, u.email)), TrimSpace(u.jobTitle),
         TrimSpace(u.department), TrimSpace(u.section), TrimSpace(u.departmentPath),
         u.departmentPaths, u.departmentExternalIds, u.active,
         NormalizeOptionalTime(u.sourceUpdatedAt), NormalizeUTCMicro(u.syncedAt))
  }

  predicate FieldsFit(u: User) {
    && u.provider != "" && Utf8Len(u.provider) <= MAX_PROVIDER
    && u.subject != "" && Utf8Len(u.subject) <= MAX_SUBJECT
    && Utf8Len(u.externalId) <= MAX_EXTERNAL_ID && Utf8Len(u.username) <= MAX_USERNAME
    && Utf8Len(u.displayName) <= MAX_DISPLAY_NAME && Utf8Len(u.email) <= MAX_EMAIL
    && Utf8Len(u.jobTitle) <= MAX_TITLE && Utf8Len(u.department) <= MAX_DEPARTMENT
    && Utf8Len(u.section) <= MAX_DEPARTMENT && Utf8Len(u.departmentPath) <= MAX_PATH
    && !IsZero(u.syncedAt)
  }

  /** The checks and list normalisers, on trimmed fields. */
  function CheckUser(u: User): Option<User> {
    if !FieldsFit(u) then None
    else match (Paths(u.departmentPath, u.departmentPaths), ExternalIds(u.departmentExternalIds))
      case (Some(paths), Some(ids)) =>
        Some(u.(departmentPath := StoredPrimary(u.departmentPath, paths), departmentPaths := paths,
                departmentExternalIds := ids))
      case _ => None
  }

  /** `NewDirectoryUser`, with the lower-case table as a parameter. */
  function NewDirectoryUser(lower: char -> char, input: User): Option<User> {
    CheckUser(TrimFields(lower, input))
  }

  /** The primary path a user is stored with. */
  function StoredPrimary(primary: string, out: seq<string>): string {
    if primary == "" && out != [] then out[0] else primary
  }

  lemma PathsFixed(primary: string, paths: seq<string>)
    requires Trimmed(primary) && Paths(primary, paths).Some?
    ensures var out := Paths(primary, paths).value;
      && Trimmed(StoredPrimary(primary, out)) && Utf8Len(StoredPrimary(primary, out)) <= MAX_PATH
      && Paths(StoredPrimary(primary, out), out) == Some(out)
  {
    OutKept(Kept([primary] + paths));
    TrimSpaceFixed(primary);
    if primary != "" { PrimaryFirst(primary, paths); }
    StoredAgain(primary, Paths(primary, paths).value);
  }

  lemma StoredAgain(primary: string, out: seq<string>)
    requires Distinct(out) && |out| <= MAX_PATHS && AllFit(out, MAX_PATH)
    requires forall v | v in out :: v != "" && Trimmed(v)
    requires primary != "" ==> out != [] && out[0] == primary
    ensures Paths(StoredPrimary(primary, out), out) == Some(out)
    ensures Trimmed(StoredPrimary(primary, out)) && Utf8Len(StoredPrimary(primary, out)) <= MAX_PATH
  {
    if out == [] {
      KeptNothing();
    } else {
      assert out[0] in out;
      PathsAgain(out);
    }
  }

  lemma KeptNothing()
    ensures Kept([""] + []) == []
  {
    assert [""] + [] == [""];
    KeptStep([""], 0);
    TrimSpaceFixed("");
    assert [""][..1] == [""];
  }

  lemma PathsAgain(out: seq<string>)
    requires out != [] && Distinct(out) && |out| <= MAX_PATHS && AllFit(out, MAX_PATH)
    requires forall v | v in out :: v != "" && Trimmed(v)
    ensures Paths(out[0], out) == Some(out)
  {
    forall v | v in [out[0]] + out ensures v in out { }
    KeptFixed([out[0]] + out);
    RepeatFirst(out);
  }

  lemma OutKept(kept: seq<string>)
    requires forall v | v in kept :: v != "" && Trimmed(v)
    ensures forall v | v in FirstOccurrences(kept) :: v in kept && v != "" && Trimmed(v)
  {
    forall v | v in FirstOccurrences(kept) ensures v in kept { assert v in Elements(FirstOccurrences(kept)); }
  }

  lemma ExternalIdsFixed(ids: seq<string>)
    requires ExternalIds(ids).Some?
    ensures ExternalIds(ExternalIds(ids).value) == ExternalIds(ids)
  {
    var kept := Kept(ids);
    var out := Canonical(kept);
    CanonicalIs(kept);
    forall v | v in out ensures v in kept { assert v in Elements(out); }
    KeptFixed(out);
    SortedIsDistinct(out);
    FirstOccurrencesFixed(out);
    CanonicalFixed(out);
  }

  lemma SortedIsDistinct(xs: seq<string>)
    requires StrictlySorted(xs)
    ensures Distinct(xs)
  {
    forall i, j | 0 <= i < j < |xs| ensures xs[i] != xs[j] { BelowTotal(xs[i], xs[j]); }
  }

  lemma EmailFixed(lower: char -> char, email: string)
    requires forall c :: lower(lower(c)) == lower(c)
    ensures TrimSpace(Lower(lower, TrimSpace(Lower(lower, email)))) == TrimSpace(Lower(lower, email))
  {
    var s := Lower(lower, email);
    var t := TrimSpace(s);
    var left, right := TrimSpaceSplits(s);
    forall i | 0 <= i < |t| ensures lower(t[i]) == t[i] {
      assert t[i] == s[|left| + i] == lower(email[|left| + i]);
    }
    assert Lower(lower, t) == t;
    TrimSpaceFixed(t);
  }

  lemma TrimFieldsFixed(lower: char -> char, input: User)
    requires forall c :: lower(lower(c)) == lower(c)
    requires FieldsFit(TrimFields(lower, input))
    ensures var u := TrimFields(lower, input);
      TrimFields(lower, u) == u.(sourceUpdatedAt := NormalizeOptionalTime(u.sourceUpdatedAt))
  {
    var u := TrimFields(lower, input);
    TrimSpaceFixed(u.provider);
    TrimSpaceFixed(u.subject);
    TrimSpaceFixed(u.externalId);
    TrimSpaceFixed(u.username);
    TrimSpaceFixed(u.displayName);
    TrimSpaceFixed(u.jobTitle);
    TrimSpaceFixed(u.department);
    TrimSpaceFixed(u.section);
    TrimSpaceFixed(u.departmentPath);
    EmailFixed(lower, input.email);
    NormalizeLaws(input.syncedAt, 0);
  }

  /** Normalising a user once more gives the same user, exactly unless its
      source time lies strictly within the first microsecond after the zero
      time: that time normalises to zero, and zero then reads as unset. */
  lemma UserFixedIff(lower: char -> char, input: User)
    requires forall c :: lower(lower(c)) == lower(c)
    requires NewDirectoryUser(lower, input).Some?
    ensures var v := NewDirectoryUser(lower, input).value;
      NewDirectoryUser(lower, v) == Some(v)
      <==> !(input.sourceUpdatedAt.Some? && 0 < input.sourceUpdatedAt.value < 1000)
  {
    var u := TrimFields(lower, input);
    var v := NewDirectoryUser(lower, input).value;
    CheckAgain(u, NormalizeOptionalTime(u.sourceUpdatedAt));
    TrimFieldsFixed(lower, input);
    TrimListsOnly(lower, u, v);
    SourceTimeFixed(input.sourceUpdatedAt);
  }

  /** The fields of a user as they are stored, apart from the lists: trimmed, the
      subject standing in for a missing id and name, the name for a missing display
      name, and the times in whole microseconds. */
  function Cleaned(lower: char -> char, input: User): User {
    var subject := TrimSpace(input.subject);
    var username := if TrimSpace(input.username) == "" then subject else TrimSpace(input.username);
    input.(
      provider := TrimSpace(input.provider), subject := subject, username := username,
      externalId := if TrimSpace(input.externalId) == "" then subject else TrimSpace(input.externalId),
      displayName := if TrimSpace(input.displayName) == "" then username else TrimSpace(input.displayName),
      email := TrimSpace(Lower(lower, input.email)), jobTitle := TrimSpace(input.jobTitle),
      department := TrimSpace(input.department), section := TrimSpace(input.section),
      departmentPath := TrimSpace(input.departmentPath), syncedAt := 1000 * (input.syncedAt / 1000),
      sourceUpdatedAt :=
        match input.sourceUpdatedAt
        case None => None
        case Some(t) => if t == 0 then None else Some(1000 * (t / 1000)))
  }

  lemma TrimFieldsAre(lower: char -> char, input: User)
    ensures TrimFields(lower, input) == Cleaned(lower, input)
  {
    NormalizeLaws(input.syncedAt, 0);
    if input.sourceUpdatedAt.Some? {
      NormalizeLaws(input.sourceUpdatedAt.value, 0);
    }
  }

  predicate HasLengths(u: User) {
    && u.provider != "" && Utf8Len(u.provider) <= 64 && u.subject != "" && Utf8Len(u.subject) <= 256
    && Utf8Len(u.externalId) <= 256 && Utf8Len(u.username) <= 128 && Utf8Len(u.displayName) <= 256
    && Utf8Len(u.email) <= 320 && Utf8Len(u.jobTitle) <= 256 && Utf8Len(u.department) <= 256
    && Utf8Len(u.section) <= 256 && Utf8Len(u.departmentPath) <= 1024
  }

  lemma FieldsFitIff(u: User)
    ensures FieldsFit(u) <==> HasLengths(u) && u.syncedAt != 0
  {
  }

  /** A user is accepted exactly when its cleaned fields have the right lengths, its
      lists are accepted, and it was synchronised at a time; and it is stored as its
      cleaned fields with those lists and the first path for a missing one. */
  lemma UserIff(lower: char -> char, input: User)
    ensures var u := Cleaned(lower, input);
      var paths, ids := Paths(input.departmentPath, input.departmentPaths), ExternalIds(input.departmentExternalIds);
      NewDirectoryUser(lower, input)
      == if HasLengths(u) && u.syncedAt != 0 && paths.Some? && ids.Some?
         then Some(u.(departmentPath := if paths.value == [] then "" else paths.value[0],
                      departmentPaths := paths.value, departmentExternalIds := ids.value))
         else None
  {
    TrimFieldsAre(lower, input);
    FieldsFitIff(Cleaned(lower, input));
    PrimaryTrims(input.departmentPath, input.departmentPaths);
    if Paths(input.departmentPath, input.departmentPaths).Some? {
      PrimaryLeads(TrimSpace(input.departmentPath), input.departmentPaths);
    }
  }

  lemma PrimaryTrims(primary: string, paths: seq<string>)
    ensures Paths(TrimSpace(primary), paths) == Paths(primary, paths)
  {
    TrimSpaceFixed(TrimSpace(primary));
    var one, other := [TrimSpace(primary)] + paths, [primary] + paths;
    KeptAlike(one, other);
  }

  lemma {:induction false} KeptAlike(values: seq<string>, others: seq<string>)
    requires |values| == |others| && forall i | 0 <= i < |values| :: TrimSpace(values[i]) == TrimSpace(others[i])
    ensures Kept(values) == Kept(others)
  {
    if values != [] {
      KeptAlike(values[..|values| - 1], others[..|others| - 1]);
    }
  }

  lemma PrimaryLeads(primary: string, paths: seq<string>)
    requires Paths(primary, paths).Some? && Trimmed(primary)
    ensures var out := Paths(primary, paths).value;
      StoredPrimary(primary, out) == if out == [] then "" else out[0]
  {
    TrimSpaceFixed(primary);
    if primary != "" {
      PrimaryFirst(primary, paths);
    }
  }

  /** A user that is accepted and stored, and that normalising once more changes:
      its source time stands half a microsecond after the zero time. */
  lemma UserNotFixed(lower: char -> char)
    requires forall c :: lower(lower(c)) == lower(c)
    ensures var input := User("p", "s", "", "", "", "", "", "", "", "", [], [], true, Some(500), 1000);
      && NewDirectoryUser(lower, input).Some?
      && NewDirectoryUser(lower, NewDirectoryUser(lower, input).value) != NewDirectoryUser(lower, input)
  {
    var input := User("p", "s", "", "", "", "", "", "", "", "", [], [], true, Some(500), 1000);
    EmptyListsPass();
    BareFieldsTrimmed(lower, input);
    UserFixedIff(lower, input);
  }

  lemma EmptyListsPass()
    ensures Paths("", []) == Some([]) && ExternalIds([]) == Some([])
  {
    KeptNothing();
  }

  lemma BareFieldsTrimmed(lower: char -> char, u: User)
    requires u == User("p", "s", "", "", "", "", "", "", "", "", [], [], true, Some(500), 1000)
    ensures TrimFields(lower, u)
         == User("p", "s", "s", "s", "s", "", "", "", "", "", [], [], true, Some(0), 1000)
    ensures FieldsFit(TrimFields(lower, u))
  {
    TrimSpaceFixed("p");
    TrimSpaceFixed("s");
    TrimSpaceFixed("");
    assert Lower(lower, "") == "";
  }

  /** Checking a checked user again changes nothing, whatever its source time. */
  lemma CheckAgain(u: User, t: Option<Time>)
    requires CheckUser(u).Some? && Trimmed(u.departmentPath)
    ensures var v := CheckUser(u).value;
      && CheckUser(v.(sourceUpdatedAt := t)) == Some(v.(sourceUpdatedAt := t))
      && TrimSpace(v.departmentPath) == v.departmentPath
      && v == u.(departmentPath := v.departmentPath, departmentPaths := v.departmentPaths,
                 departmentExternalIds := v.departmentExternalIds)
  {
    PathsFixed(u.departmentPath, u.departmentPaths);
    ExternalIdsFixed(u.departmentExternalIds);
    var v := CheckUser(u).value;
    TrimSpaceFixed(v.departmentPath);
    StoredTwice(u.departmentPath, v.departmentPaths);
    assert FieldsFit(v.(sourceUpdatedAt := t));
  }

  lemma StoredTwice(primary: string, out: seq<string>)
    ensures StoredPrimary(StoredPrimary(primary, out), out) == StoredPrimary(primary, out)
  {
  }

  lemma TrimListsOnly(lower: char -> char, u: User, v: User)
    requires v == u.(departmentPath := v.departmentPath, departmentPaths := v.departmentPaths,
                     departmentExternalIds := v.departmentExternalIds)
    requires TrimSpace(v.departmentPath) == v.departmentPath
    ensures TrimFields(lower, v) == TrimFields(lower, u).(departmentPath := v.departmentPath,
      departmentPaths := v.departmentPaths, departmentExternalIds := v.departmentExternalIds)
  {
  }

  lemma SourceTimeFixed(t: Option<Time>)
    ensures var n := NormalizeOptionalTime(t);
      NormalizeOptionalTime(n) == n <==> !(t.Some? && 0 < t.value < 1000)
  {
    if t.Some? {
      NormalizeLaws(t.value, 0);
    }
  }

  predicate AllTrimmed(v: User) {
    && Trimmed(v.provider) && Trimmed(v.subject) && Trimmed(v.externalId) && Trimmed(v.username)
    && Trimmed(v.displayName) && Trimmed(v.email) && Trimmed(v.jobTitle) && Trimmed(v.department)
    && Trimmed(v.section) && Trimmed(v.departmentPath)
  }

  /** What a constructed user satisfies: trimmed fields with their defaults filled
      in, distinct trimmed paths headed by the primary one, sorted ids. */
  lemma UserIsCanonical(lower: char -> char, input: User)
    requires NewDirectoryUser(lower, input).Some?
    ensures var v := NewDirectoryUser(lower, input).value;
      && AllTrimmed(v)
      && v.provider != "" && v.subject != "" && v.externalId != "" && v.username != "" && v.displayName != ""
      && Distinct(v.departmentPaths) && |v.departmentPaths| <= MAX_PATHS
      && (forall p | p in v.departmentPaths :: p != "" && Trimmed(p))
      && v.departmentPath == (if v.departmentPaths == [] then "" else v.departmentPaths[0])
      && StrictlySorted(v.departmentExternalIds) && |v.departmentExternalIds| <= MAX_IDS
  {
    TrimFieldsTrimmed(lower, input);
    CheckIsCanonical(TrimFields(lower, input));
  }

  lemma TrimFieldsTrimmed(lower: char -> char, input: User)
    ensures var u := TrimFields(lower, input);
      AllTrimmed(u) && (u.subject != "" ==> u.externalId != "" && u.username != "" && u.displayName != "")
  {
  }

  lemma CheckIsCanonical(u: User)
    requires CheckUser(u).Some? && AllTrimmed(u)
    ensures var v := CheckUser(u).value;
      && AllTrimmed(v)
      && Distinct(v.departmentPaths) && |v.departmentPaths| <= MAX_PATHS
      && (forall p | p in v.departmentPaths :: p != "" && Trimmed(p))
      && v.departmentPath == (if v.departmentPaths == [] then "" else v.departmentPaths[0])
      && StrictlySorted(v.departmentExternalIds) && |v.departmentExternalIds| <= MAX_IDS
  {
    PathsFixed(u.departmentPath, u.departmentPaths);
    OutKept(Kept([u.departmentPath] + u.departmentPaths));
    TrimSpaceFixed(u.departmentPath);
    if u.departmentPath != "" { PrimaryFirst(u.departmentPath, u.departmentPaths); }
    ExternalIdsBySet(u.departmentExternalIds, u.departmentExternalIds);
  }
}
