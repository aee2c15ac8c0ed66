/** The authorisation decision of internal/domain/rbac.go. */
module Rbac {
  import opened Text
  import opened StringLists

  const MAX_SUBJECT_KEY := 256
  const MAX_SCOPE_KEY := 256

  datatype SubjectKind = User | Department | UnknownSubject(text: string)

  datatype ScopeKind = Global | DiagnosisRoom | AlertSource | GroupingPolicy | ReportWorkflow | ReportWorkflowSchedule
                     | NotificationChannel | DiagnosisToolTemplate | UnknownScope(text: string)

  datatype Role = Admin | Operator | Leader | Responder | Viewer | UnknownRole(text: string)

  datatype Permission = DirectoryRead | DirectoryManage | RbacManage | OperationsRead
                      | DiagnosisRoomRead | DiagnosisRoomParticipate | DiagnosisRoomAdminister | DiagnosisRoomApprove
                      | AlertSourceRead | AlertSourceManage | GroupingPolicyRead | GroupingPolicyManage
                      | ReportWorkflowRead | ReportWorkflowManage
                      | NotificationChannelRead | NotificationChannelManage | NotificationChannelTest
                      | DiagnosisToolTemplateRead | DiagnosisToolTemplateManage | UnknownPermission(text: string)

  datatype Assignment = Assignment(subjectKind: SubjectKind, subjectKey: string, role: Role, scopeKind: ScopeKind,
                                   scopeKey: string, enabled: bool)

  datatype Principal = Principal(subject: string, departmentKeys: seq<string>)

  datatype AccessRequest = AccessRequest(permission: Permission, scopeKind: ScopeKind, scopeKey: string)

  // ------------------------------------------------------------- one assignment

  function TrimKeys(a: Assignment): Assignment {
    a.(subjectKey := TrimSpace(a.subjectKey), scopeKey := TrimSpace(a.scopeKey))
  }

  /** `rbacAssignmentUsable`. */
  predicate Usable(a: Assignment) {
    && a.enabled && !a.subjectKind.UnknownSubject? && a.subjectKey != "" && Utf8Len(a.subjectKey) <= MAX_SUBJECT_KEY
    && !a.role.UnknownRole? && !a.scopeKind.UnknownScope? && Utf8Len(a.scopeKey) <= MAX_SCOPE_KEY
    && (a.scopeKind == Global <==> a.scopeKey == "")
  }

  /** `rbacSubjectMatches`. */
  predicate SubjectMatches(subject: string, departments: seq<string>, a: Assignment) {
    match a.subjectKind
    case User => a.subjectKey == subject
    case Department => a.subjectKey in departments
    case UnknownSubject(_) => false
  }

  /** `rbacScopeMatches`. */
  predicate ScopeMatches(request: AccessRequest, a: Assignment) {
    a.scopeKind == Global || (a.scopeKind == request.scopeKind && a.scopeKey == request.scopeKey)
  }

  function AllowedTo(role: Role): set<Permission> {
    match role
    case Operator => {DirectoryRead, OperationsRead, DiagnosisRoomRead, DiagnosisRoomParticipate, AlertSourceRead,
                      GroupingPolicyRead, ReportWorkflowRead, NotificationChannelRead, NotificationChannelTest,
                      DiagnosisToolTemplateRead}
    case Responder => {DirectoryRead, DiagnosisRoomRead, DiagnosisRoomParticipate}
    case Leader => {DirectoryRead, OperationsRead, DiagnosisRoomRead, DiagnosisRoomParticipate, DiagnosisRoomApprove}
    case Viewer => {DirectoryRead, OperationsRead, DiagnosisRoomRead, AlertSourceRead, GroupingPolicyRead,
                    ReportWorkflowRead, NotificationChannelRead, DiagnosisToolTemplateRead}
    case _ => {}
  }

  /** `rbacRoleAllows`. */
  predicate RoleAllows(role: Role, permission: Permission) {
    role == Admin || permission in AllowedTo(role)
  }

  // ----------------------------------------------------------------- decisions

  /** The request is one that `RBACAuthorize` decides rather than rejects. */
  predicate IsDecidable(principal: Principal, request: AccessRequest) {
    && TrimSpace(principal.subject) != "" && !request.permission.UnknownPermission? && !request.scopeKind.UnknownScope?
    && (request.scopeKind == Global <==> TrimSpace(request.scopeKey) == "")
  }

  /** A trimmed assignment grants a trimmed request to a subject. */
  predicate Grants(subject: string, departments: seq<string>, request: AccessRequest, a: Assignment) {
    && Usable(a) && SubjectMatches(subject, departments, a) && ScopeMatches(request, a)
    && RoleAllows(a.role, request.permission)
  }

  function TrimRequest(request: AccessRequest): AccessRequest {
    request.(scopeKey := TrimSpace(request.scopeKey))
  }

  /** Some assignment, read with its keys trimmed, grants the request. */
  predicate SomeGrants(subject: string, departments: seq<string>, request: AccessRequest,
                       assignments: seq<Assignment>) {
    exists a :: a in assignments && Grants(subject, departments, request, TrimKeys(a))
  }

  predicate IsAllowed(principal: Principal, request: AccessRequest, assignments: seq<Assignment>) {
    SomeGrants(TrimSpace(principal.subject), Kept(principal.departmentKeys), TrimRequest(request), assignments)
  }

  /** `normalizeRBACDepartmentKeys`. */
  method NormalizeDepartmentKeys(keys: seq<string>) returns (out: seq<string>)
    ensures out == Canonical(Kept(keys))
  {
    out := DistinctKeys(keys);
    out := Sort(out);
  }

  /** Its loop. */
  method DistinctKeys(keys: seq<string>) returns (out: seq<string>)
    ensures out == FirstOccurrences(Kept(keys))
  {
    out := [];
    var seen: set<string> := {};
    NoneYet(keys);
    for i := 0 to |keys|
      invariant KeptOnce(keys, i, out, seen)
    {
      var key := TrimSpace(keys[i]);
      KeepNext(keys, i, out, seen);
      if key == "" {
        continue;
      }
      if key in seen {
        continue;
      }
      seen := seen + {key};
      out := out + [key];
    }
    AllKept(keys, out, seen);
  }

  /** `RBACAuthorize`: None is its error. */
  method Authorize(principal: Principal, request: AccessRequest, assignments: seq<Assignment>) returns (r: Option<bool>)
    ensures r == if IsDecidable(principal, request) then Some(IsAllowed(principal, request, assignments)) else None
    ensures r.None? <==>
      || TrimSpace(principal.subject) == "" || request.permission.UnknownPermission? || request.scopeKind.UnknownScope?
      || (request.scopeKind == Global && TrimSpace(request.scopeKey) != "")
      || (request.scopeKind != Global && TrimSpace(request.scopeKey) == "")
    ensures r == Some(true) <==> r.Some? && SomeEntitles(principal, request, assignments)
  {
    var subject := TrimSpace(principal.subject);
    var wanted := TrimRequest(request);
    if subject == "" || request.permission.UnknownPermission? || request.scopeKind.UnknownScope? {
      return None;
    }
    if request.scopeKind == Global && wanted.scopeKey != "" {
      return None;
    }
    if request.scopeKind != Global && wanted.scopeKey == "" {
      return None;
    }
    var departments := NormalizeDepartmentKeys(principal.departmentKeys);
    var allowed := AnyGrants(subject, departments, wanted, assignments);
    SameDepartments(principal.departmentKeys, subject, wanted, assignments);
    AllowedIff(principal, request, assignments);
    return Some(allowed);
  }

  /** The loop of `RBACAuthorize`. */
  method AnyGrants(subject: string, departments: seq<string>, wanted: AccessRequest, assignments: seq<Assignment>)
    returns (allowed: bool)
    ensures allowed <==> SomeGrants(subject, departments, wanted, assignments)
  {
    for i := 0 to |assignments|
      invariant !SomeGrants(subject, departments, wanted, assignments[..i])
    {
      var a := TrimKeys(assignments[i]);
      SomeGrantsNext(subject, departments, wanted, assignments, i);
      if !Usable(a) {
        continue;
      }
      if !SubjectMatches(subject, departments, a) {
        continue;
      }
      if !ScopeMatches(wanted, a) {
        continue;
      }
      if RoleAllows(a.role, wanted.permission) {
        assert assignments[i] in assignments;
        return true;
      }
    }
    WholeSlice(assignments);
    return false;
  }

  lemma SomeGrantsNext(subject: string, departments: seq<string>, wanted: AccessRequest, assignments: seq<Assignment>,
                       i: nat)
    requires i < |assignments|
    ensures SomeGrants(subject, departments, wanted, assignments[..i + 1])
       <==> SomeGrants(subject, departments, wanted, assignments[..i])
            || Grants(subject, departments, wanted, TrimKeys(assignments[i]))
  {
    var front := assignments[..i + 1];
    assert front == assignments[..i] + [assignments[i]];
    assert front[i] in front;
  }

  /** Sorting and deduplicating the department keys does not change who matches. */
  lemma SameDepartments(keys: seq<string>, subject: string, request: AccessRequest, assignments: seq<Assignment>)
    ensures SomeGrants(subject, Canonical(Kept(keys)), request, assignments)
       <==> SomeGrants(subject, Kept(keys), request, assignments)
  {
    CanonicalIs(Kept(keys));
    forall k ensures k in Canonical(Kept(keys)) <==> k in Kept(keys) {
      assert k in Canonical(Kept(keys)) <==> k in Elements(Canonical(Kept(keys)));
    }
    forall a ensures Grants(subject, Canonical(Kept(keys)), request, a) <==> Grants(subject, Kept(keys), request, a) {
    }
  }

  // -------------------------------------------- the decision, on the raw fields

  /** The roles that hold a permission, permission by permission. */
  function Holders(permission: Permission): set<Role> {
    match permission
    case DirectoryRead => {Operator, Leader, Responder, Viewer}
    case OperationsRead => {Operator, Leader, Viewer}
    case DiagnosisRoomRead => {Operator, Leader, Responder, Viewer}
    case DiagnosisRoomParticipate => {Operator, Leader, Responder}
    case DiagnosisRoomApprove => {Leader}
    case AlertSourceRead => {Operator, Viewer}
    case GroupingPolicyRead => {Operator, Viewer}
    case ReportWorkflowRead => {Operator, Viewer}
    case NotificationChannelRead => {Operator, Viewer}
    case NotificationChannelTest => {Operator}
    case DiagnosisToolTemplateRead => {Operator, Viewer}
    case _ => {}
  }

  /** The assignment names the principal, as a user or by one of its departments. */
  predicate Names(a: Assignment, principal: Principal) {
    var key := TrimSpace(a.subjectKey);
    && key != "" && Utf8Len(key) <= 256
    && ((a.subjectKind == User && key == TrimSpace(principal.subject))
        || (a.subjectKind == Department && exists k :: k in principal.departmentKeys && TrimSpace(k) == key))
  }

  /** The assignment is global, or for the very scope of the request. */
  predicate Reaches(a: Assignment, request: AccessRequest) {
    var key := TrimSpace(a.scopeKey);
    || (a.scopeKind == Global && key == "")
    || (a.scopeKind == request.scopeKind && a.scopeKind != Global
        && key != "" && Utf8Len(key) <= 256 && key == TrimSpace(request.scopeKey))
  }

  predicate Entitles(a: Assignment, principal: Principal, request: AccessRequest) {
    && a.enabled && Names(a, principal) && Reaches(a, request)
    && (a.role == Admin || a.role in Holders(request.permission))
  }

  predicate SomeEntitles(principal: Principal, request: AccessRequest, assignments: seq<Assignment>) {
    exists a :: a in assignments && Entitles(a, principal, request)
  }

  /** Access is granted exactly when some enabled assignment names the principal,
      reaches the scope, and has a role that holds the permission. */
  lemma AllowedIff(principal: Principal, request: AccessRequest, assignments: seq<Assignment>)
    requires IsDecidable(principal, request)
    ensures IsAllowed(principal, request, assignments) <==> SomeEntitles(principal, request, assignments)
  {
    var subject, departments := TrimSpace(principal.subject), Kept(principal.departmentKeys);
    forall a
      ensures Grants(subject, departments, TrimRequest(request), TrimKeys(a)) <==> Entitles(a, principal, request)
    {
      GrantsIff(a, principal, request);
    }
  }

  lemma GrantsIff(a: Assignment, principal: Principal, request: AccessRequest)
    requires IsDecidable(principal, request)
    ensures Grants(TrimSpace(principal.subject), Kept(principal.departmentKeys), TrimRequest(request), TrimKeys(a))
       <==> Entitles(a, principal, request)
  {
    var b, subject, departments := TrimKeys(a), TrimSpace(principal.subject), Kept(principal.departmentKeys);
    if Grants(subject, departments, TrimRequest(request), b) {
      NamesIff(a, principal);
      ReachesIff(a, request);
      HoldersAgree(a.role, request.permission);
    }
    if Entitles(a, principal, request) {
      EntitledGrants(a, principal, request);
    }
  }

  lemma EntitledGrants(a: Assignment, principal: Principal, request: AccessRequest)
    requires IsDecidable(principal, request) && Entitles(a, principal, request)
    ensures Grants(TrimSpace(principal.subject), Kept(principal.departmentKeys), TrimRequest(request), TrimKeys(a))
  {
    NamesIff(a, principal);
    ReachesIff(a, request);
    HoldersAgree(a.role, request.permission);
    NamedIsUsable(a, principal, request);
  }

  lemma NamedIsUsable(a: Assignment, principal: Principal, request: AccessRequest)
    requires a.enabled && Names(a, principal) && Reaches(a, request)
    requires !a.role.UnknownRole? && !request.scopeKind.UnknownScope?
    ensures Usable(TrimKeys(a))
  {
  }

  lemma NamesIff(a: Assignment, principal: Principal)
    ensures var b := TrimKeys(a);
      Names(a, principal)
      <==> && b.subjectKey != "" && Utf8Len(b.subjectKey) <= MAX_SUBJECT_KEY
           && SubjectMatches(TrimSpace(principal.subject), Kept(principal.departmentKeys), b)
  {
    KeptElements(principal.departmentKeys);
  }

  lemma ReachesIff(a: Assignment, request: AccessRequest)
    requires request.scopeKind == Global <==> TrimSpace(request.scopeKey) == ""
    ensures var b := TrimKeys(a);
      Reaches(a, request)
      <==> && Utf8Len(b.scopeKey) <= MAX_SCOPE_KEY && (b.scopeKind == Global <==> b.scopeKey == "")
           && ScopeMatches(TrimRequest(request), b)
  {
  }

  lemma HoldersAgree(role: Role, permission: Permission)
    requires !permission.UnknownPermission?
    ensures RoleAllows(role, permission) <==> role == Admin || role in Holders(permission)
    ensures RoleAllows(role, permission) ==> !role.UnknownRole?
  {
  }

  function Enabled(assignments: seq<Assignment>): seq<Assignment> {
    if assignments == [] then []
    else (if assignments[0].enabled then [assignments[0]] else []) + Enabled(assignments[1..])
  }

  lemma {:induction false} EnabledAre(assignments: seq<Assignment>)
    ensures forall a :: a in Enabled(assignments) <==> a in assignments && a.enabled
  {
    if assignments != [] {
      EnabledAre(assignments[1..]);
      assert assignments == [assignments[0]] + assignments[1..];
    }
  }

  /** Disabled assignments do not matter. */
  lemma DisabledAreIgnored(principal: Principal, request: AccessRequest, assignments: seq<Assignment>)
    requires IsDecidable(principal, request)
    ensures IsAllowed(principal, request, Enabled(assignments)) <==> IsAllowed(principal, request, assignments)
  {
    EnabledAre(assignments);
    AllowedIff(principal, request, assignments);
    AllowedIff(principal, request, Enabled(assignments));
  }

  /** An assignment for another scope adds nothing. */
  lemma OtherScopeAddsNothing(principal: Principal, request: AccessRequest, assignments: seq<Assignment>, a: Assignment)
    requires IsDecidable(principal, request) && a.scopeKind != Global
    requires a.scopeKind != request.scopeKind || TrimSpace(a.scopeKey) != TrimSpace(request.scopeKey)
    ensures IsAllowed(principal, request, assignments + [a]) <==> IsAllowed(principal, request, assignments)
  {
    AllowedIff(principal, request, assignments);
    AllowedIff(principal, request, assignments + [a]);
    NotEntitled(a, principal, request);
    OneMore(principal, request, assignments, a);
  }

  lemma OneMore(principal: Principal, request: AccessRequest, assignments: seq<Assignment>, a: Assignment)
    ensures SomeEntitles(principal, request, assignments + [a])
       <==> SomeEntitles(principal, request, assignments) || Entitles(a, principal, request)
  {
    assert forall b :: b in assignments + [a] <==> b in assignments || b == a;
  }

  lemma NotEntitled(a: Assignment, principal: Principal, request: AccessRequest)
    requires a.scopeKind != Global
    requires a.scopeKind != request.scopeKind || TrimSpace(a.scopeKey) != TrimSpace(request.scopeKey)
    ensures !Entitles(a, principal, request)
  {
  }

  // -------------------------------------------------------------- main results

  /** Every assignment of `few`, up to padding of its keys, is one of `many`. */
  predicate Covers(many: seq<Assignment>, few: seq<Assignment>) {
    forall a | a in few :: exists b :: b in many && TrimKeys(b) == TrimKeys(a)
  }

  /** More assignments and more departments never take access away. In
      particular the decision depends only on the sets of trimmed assignments
      and trimmed department keys: not on order, repetition or padding. */
  lemma MoreAllowsMore(p: Principal, q: Principal, request: AccessRequest, few: seq<Assignment>, many: seq<Assignment>)
    requires TrimSpace(p.subject) == TrimSpace(q.subject)
    requires forall k | k in Kept(p.departmentKeys) :: k in Kept(q.departmentKeys)
    requires Covers(many, few)
    ensures IsAllowed(p, request, few) ==> IsAllowed(q, request, many)
  {
    if IsAllowed(p, request, few) {
      var a :| a in few
        && Grants(TrimSpace(p.subject), Kept(p.departmentKeys), TrimRequest(request), TrimKeys(a));
      var b :| b in many && TrimKeys(b) == TrimKeys(a);
      assert Grants(TrimSpace(q.subject), Kept(q.departmentKeys), TrimRequest(request), TrimKeys(b));
    }
  }

  lemma DecisionBySets(p: Principal, q: Principal, request: AccessRequest,
                       ones: seq<Assignment>, others: seq<Assignment>)
    requires TrimSpace(p.subject) == TrimSpace(q.subject)
    requires Elements(Kept(p.departmentKeys)) == Elements(Kept(q.departmentKeys))
    requires Covers(ones, others) && Covers(others, ones)
    ensures IsAllowed(p, request, ones) <==> IsAllowed(q, request, others)
  {
    assert forall k :: k in Kept(p.departmentKeys) <==> k in Elements(Kept(q.departmentKeys));
    MoreAllowsMore(p, q, request, ones, others);
    MoreAllowsMore(q, p, request, others, ones);
  }

  /** The order of roles: responder and viewer below operator, responder below
      leader, and all of these below admin. */
  predicate AtMost(low: Role, high: Role) {
    || low == high || high == Admin
    || (low == Responder && (high == Operator || high == Leader))
    || (low == Viewer && high == Operator)
  }

  /** For known roles this order is exactly inclusion of permissions. */
  lemma AtMostIffFewerPermissions(low: Role, high: Role)
    requires !low.UnknownRole? && !high.UnknownRole?
    ensures AtMost(low, high)
       <==> forall p: Permission | !p.UnknownPermission? :: RoleAllows(low, p) ==> RoleAllows(high, p)
  {
    if !AtMost(low, high) {
      var p :=
        match low
        case Admin => RbacManage
        case Operator => NotificationChannelTest
        case Leader => DiagnosisRoomApprove
        case Responder => DiagnosisRoomParticipate
        case _ => AlertSourceRead;
      assert RoleAllows(low, p) && !RoleAllows(high, p);
    }
  }

  predicate Raised(low: Assignment, high: Assignment) {
    high == low.(role := high.role) && !high.role.UnknownRole? && AtMost(low.role, high.role)
  }

  /** Raising roles never takes access away. */
  lemma RaisingRolesAllowsMore(principal: Principal, request: AccessRequest,
                               lows: seq<Assignment>, highs: seq<Assignment>)
    requires |lows| == |highs| && forall i | 0 <= i < |lows| :: Raised(lows[i], highs[i])
    requires !request.permission.UnknownPermission?
    ensures IsAllowed(principal, request, lows) ==> IsAllowed(principal, request, highs)
  {
    var subject, departments := TrimSpace(principal.subject), Kept(principal.departmentKeys);
    var wanted := TrimRequest(request);
    if IsAllowed(principal, request, lows) {
      var a :| a in lows && Grants(subject, departments, wanted, TrimKeys(a));
      var i :| 0 <= i < |lows| && lows[i] == a;
      AtMostIffFewerPermissions(a.role, highs[i].role);
      assert highs[i] in highs && Grants(subject, departments, wanted, TrimKeys(highs[i]));
    }
  }
}
