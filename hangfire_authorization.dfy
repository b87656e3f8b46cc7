/**
 * The permission gate in front of the Hangfire dashboard (HangfireOperationAuthorizationMiddleware):
 * a POST or DELETE under `/hangfire` must come from an authenticated user, who must hold each
 * permission the request's path and query call for; the checks run in a fixed order and the first
 * missing permission answers 403. Every other request goes on to the next handler. The verdict is
 * a value here; writing the status and body to the response is not modelled.
 */
module HangfireAuthorization {
  import opened Prelude

  /** The four dashboard permissions the gate checks. */
  datatype Permission = Trigger | Delete | Create | Edit {
    /** The order in which the gate checks them. */
    function Rank(): nat {
      match this
      case Trigger => 0
      case Delete => 1
      case Create => 2
      case Edit => 3
    }
  }

  /**
   * What the gate reads of a request: the path and query text (empty when absent), the method, and
   * `User.Identity?.IsAuthenticated` (None when there is no identity).
   */
  datatype Request = Request(path: string, httpMethod: string, query: string, authenticated: Option<bool>)

  /** Go on to the next handler, 401, or 403 naming the first missing permission. */
  datatype Verdict = Next | Unauthorized | Forbidden(missing: Permission)

  /** The status code the gate writes, None when it passes the request on. */
  function StatusCode(v: Verdict): Option<int> {
    match v
    case Next => None
    case Unauthorized => Some(401)
    case Forbidden(_) => Some(403)
  }

  /** `PathString.StartsWithSegments(segment)`: ignoring case, the segment followed by the end or a '/'. */
  predicate StartsWithSegments(path: string, segment: string) {
    var p := Lower(path);
    var s := Lower(segment);
    s <= p && (|p| == |s| || p[|s|] == '/')
  }

  /** The condition of each permission check, on the lower-cased path and query. */
  predicate NeedsTrigger(path: string, httpMethod: string, query: string) {
    || Contains(path, "/recurring/trigger")
    || (Contains(path, "/recurring") && Contains(query, "trigger"))
    || (Contains(path, "/jobs/") && httpMethod == "POST" && Contains(query, "trigger"))
  }

  predicate NeedsDelete(path: string, httpMethod: string, query: string) {
    || Contains(path, "/recurring/delete")
    || (Contains(path, "/recurring") && httpMethod == "DELETE")
    || (Contains(path, "/recurring") && Contains(query, "delete"))
  }

  predicate NeedsCreate(path: string, httpMethod: string, query: string) {
    || Contains(path, "/recurring/add")
    || (Contains(path, "/recurring") && Contains(query, "add"))
    || (Contains(path, "/recurring") && httpMethod == "POST" && !Contains(query, "trigger") && !Contains(query, "delete"))
  }

  predicate NeedsEdit(path: string, httpMethod: string, query: string) {
    || Contains(path, "/recurring/update")
    || (Contains(path, "/recurring") && Contains(query, "update"))
    || (Contains(path, "/recurring") && httpMethod == "POST" && Contains(query, "edit"))
  }

  /** The gate looks at the request at all: under `/hangfire`, and a POST or DELETE. */
  predicate IsGuarded(req: Request) {
    StartsWithSegments(Lower(req.path), "/hangfire") && (req.httpMethod == "POST" || req.httpMethod == "DELETE")
  }

  /** The outcome of the four permission checks for one request. */
  datatype Needs = Needs(trigger: bool, delete: bool, create: bool, edit: bool) {
    /** The check of permission `p` fired. */
    predicate Of(p: Permission) {
      match p
      case Trigger => trigger
      case Delete => delete
      case Create => create
      case Edit => edit
    }
  }

  /** The four checks on the lower-cased path and query. */
  function NeedsOf(req: Request): Needs {
    var path := Lower(req.path);
    var query := Lower(req.query);
    Needs(NeedsTrigger(path, req.httpMethod, query), NeedsDelete(path, req.httpMethod, query),
          NeedsCreate(path, req.httpMethod, query), NeedsEdit(path, req.httpMethod, query))
  }

  /**
   * InvokeAsync. Outside the dashboard and for other methods the request passes; then 401 for an
   * unauthenticated user; then the four checks in their order, the first one that fires for a
   * permission the user lacks answering 403. The segment test is itself case-blind, so it is asked
   * of the lower-cased path, on which every other check runs as well.
   */
  function Decide(req: Request, granted: set<Permission>): Verdict {
    Gate(IsGuarded(req), req.authenticated, NeedsOf(req), granted)
  }

  /** The if-chain of InvokeAsync over the outcomes of its tests. */
  function Gate(guarded: bool, authenticated: Option<bool>, needs: Needs, granted: set<Permission>): Verdict {
    if !guarded then Next
    else if authenticated != Some(true) then Unauthorized
    else if needs.trigger && Trigger !in granted then Forbidden(Trigger)
    else if needs.delete && Delete !in granted then Forbidden(Delete)
    else if needs.create && Create !in granted then Forbidden(Create)
    else if needs.edit && Edit !in granted then Forbidden(Edit)
    else Next
  }

  /** The permissions a request calls for, all at once. */
  function Required(req: Request): (ps: set<Permission>)
    ensures forall p :: p in ps ==> IsGuarded(req)
  {
    if !IsGuarded(req) then {} else RequiredOf(NeedsOf(req))
  }

  /** The permissions whose checks fired. */
  function RequiredOf(needs: Needs): (ps: set<Permission>)
    ensures forall p :: p in ps <==> needs.Of(p)
  {
    (if needs.trigger then {Trigger} else {}) +
    (if needs.delete then {Delete} else {}) +
    (if needs.create then {Create} else {}) +
    (if needs.edit then {Edit} else {})
  }

  /** Asking the segment test of the lower-cased path gives the same answer as asking it of the path. */
  lemma SegmentsOfLowered(path: string, segment: string)
    ensures StartsWithSegments(Lower(path), segment) == StartsWithSegments(path, segment)
  {
    LowerIdempotent(path);
  }

  // ---------------------------------------------------------------- the if-chain

  /** The chain passes a guarded, authenticated request exactly when every fired check is granted. */
  lemma GateNextIff(authenticated: Option<bool>, needs: Needs, granted: set<Permission>)
    ensures Gate(true, authenticated, needs, granted) == Next <==>
              authenticated == Some(true) && RequiredOf(needs) <= granted
  {
    if authenticated == Some(true) && RequiredOf(needs) <= granted {
      assert needs.Of(Trigger) ==> Trigger in RequiredOf(needs);
      assert needs.Of(Delete) ==> Delete in RequiredOf(needs);
      assert needs.Of(Create) ==> Create in RequiredOf(needs);
      assert needs.Of(Edit) ==> Edit in RequiredOf(needs);
    }
  }

  /** The chain's 403 names the first fired check, in check order, whose permission is not granted. */
  lemma GateForbiddenIff(authenticated: Option<bool>, needs: Needs, granted: set<Permission>, p: Permission)
    ensures Gate(true, authenticated, needs, granted) == Forbidden(p) <==>
              && authenticated == Some(true) && needs.Of(p) && p !in granted
              && (forall q: Permission :: q.Rank() < p.Rank() && needs.Of(q) ==> q in granted)
  {
    if authenticated == Some(true) && needs.Of(p) && p !in granted &&
       (forall q: Permission :: q.Rank() < p.Rank() && needs.Of(q) ==> q in granted) {
      assert Trigger.Rank() < p.Rank() && needs.trigger ==> Trigger in granted;
      assert Delete.Rank() < p.Rank() && needs.delete ==> Delete in granted;
      assert Create.Rank() < p.Rank() && needs.create ==> Create in granted;
    }
  }

  // ---------------------------------------------------------------- properties

  /** Outside the dashboard, and for every method but POST and DELETE, the request passes unchanged. */
  lemma UnguardedPasses(req: Request, granted: set<Permission>)
    requires !IsGuarded(req)
    ensures Decide(req, granted) == Next
    ensures StatusCode(Decide(req, granted)).None?
  {
  }

  /** A guarded request answers 401 exactly when the user is not authenticated, whatever is granted. */
  lemma UnauthenticatedIs401(req: Request, granted: set<Permission>)
    requires IsGuarded(req)
    ensures Decide(req, granted) == Unauthorized <==> req.authenticated != Some(true)
    ensures Decide(req, granted) == Unauthorized ==> StatusCode(Decide(req, granted)) == Some(401)
  {
  }

  /** The request reaches the next handler exactly when it is unguarded or every permission it needs is granted. */
  lemma NextIffAllGranted(req: Request, granted: set<Permission>)
    ensures Decide(req, granted) == Next <==>
              !IsGuarded(req) || (req.authenticated == Some(true) && Required(req) <= granted)
  {
    if IsGuarded(req) {
      GateNextIff(req.authenticated, NeedsOf(req), granted);
    }
  }

  /** The members of Required, one check each. */
  lemma RequiredMembers(req: Request)
    requires IsGuarded(req)
    ensures var path := Lower(req.path);
      var query := Lower(req.query);
      && (Trigger in Required(req) <==> NeedsTrigger(path, req.httpMethod, query))
      && (Delete in Required(req) <==> NeedsDelete(path, req.httpMethod, query))
      && (Create in Required(req) <==> NeedsCreate(path, req.httpMethod, query))
      && (Edit in Required(req) <==> NeedsEdit(path, req.httpMethod, query))
  {
    var needs := NeedsOf(req);
    assert Required(req) == RequiredOf(needs);
    assert Trigger in RequiredOf(needs) <==> needs.trigger;
    assert Delete in RequiredOf(needs) <==> needs.delete;
    assert Create in RequiredOf(needs) <==> needs.create;
    assert Edit in RequiredOf(needs) <==> needs.edit;
  }

  /** 403 names the first permission, in check order, that the request needs and the user lacks. */
  lemma ForbiddenIsFirstMissing(req: Request, granted: set<Permission>, p: Permission)
    ensures Decide(req, granted) == Forbidden(p) <==>
              && IsGuarded(req) && req.authenticated == Some(true)
              && p in Required(req) && p !in granted
              && (forall q :: q in Required(req) && q.Rank() < p.Rank() ==> q in granted)
  {
    if IsGuarded(req) {
      var needs := NeedsOf(req);
      GateForbiddenIff(req.authenticated, needs, granted, p);
      assert Required(req) == RequiredOf(needs);
    }
  }

  /** Granting more never turns a pass into a denial. */
  lemma MorePermissionsNeverDeny(req: Request, granted: set<Permission>, more: set<Permission>)
    requires granted <= more
    requires Decide(req, granted) == Next
    ensures Decide(req, more) == Next
  {
    NextIffAllGranted(req, granted);
    NextIffAllGranted(req, more);
  }

  /** The gate ignores the case of the path and the query. */
  lemma CaseInsensitive(req: Request, granted: set<Permission>)
    ensures Decide(req.(path := Lower(req.path), query := Lower(req.query)), granted) == Decide(req, granted)
  {
    LowerIdempotent(req.path);
    LowerIdempotent(req.query);
    var lowered := req.(path := Lower(req.path), query := Lower(req.query));
    assert IsGuarded(lowered) == IsGuarded(req);
    assert NeedsOf(lowered) == NeedsOf(req);
  }

  /**
   * An edit posted to a recurring-job path needs Create as well as Edit, because the Create check
   * catches every POST there whose query mentions neither trigger nor delete; so Edit alone is refused.
   */
  lemma EditAlsoNeedsCreate(req: Request)
    requires IsGuarded(req) && req.authenticated == Some(true) && req.httpMethod == "POST"
    requires Contains(Lower(req.path), "/recurring") && Contains(Lower(req.query), "edit")
    requires !Contains(Lower(req.path), "/recurring/trigger") && !Contains(Lower(req.path), "/recurring/delete")
    requires !Contains(Lower(req.query), "trigger") && !Contains(Lower(req.query), "delete")
    ensures {Create, Edit} <= Required(req)
    ensures Decide(req, {Edit}) == Forbidden(Create)
    ensures Decide(req, {Create, Edit}) == Next
  {
    EditChecks(Lower(req.path), req.httpMethod, Lower(req.query));
    EditGate(NeedsOf(req));
  }

  /** The chain for a request whose Create and Edit checks fire and no other. */
  lemma EditGate(needs: Needs)
    requires needs == Needs(false, false, true, true)
    ensures RequiredOf(needs) == {Create, Edit}
    ensures Gate(true, Some(true), needs, {Edit}) == Forbidden(Create)
    ensures Gate(true, Some(true), needs, {Create, Edit}) == Next
  {
    assert RequiredOf(needs) == {} + {} + {Create} + {Edit};
  }

  /** Which checks fire for such an edit. */
  lemma EditChecks(path: string, httpMethod: string, query: string)
    requires httpMethod == "POST"
    requires Contains(path, "/recurring") && Contains(query, "edit")
    requires !Contains(path, "/recurring/trigger") && !Contains(path, "/recurring/delete")
    requires !Contains(query, "trigger") && !Contains(query, "delete")
    ensures !NeedsTrigger(path, httpMethod, query) && !NeedsDelete(path, httpMethod, query)
    ensures NeedsCreate(path, httpMethod, query) && NeedsEdit(path, httpMethod, query)
  {
  }
}
