/**
 * SafeAspNetCoreUnitOfWorkTransactionBehaviourProvider: ABP asks it whether the unit of work of
 * the current request should be transactional. It never says yes; it says "no" (`false`) for the
 * Blazor circuit, SignalR and framework-file paths, and "no opinion" (`null`, here None) in every
 * other case, including when the HTTP context, its request or the request path is missing, or when
 * reading them throws.
 */
module UnitOfWorkTransaction {
  import opened Prelude

  /**
   * What the provider can see of the current HTTP context. `Disposed` stands for a context whose
   * request cannot be read (the property access throws, as it does for a disposed context in a
   * Blazor Server circuit); `path` is None when it is absent or has no value.
   */
  datatype HttpContextView = NoContext | Disposed | Live(request: Option<RequestView>)
  datatype RequestView = RequestView(path: Option<string>)

  /** A request path is present and has a value; `PathString.HasValue` is false for the empty path. */
  predicate HasPath(ctx: HttpContextView, p: string) {
    ctx.Live? && ctx.request.Some? && ctx.request.value.path == Some(p) && p != ""
  }

  /** The path matches one of the non-transactional prefixes or infixes, checked on the lower-cased path. */
  predicate NonTransactionalPath(lowered: string) {
    Contains(lowered, "/_blazor") || Contains(lowered, "/signalr") || StartsWith(lowered, "/_framework")
  }

  /** The IsTransactional getter. */
  function IsTransactional(ctx: HttpContextView): (r: Option<bool>)
    ensures r != Some(true)
    ensures r == Some(false) ==>
              ctx.Live? && ctx.request.Some? && ctx.request.value.path.Some? &&
              HasPath(ctx, ctx.request.value.path.value)
  {
    match ctx
    case NoContext => None
    case Disposed => None
    case Live(request) =>
      if request.None? then None
      else if request.value.path.None? || request.value.path.value == "" then None
      else if NonTransactionalPath(Lower(request.value.path.value)) then Some(false)
      else None
  }

  // ---------------------------------------------------------------- properties

  /**
   * The provider answers `false` exactly when the path is present and, ignoring case, contains
   * `/_blazor` or `/signalr` somewhere or begins with `/_framework`; otherwise it has no opinion.
   */
  lemma NonTransactionalIff(ctx: HttpContextView)
    ensures IsTransactional(ctx) == Some(false) <==>
              exists p :: HasPath(ctx, p) &&
                (Occurs(Lower(p), "/_blazor") || Occurs(Lower(p), "/signalr") || StartsWith(Lower(p), "/_framework"))
    ensures IsTransactional(ctx) != Some(false) ==> IsTransactional(ctx) == None
  {
    if ctx.Live? && ctx.request.Some? && ctx.request.value.path.Some? {
      var p := ctx.request.value.path.value;
      ContainsIffOccurs(Lower(p), "/_blazor");
      ContainsIffOccurs(Lower(p), "/signalr");
      if IsTransactional(ctx) == Some(false) {
        assert HasPath(ctx, p);
      }
    }
  }

  /** The answer ignores the case of the path. */
  lemma CaseInsensitive(p: string)
    ensures IsTransactional(Live(Some(RequestView(Some(Lower(p)))))) ==
            IsTransactional(Live(Some(RequestView(Some(p)))))
  {
    LowerIdempotent(p);
  }

  /**
   * Anything below a non-transactional path is non-transactional too: appending to the path keeps
   * the answer `false`.
   */
  lemma ExtendingKeepsNonTransactional(p: string, suffix: string)
    requires IsTransactional(Live(Some(RequestView(Some(p))))) == Some(false)
    ensures IsTransactional(Live(Some(RequestView(Some(p + suffix))))) == Some(false)
  {
    LowerAppend(p, suffix);
    ExtendingKeepsMatch(Lower(p), Lower(suffix));
  }

  /** A path matched by one of the infix or prefix tests stays matched when text is appended. */
  lemma ExtendingKeepsMatch(lowered: string, suffix: string)
    requires NonTransactionalPath(lowered)
    ensures NonTransactionalPath(lowered + suffix)
  {
    assert [] + lowered + suffix == lowered + suffix;
    if Contains(lowered, "/_blazor") {
      ContainsInfix([], lowered, suffix, "/_blazor");
    } else if Contains(lowered, "/signalr") {
      ContainsInfix([], lowered, suffix, "/signalr");
    } else {
      assert "/_framework" <= lowered + suffix;
    }
  }
}
