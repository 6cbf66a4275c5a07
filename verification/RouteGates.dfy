/** Sequences in the order of a rank, and the elements of one rank that they hold. */
module Layers {
  import Text

  function Layer<T>(s: seq<T>, rank: T -> nat, n: nat): seq<T> {
    if s == [] then [] else Own(s[0], rank, n) + Layer(s[1..], rank, n)
  }

  ghost predicate Ordered<T>(s: seq<T>, rank: T -> nat) {
    forall i, j :: 0 <= i < j < |s| ==> rank(s[i]) <= rank(s[j])
  }

  /** The part of a layer that one element makes. */
  function Own<T>(x: T, rank: T -> nat, n: nat): seq<T> {
    if rank(x) == n then [x] else []
  }

  lemma LayerCons<T>(x: T, s: seq<T>, rank: T -> nat, n: nat)
    ensures Layer([x] + s, rank, n) == Own(x, rank, n) + Layer(s, rank, n)
  {
    assert ([x] + s)[1..] == s;
  }

  lemma {:induction false} LayerAppend<T>(s: seq<T>, t: seq<T>, rank: T -> nat, n: nat)
    ensures Layer(s + t, rank, n) == Layer(s, rank, n) + Layer(t, rank, n)
  {
    if s == [] {
      assert s + t == t;
    } else {
      hide Layer, Own;
      var x, r := s[0], s[1..];
      LayerAppend(r, t, rank, n);
      LayerCons(x, r, rank, n);
      LayerCons(x, r + t, rank, n);
      assert s == [x] + r;
      Text.Regroup([x], r, t);
      Text.Regroup(Own(x, rank, n), Layer(r, rank, n), Layer(t, rank, n));
    }
  }

  lemma {:induction false} LayerOfOwn<T>(s: seq<T>, rank: T -> nat, own: nat, n: nat)
    requires forall x <- s :: rank(x) == own
    ensures Layer(s, rank, n) == if n == own then s else []
  {
    if s != [] {
      LayerOfOwn(s[1..], rank, own, n);
    }
  }

  lemma {:induction false} LayerAbsent<T>(s: seq<T>, rank: T -> nat, n: nat)
    requires forall x <- s :: rank(x) != n
    ensures Layer(s, rank, n) == []
  {
    if s != [] {
      LayerAbsent(s[1..], rank, n);
    }
  }

  lemma {:induction false} LayerMember<T>(s: seq<T>, rank: T -> nat, x: T)
    ensures x in s <==> x in Layer(s, rank, rank(x))
  {
    if s != [] {
      LayerMember(s[1..], rank, x);
      assert s == [s[0]] + s[1..];
    }
  }

  lemma {:induction false} LayerCount<T>(s: seq<T>, rank: T -> nat, x: T)
    ensures multiset(s)[x] == multiset(Layer(s, rank, rank(x)))[x]
  {
    if s != [] {
      LayerCount(s[1..], rank, x);
      assert s == [s[0]] + s[1..];
    }
  }

  lemma LayerPrefix<T>(s: seq<T>, t: seq<T>, rank: T -> nat, n: nat)
    requires s <= t
    ensures Layer(s, rank, n) <= Layer(t, rank, n)
  {
    LayerAppend(s, t[|s|..], rank, n);
    assert t == s + t[|s|..];
  }

  lemma HeadRankAtMost<T>(s: seq<T>, t: seq<T>, rank: T -> nat)
    requires s != [] && t != [] && Ordered(s, rank)
    requires Layer(s, rank, rank(t[0])) == Layer(t, rank, rank(t[0]))
    ensures rank(s[0]) <= rank(t[0])
  {
    LayerMember(t, rank, t[0]);
    LayerMember(s, rank, t[0]);
  }

  /** Order and layers leave nothing open. */
  lemma {:induction false} LayersDetermine<T>(s: seq<T>, t: seq<T>, rank: T -> nat)
    requires Ordered(s, rank) && Ordered(t, rank)
    requires forall n :: Layer(s, rank, n) == Layer(t, rank, n)
    ensures s == t
  {
    if s == [] && t != [] {
      LayerMember(t, rank, t[0]);
      LayerMember(s, rank, t[0]);
    } else if s != [] && t == [] {
      LayerMember(s, rank, s[0]);
      LayerMember(t, rank, s[0]);
    } else if s != [] {
      HeadRankAtMost(s, t, rank);
      HeadRankAtMost(t, s, rank);
      assert Layer(s, rank, rank(s[0]))[0] == s[0] && Layer(t, rank, rank(t[0]))[0] == t[0];
      forall n: nat
        ensures Layer(s[1..], rank, n) == Layer(t[1..], rank, n)
      {
        assert Layer(s, rank, n) == Layer(t, rank, n);
        var skip := if rank(s[0]) == n then 1 else 0;
        assert Layer(s[1..], rank, n) == Layer(s, rank, n)[skip..];
        assert Layer(t[1..], rank, n) == Layer(t, rank, n)[skip..];
      }
      LayersDetermine(s[1..], t[1..], rank);
      assert s == [s[0]] + s[1..] && t == [t[0]] + t[1..];
    }
  }
}

/** Route options compiled to a middleware chain, and what the chain then does with a request. */
module RouteGates {
  import opened Wrappers
  import opened Layers
  import Actors
  import RoutePaths
  import Text

  /** A rate limit or a concurrency limit, as declared. */
  datatype Limit = Limit(cap: int, window: int, key: string, scope: string)

  datatype Gate =
    | RootHostOnly
    | Subdomain(names: seq<string>)
    | GuiOrigin
    | Auth
    | VerifiedAccount
    | NonAccessToken
    | UserActor(allowFullAccess: bool)
    | NoUserSession
    | AdminOnly(extras: seq<string>, appGated: bool)
    | StepUp(exempt: seq<string>)
    | AllowedApps(ids: seq<string>)
    | VerifiedEmail(strict: bool)
    | VerifiedPhone
    | VerifiedCard
    | Plan(requirement: Subscription)
    | RateLimit(limit: Limit)
    | Credits
    | Concurrency(slots: Limit)
    | Captcha(enabled: bool)
    | AntiCsrf
    | BodyJson
    | BodyRaw
    | BodyText
    | BodyUrlencoded
    | Custom(id: nat)
    | Lifecycle

  /** `requireSubscription`: left out, a flag, plan ids, or anything else. */
  datatype Subscription = Undeclared | Flag(on: bool) | Plans(ids: seq<string>) | Junk

  /** `subdomain`: left out, `'*'`, or the names it lists. */
  datatype Hosts = RootHost | AnyHost | Listed(names: seq<string>)

  /** Options that may be `true` or a list hold `Some([])` for `true`; an option left out or `false` is `None`. */
  datatype Options = Options(
    hosts: Hosts,
    guiOriginOnly: bool,
    requireAuth: bool,
    allowUnconfirmed: bool,
    allowAccessToken: bool,
    requireUserActor: bool,
    allowFullAccessToken: bool,
    noUserSession: bool,
    adminOnly: Option<seq<string>>,
    allowedAppIds: Option<seq<string>>,
    requireVerified: bool,
    requirePhoneVerified: bool,
    requireCardVerified: bool,
    requireSubscription: Subscription,
    rateLimits: seq<Limit>,
    requireCredits: bool,
    concurrent: Option<Limit>,
    captcha: bool,
    antiCsrf: bool,
    bodyJson: bool,
    bodyRaw: bool,
    bodyText: bool,
    bodyUrlencoded: bool,
    middleware: seq<nat>
  )

  datatype Route = Route(isUse: bool, path: Option<RoutePaths.Path>, supported: bool, options: Options)

  /** What the server's config and clients contribute. */
  datatype Server = Server(strictEmail: bool, captchaEnabled: bool, eventClient: bool)

  datatype BootError = BadSubscription | NoPath | UnsupportedMethod

  /** `wrapped` lists the hosts a `use` handler checks for itself. */
  datatype Mounted = Mounted(path: Option<RoutePaths.Path>, chain: seq<Gate>, wrapped: Option<seq<string>>) | Failed(error: BootError)

  // ----- what the options ask for -----

  predicate Malformed(s: Subscription) {
    s.Junk? || (s.Plans? && (s.ids == [] || "" in s.ids))
  }

  lemma MalformedMeans(s: Subscription)
    ensures Malformed(s) <==> s.Junk? || s == Plans([]) || (s.Plans? && "" in s.ids)
  {
  }

  predicate RequiresPlan(s: Subscription) {
    !s.Undeclared? && s != Flag(false)
  }

  predicate NeedsAuth(o: Options) {
    || o.requireAuth || o.requireUserActor || o.adminOnly.Some? || o.allowedAppIds.Some? || o.requireVerified
    || o.noUserSession || o.requirePhoneVerified || o.requireCardVerified || RequiresPlan(o.requireSubscription)
  }

  const RANKS := 25

  function Rank(g: Gate): (n: nat)
    ensures n < RANKS
  {
    match g
    case RootHostOnly => 0
    case Subdomain(_) => 0
    case GuiOrigin => 1
    case Auth => 2
    case VerifiedAccount => 3
    case NonAccessToken => 4
    case UserActor(_) => 5
    case NoUserSession => 6
    case AdminOnly(_, _) => 7
    case StepUp(_) => 8
    case AllowedApps(_) => 9
    case VerifiedEmail(_) => 10
    case VerifiedPhone => 11
    case VerifiedCard => 12
    case Plan(_) => 13
    case RateLimit(_) => 14
    case Credits => 15
    case Concurrency(_) => 16
    case Captcha(_) => 17
    case AntiCsrf => 18
    case BodyJson => 19
    case BodyRaw => 20
    case BodyText => 21
    case BodyUrlencoded => 22
    case Custom(_) => 23
    case Lifecycle => 24
  }

  /** The gates of one rank: at most one, but for the rate limits and the caller's own middleware. */
  function Asked(route: Route, server: Server, rank: nat): seq<Gate> {
    var o := route.options;
    if rank < 7 then Listing(IdentityGate(route, rank))
    else if rank < 14 then Listing(StandingGate(o, server, rank))
    else if rank == 14 then seq(|o.rateLimits|, i requires 0 <= i < |o.rateLimits| => RateLimit(o.rateLimits[i]))
    else if rank == 23 then seq(|o.middleware|, i requires 0 <= i < |o.middleware| => Custom(o.middleware[i]))
    else Listing(RequestGate(route, server, rank))
  }

  function Listing(g: Option<Gate>): seq<Gate> {
    if g.Some? then [g.value] else []
  }

  function When(asked: bool, g: Gate): Option<Gate> {
    if asked then Some(g) else None
  }

  function IdentityGate(route: Route, rank: nat): (g: Option<Gate>) {
    var o := route.options;
    match rank
    case 0 => When(!route.isUse && !o.hosts.AnyHost?, if o.hosts.Listed? then Subdomain(o.hosts.names) else RootHostOnly)
    case 1 => When(o.guiOriginOnly, GuiOrigin)
    case 2 => When(NeedsAuth(o), Auth)
    case 3 => When(NeedsAuth(o) && !o.allowUnconfirmed, VerifiedAccount)
    case 4 => When(NeedsAuth(o) && !o.allowAccessToken, NonAccessToken)
    case 5 => When(o.requireUserActor, UserActor(o.allowFullAccessToken))
    case 6 => When(o.noUserSession, NoUserSession)
    case _ => None
  }

  function StandingGate(o: Options, server: Server, rank: nat): (g: Option<Gate>) {
    match rank
    case 7 => When(o.adminOnly.Some?, AdminOnly(o.adminOnly.GetOr([]), o.allowedAppIds.Some?))
    case 8 => When(o.adminOnly.Some?, StepUp(o.allowedAppIds.GetOr([])))
    case 9 => When(o.allowedAppIds.Some?, AllowedApps(o.allowedAppIds.GetOr([])))
    case 10 => When(o.requireVerified, VerifiedEmail(server.strictEmail))
    case 11 => When(o.requirePhoneVerified, VerifiedPhone)
    case 12 => When(o.requireCardVerified, VerifiedCard)
    case 13 => When(RequiresPlan(o.requireSubscription), Plan(o.requireSubscription))
    case _ => None
  }

  function RequestGate(route: Route, server: Server, rank: nat): (g: Option<Gate>) {
    var o := route.options;
    match rank
    case 15 => When(o.requireCredits, Credits)
    case 16 => if o.concurrent.Some? then Some(Concurrency(o.concurrent.value)) else None
    case 17 => When(o.captcha, Captcha(server.captchaEnabled))
    case 18 => When(o.antiCsrf, AntiCsrf)
    case 19 => When(o.bodyJson, BodyJson)
    case 20 => When(o.bodyRaw, BodyRaw)
    case 21 => When(o.bodyText, BodyText)
    case 22 => When(o.bodyUrlencoded, BodyUrlencoded)
    case 24 => When(!route.isUse && server.eventClient, Lifecycle)
    case _ => None
  }

  lemma AskedHasRank(route: Route, server: Server, rank: nat, g: Gate)
    requires g in Asked(route, server, rank)
    ensures Rank(g) == rank
  {
  }

  /** A chain in rank order that holds exactly the gates asked for. */
  ghost predicate Compiles(chain: seq<Gate>, route: Route, server: Server) {
    && Ordered(chain, Rank)
    && forall n: nat :: Layer(chain, Rank, n) == Asked(route, server, n)
  }

  /** The same, for the ranks below `n` that have been pushed so far. */
  ghost predicate CompilesTo(chain: seq<Gate>, route: Route, server: Server, n: nat) {
    && Ordered(chain, Rank)
    && (forall g <- chain :: Rank(g) < n)
    && forall m: nat :: m < n ==> Layer(chain, Rank, m) == Asked(route, server, m)
  }

  lemma PushLayer(before: seq<Gate>, after: seq<Gate>, route: Route, server: Server, n: nat)
    requires CompilesTo(before, route, server, n) && after == before + Asked(route, server, n)
    ensures CompilesTo(after, route, server, n + 1)
  {
    hide Asked, Rank, Layer;
    var pushed := Asked(route, server, n);
    forall g | g in pushed
      ensures Rank(g) == n
    {
      AskedHasRank(route, server, n, g);
    }
    forall m: nat | m < n + 1
      ensures Layer(after, Rank, m) == Asked(route, server, m)
    {
      LayerAppend(before, pushed, Rank, m);
      LayerOfOwn(pushed, Rank, n, m);
      if m == n {
        LayerAbsent(before, Rank, n);
      }
    }
  }

  lemma NothingPushed(route: Route, server: Server)
    ensures CompilesTo([], route, server, 0)
  {
  }

  lemma AllPushed(chain: seq<Gate>, route: Route, server: Server)
    requires CompilesTo(chain, route, server, RANKS)
    ensures Compiles(chain, route, server)
  {
    forall n: nat | n >= RANKS
      ensures Layer(chain, Rank, n) == Asked(route, server, n)
    {
      LayerAbsent(chain, Rank, n);
    }
  }

  /** A chain's members are the gates asked for at their rank. */
  lemma MemberIffAsked(chain: seq<Gate>, route: Route, server: Server, g: Gate)
    requires Compiles(chain, route, server)
    ensures g in chain <==> g in Asked(route, server, Rank(g))
  {
    LayerMember(chain, Rank, g);
  }

  /** There is one chain for a route. */
  lemma ChainIsDetermined(s: seq<Gate>, t: seq<Gate>, route: Route, server: Server)
    requires Compiles(s, route, server) && Compiles(t, route, server)
    ensures s == t
  {
    LayersDetermine(s, t, Rank);
  }

  // ----- the compiler -----

  /** The hosts a `use` handler is wrapped to look for itself. */
  function SelfChecked(route: Route): Option<seq<string>> {
    if route.isUse && route.options.hosts.Listed? then Some(route.options.hosts.names) else None
  }

  /** Pushes gate after gate, and refuses the route at boot where the source throws. */
  method Materialize(prefix: string, route: Route, server: Server) returns (r: Mounted)
    ensures r == Failed(BadSubscription) <==>
      var s := route.options.requireSubscription; s.Junk? || s == Plans([]) || (s.Plans? && "" in s.ids)
    ensures r == Failed(NoPath) <==> r != Failed(BadSubscription) && !route.isUse && route.path.None?
    ensures r == Failed(UnsupportedMethod) <==>
      r != Failed(BadSubscription) && !route.isUse && route.path.Some? && !route.supported
    ensures r.Mounted? ==> Compiles(r.chain, route, server) && r.wrapped == SelfChecked(route)
    ensures r.Mounted? ==> r.path.Some? == route.path.Some?
    ensures r.Mounted? && r.path.Some? ==> r.path.value == RoutePaths.JoinPath(prefix, route.path.value)
    ensures r.Mounted? && r.path.Some? && r.path.value.Literal? && prefix != "" ==> RoutePaths.SingleSlashes(r.path.value.text)
  {
    MalformedMeans(route.options.requireSubscription);
    hide CompilesTo, Compiles, Rank, Layer, NeedsAuth, RequiresPlan, Malformed;
    var o := route.options;
    if Malformed(o.requireSubscription) {
      return Failed(BadSubscription);
    }
    var chain := PushHost(route, server);
    chain := PushIdentity(route, server, chain);
    chain := PushStanding(route, server, chain);
    chain := PushLimits(route, server, chain);
    chain := PushBodies(route, server, chain);

    var fullPath := if route.path.Some? then Some(RoutePaths.JoinPath(prefix, route.path.value)) else None;
    if route.path.Some? && route.path.value.Literal? {
      RoutePaths.JoinedIsClean(prefix, route.path.value.text);
    }
    if route.isUse {
      return Mounted(fullPath, chain, if o.hosts.Listed? then Some(o.hosts.names) else None);
    }
    if fullPath.None? {
      return Failed(NoPath);
    }
    if !route.supported {
      return Failed(UnsupportedMethod);
    }
    return Mounted(fullPath, chain, None);
  }

  /** The host, and the page's origin. */
  method PushHost(route: Route, server: Server) returns (chain: seq<Gate>)
    ensures CompilesTo(chain, route, server, 2)
    ensures var o := route.options;
      chain ==
        (if !route.isUse && o.hosts.RootHost? then [RootHostOnly] else [])
        + (if !route.isUse && o.hosts.Listed? then [Subdomain(o.hosts.names)] else [])
        + (if o.guiOriginOnly then [GuiOrigin] else [])
  {
    hide CompilesTo, Compiles, Rank, Layer, NeedsAuth, RequiresPlan;
    var o := route.options;
    chain := [];
    if !o.hosts.RootHost? {
      if !o.hosts.AnyHost? && !route.isUse { chain := chain + [Subdomain(o.hosts.names)]; }
    } else if !route.isUse {
      chain := chain + [RootHostOnly];
    }
    NothingPushed(route, server);
    PushLayer([], chain, route, server, 0);

    ghost var was := chain;
    if o.guiOriginOnly { chain := chain + [GuiOrigin]; }
    PushLayer(was, chain, route, server, 1);
  }

  /** Which options imply authentication. */
  lemma NeedsAuthMeans(o: Options)
    ensures NeedsAuth(o) <==>
      || o.requireAuth || o.requireUserActor || o.adminOnly.Some? || o.allowedAppIds.Some? || o.requireVerified
      || o.noUserSession || o.requirePhoneVerified || o.requireCardVerified
      || o.requireSubscription == Flag(true) || o.requireSubscription.Plans? || o.requireSubscription.Junk?
  {
  }

  /** Who the caller is. */
  method PushIdentity(route: Route, server: Server, pushed: seq<Gate>) returns (chain: seq<Gate>)
    requires CompilesTo(pushed, route, server, 2)
    ensures CompilesTo(chain, route, server, 7)
    ensures var o := route.options;
      var needsAuth := o.requireAuth || o.requireUserActor || o.adminOnly.Some? || o.allowedAppIds.Some? || o.requireVerified
        || o.noUserSession || o.requirePhoneVerified || o.requireCardVerified
        || o.requireSubscription == Flag(true) || o.requireSubscription.Plans? || o.requireSubscription.Junk?;
      chain == pushed
        + (if needsAuth then [Auth] else [])
        + (if needsAuth && !o.allowUnconfirmed then [VerifiedAccount] else [])
        + (if needsAuth && !o.allowAccessToken then [NonAccessToken] else [])
        + (if o.requireUserActor then [UserActor(o.allowFullAccessToken)] else [])
        + (if o.noUserSession then [NoUserSession] else [])
  {
    hide CompilesTo, Compiles, Rank, Layer, NeedsAuth, RequiresPlan;
    var o := route.options;
    NeedsAuthMeans(o);
    chain := pushed;
    var needsAuth := NeedsAuth(o);

    ghost var was := chain;
    if needsAuth { chain := chain + [Auth]; }
    PushLayer(was, chain, route, server, 2);

    was := chain;
    if needsAuth && !o.allowUnconfirmed { chain := chain + [VerifiedAccount]; }
    PushLayer(was, chain, route, server, 3);

    was := chain;
    if needsAuth && !o.allowAccessToken { chain := chain + [NonAccessToken]; }
    PushLayer(was, chain, route, server, 4);

    was := chain;
    if o.requireUserActor { chain := chain + [UserActor(o.allowFullAccessToken)]; }
    PushLayer(was, chain, route, server, 5);

    was := chain;
    if o.noUserSession { chain := chain + [NoUserSession]; }
    PushLayer(was, chain, route, server, 6);
  }

  lemma RequiresPlanMeans(s: Subscription)
    ensures RequiresPlan(s) <==> !(s.Undeclared? || s == Flag(false))
  {
  }

  /** What the caller's account and app may do. */
  method PushStanding(route: Route, server: Server, pushed: seq<Gate>) returns (chain: seq<Gate>)
    requires CompilesTo(pushed, route, server, 7)
    ensures CompilesTo(chain, route, server, 14)
    ensures var o := route.options;
      chain == pushed
        + (if o.adminOnly.Some? then [AdminOnly(o.adminOnly.value, o.allowedAppIds.Some?)] else [])
        + (if o.adminOnly.Some? then [StepUp(if o.allowedAppIds.Some? then o.allowedAppIds.value else [])] else [])
        + (if o.allowedAppIds.Some? then [AllowedApps(o.allowedAppIds.value)] else [])
        + (if o.requireVerified then [VerifiedEmail(server.strictEmail)] else [])
        + (if o.requirePhoneVerified then [VerifiedPhone] else [])
        + (if o.requireCardVerified then [VerifiedCard] else [])
        + (if o.requireSubscription.Undeclared? || o.requireSubscription == Flag(false) then [] else [Plan(o.requireSubscription)])
  {
    RequiresPlanMeans(route.options.requireSubscription);
    hide CompilesTo, Compiles, Rank, Layer, NeedsAuth, RequiresPlan;
    var o := route.options;
    chain := pushed;

    ghost var was := chain;
    if o.adminOnly.Some? {
      chain := chain + [AdminOnly(o.adminOnly.value, o.allowedAppIds.Some?)];
      PushLayer(was, chain, route, server, 7);
      was := chain;
      chain := chain + [StepUp(o.allowedAppIds.GetOr([]))];
      PushLayer(was, chain, route, server, 8);
    } else {
      PushLayer(was, chain, route, server, 7);
      PushLayer(was, chain, route, server, 8);
    }

    was := chain;
    if o.allowedAppIds.Some? { chain := chain + [AllowedApps(o.allowedAppIds.value)]; }
    PushLayer(was, chain, route, server, 9);

    was := chain;
    if o.requireVerified { chain := chain + [VerifiedEmail(server.strictEmail)]; }
    PushLayer(was, chain, route, server, 10);

    was := chain;
    if o.requirePhoneVerified { chain := chain + [VerifiedPhone]; }
    PushLayer(was, chain, route, server, 11);

    was := chain;
    if o.requireCardVerified { chain := chain + [VerifiedCard]; }
    PushLayer(was, chain, route, server, 12);

    was := chain;
    if RequiresPlan(o.requireSubscription) { chain := chain + [Plan(o.requireSubscription)]; }
    PushLayer(was, chain, route, server, 13);
  }

  /** What the request spends: rate limits, credits, a slot, one-time tokens. */
  method PushLimits(route: Route, server: Server, pushed: seq<Gate>) returns (chain: seq<Gate>)
    requires CompilesTo(pushed, route, server, 14)
    ensures CompilesTo(chain, route, server, 19)
    ensures var o := route.options;
      chain == pushed
        + seq(|o.rateLimits|, i requires 0 <= i < |o.rateLimits| => RateLimit(o.rateLimits[i]))
        + (if o.requireCredits then [Credits] else [])
        + (if o.concurrent.Some? then [Concurrency(o.concurrent.value)] else [])
        + (if o.captcha then [Captcha(server.captchaEnabled)] else [])
        + (if o.antiCsrf then [AntiCsrf] else [])
  {
    hide CompilesTo, Compiles, Rank, Layer, NeedsAuth, RequiresPlan;
    var o := route.options;
    chain := pushed;
    for i := 0 to |o.rateLimits|
      invariant chain == pushed + Asked(route, server, 14)[..i]
    {
      chain := chain + [RateLimit(o.rateLimits[i])];
    }
    PushLayer(pushed, chain, route, server, 14);

    ghost var was := chain;
    if o.requireCredits { chain := chain + [Credits]; }
    PushLayer(was, chain, route, server, 15);

    was := chain;
    if o.concurrent.Some? { chain := chain + [Concurrency(o.concurrent.value)]; }
    PushLayer(was, chain, route, server, 16);

    was := chain;
    if o.captcha { chain := chain + [Captcha(server.captchaEnabled)]; }
    PushLayer(was, chain, route, server, 17);

    was := chain;
    if o.antiCsrf { chain := chain + [AntiCsrf]; }
    PushLayer(was, chain, route, server, 18);
  }

  /** Body parsers, the caller's own middleware, and the endpoint's events. */
  method PushBodies(route: Route, server: Server, pushed: seq<Gate>) returns (chain: seq<Gate>)
    requires CompilesTo(pushed, route, server, 19)
    ensures Compiles(chain, route, server)
    ensures var o := route.options;
      chain == pushed
        + (if o.bodyJson then [BodyJson] else [])
        + (if o.bodyRaw then [BodyRaw] else [])
        + (if o.bodyText then [BodyText] else [])
        + (if o.bodyUrlencoded then [BodyUrlencoded] else [])
        + seq(|o.middleware|, i requires 0 <= i < |o.middleware| => Custom(o.middleware[i]))
        + (if !route.isUse && server.eventClient then [Lifecycle] else [])
  {
    hide CompilesTo, Compiles, Rank, Layer, NeedsAuth, RequiresPlan;
    var o := route.options;
    chain := pushed;

    ghost var was := chain;
    if o.bodyJson { chain := chain + [BodyJson]; }
    PushLayer(was, chain, route, server, 19);

    was := chain;
    if o.bodyRaw { chain := chain + [BodyRaw]; }
    PushLayer(was, chain, route, server, 20);

    was := chain;
    if o.bodyText { chain := chain + [BodyText]; }
    PushLayer(was, chain, route, server, 21);

    was := chain;
    if o.bodyUrlencoded { chain := chain + [BodyUrlencoded]; }
    PushLayer(was, chain, route, server, 22);

    was := chain;
    chain := chain + seq(|o.middleware|, i requires 0 <= i < |o.middleware| => Custom(o.middleware[i]));
    PushLayer(was, chain, route, server, 23);

    was := chain;
    if !route.isUse && server.eventClient { chain := chain + [Lifecycle]; }
    PushLayer(was, chain, route, server, 24);
    AllPushed(chain, route, server);
  }

  // ----- running a chain -----

  datatype Account = Account(
    username: string,
    suspended: bool,
    pendingVerification: bool,
    emailConfirmed: bool,
    phoneVerified: bool,
    cardVerified: bool
  )

  /** `fullAccess` is the actor's own token's flag; `worker` says the session's kind. */
  datatype Caller = Caller(actor: Actors.Actor, account: Account, fullAccess: bool, worker: bool)

  /** `host` is the request's leftmost subdomain, "" at the root; `says` answers for the gates whose code is elsewhere. */
  datatype Request = Request(caller: Option<Caller>, appBlocked: bool, host: string, elevated: bool, says: Gate -> bool)

  predicate ReadsActor(g: Gate) {
    3 <= Rank(g) <= 13
  }

  function AppUid(c: Caller): string {
    c.actor.app.GetOr("")
  }

  predicate IsAdmin(c: Caller, extras: seq<string>) {
    c.account.username != "" && exists name <- ["admin", "system"] + extras :: Text.Lower(c.account.username) == Text.Lower(name)
  }

  predicate ActsAsApp(c: Caller) {
    c.actor.effectiveApp.Resolved? && c.actor.effectiveApp.app.Some?
  }

  /** Whether a gate calls `next()`; the two host gates skip the route instead, all others answer the request. */
  predicate Passes(g: Gate, req: Request) {
    match g
    case RootHostOnly => req.host == ""
    case Subdomain(names) => req.host in names
    case Auth => !req.appBlocked && req.caller.Some? && !req.caller.value.account.suspended
    case VerifiedAccount => req.caller.Some? ==> !req.caller.value.account.pendingVerification
    case NonAccessToken => req.caller.Some? && (req.caller.value.actor.accessToken.Some? ==> req.caller.value.fullAccess)
    case UserActor(allowFullAccess) =>
      && req.caller.Some? && req.caller.value.actor.app.None?
      && (req.caller.value.actor.accessToken.Some? ==> allowFullAccess && req.caller.value.fullAccess)
    case NoUserSession =>
      && req.caller.Some?
      && (req.caller.value.actor.app.Some? || req.caller.value.actor.accessToken.Some? || req.caller.value.worker)
    case AdminOnly(extras, appGated) =>
      && req.caller.Some? && IsAdmin(req.caller.value, extras)
      && (ActsAsApp(req.caller.value) ==> appGated && AppUid(req.caller.value) != "")
    case StepUp(exempt) =>
      || (req.caller.Some? && AppUid(req.caller.value) != "" && AppUid(req.caller.value) in exempt)
      || (req.caller.Some? && req.elevated)
    case AllowedApps(ids) => req.caller.Some? && AppUid(req.caller.value) != "" ==> AppUid(req.caller.value) in ids
    case VerifiedEmail(strict) => strict ==> req.caller.Some? && req.caller.value.account.emailConfirmed
    case VerifiedPhone => req.caller.Some? && req.caller.value.account.phoneVerified
    case VerifiedCard => req.caller.Some? && req.caller.value.account.cardVerified
    case _ => req.says(g)
  }

  datatype Outcome = Handled | PassedOn | Refused(gate: Gate)

  /** How a request ends, and the gates it ran, the last one included. */
  datatype Passage = Passage(outcome: Outcome, ran: seq<Gate>)

  /** The first gate that does not let the request by, or |chain|. */
  function Stop(chain: seq<Gate>, req: Request): (i: nat)
    ensures i <= |chain|
    ensures forall j :: 0 <= j < i ==> Passes(chain[j], req)
    ensures i < |chain| ==> !Passes(chain[i], req)
  {
    if chain == [] || !Passes(chain[0], req) then 0 else 1 + Stop(chain[1..], req)
  }

  function Run(chain: seq<Gate>, req: Request): (p: Passage)
    ensures p.ran <= chain
    ensures p.outcome.Handled? <==> forall g <- chain :: Passes(g, req)
    ensures p.outcome.Handled? ==> p.ran == chain
    ensures !p.outcome.Handled? ==> p.ran != [] && !Passes(p.ran[|p.ran| - 1], req)
    ensures forall i :: 0 <= i < |p.ran| - 1 ==> Passes(p.ran[i], req)
    ensures p.outcome.Refused? ==> p.outcome.gate == p.ran[|p.ran| - 1] && Rank(p.outcome.gate) > 0
    ensures p.outcome.PassedOn? ==> Rank(p.ran[|p.ran| - 1]) == 0
  {
    var i := Stop(chain, req);
    if i == |chain| then Passage(Handled, chain)
    else Passage(if Rank(chain[i]) == 0 then PassedOn else Refused(chain[i]), chain[..i + 1])
  }

  /** A mounted route: a wrapped `use` handler looks at the host only once every gate has passed. */
  function Serve(m: Mounted, req: Request): Passage
    requires m.Mounted?
  {
    var p := Run(m.chain, req);
    if p.outcome.Handled? && m.wrapped.Some? && req.host !in m.wrapped.value then p.(outcome := PassedOn) else p
  }

  lemma RankTells(g: Gate)
    ensures g == Auth <==> Rank(g) == 2
    ensures g.RateLimit? <==> Rank(g) == 14
    ensures g.Concurrency? <==> Rank(g) == 16
    ensures g.RootHostOnly? || g.Subdomain? <==> Rank(g) == 0
    ensures ReadsActor(g) <==> 3 <= Rank(g) <= 13
    ensures ReadsActor(g) <==>
      || g.VerifiedAccount? || g.NonAccessToken? || g.UserActor? || g.NoUserSession? || g.AdminOnly? || g.StepUp?
      || g.AllowedApps? || g.VerifiedEmail? || g.VerifiedPhone? || g.VerifiedCard? || g.Plan?
    ensures g.Plan? ==> Rank(g) == 13
    ensures g.Credits? ==> Rank(g) == 15
  {
  }

  /** The authentication gate is there exactly once when any option implies it, and never otherwise. */
  lemma AuthExactlyOnce(chain: seq<Gate>, route: Route, server: Server)
    requires Compiles(chain, route, server)
    ensures multiset(chain)[Auth] == if NeedsAuth(route.options) then 1 else 0
    ensures (exists g <- chain :: ReadsActor(g)) ==> NeedsAuth(route.options)
  {
    hide Rank, Layer, Passes;
    RankTells(Auth);
    LayerCount(chain, Rank, Auth);
    assert Layer(chain, Rank, 2) == Asked(route, server, 2);
    if g :| g in chain && ReadsActor(g) {
      MemberIffAsked(chain, route, server, g);
      RankTells(g);
    }
  }

  /** No gate that reads the actor runs before there is one, let in and not suspended. */
  lemma ActorGatesSeeAnActor(chain: seq<Gate>, route: Route, server: Server, req: Request, i: nat)
    requires Compiles(chain, route, server)
    requires i < |Run(chain, req).ran| && ReadsActor(Run(chain, req).ran[i])
    ensures exists j :: 0 <= j < i && Run(chain, req).ran[j] == Auth
    ensures req.caller.Some? && !req.caller.value.account.suspended && !req.appBlocked
  {
    hide Rank, Layer, Asked, NeedsAuth;
    var ran := Run(chain, req).ran;
    assert chain[i] == ran[i];
    AuthExactlyOnce(chain, route, server);
    assert Auth in chain;
    var j :| 0 <= j < |chain| && chain[j] == Auth;
    RankTells(Auth);
    RankTells(chain[i]);
    assert j < i;
    assert ran[j] == Auth;
    assert Passes(ran[j], req);
  }

  /** Whoever is refused at one gate never reached a gate of higher rank. */
  lemma RefusalStopsLaterGates(chain: seq<Gate>, req: Request)
    requires Ordered(chain, Rank) && Run(chain, req).outcome.Refused?
    ensures forall g <- Run(chain, req).ran :: Rank(g) <= Rank(Run(chain, req).outcome.gate)
  {
    hide Rank, Run;
    var p := Run(chain, req);
    assert p.ran <= chain && p.ran != [] && p.outcome.gate == p.ran[|p.ran| - 1];
    forall g | g in p.ran
      ensures Rank(g) <= Rank(p.outcome.gate)
    {
      var i :| 0 <= i < |p.ran| && p.ran[i] == g;
      var last := |p.ran| - 1;
      assert chain[i] == g && chain[last] == p.outcome.gate;
      assert i < last ==> Rank(chain[i]) <= Rank(chain[last]);
    }
  }

  /** The limits a request was counted against, in order. */
  function Charged(ran: seq<Gate>): seq<Limit> {
    if ran == [] then [] else (if ran[0].RateLimit? then [ran[0].limit] else []) + Charged(ran[1..])
  }

  predicate AskedForSlot(ran: seq<Gate>) {
    exists g <- ran :: g.Concurrency?
  }

  /**
   A caller refused by the plan gate, or before it, spends no rate limit and asks for no slot; one
   refused for rate or credit never asks for a slot.
   */
  lemma RefusalsAreCheap(chain: seq<Gate>, route: Route, server: Server, req: Request)
    requires Compiles(chain, route, server) && Run(chain, req).outcome.Refused?
    ensures var p := Run(chain, req);
      p.outcome.gate.Plan? || p.outcome.gate == Auth || ReadsActor(p.outcome.gate) ==> Charged(p.ran) == [] && !AskedForSlot(p.ran)
    ensures var p := Run(chain, req);
      p.outcome.gate.RateLimit? || p.outcome.gate.Credits? ==> forall g <- p.ran :: !g.Concurrency?
    ensures var p := Run(chain, req); p.outcome.gate.Plan? ==> forall g <- p.ran :: !g.RateLimit? && !g.Credits? && !g.Concurrency?
  {
    hide Rank, ReadsActor, Layer, Asked;
    RefusalStopsLaterGates(chain, req);
    var p := Run(chain, req);
    RankTells(p.outcome.gate);
    forall g | g in p.ran
      ensures g.RateLimit? ==> Rank(g) == 14
      ensures g.Credits? ==> Rank(g) == 15
      ensures g.Concurrency? ==> Rank(g) == 16
    {
      RankTells(g);
    }
    if forall g <- p.ran :: !g.RateLimit? {
      NothingCharged(p.ran);
    }
  }

  lemma {:induction false} NothingCharged(ran: seq<Gate>)
    requires forall g <- ran :: !g.RateLimit?
    ensures Charged(ran) == []
  {
    if ran != [] {
      NothingCharged(ran[1..]);
    }
  }

  lemma {:induction false} ChargedLayer(ran: seq<Gate>)
    ensures |Charged(ran)| == |Layer(ran, Rank, 14)|
    ensures forall i :: 0 <= i < |Charged(ran)| ==> RateLimit(Charged(ran)[i]) == Layer(ran, Rank, 14)[i]
  {
    hide Rank;
    if ran != [] {
      ChargedLayer(ran[1..]);
      RankTells(ran[0]);
    }
  }

  /** A request is charged the declared limits in their order, each once, and all of them if the handler runs. */
  lemma ChargedInOrder(chain: seq<Gate>, route: Route, server: Server, req: Request)
    requires Compiles(chain, route, server)
    ensures Charged(Run(chain, req).ran) <= route.options.rateLimits
    ensures Run(chain, req).outcome.Handled? ==> Charged(Run(chain, req).ran) == route.options.rateLimits
  {
    hide Rank, Layer;
    var ran := Run(chain, req).ran;
    ChargedLayer(ran);
    LayerPrefix(ran, chain, Rank, 14);
    assert Layer(chain, Rank, 14) == Asked(route, server, 14);
  }

  // ----- who gets in -----

  predicate HostMatches(hosts: Hosts, host: string) {
    match hosts
    case RootHost => host == ""
    case AnyHost => true
    case Listed(names) => host in names
  }

  /** The options' promises about the caller, read one by one. */
  predicate CallerAllowed(o: Options, server: Server, req: Request) {
    NeedsAuth(o) ==> Authentic(req) && IdentityAllowed(o, req.caller.value) && StandingAllowed(o, server, req, req.caller.value)
  }

  predicate Authentic(req: Request) {
    req.caller.Some? && !req.caller.value.account.suspended && !req.appBlocked
  }

  predicate IdentityAllowed(o: Options, c: Caller) {
    && (!o.allowUnconfirmed ==> !c.account.pendingVerification)
    && (!o.allowAccessToken && c.actor.accessToken.Some? ==> c.fullAccess)
    && (o.requireUserActor ==> c.actor.app.None? && (c.actor.accessToken.Some? ==> o.allowFullAccessToken && c.fullAccess))
    && (o.noUserSession ==> c.actor.app.Some? || c.actor.accessToken.Some? || c.worker)
  }

  predicate StandingAllowed(o: Options, server: Server, req: Request, c: Caller) {
    AdminAllowed(o, req, c) && FactorsAllowed(o, server, c)
  }

  predicate AdminAllowed(o: Options, req: Request, c: Caller) {
    && (o.adminOnly.Some? ==> IsAdmin(c, o.adminOnly.value) && RootOrGatedApp(o, c) && SteppedUp(o, c, req))
    && AppListed(o, c)
  }

  predicate FactorsAllowed(o: Options, server: Server, c: Caller) {
    && (o.requireVerified && server.strictEmail ==> c.account.emailConfirmed)
    && (o.requirePhoneVerified ==> c.account.phoneVerified)
    && (o.requireCardVerified ==> c.account.cardVerified)
  }

  predicate RootOrGatedApp(o: Options, c: Caller) {
    ActsAsApp(c) ==> o.allowedAppIds.Some? && AppUid(c) != ""
  }

  predicate SteppedUp(o: Options, c: Caller, req: Request) {
    req.elevated || (o.allowedAppIds.Some? && AppUid(c) != "" && AppUid(c) in o.allowedAppIds.value)
  }

  predicate AppListed(o: Options, c: Caller) {
    o.allowedAppIds.Some? && AppUid(c) != "" ==> AppUid(c) in o.allowedAppIds.value
  }

  /** The gates the model takes answers for. */
  predicate AnswersElsewhere(g: Gate) {
    Rank(g) == 1 || Rank(g) >= 13
  }

  ghost predicate LayerPasses(route: Route, server: Server, req: Request, n: nat) {
    forall g <- Asked(route, server, n) :: Passes(g, req)
  }

  lemma HandledByLayers(chain: seq<Gate>, route: Route, server: Server, req: Request)
    requires Compiles(chain, route, server)
    ensures Run(chain, req).outcome.Handled? <==> forall n: nat :: LayerPasses(route, server, req, n)
  {
    hide Rank, Layer, Asked, Passes;
    if Run(chain, req).outcome.Handled? {
      forall n: nat, g | g in Asked(route, server, n)
        ensures Passes(g, req)
      {
        AskedHasRank(route, server, n, g);
        MemberIffAsked(chain, route, server, g);
      }
    } else if forall n: nat :: LayerPasses(route, server, req, n) {
      forall g | g in chain
        ensures Passes(g, req)
      {
        MemberIffAsked(chain, route, server, g);
        assert LayerPasses(route, server, req, Rank(g));
      }
    }
  }

  lemma OneGate(route: Route, server: Server, req: Request, n: nat, asked: bool, g: Gate)
    requires Asked(route, server, n) == if asked then [g] else []
    ensures LayerPasses(route, server, req, n) <==> (asked ==> Passes(g, req))
  {
    if asked {
      assert g in Asked(route, server, n);
    }
  }

  lemma IdentityLayers(route: Route, server: Server, req: Request)
    ensures var P := (n: nat) => LayerPasses(route, server, req, n);
      P(2) && P(3) && P(4) && P(5) && P(6) <==>
        (NeedsAuth(route.options) ==> Authentic(req) && IdentityAllowed(route.options, req.caller.value))
  {
    hide LayerPasses, Rank;
    var o := route.options;
    OneGate(route, server, req, 2, NeedsAuth(o), Auth);
    OneGate(route, server, req, 3, NeedsAuth(o) && !o.allowUnconfirmed, VerifiedAccount);
    OneGate(route, server, req, 4, NeedsAuth(o) && !o.allowAccessToken, NonAccessToken);
    OneGate(route, server, req, 5, o.requireUserActor, UserActor(o.allowFullAccessToken));
    OneGate(route, server, req, 6, o.noUserSession, NoUserSession);
  }

  lemma AdminLayers(route: Route, server: Server, req: Request, c: Caller)
    requires req.caller == Some(c)
    ensures var P := (n: nat) => LayerPasses(route, server, req, n);
      P(7) && P(8) && P(9) <==> AdminAllowed(route.options, req, c)
  {
    hide LayerPasses, Rank, IsAdmin, ActsAsApp, AppUid;
    var o := route.options;
    OneGate(route, server, req, 7, o.adminOnly.Some?, AdminOnly(o.adminOnly.GetOr([]), o.allowedAppIds.Some?));
    OneGate(route, server, req, 8, o.adminOnly.Some?, StepUp(o.allowedAppIds.GetOr([])));
    OneGate(route, server, req, 9, o.allowedAppIds.Some?, AllowedApps(o.allowedAppIds.GetOr([])));
  }

  lemma FactorLayers(route: Route, server: Server, req: Request, c: Caller)
    requires req.caller == Some(c)
    ensures var P := (n: nat) => LayerPasses(route, server, req, n);
      P(10) && P(11) && P(12) <==> FactorsAllowed(route.options, server, c)
  {
    hide LayerPasses, Rank;
    var o := route.options;
    OneGate(route, server, req, 10, o.requireVerified, VerifiedEmail(server.strictEmail));
    OneGate(route, server, req, 11, o.requirePhoneVerified, VerifiedPhone);
    OneGate(route, server, req, 12, o.requireCardVerified, VerifiedCard);
  }

  lemma NoStanding(route: Route, server: Server, req: Request, n: nat)
    requires !NeedsAuth(route.options) && 7 <= n <= 12
    ensures LayerPasses(route, server, req, n)
  {
    hide Passes;
  }

  lemma StandingLayers(route: Route, server: Server, req: Request)
    requires NeedsAuth(route.options) ==> req.caller.Some?
    ensures var P := (n: nat) => LayerPasses(route, server, req, n);
      P(7) && P(8) && P(9) && P(10) && P(11) && P(12) <==>
        (NeedsAuth(route.options) ==> StandingAllowed(route.options, server, req, req.caller.value))
  {
    hide LayerPasses, Rank, NeedsAuth, AdminAllowed, FactorsAllowed;
    if NeedsAuth(route.options) {
      AdminLayers(route, server, req, req.caller.value);
      FactorLayers(route, server, req, req.caller.value);
    } else {
      forall n: nat | 7 <= n <= 12
        ensures LayerPasses(route, server, req, n)
      {
        NoStanding(route, server, req, n);
      }
    }
  }

  lemma HostLayer(route: Route, server: Server, req: Request)
    ensures LayerPasses(route, server, req, 0) <==> route.isUse || HostMatches(route.options.hosts, req.host)
  {
    var o := route.options;
    OneGate(route, server, req, 0, !route.isUse && !o.hosts.AnyHost?, if o.hosts.Listed? then Subdomain(o.hosts.names) else RootHostOnly);
  }

  /** Beyond the host and the caller, only the gates answered elsewhere are left. */
  lemma OtherLayers(chain: seq<Gate>, route: Route, server: Server, req: Request)
    requires Compiles(chain, route, server)
    ensures (forall n: nat :: n == 1 || n >= 13 ==> LayerPasses(route, server, req, n)) <==>
      forall g <- chain :: AnswersElsewhere(g) ==> req.says(g)
  {
    hide Rank, Layer, Asked, Passes, AnswersElsewhere;
    forall g: Gate
      ensures AnswersElsewhere(g) <==> Rank(g) == 1 || Rank(g) >= 13
      ensures AnswersElsewhere(g) ==> (Passes(g, req) <==> req.says(g))
      ensures g in chain <==> g in Asked(route, server, Rank(g))
    {
      ElsewhereMeans(g, req);
      MemberIffAsked(chain, route, server, g);
    }
    forall n: nat, g | g in Asked(route, server, n)
      ensures Rank(g) == n
    {
      AskedHasRank(route, server, n, g);
    }
    if forall n: nat :: n == 1 || n >= 13 ==> LayerPasses(route, server, req, n) {
      forall g | g in chain && AnswersElsewhere(g)
        ensures req.says(g)
      {
        assert LayerPasses(route, server, req, Rank(g));
      }
    }
  }

  lemma ElsewhereMeans(g: Gate, req: Request)
    ensures AnswersElsewhere(g) <==> Rank(g) == 1 || Rank(g) >= 13
    ensures AnswersElsewhere(g) ==> (Passes(g, req) <==> req.says(g))
  {
  }

  /**
   The gates let a request by exactly when the host matches (which a `use` route's gates do not look
   at), every option's promise about the caller holds, and each gate answered elsewhere agrees.
   */
  lemma HandlerRunsIff(chain: seq<Gate>, route: Route, server: Server, req: Request)
    requires Compiles(chain, route, server)
    ensures Run(chain, req).outcome.Handled? <==>
      && (route.isUse || HostMatches(route.options.hosts, req.host))
      && CallerAllowed(route.options, server, req)
      && forall g <- chain :: AnswersElsewhere(g) ==> req.says(g)
  {
    hide LayerPasses, Rank, Layer, Passes, AnswersElsewhere, IdentityAllowed, StandingAllowed, NeedsAuth, Compiles;
    HandledByLayers(chain, route, server, req);
    HostLayer(route, server, req);
    IdentityLayers(route, server, req);
    if NeedsAuth(route.options) ==> req.caller.Some? {
      StandingLayers(route, server, req);
    }
    OtherLayers(chain, route, server, req);
    EveryRank((n: nat) => LayerPasses(route, server, req, n));
  }

  lemma EveryRank(P: nat -> bool)
    ensures (forall n: nat :: P(n)) <==>
      && P(0) && P(2) && P(3) && P(4) && P(5) && P(6) && P(7) && P(8) && P(9) && P(10) && P(11) && P(12)
      && forall n: nat :: n == 1 || n >= 13 ==> P(n)
  {
  }

  /**
   The same, with nothing but the options, the request and the outside answers: the whole condition
   under which the gates of a route let a request by.
   */
  lemma PassesGatesIff(chain: seq<Gate>, route: Route, server: Server, req: Request)
    requires Compiles(chain, route, server)
    ensures Run(chain, req).outcome.Handled? <==>
      var o := route.options;
      && (!route.isUse && o.hosts.RootHost? ==> req.host == "")
      && (!route.isUse && o.hosts.Listed? ==> req.host in o.hosts.names)
      && ((o.requireAuth || o.requireUserActor || o.adminOnly.Some? || o.allowedAppIds.Some? || o.requireVerified
           || o.noUserSession || o.requirePhoneVerified || o.requireCardVerified
           || o.requireSubscription == Flag(true) || o.requireSubscription.Plans? || o.requireSubscription.Junk?) ==>
          && req.caller.Some? && !req.appBlocked
          && var c := req.caller.value;
          && !c.account.suspended
          && (!o.allowUnconfirmed ==> !c.account.pendingVerification)
          && (!o.allowAccessToken && c.actor.accessToken.Some? ==> c.fullAccess)
          && (o.requireUserActor ==> c.actor.app.None? && (c.actor.accessToken.Some? ==> o.allowFullAccessToken && c.fullAccess))
          && (o.noUserSession ==> c.actor.app.Some? || c.actor.accessToken.Some? || c.worker)
          && (o.adminOnly.Some? ==>
              && c.account.username != ""
              && (exists name <- ["admin", "system"] + o.adminOnly.value :: Text.Lower(c.account.username) == Text.Lower(name))
              && (c.actor.effectiveApp.Resolved? && c.actor.effectiveApp.app.Some? ==>
                  o.allowedAppIds.Some? && c.actor.app.Some? && c.actor.app.value != "")
              && (req.elevated || (o.allowedAppIds.Some? && c.actor.app.Some? && c.actor.app.value != ""
                                   && c.actor.app.value in o.allowedAppIds.value)))
          && (o.allowedAppIds.Some? && c.actor.app.Some? && c.actor.app.value != "" ==> c.actor.app.value in o.allowedAppIds.value)
          && (o.requireVerified && server.strictEmail ==> c.account.emailConfirmed)
          && (o.requirePhoneVerified ==> c.account.phoneVerified)
          && (o.requireCardVerified ==> c.account.cardVerified))
      && forall g <- chain ::
        (g.GuiOrigin? || g.Plan? || g.RateLimit? || g.Credits? || g.Concurrency? || g.Captcha? || g.AntiCsrf? || g.BodyJson?
         || g.BodyRaw? || g.BodyText? || g.BodyUrlencoded? || g.Custom? || g.Lifecycle?) ==> req.says(g)
  {
    HandlerRunsIff(chain, route, server, req);
    NeedsAuthMeans(route.options);
    ElsewhereKinds();
    hide NeedsAuth, Rank, AnswersElsewhere, Compiles, Run, Text.Lower;
  }

  lemma ElsewhereKinds()
    ensures forall g: Gate :: AnswersElsewhere(g) <==>
      (g.GuiOrigin? || g.Plan? || g.RateLimit? || g.Credits? || g.Concurrency? || g.Captcha? || g.AntiCsrf? || g.BodyJson?
       || g.BodyRaw? || g.BodyText? || g.BodyUrlencoded? || g.Custom? || g.Lifecycle?)
  {
  }

  /** With any option that implies authentication, no request without a caller is handled, whatever other gates answer. */
  lemma AnonymousIsRefused(m: Mounted, route: Route, server: Server, req: Request)
    requires Serves(m, route, server) && req.caller.None?
    requires var o := route.options;
      || o.requireAuth || o.requireUserActor || o.adminOnly.Some? || o.allowedAppIds.Some? || o.requireVerified
      || o.noUserSession || o.requirePhoneVerified || o.requireCardVerified
      || o.requireSubscription == Flag(true) || o.requireSubscription.Plans?
    ensures !Serve(m, req).outcome.Handled?
  {
    hide Compiles;
    PassesGatesIff(m.chain, route, server, req);
  }

  /** With none, the caller does not matter: two requests that differ in nothing else run the same gates to the same end. */
  lemma CallerDoesNotMatter(m: Mounted, route: Route, server: Server, req: Request, caller: Option<Caller>)
    requires Serves(m, route, server)
    requires var o := route.options;
      && !o.requireAuth && !o.requireUserActor && o.adminOnly.None? && o.allowedAppIds.None? && !o.requireVerified
      && !o.noUserSession && !o.requirePhoneVerified && !o.requireCardVerified
      && (o.requireSubscription.Undeclared? || o.requireSubscription == Flag(false))
    ensures Serve(m, req) == Serve(m, req.(caller := caller))
  {
    hide Compiles;
    NeedsAuthMeans(route.options);
    NoIdentityGates(m.chain, route, server);
    SameAnswers(m.chain, req, req.(caller := caller));
  }

  lemma NoIdentityGates(chain: seq<Gate>, route: Route, server: Server)
    requires Compiles(chain, route, server) && !NeedsAuth(route.options)
    ensures forall g <- chain :: Rank(g) < 2 || Rank(g) > 12
  {
    hide Rank, NeedsAuth;
    AuthExactlyOnce(chain, route, server);
    forall g | g in chain
      ensures Rank(g) < 2 || Rank(g) > 12
    {
      RankTells(g);
    }
  }

  lemma {:induction false} SameAnswers(chain: seq<Gate>, req: Request, other: Request)
    requires other == req.(caller := other.caller) && forall g <- chain :: Rank(g) < 2 || Rank(g) > 12
    ensures Stop(chain, req) == Stop(chain, other)
  {
    hide Rank;
    if chain != [] {
      SameAnswer(chain[0], req, other);
      SameAnswers(chain[1..], req, other);
    }
  }

  lemma SameAnswer(g: Gate, req: Request, other: Request)
    requires other == req.(caller := other.caller) && (Rank(g) < 2 || Rank(g) > 12)
    ensures Passes(g, req) == Passes(g, other)
  {
  }

  /** A request for another host leaves a verb route at its first gate, having spent nothing. */
  lemma OffHostIsSkipped(chain: seq<Gate>, route: Route, server: Server, req: Request)
    requires Compiles(chain, route, server) && !route.isUse && !HostMatches(route.options.hosts, req.host)
    ensures Run(chain, req).outcome == PassedOn && |Run(chain, req).ran| == 1
  {
    var first := if route.options.hosts.Listed? then Subdomain(route.options.hosts.names) else RootHostOnly;
    assert Asked(route, server, 0) == [first];
    FirstGate(chain, route, server, first);
  }

  lemma FirstGate(chain: seq<Gate>, route: Route, server: Server, first: Gate)
    requires Compiles(chain, route, server)
    requires Asked(route, server, Rank(first)) == [first] && forall n: nat :: n < Rank(first) ==> Asked(route, server, n) == []
    ensures chain != [] && chain[0] == first
  {
    hide Rank, Layer, Asked;
    assert first in Asked(route, server, Rank(first));
    MemberIffAsked(chain, route, server, first);
    MemberIffAsked(chain, route, server, chain[0]);
    assert Rank(chain[0]) <= Rank(first);
  }

  /** What `Materialize` makes of a route. */
  ghost predicate Serves(m: Mounted, route: Route, server: Server) {
    m.Mounted? && Compiles(m.chain, route, server) && m.wrapped == SelfChecked(route)
  }

  ghost predicate Admitted(m: Mounted, route: Route, server: Server, req: Request)
    requires m.Mounted?
  {
    CallerAllowed(route.options, server, req) && forall g <- m.chain :: AnswersElsewhere(g) ==> req.says(g)
  }

  /** A `use` handler is bound to the hosts its route lists; a route that lists none answers on all. */
  predicate UseMatches(hosts: Hosts, host: string) {
    hosts.Listed? ==> host in hosts.names
  }

  /**
   How a request for a `use` route ends: it is handled exactly when it is admitted for one of the
   route's hosts, and passed on exactly when it is admitted for another one; whoever is not admitted
   is refused, whatever the host.
   */
  lemma UseServesIff(m: Mounted, route: Route, server: Server, req: Request)
    requires Serves(m, route, server) && route.isUse
    ensures Serve(m, req).outcome.Handled? <==> Admitted(m, route, server, req) && UseMatches(route.options.hosts, req.host)
    ensures Serve(m, req).outcome.PassedOn? <==> Admitted(m, route, server, req) && !UseMatches(route.options.hosts, req.host)
    ensures Serve(m, req).outcome.Refused? <==> !Admitted(m, route, server, req)
    ensures Serve(m, req).outcome.Handled? <==>
      Run(m.chain, req).outcome.Handled? && (route.options.hosts.Listed? ==> req.host in route.options.hosts.names)
  {
    hide CallerAllowed, Compiles, AnswersElsewhere;
    HandlerRunsIff(m.chain, route, server, req);
    NoHostGate(m.chain, route, server);
  }

  lemma NoHostGate(chain: seq<Gate>, route: Route, server: Server)
    requires Compiles(chain, route, server) && route.isUse
    ensures forall g <- chain :: Rank(g) > 0
  {
    hide Rank, Layer;
    forall g | g in chain
      ensures Rank(g) > 0
    {
      MemberIffAsked(chain, route, server, g);
    }
  }

  /** How a request for a verb route ends; only the host decides whether it is passed on. */
  lemma VerbServesIff(m: Mounted, route: Route, server: Server, req: Request)
    requires Serves(m, route, server) && !route.isUse
    ensures Serve(m, req).outcome.Handled? <==> Admitted(m, route, server, req) && HostMatches(route.options.hosts, req.host)
    ensures Serve(m, req).outcome.PassedOn? <==> !HostMatches(route.options.hosts, req.host)
  {
    HandlerRunsIff(m.chain, route, server, req);
    if HostMatches(route.options.hosts, req.host) {
      HostGatePasses(m.chain, route, server, req);
    } else {
      OffHostIsSkipped(m.chain, route, server, req);
    }
  }

  lemma HostGatePasses(chain: seq<Gate>, route: Route, server: Server, req: Request)
    requires Compiles(chain, route, server) && HostMatches(route.options.hosts, req.host)
    ensures forall g <- chain :: Rank(g) == 0 ==> Passes(g, req)
  {
    hide Rank, Layer;
    forall g | g in chain && Rank(g) == 0
      ensures Passes(g, req)
    {
      MemberIffAsked(chain, route, server, g);
    }
  }

  /** Without credentials, a request for another host of a `use` route is refused, not passed on. */
  lemma UseRefusesOtherHosts(m: Mounted, route: Route, server: Server, req: Request)
    requires Serves(m, route, server) && route.isUse && NeedsAuth(route.options) && req.caller.None?
    ensures Serve(m, req).outcome.Refused?
    ensures !route.options.guiOriginOnly ==> Serve(m, req).outcome == Refused(Auth)
  {
    UseServesIff(m, route, server, req);
    if !route.options.guiOriginOnly {
      FirstGate(m.chain, route, server, Auth);
    }
  }

  /**
   An admin route that also lists apps admits an admin with a root token and a recent proof of
   identity, or one acting directly through a listed app; an app anywhere up a token's chain of
   issuers is turned away.
   */
  lemma AdminRouteAdmits(o: Options, c: Caller, req: Request)
    requires o.adminOnly.Some? && Actors.Built(c.actor)
    ensures AdminAllowed(o, req, c) <==>
      IsAdmin(c, o.adminOnly.value) &&
      if c.actor.app.Some? && c.actor.app.value != ""
      then o.allowedAppIds.Some? && c.actor.app.value in o.allowedAppIds.value
      else Actors.WalkApp(c.actor).None? && req.elevated
  {
    Actors.OneHopIsTheWalk(c.actor);
  }

  /** `requireUserActor` with `allowFullAccessToken` and `noUserSession` admits full-access tokens and workers only, and no app. */
  lemma ApiTokensOnly(o: Options, c: Caller)
    requires o.requireUserActor && o.allowFullAccessToken && o.noUserSession
    ensures IdentityAllowed(o, c) <==>
      && (!o.allowUnconfirmed ==> !c.account.pendingVerification)
      && c.actor.app.None? && if c.actor.accessToken.Some? then c.fullAccess else c.worker
  {
  }

  // ----- routes for listed apps -----

  /** The caller is one of the listed apps, acting directly. */
  predicate IsListedApp(c: Caller, ids: seq<string>) {
    AppUid(c) != "" && AppUid(c) in ids
  }

  /** The caller acts through one of the listed apps, directly or by a token that it minted. */
  predicate ActsThroughListed(c: Caller, ids: seq<string>) {
    Actors.WalkApp(c.actor).Some? && Actors.WalkApp(c.actor).value in ids
  }

  /** Everything that a route with an allow-list asks for, but for the list, is granted. */
  ghost predicate GrantedButForList(m: Mounted, route: Route, server: Server, req: Request)
    requires m.Mounted?
  {
    var o := route.options;
    && o.allowedAppIds.Some? && o.adminOnly.None?
    && (if route.isUse then UseMatches(o.hosts, req.host) else HostMatches(o.hosts, req.host))
    && Authentic(req) && IdentityAllowed(o, req.caller.value) && FactorsAllowed(o, server, req.caller.value)
    && forall g <- m.chain :: AnswersElsewhere(g) ==> req.says(g)
  }

  /**
   An allow-list promises to turn away all but the listed apps. The gates keep it exactly for callers
   with an app of their own; everybody else is let in.
   */
  lemma AllowListIsKeptIff(m: Mounted, route: Route, server: Server, req: Request)
    requires Serves(m, route, server) && GrantedButForList(m, route, server, req)
    ensures var c, ids := req.caller.value, route.options.allowedAppIds.value;
      (Serve(m, req).outcome.Handled? <==> IsListedApp(c, ids)) <==> AppUid(c) != ""
    ensures AppUid(req.caller.value) == "" ==> Serve(m, req).outcome.Handled?
  {
    if route.isUse {
      UseServesIff(m, route, server, req);
    } else {
      VerbServesIff(m, route, server, req);
    }
  }

  /** Counting tokens for the app that minted them, it is kept also where that app is listed. */
  lemma AllowListAndMintersIff(m: Mounted, route: Route, server: Server, req: Request)
    requires Serves(m, route, server) && GrantedButForList(m, route, server, req)
    requires req.caller.value.actor.app != Some("")
    ensures var c, ids := req.caller.value, route.options.allowedAppIds.value;
      (Serve(m, req).outcome.Handled? <==> ActsThroughListed(c, ids)) <==> AppUid(c) != "" || ActsThroughListed(c, ids)
  {
    AllowListIsKeptIff(m, route, server, req);
  }

  /** Callers that a route with an allow-list and no other option lets in although they are no listed app: a user, and a full-access token that any app minted. */
  lemma UnlistedCallersGetIn(m: Mounted, route: Route, server: Server, ids: seq<string>, user: string, app: string)
    requires Serves(m, route, server) && !route.isUse
    requires var o := route.options;
      && o.allowedAppIds == Some(ids) && o.hosts.RootHost? && !o.guiOriginOnly && !o.requireAuth && !o.allowUnconfirmed
      && !o.allowAccessToken && !o.requireUserActor && !o.allowFullAccessToken && !o.noUserSession && o.adminOnly.None?
      && !o.requireVerified && !o.requirePhoneVerified && !o.requireCardVerified && o.requireSubscription.Undeclared?
      && o.rateLimits == [] && !o.requireCredits && o.concurrent.None? && !o.captcha && !o.antiCsrf
      && !o.bodyJson && !o.bodyRaw && !o.bodyText && !o.bodyUrlencoded && o.middleware == []
    ensures var account := Account(user, false, false, true, true, true);
      var plain := Actors.MakeActor(Actors.Actor(Some(user), None, Actors.Absent, false, None));
      var minter := Actors.MakeActor(Actors.Actor(Some(user), Some(app), Actors.Absent, false, None));
      var token := Actors.MakeActor(
        Actors.Actor(Some(user), None, Actors.Absent, false, Some(Actors.AccessToken(user, minter, None))));
      && Serve(m, Request(Some(Caller(plain, account, false, false)), false, "", false, _ => true)).outcome.Handled?
      && Serve(m, Request(Some(Caller(token, account, true, false)), false, "", false, _ => true)).outcome.Handled?
      && Actors.Built(token) && Actors.WalkApp(token) == Some(app)
  {
    var account := Account(user, false, false, true, true, true);
    var plain := Actors.MakeActor(Actors.Actor(Some(user), None, Actors.Absent, false, None));
    var minter := Actors.MakeActor(Actors.Actor(Some(user), Some(app), Actors.Absent, false, None));
    var token := Actors.MakeActor(
      Actors.Actor(Some(user), None, Actors.Absent, false, Some(Actors.AccessToken(user, minter, None))));
    AllowListIsKeptIff(m, route, server, Request(Some(Caller(plain, account, false, false)), false, "", false, _ => true));
    AllowListIsKeptIff(m, route, server, Request(Some(Caller(token, account, true, false)), false, "", false, _ => true));
  }
}
