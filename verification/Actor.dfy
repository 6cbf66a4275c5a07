/** Who is acting: actors with nested access-token issuers, their cache key, and the app they act as. */
module Actors {
  import opened Wrappers
  import opened Text

  const SYSTEM_ACTOR_UUID := "5d4adce0-a381-4982-9c02-6e2540026238"

  /** `effectiveApp` is absent on an actor that skipped `MakeActor`, else resolved to an app or to none. */
  datatype Derived = Absent | Resolved(app: Option<string>)

  datatype AccessToken = AccessToken(uid: string, issuer: Actor, authorized: Option<Actor>)

  /** `uuid` is the user's; `app` is the app's uid. */
  datatype Actor = Actor(
    uuid: Option<string>,
    app: Option<string>,
    effectiveApp: Derived,
    system: bool,
    accessToken: Option<AccessToken>
  )

  // ----- the derived app -----

  /** One hop: the actor's own app, else whatever its token's issuer resolved to, else none. */
  function MakeActor(actor: Actor): Actor {
    var inherited :=
      if actor.accessToken.Some? && actor.accessToken.value.issuer.effectiveApp.Resolved?
      then actor.accessToken.value.issuer.effectiveApp.app else None;
    actor.(effectiveApp := Resolved(if actor.app.Some? then actor.app else inherited))
  }

  /** The whole issuer chain: the app nearest to the actor. */
  function WalkApp(actor: Actor): Option<string> {
    if actor.app.Some? then actor.app
    else if actor.accessToken.Some? then WalkApp(actor.accessToken.value.issuer)
    else None
  }

  /** The actor, and every issuer down its chain, came out of `MakeActor`. */
  predicate Built(actor: Actor) {
    && actor == MakeActor(actor)
    && (actor.accessToken.Some? ==> Built(actor.accessToken.value.issuer))
  }

  /** For actors built by `MakeActor`, at any depth of issuers, one hop finds what the walk finds. */
  lemma {:induction false} OneHopIsTheWalk(actor: Actor)
    requires Built(actor)
    ensures actor.effectiveApp == Resolved(WalkApp(actor))
  {
    if actor.app.None? && actor.accessToken.Some? {
      OneHopIsTheWalk(actor.accessToken.value.issuer);
    }
  }

  /**
   With an issuer that skipped `MakeActor` the derived app is the walk's exactly when the actor has
   an app of its own or nobody up the chain has one; otherwise a minting app is read as no app.
   */
  lemma UnresolvedIssuerHidesApp(actor: Actor)
    requires actor.accessToken.Some? && actor.accessToken.value.issuer.effectiveApp.Absent?
    ensures MakeActor(actor).effectiveApp == Resolved(WalkApp(actor)) <==>
      actor.app.Some? || WalkApp(actor.accessToken.value.issuer).None?
  {
  }

  /** Building an actor changes `effectiveApp` and nothing else: it is who it was, with the key it had. */
  lemma BuildingKeepsActor(actor: Actor)
    ensures var built := MakeActor(actor);
      && built.uuid == actor.uuid && built.app == actor.app && built.system == actor.system && built.accessToken == actor.accessToken
      && ActorUid(built) == ActorUid(actor) && IdentityOf(built) == IdentityOf(actor) && WalkApp(built) == WalkApp(actor)
      && MakeActor(built) == built
  {
  }

  /** Over a built issuer the builder builds, and the app it finds is the one that the walk finds from the actor passed in. */
  lemma BuiltByBuilder(actor: Actor)
    requires actor.accessToken.Some? ==> Built(actor.accessToken.value.issuer)
    ensures Built(MakeActor(actor)) && MakeActor(actor).effectiveApp == Resolved(WalkApp(actor))
  {
    OneHopIsTheWalk(MakeActor(actor));
  }

  /** The walk: an actor's own app, else its issuer's walk, else none. */
  lemma WalkMeans(actor: Actor)
    ensures actor.app.Some? ==> WalkApp(actor) == actor.app
    ensures actor.app.None? && actor.accessToken.Some? ==> WalkApp(actor) == WalkApp(actor.accessToken.value.issuer)
    ensures actor.app.None? && actor.accessToken.None? ==> WalkApp(actor) == None
  {
  }

  // ----- the cache key -----

  predicate IsSystemActor(actor: Actor) {
    actor.system || actor.uuid == Some(SYSTEM_ACTOR_UUID)
  }

  /** How a missing uuid is interpolated. */
  function UuidText(actor: Actor): string {
    actor.uuid.GetOr("undefined")
  }

  function ActorUid(actor: Actor): string {
    if actor.accessToken.Some? then
      var token := actor.accessToken.value;
      var authorized := if token.authorized.Some? then ActorUid(token.authorized.value) else "<none>";
      "access-token:" + ActorUid(token.issuer) + ":" + authorized + ":" + token.uid
    else if IsSystemActor(actor) then "system"
    else if actor.app.Some? then "app-under-user:" + UuidText(actor) + ":" + actor.app.value
    else "user:" + UuidText(actor)
  }

  /** The text of the key, for each kind of actor. */
  lemma KeyFormat(actor: Actor)
    ensures var uuid := if actor.uuid.Some? then actor.uuid.value else "undefined";
      var system := actor.system || actor.uuid == Some("5d4adce0-a381-4982-9c02-6e2540026238");
      match actor.accessToken
      case None =>
        ActorUid(actor) ==
          if system then "system"
          else if actor.app.Some? then "app-under-user:" + uuid + ":" + actor.app.value
          else "user:" + uuid
      case Some(token) =>
        ActorUid(actor) == "access-token:" + ActorUid(token.issuer) + ":"
          + (if token.authorized.Some? then ActorUid(token.authorized.value) else "<none>") + ":" + token.uid
  {
  }

  /** What a key is meant to tell apart. */
  datatype Identity =
    | SystemId
    | UserId(uuid: string)
    | AppId(uuid: string, app: string)
    | TokenId(issuer: Identity, authorized: Option<Identity>, uid: string)

  function IdentityOf(actor: Actor): Identity {
    if actor.accessToken.Some? then
      var token := actor.accessToken.value;
      TokenId(
        IdentityOf(token.issuer),
        if token.authorized.Some? then Some(IdentityOf(token.authorized.value)) else None,
        token.uid)
    else if IsSystemActor(actor) then SystemId
    else if actor.app.Some? then AppId(UuidText(actor), actor.app.value)
    else UserId(UuidText(actor))
  }

  predicate ColonFree(id: Identity) {
    match id
    case SystemId => true
    case UserId(uuid) => Free(uuid, ':')
    case AppId(uuid, app) => Free(uuid, ':') && Free(app, ':')
    case TokenId(issuer, authorized, uid) =>
      ColonFree(issuer) && (authorized.Some? ==> ColonFree(authorized.value)) && Free(uid, ':')
  }

  function Kind(id: Identity): string {
    match id
    case SystemId => "system"
    case UserId(_) => "user"
    case AppId(_, _) => "app-under-user"
    case TokenId(_, _, _) => "access-token"
  }

  /** The key followed by a colon and `rest`, written from the left one field at a time. */
  function Fields(id: Identity, rest: string): string
    decreases id
  {
    Kind(id) + ":" + Arguments(id, rest)
  }

  function Arguments(id: Identity, rest: string): string
    decreases id, 0
  {
    match id
    case SystemId => rest
    case UserId(uuid) => uuid + ":" + rest
    case AppId(uuid, app) => uuid + ":" + (app + ":" + rest)
    case TokenId(issuer, authorized, uid) => Fields(issuer, AuthorizedFields(authorized, uid + ":" + rest))
  }

  function AuthorizedFields(authorized: Option<Identity>, rest: string): string
    decreases authorized
  {
    if authorized.Some? then Fields(authorized.value, rest) else "<none>" + ":" + rest
  }

  lemma Regroup2(k: string, i: string, r: string)
    ensures k + ":" + i + ":" + r == k + ":" + (i + ":" + r)
  {
  }

  lemma Regroup4(k: string, i: string, a: string, u: string, r: string)
    ensures k + ":" + i + ":" + a + ":" + u + ":" + r == k + ":" + (i + ":" + (a + ":" + (u + ":" + r)))
  {
    Regroup2(k + ":" + i + ":" + a, u, r);
    Regroup2(k + ":" + i, a, u + ":" + r);
    Regroup2(k, i, a + ":" + (u + ":" + r));
  }

  lemma {:induction false} KeyAsFields(actor: Actor, rest: string)
    ensures ActorUid(actor) + ":" + rest == Fields(IdentityOf(actor), rest)
    decreases actor
  {
    if actor.accessToken.Some? {
      TokenKeyAsFields(actor, rest);
    } else if IsSystemActor(actor) {
    } else if actor.app.Some? {
      assert "app-under-user:" == "app-under-user" + ":";
      Regroup2("app-under-user" + ":" + UuidText(actor), actor.app.value, rest);
      Regroup2("app-under-user", UuidText(actor), actor.app.value + ":" + rest);
    } else {
      assert "user:" == "user" + ":";
      Regroup2("user", UuidText(actor), rest);
    }
  }

  lemma {:induction false} TokenKeyAsFields(actor: Actor, rest: string)
    requires actor.accessToken.Some?
    ensures ActorUid(actor) + ":" + rest == Fields(IdentityOf(actor), rest)
    decreases actor, 0
  {
    var token := actor.accessToken.value;
    var tail := token.uid + ":" + rest;
    var a := if token.authorized.Some? then ActorUid(token.authorized.value) else "<none>";
    assert "access-token:" == "access-token" + ":";
    Regroup4("access-token", ActorUid(token.issuer), a, token.uid, rest);
    if token.authorized.Some? {
      KeyAsFields(token.authorized.value, tail);
    }
    KeyAsFields(token.issuer, a + ":" + tail);
    var id := IdentityOf(actor);
    assert AuthorizedFields(id.authorized, tail) == a + ":" + tail;
    assert Arguments(id, rest) == Fields(IdentityOf(token.issuer), a + ":" + tail);
  }

  /** A colon-free first field can be read off. */
  lemma FirstField(a: string, b: string, s: string, t: string)
    requires Free(a, ':') && Free(b, ':') && a + ":" + s == b + ":" + t
    ensures a == b && s == t
  {
    var w := a + ":" + s;
    assert w[|a|] == ':' && (b + ":" + t)[|b|] == ':';
    assert forall i :: 0 <= i < |a| ==> w[i] == a[i];
    assert forall i :: 0 <= i < |b| ==> w[i] == b[i];
    assert |a| == |b|;
    assert w[..|a|] == a && w[..|b|] == b;
    assert w[|a| + 1..] == s && w[|b| + 1..] == t;
  }

  lemma KindsApart(x: Identity, y: Identity)
    ensures Free(Kind(x), ':') && Kind(x) != "<none>"
    ensures Kind(x) == Kind(y) ==> (x.SystemId? <==> y.SystemId?) && (x.UserId? <==> y.UserId?) && (x.AppId? <==> y.AppId?)
  {
    assert |"system"| == 6 && |"user"| == 4 && |"app-under-user"| == 14 && |"access-token"| == 12;
  }

  lemma {:induction false} FieldsDetermine(x: Identity, y: Identity, s: string, t: string)
    requires ColonFree(x) && ColonFree(y) && Fields(x, s) == Fields(y, t)
    ensures x == y && s == t
    decreases x, 1
  {
    KindsApart(x, y);
    KindsApart(y, x);
    FirstField(Kind(x), Kind(y), Arguments(x, s), Arguments(y, t));
    match x
    case SystemId =>
    case UserId(uuid) =>
      FirstField(uuid, y.uuid, s, t);
    case AppId(uuid, app) =>
      FirstField(uuid, y.uuid, app + ":" + s, y.app + ":" + t);
      FirstField(app, y.app, s, t);
    case TokenId(issuer, authorized, uid) =>
      var s1, t1 := uid + ":" + s, y.uid + ":" + t;
      FieldsDetermine(issuer, y.issuer, AuthorizedFields(authorized, s1), AuthorizedFields(y.authorized, t1));
      AuthorizedDetermine(authorized, y.authorized, s1, t1);
      FirstField(uid, y.uid, s, t);
  }

  lemma {:induction false} AuthorizedDetermine(x: Option<Identity>, y: Option<Identity>, s: string, t: string)
    requires (x.Some? ==> ColonFree(x.value)) && (y.Some? ==> ColonFree(y.value))
    requires AuthorizedFields(x, s) == AuthorizedFields(y, t)
    ensures x == y && s == t
    decreases x, 0
  {
    if x.Some? && y.Some? {
      FieldsDetermine(x.value, y.value, s, t);
    } else if x.Some? {
      KindsApart(x.value, x.value);
      FirstField(Kind(x.value), "<none>", Arguments(x.value, s), t);
    } else if y.Some? {
      KindsApart(y.value, y.value);
      FirstField("<none>", Kind(y.value), s, Arguments(y.value, t));
    } else {
      FirstField("<none>", "<none>", s, t);
    }
  }

  /** No colon in any field but the one that ends the key. */
  predicate ColonFreeButLast(id: Identity) {
    match id
    case SystemId => true
    case UserId(_) => true
    case AppId(uuid, _) => Free(uuid, ':')
    case TokenId(issuer, authorized, _) => ColonFree(issuer) && (authorized.Some? ==> ColonFree(authorized.value))
  }

  /** What follows the first colon of a key. */
  function KeyTail(id: Identity): string {
    match id
    case SystemId => ""
    case UserId(uuid) => uuid
    case AppId(uuid, app) => uuid + ":" + app
    case TokenId(issuer, authorized, uid) => Fields(issuer, AuthorizedFields(authorized, uid))
  }

  lemma Regroup3(k: string, i: string, a: string, u: string)
    ensures k + ":" + i + ":" + a + ":" + u == k + ":" + (i + ":" + (a + ":" + u))
  {
    Regroup2(k + ":" + i, a, u);
    Regroup2(k, i, a + ":" + u);
  }

  lemma KeyOfToken(actor: Actor)
    requires actor.accessToken.Some?
    ensures ActorUid(actor) == "access-token" + ":" + KeyTail(IdentityOf(actor))
  {
    var token := actor.accessToken.value;
    var k, a := ActorUid(token.issuer), if token.authorized.Some? then ActorUid(token.authorized.value) else "<none>";
    assert "access-token:" == "access-token" + ":";
    assert ActorUid(actor) == "access-token" + ":" + k + ":" + a + ":" + token.uid;
    Regroup3("access-token", k, a, token.uid);
    TokenTail(actor, k, a);
  }

  lemma TokenTail(actor: Actor, k: string, a: string)
    requires actor.accessToken.Some? && k == ActorUid(actor.accessToken.value.issuer)
    requires var authorized := actor.accessToken.value.authorized;
      a == if authorized.Some? then ActorUid(authorized.value) else "<none>"
    ensures KeyTail(IdentityOf(actor)) == k + ":" + (a + ":" + actor.accessToken.value.uid)
  {
    hide ActorUid;
    var token := actor.accessToken.value;
    KeyAsFields(token.issuer, a + ":" + token.uid);
    if token.authorized.Some? {
      KeyAsFields(token.authorized.value, token.uid);
    }
    hide Fields;
    assert AuthorizedFields(IdentityOf(actor).authorized, token.uid) == a + ":" + token.uid;
  }

  lemma KeyOfIdentity(actor: Actor)
    ensures var id := IdentityOf(actor); ActorUid(actor) == if id.SystemId? then "system" else Kind(id) + ":" + KeyTail(id)
  {
    if actor.accessToken.Some? {
      hide ActorUid, KeyTail;
      KeyOfToken(actor);
    } else if !IsSystemActor(actor) && actor.app.Some? {
      assert "app-under-user:" == "app-under-user" + ":";
    } else if !IsSystemActor(actor) {
      assert "user:" == "user" + ":";
    }
  }

  lemma TailDetermines(x: Identity, y: Identity)
    requires ColonFreeButLast(x) && ColonFreeButLast(y) && Kind(x) == Kind(y) && KeyTail(x) == KeyTail(y)
    ensures x == y
  {
    KindsApart(x, y);
    match x
    case SystemId =>
    case UserId(_) =>
    case AppId(uuid, app) =>
      FirstField(uuid, y.uuid, app, y.app);
    case TokenId(issuer, authorized, uid) =>
      FieldsDetermine(issuer, y.issuer, AuthorizedFields(authorized, uid), AuthorizedFields(y.authorized, y.uid));
      AuthorizedDetermine(authorized, y.authorized, uid, y.uid);
  }

  /**
   Equal keys mean the same identity, at any nesting depth, when no field but the last holds a
   colon: the user's uuid, an app's uid, or the outermost token's uid may be any text.
   */
  lemma KeyIsUnambiguous(a: Actor, b: Actor)
    requires ColonFreeButLast(IdentityOf(a)) && ColonFreeButLast(IdentityOf(b))
    ensures ActorUid(a) == ActorUid(b) <==> IdentityOf(a) == IdentityOf(b)
  {
    hide ActorUid, IdentityOf, KeyTail, ColonFreeButLast;
    var x, y := IdentityOf(a), IdentityOf(b);
    KeyOfIdentity(a);
    KeyOfIdentity(b);
    KindsApart(x, y);
    KindsApart(y, x);
    assert !x.SystemId? ==> ActorUid(a)[|Kind(x)|] == ':';
    assert !y.SystemId? ==> ActorUid(b)[|Kind(y)|] == ':';
    assert Free("system", ':');
    if ActorUid(a) == ActorUid(b) && !x.SystemId? && !y.SystemId? {
      FirstField(Kind(x), Kind(y), KeyTail(x), KeyTail(y));
      TailDetermines(x, y);
    }
  }

  lemma SystemHasNoColon()
    ensures Free(SYSTEM_ACTOR_UUID, ':')
  {
  }

  /** A colon in an app actor's user uuid gives the key to a second identity, unless the system's uuid comes before it. */
  lemma ColonMakesKeysCollide(p: string, q: string, app: string)
    requires p != SYSTEM_ACTOR_UUID
    ensures var a := Actor(Some(p + ":" + q), Some(app), Absent, false, None);
      var b := Actor(Some(p), Some(q + ":" + app), Absent, false, None);
      ActorUid(a) == ActorUid(b) && IdentityOf(a) != IdentityOf(b)
  {
    SystemHasNoColon();
    assert (p + ":" + q)[|p|] == ':';
    assert |p + ":" + q| > |p|;
    assert "app-under-user:" + (p + ":" + q) + ":" + app == "app-under-user:" + p + ":" + (q + ":" + app);
  }

  predicate IsAppActor(actor: Actor) {
    actor.accessToken.None? && actor.app.Some? && !IsSystemActor(actor)
  }

  ghost predicate SharesKey(a: Actor) {
    exists b: Actor :: ActorUid(b) == ActorUid(a) && IdentityOf(b) != IdentityOf(a)
  }

  /** A colon somewhere, with other text than the system's uuid before it. */
  ghost predicate ColonAfterOther(s: string) {
    exists k :: 0 <= k < |s| && s[k] == ':' && s[..k] != SYSTEM_ACTOR_UUID
  }

  function AppActor(uuid: string, app: string): Actor {
    Actor(Some(uuid), Some(app), Absent, false, None)
  }

  lemma AppKey(actor: Actor)
    requires IsAppActor(actor)
    ensures ActorUid(actor) == "app-under-user" + ":" + (UuidText(actor) + ":" + actor.app.value)
    ensures IdentityOf(actor) == AppId(UuidText(actor), actor.app.value)
  {
    assert "app-under-user:" == "app-under-user" + ":";
    Regroup("app-under-user" + ":" + UuidText(actor), ":", actor.app.value);
    Regroup("app-under-user" + ":", UuidText(actor), ":" + actor.app.value);
    Regroup(UuidText(actor), ":", actor.app.value);
  }

  /** Whoever shares an app actor's key is an app actor. */
  lemma AppKeyIsAppActor(a: Actor, b: Actor)
    requires IsAppActor(a) && ActorUid(a) == ActorUid(b)
    ensures IsAppActor(b) && UuidText(a) + ":" + a.app.value == UuidText(b) + ":" + b.app.value
  {
    hide ActorUid, KeyTail;
    AppKey(a);
    KeyOfIdentity(b);
    KindsApart(IdentityOf(a), IdentityOf(b));
    KindsApart(IdentityOf(b), IdentityOf(a));
    assert ActorUid(a)[14] == ':' && |"system"| == 6;
    FirstField("app-under-user", Kind(IdentityOf(b)), UuidText(a) + ":" + a.app.value, KeyTail(IdentityOf(b)));
    AppKey(b);
    FirstField("app-under-user", "app-under-user", UuidText(a) + ":" + a.app.value, UuidText(b) + ":" + b.app.value);
  }

  /** A text cut at two colons. */
  lemma TwoCuts(u: string, x: string, v: string, y: string)
    requires u + ":" + x == v + ":" + y
    ensures |v| < |u| ==> u[|v|] == ':' && u[..|v|] == v
    ensures |u| < |v| ==> !Free(x, ':')
    ensures |u| == |v| ==> u == v && x == y
  {
    var s, t := u + ":" + x, v + ":" + y;
    assert t[|v|] == ':' && t[..|v|] == v && s[..|u|] == u;
    assert |v| < |u| ==> s[|v|] == u[|v|] && u[..|v|] == s[..|v|];
    assert |u| < |v| ==> s[|v|] == x[|v| - |u| - 1];
    assert s[|u| + 1..] == x && t[|v| + 1..] == y;
  }

  /** An app actor shares its key with another identity exactly when its app's uid holds a colon, or its user's uuid one after other text than the system's uuid. */
  lemma AppKeyIsSharedIff(a: Actor)
    requires IsAppActor(a)
    ensures SharesKey(a) <==> !Free(a.app.value, ':') || ColonAfterOther(UuidText(a))
  {
    hide ActorUid, IdentityOf;
    var uuid, app := UuidText(a), a.app.value;
    if SharesKey(a) {
      var b: Actor :| ActorUid(b) == ActorUid(a) && IdentityOf(b) != IdentityOf(a);
      SharerNeedsColon(a, b);
    } else {
      if ColonAfterOther(uuid) {
        var k :| 0 <= k < |uuid| && uuid[k] == ':' && uuid[..k] != SYSTEM_ACTOR_UUID;
        ColonInUser(a, k);
      }
      if !Free(app, ':') {
        var k :| 0 <= k < |app| && app[k] == ':';
        ColonInApp(a, k);
      }
    }
  }

  lemma ColonInUser(a: Actor, k: nat)
    requires IsAppActor(a) && k < |UuidText(a)| && UuidText(a)[k] == ':' && UuidText(a)[..k] != SYSTEM_ACTOR_UUID
    ensures SharesKey(a)
  {
    hide ActorUid, IdentityOf;
    var uuid, app := UuidText(a), a.app.value;
    assert uuid == uuid[..k] + ":" + uuid[k + 1..];
    Regroup(uuid[..k] + ":", uuid[k + 1..], ":" + app);
    Regroup(uuid[k + 1..], ":", app);
    Regroup(uuid, ":", app);
    SharedWith(a, uuid[..k], uuid[k + 1..] + ":" + app);
  }

  lemma ColonInApp(a: Actor, k: nat)
    requires IsAppActor(a) && k < |a.app.value| && a.app.value[k] == ':'
    ensures SharesKey(a)
  {
    hide ActorUid, IdentityOf;
    var uuid, app := UuidText(a), a.app.value;
    assert app == app[..k] + ":" + app[k + 1..];
    SystemHasNoColon();
    assert (uuid + ":" + app[..k])[|uuid|] == ':';
    Regroup(uuid + ":", app[..k], ":" + app[k + 1..]);
    Regroup(app[..k], ":", app[k + 1..]);
    Regroup(uuid + ":" + app[..k], ":", app[k + 1..]);
    SharedWith(a, uuid + ":" + app[..k], app[k + 1..]);
  }

  lemma SharerNeedsColon(a: Actor, b: Actor)
    requires IsAppActor(a) && ActorUid(b) == ActorUid(a) && IdentityOf(b) != IdentityOf(a)
    ensures !Free(a.app.value, ':') || ColonAfterOther(UuidText(a))
  {
    hide ActorUid;
    AppKeyIsAppActor(a, b);
    AppKey(a);
    AppKey(b);
    TwoCuts(UuidText(a), a.app.value, UuidText(b), b.app.value);
  }

  lemma SharedWith(a: Actor, v: string, y: string)
    requires IsAppActor(a) && UuidText(a) + ":" + a.app.value == v + ":" + y && v != UuidText(a) && v != SYSTEM_ACTOR_UUID
    ensures SharesKey(a)
  {
    hide ActorUid, IdentityOf;
    var b := AppActor(v, y);
    AppKey(a);
    AppKey(b);
    assert ActorUid(b) == ActorUid(a) && IdentityOf(b) != IdentityOf(a);
  }

  /** The actor with more text at the end of the field that ends its key. */
  function Lengthen(actor: Actor, more: string): Actor {
    if actor.accessToken.Some? then
      actor.(accessToken := Some(actor.accessToken.value.(uid := actor.accessToken.value.uid + more)))
    else if actor.app.Some? then actor.(app := Some(actor.app.value + more))
    else actor.(uuid := Some(UuidText(actor) + more))
  }

  lemma LengthenedIsNotSystem(text: string, more: string)
    requires !Free(more, ':')
    ensures text + more != SYSTEM_ACTOR_UUID
  {
    SystemHasNoColon();
    var i :| 0 <= i < |more| && more[i] == ':';
    assert (text + more)[|text| + i] == ':';
  }

  lemma LengthenedKey(actor: Actor, more: string)
    requires IdentityOf(actor) != SystemId && !Free(more, ':')
    ensures ActorUid(Lengthen(actor, more)) == ActorUid(actor) + more
  {
    if actor.accessToken.Some? {
      var token := actor.accessToken.value;
      var a := if token.authorized.Some? then ActorUid(token.authorized.value) else "<none>";
      Regroup("access-token:" + ActorUid(token.issuer) + ":" + a + ":", token.uid, more);
    } else if actor.app.Some? {
      Regroup("app-under-user:" + UuidText(actor) + ":", actor.app.value, more);
    } else {
      LengthenedIsNotSystem(UuidText(actor), more);
      Regroup("user:", UuidText(actor), more);
    }
  }

  /**
   Deeper down a colon in the last field, be it a user's, an app's or a token's, makes keys collide:
   every issuer that is not the system has a lengthened double whose token shares a key with one of its own.
   */
  lemma InnerColonCollides(issuer: Actor, uid: string, uuid: Option<string>)
    requires IdentityOf(issuer) != SystemId
    ensures var double := Lengthen(issuer, ":<none>");
      var a := Actor(uuid, None, Absent, false, Some(AccessToken("<none>:" + uid, issuer, None)));
      var b := Actor(uuid, None, Absent, false, Some(AccessToken(uid, double, None)));
      ActorUid(a) == ActorUid(b) && IdentityOf(a) != IdentityOf(b)
  {
    var more := ":<none>";
    assert more[0] == ':';
    LengthenedKey(issuer, more);
    var k := ActorUid(issuer);
    calc {
      "access-token:" + k + ":" + "<none>" + ":" + ("<none>:" + uid);
      { assert "<none>:" == "<none>" + ":" && more == ":" + "<none>"; }
      "access-token:" + (k + more) + ":" + "<none>" + ":" + uid;
    }
    assert |"<none>:" + uid| > |uid|;
  }

  // ----- the user behind an actor -----

  function UserRelatedActor(actor: Actor): Actor {
    if actor.app.None? && actor.accessToken.None? then actor
    else Actor(actor.uuid, None, Resolved(None), false, None)
  }

  /** The user behind an actor acts as no app, is its own user, and only keeps `system` if it was a plain actor. */
  lemma UserBehindActor(actor: Actor)
    ensures var user := UserRelatedActor(actor);
      && UserRelatedActor(user) == user && user.uuid == actor.uuid
      && (actor.app.None? && actor.accessToken.None? ==> user == actor)
      && (actor.app.Some? || actor.accessToken.Some? ==> user == Actor(actor.uuid, None, Resolved(None), false, None))
      && WalkApp(user).None?
      && (Built(actor) ==> Built(user))
      && (IdentityOf(user) == SystemId || IdentityOf(user) == UserId(UuidText(actor)))
      && (IdentityOf(user) == SystemId <==>
          actor.uuid == Some(SYSTEM_ACTOR_UUID) || (actor.system && actor.app.None? && actor.accessToken.None?))
  {
  }
}
