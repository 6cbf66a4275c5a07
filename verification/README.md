# Verified models of Puter's self-contained algorithms

Puter is mostly wiring between libraries, but some of its algorithms stand on
their own and promise something about every input or every run. This project
models them, from thirteen source files, and proves those promises. `dafny verify dfyconfig.toml` checks the whole project.

| file | models |
|---|---|
| `WorkerPool.dfy` | the bounded worker pool, fail-fast and settled, under every interleaving of its runners |
| `Scrub.dfy` | the in-place scrub of a `/whoami` response, on a heap of shared and cyclic objects |
| `Thumbnails.dfy` | thumbnail pointers, and who owns which bucket object over whole runs of the handlers |
| `AppIcon.dfy` | strict base64, icon data URLs and their normal form |
| `Actor.dfy` | the derived app and the cache key of actors with nested access tokens |
| `DirTree.dfy` | the upload directory tree, a trie on the heap, and what it is asked |
| `RouteGates.dfy` | route options compiled to a gate chain, and what the chain does with a request |
| `ServerRun.dfy` | joined route paths, and the once-only prepare-shutdown hooks |
| `HostedUrls.dfy` | index URLs on the hosting domains, built and read back |
| `ProxyLogger.dfy` | the dev watcher's chunked line splitter |
| `DriverMethods.dfy` | the callable methods along a prototype chain |
| `ConfigMerge.dfy` | the recursive config merge |
| `FileSigning.dfy` | the signed message behind file URLs and its verification |
| `Email.dfy` | canonical email addresses and the abuse key |
| `Text.dfy`, `Wrappers.dfy` | string operations and `Option`, shared by the others |

How to read the models:

- Code that changes objects or loops is imperative here too, and its methods are
  proved against specification functions or relations. The lemmas are about
  those.
- `async` code is a step system: a step is what runs between two suspension
  points, and a run is any sequence of enabled steps. `WorkerPool.RunPool` and
  the class `SharedPool` tie the step system to code that updates a cursor and
  arrays.
- Libraries are parameters with only the assumptions that a statement needs: the
  URL parser, the UTF-8 decoder, SHA-256, number printing, the image decoder,
  the bucket's answers, and the gates whose code is elsewhere.

Results that differ from what the code or its comments say, each with the exact
condition under which the promise is kept:

- The scrub reaches everything that can be reached when no simple path from the
  root is longer than 8 edges (`ScrubReach.VisitedIsReachable`). On a graph without
  sharing, such as parsed JSON, that bound is exact
  (`ScrubReach.TreeIsCompleteIffShallow`), and on any graph a complete walk leaves
  nothing more than 8 edges away (`ScrubReach.CompleteIsNear`). With shared objects
  the walk may miss one two edges from the root
  (`ScrubReach.DepthLimitMissesNearObjects`, `ScrubReach.ScrubMissesEntry`).
- `merge(merge(a, b), c)` equals `merge(a, merge(b, c))` exactly under
  `ConfigMerge.Associates`: where the middle config holds a non-object between
  two objects, the last one must set everything that the first one sets there.
  Never having such a middle value is enough but not necessary.
- `cleanEmail` and `abuseKey` are idempotent for every address except those whose
  domain is `constructor` or `__proto__`. A lookup of these two names in a record
  finds an inherited object, whose text becomes the domain.
- A thumbnail pointer resolves to its own key exactly when the bucket's name holds
  no slash (`ThumbnailPointer.PointerRoundTrip`). A row may be given a pointer, and
  a row may be removed, exactly under the conditions of
  `ThumbnailStore.PlainWriteSafeIff` and `ThumbnailStore.RemovalSafeIffUnshared`.
- The comment above the candidate builder speaks of every `index_url` that
  resolves to a name. Of the web URLs on the name's host, candidates are exactly
  those with one of three paths and with no port or a configured one
  (`HostedUrls.ResolvingUrlIsCandidateIff`); another path or port, a query or a
  fragment resolves to the name all the same. A name is read back from its host exactly when no longer
  domain overshadows it (`HostedUrls.HostRoundTrip`), so always when it has no dot.
- `allowedAppIds` is documented to reject all but the listed apps. The gates do so
  exactly for callers with an app of their own (`RouteGates.AllowListIsKeptIff`).
  Counting tokens for the app that minted them, they also do where that app is
  listed (`RouteGates.AllowListAndMintersIff`). A user without an app, and a
  full-access token that any app minted, are let in
  (`RouteGates.UnlistedCallersGetIn`).
- The gates of a `use` route run before the handler's own host check. A request is
  passed on exactly when it is admitted and its host is not listed, and refused
  exactly when it is not admitted, whatever its host (`RouteGates.UseServesIff`).
- A second overlapping call of the prepare-shutdown hooks may return while hook 0,
  which has started, is still pending (`ShutdownHooks.SecondCallDoesNotWait`). A
  call returns before every hook has fulfilled exactly when the flag was set when
  it began and another call was still waiting for a hook or had been thrown at by
  one (`ShutdownHooks.ReturnsEarlyIff`).
- An actor's key is unambiguous as long as only its last field holds a colon
  (`Actors.KeyIsUnambiguous`); for app actors `Actors.AppKeyIsSharedIff` is exact.
- Signed messages tell two different secrets apart exactly when neither ends with
  an action component and the other (`FileSigning.SecretsShareIff`).

## Model

| member | source | states |
|---|---|---|
| WorkerPool.StepInv | src/backend/util/concurrency.ts:29-49 | every step of every runner keeps the pool invariant: the claimed indices are 0..next-1, each claimed once and by one runner; a slot holds its own index's outcome or is owed by the runner that claimed it; a rejection is the failure of some runner that threw |
| WorkerPool.ConcurrencyBound | src/backend/util/concurrency.ts:29-49 | there are min(max(1, concurrency), length) runners, calls in flight and failures together never exceed that, and the claimed indices without a result are exactly those in flight or failed |
| WorkerPool.ClaimsAndSlots | src/backend/util/concurrency.ts:33-46 | in every state of every run: claimed indices are 0..next-1 in order, each with one runner; a filled slot holds its own item's outcome; a call in flight is its claimer's and has no result yet |
| WorkerPool.AllRunnersInFlight | src/backend/util/concurrency.ts:48-49 | some run has every runner in flight at once, on different items |
| WorkerPool.AnyRunnerMayMove | src/backend/util/concurrency.ts:33-47 | any runner that waits for its turn or its call may move next |
| WorkerPool.QuiescentClaims | src/backend/util/concurrency.ts:33-50 | once every runner has stopped, every index was claimed or every runner has thrown |
| WorkerPool.FinishedPool | src/backend/util/concurrency.ts:20-51 | a finished pool resolved exactly when no item is missing and, failing fast, no call throws, and then holds the sequential outcomes in input order; otherwise it rejected with a missing item's index or a throwing call's own reason |
| WorkerPool.InterleavingDoesNotMatter | src/backend/util/concurrency.ts:53-96 | two complete runs of a pool agree on rejecting and on the results |
| WorkerPool.SettledRejectsOnlyOnMissing | src/backend/util/concurrency.ts:53-96 | in settled mode a throwing call is an outcome like any other; only an `undefined` item rejects |
| WorkerPool.RunsAreBounded | src/backend/util/concurrency.ts:33-47 | no run takes more than 3 times the length plus the worker count steps |
| WorkerPool.Progress | src/backend/util/concurrency.ts:33-47 | a pool with a live runner can always move |
| WorkerPool.SequentialAt | src/backend/util/concurrency.ts:53-96 | the reference result: defined exactly when no item is `undefined`, and then item by item |
| WorkerPool.SharedPool.ClaimNext | src/backend/util/concurrency.ts:35-44 | one turn of a runner's loop on the shared cursor, results and runners is the `Claim` step and keeps the invariant |
| WorkerPool.SharedPool.Settle | src/backend/util/concurrency.ts:79-91 | a call that settles is the `Resume` step: it fills its own slot, or its runner throws and the first failure is kept |
| WorkerPool.RunPool | src/backend/util/concurrency.ts:20-51 | for every schedule: resolves iff no item is missing and, failing fast, no call throws, then with the sequential outcomes, else rejects with a missing item's index or a throwing call's own reason |
| Scrub.ScrubSensitive | extensions/whoami.ts:71-96 | the walk enters exactly the objects of `Visit` not seen before, each once, scrubs those and leaves every other object as it was |
| Scrub.ScrubArray | extensions/whoami.ts:80-83 | an array's entries are walked in order and stay; what is visited and scrubbed on the way is what `VisitAll` says |
| Scrub.ScrubObject | extensions/whoami.ts:85-95 | an object loses its sensitive keys and no others while the kept entries are walked, even when the walk comes back to it |
| Scrub.VisitSame | extensions/whoami.ts:71-96 | deleting sensitive keys on the way does not change the course of the walk |
| Scrub.EntriesAfter | extensions/whoami.ts:85-95 | entry by entry, a scrub leaves all but the sensitive ones of the visited objects that are no arrays |
| ScrubReach.SensitiveKeys | extensions/whoami.ts:49-67 | which keys are sensitive |
| ScrubReach.ShallowMeans | extensions/whoami.ts:76 | the bound is nine objects on a simple path, eight edges |
| ScrubReach.VisitedIsReachable | extensions/whoami.ts:71-96 | when no simple path from the root is longer than 8 edges, the visited set is exactly what can be reached through kept entries |
| ScrubReach.VisitComplete | extensions/whoami.ts:71-96 | on such a graph everything the walk enters leads to seen objects only |
| ScrubReach.VisitReachable | extensions/whoami.ts:71-96 | on any graph whatever the walk enters can be reached through kept entries, along a path of at most 8 edges |
| ScrubReach.ScrubbedResponseIsClean | extensions/whoami.ts:71-96 | after the scrub of such a graph no object that can still be reached has a sensitive key |
| ScrubReach.ScrubResponse | extensions/whoami.ts:274 | the handler's call on a fresh `seen` set: the exact new heap, and a clean response on such a graph |
| ScrubReach.CompleteIsNear | extensions/whoami.ts:76 | on any graph, a walk that enters all that can be reached leaves nothing more than 8 edges away |
| ScrubReach.TreeIsCompleteIffShallow | extensions/whoami.ts:71-96 | when no object can be reached in two ways, the walk enters exactly what can be reached iff no path from the root is longer than 8 edges |
| ScrubReach.DepthLimitMissesNearObjects | extensions/whoami.ts:76 | with shared objects, a path within the limit is not enough: an object two edges from the root is missed |
| ScrubReach.ScrubMissesEntry | extensions/whoami.ts:71-96 | on a heap built object by object, the scrub leaves a sensitive entry two links from the root |
| ThumbnailPointer.Resolve | extensions/thumbnails.ts:42-63 | whatever a pointer resolves to is a key under the prefix with a uuid |
| ThumbnailPointer.PointerRoundTrip | extensions/thumbnails.ts:42-63 | a minted pointer resolves to its own key iff the bucket name has no slash, else to nothing |
| ThumbnailPointer.ResolveIff | extensions/thumbnails.ts:42-49 | an s3 pointer resolves to a key iff the key follows a slash-free bucket and is the prefix and a uuid, character by character |
| ThumbnailPointer.ResolveLegacyIff | extensions/thumbnails.ts:50-63 | any other pointer does iff such a key follows the first segment of the path that the URL parser finds |
| ThumbnailStore.EventKeepsInv | extensions/thumbnails.ts:151-350 | every event keeps: keys in play are minted, a reserved or doomed key is in no row, and two rows share an object only while one of them is a copy not dealt with yet |
| ThumbnailStore.RunKeepsInv | extensions/thumbnails.ts:151-350 | the same over every run |
| ThumbnailStore.EventEffects | extensions/thumbnails.ts:151-350 | what each event does to the rows and to the bucket, written out |
| ThumbnailStore.EventAwaits | extensions/thumbnails.ts:151-350 | what each event leaves waiting: keys without a row yet, copies to deal with, objects to delete |
| ThumbnailStore.RowsOwnTheirObjects | extensions/thumbnails.ts:284-331 | whenever all copies are dealt with, failed ones included, no two rows resolve to the same object |
| ThumbnailStore.DeletesOnlyOrphans | extensions/thumbnails.ts:333-350 | in every run, an object about to be deleted on removal is one that no row points at |
| ThumbnailStore.RunKeepsObject | extensions/thumbnails.ts:333-350 | an object stays in the bucket for as long as some row keeps pointing at it |
| ThumbnailStore.RemovalSafeIffUnshared | extensions/thumbnails.ts:333-350 | a removal dooms an object still in use iff another row shares it |
| ThumbnailStore.EarlyRemovalBreaksCopy | extensions/thumbnails.ts:302-306 | a run in which the source is removed before its copy is dealt with leaves the copy without its object |
| ThumbnailStore.PlantedPointerBreaks | extensions/thumbnails.ts:33-41 | a run in which a row is given another row's pointer leaves it without its object |
| ThumbnailStore.PlainWriteSafeIff | extensions/thumbnails.ts:33-41 | storing a string in a row keeps the invariant iff it resolves to nothing, or to a minted key that nobody awaits, that is not about to be deleted, and that only waiting copies share |
| ThumbnailHandlers.Extension.HandleCreated | extensions/thumbnails.ts:151-175 | only inline data is touched; undecodable data becomes none; accepted data becomes a new pointer that resolves to the stored key; the ownership invariant is kept, no row changes, no object is lost, and no row has the new key |
| ThumbnailHandlers.Extension.HandleUploadPrepare | extensions/thumbnails.ts:177-214 | exactly the eligible items before the first invalid one get an upload and a pointer each, the others stay; rows and bucket are untouched and the invariant is kept |
| ThumbnailHandlers.ServedMeans | extensions/thumbnails.ts:186-213 | an item is served iff it has a content type and a size that is absent or from 0 to 2 MB; it then gets the key and the pointer, and otherwise stays |
| ThumbnailHandlers.ThumbMeans | extensions/thumbnails.ts:226-252 | how a row's string is read: nothing, or the key it resolves to and whether it is inline data |
| ThumbnailHandlers.PrepareGrantsApart | extensions/thumbnails.ts:177-214 | each eligible item gets a key of its own that no row and nobody else has |
| ThumbnailHandlers.Extension.HandleRead | extensions/thumbnails.ts:216-282 | what is shown is the old string, nothing, or a signed URL of a key that the extension could have minted; inline data is stored, and once its row update lands a row that is still there resolves to the stored key; no row changes yet, no object is lost, and the invariant is kept |
| ThumbnailHandlers.Extension.HandleCopy | extensions/thumbnails.ts:284-331 | once its row update lands, a copy whose object was duplicated resolves to the new key, whose object is in the bucket, and to nothing if the duplication failed; no other row ever has that key, no row changes before, no object is lost, and the invariant is kept |
| ThumbnailHandlers.Extension.HandleRemove | extensions/thumbnails.ts:333-350 | at most the one object that a minted pointer names goes; every object that some row resolves to stays, no row changes, and the invariant is kept |
| Base64.StrictIsCanonical | src/backend/util/appIcon.ts:78-90 | the strict decoder returns b for v iff b is nonempty and v is the canonical padded encoding of b |
| Base64.BytesOfSextets | src/backend/util/appIcon.ts:82-85 | the lenient reading undoes the encoding, for byte strings of any length |
| Base64.EncodeGroup | src/backend/util/appIcon.ts:86 | the encoding of three, two, one and no bytes, symbol by symbol, with zero bits and padding at the end |
| Base64.EncodeAppend | src/backend/util/appIcon.ts:86 | the encoding goes group by group, three bytes at a time |
| Base64.SymbolCodes | src/backend/util/appIcon.ts:59 | the alphabet, by character codes |
| Base64.PaddingIsForced | src/backend/util/appIcon.ts:59-80 | given the shape and whole quartets, the padding follows from the rest |
| IconDataUrl.NormalFormIsFixed | src/backend/util/appIcon.ts:178-231 | what is stored for an accepted URL is accepted again and is its own normal form |
| IconDataUrl.AcceptedIff | src/backend/util/appIcon.ts:178-231 | a value is accepted iff, trimmed, it is `data:`, an image type, `;base64` and a comma, in any letter case, and a payload that is, white space aside, the canonical encoding of bytes with that type's signature |
| IconDataUrl.DeclaredVerdict | src/backend/util/appIcon.ts:205-230 | for every declared type and every bytes: accepted with the canonical type, refused for the type that is there instead, or refused as no image |
| IconDataUrl.ReasonIff | src/backend/util/appIcon.ts:182-211 | why a value is refused, in the order of the checks |
| DataUrls.MatchIff | src/backend/util/appIcon.ts:64-65 | the shape: a scheme in any case, a media type, parameters without a comma, a comma, and the payload |
| DataUrls.MediaTypeIff | src/backend/util/appIcon.ts:64-65 | a media type is two nonempty tokens around a slash, each beginning with a letter or a digit |
| DataUrls.ParamsIff | src/backend/util/appIcon.ts:64-65 | parameters are a list, each after a semicolon a token, or a token, `=` and text without a semicolon |
| DataUrls.TokenChars | src/backend/util/appIcon.ts:64-65 | which characters a token may hold |
| ImageBytes.SniffIff | src/backend/util/appIcon.ts:111-146 | which bytes are sniffed as which type, with the signatures written out |
| ImageBytes.OpensAsSvgIff | src/backend/util/appIcon.ts:97-104 | SVG text opens with `<` after a byte order mark and white space, and somewhere in it `<svg` ends a word |
| ImageBytes.SvgTagIff | src/backend/util/appIcon.ts:103 | what counts as `<svg` ending a word, letter by letter |
| IconDataUrl.SniffRawIff | src/backend/util/appIcon.ts:243-256 | raw base64 is taken for an image iff, trimmed, it has 16 characters or more and is the canonical encoding of an image |
| IconDataUrl.PayloadSpacesDoNotMatter | src/backend/util/appIcon.ts:205-208 | white space in the payload changes neither the verdict nor the normal form |
| DataUrls.MatchAppend | src/backend/util/appIcon.ts:64-65 | text after the comma only makes the payload longer |
| IconDataUrl.RenderedParts | src/backend/util/appIcon.ts:64-65 | a rendered URL is read back as its media type, `;base64` and its payload |
| IconDataUrl.SniffedIsCanonical | src/backend/util/appIcon.ts:111-146 | whatever the bytes are sniffed as is an allow-listed canonical type |
| IconDataUrl.WrappedRawValidates | src/backend/util/appIcon.ts:243-282 | a wrapped raw image validates with the type that was sniffed and is a normal form |
| IconDataUrl.NormalizeRawTwice | src/backend/util/appIcon.ts:278-282 | wrapping twice is wrapping once |
| Actors.OneHopIsTheWalk | src/backend/core/actor.ts:94-104 | for actors built throughout by `makeActor`, at any depth of issuers, the one-hop app is the one the whole walk finds |
| Actors.BuildingKeepsActor | src/backend/core/actor.ts:101-104 | building changes `effectiveApp` and no other field, and keeps the key, the identity and the walk; building twice is building once |
| Actors.BuiltByBuilder | src/backend/core/actor.ts:94-104 | over a built issuer the builder builds, and the app it finds is the one the walk finds from the actor passed in |
| Actors.WalkMeans | src/backend/core/actor.ts:40-47 | the walk: the actor's own app, else its issuer's walk, else none |
| Actors.KeyFormat | src/backend/core/actor.ts:143-153 | the text of the key for each kind of actor |
| Actors.UnresolvedIssuerHidesApp | src/backend/core/actor.ts:40-55 | with an issuer that skipped `makeActor` the derived app is right iff the actor has its own app or nobody up the chain has one |
| Actors.KeyIsUnambiguous | src/backend/core/actor.ts:143-153 | equal keys mean the same identity at any nesting depth, and conversely, when no field but the one that ends the key holds a colon |
| Actors.FieldsDetermine | src/backend/core/actor.ts:143-153 | a key followed by any text can be cut off that text in one way only |
| Actors.ColonMakesKeysCollide | src/backend/core/actor.ts:152 | a colon in an app actor's user uuid makes two different identities share a key |
| Actors.AppKeyIsSharedIff | src/backend/core/actor.ts:143-153 | another identity shares an app actor's key iff the app's uid holds a colon, or the user's uuid holds one after other text than the system's uuid |
| Actors.InnerColonCollides | src/backend/core/actor.ts:143-153 | so does a colon that ends the last field of a token's issuer, be it a user's, an app's or a token's, for every issuer that is not the system |
| Actors.UserBehindActor | src/backend/core/actor.ts:159-162 | the related user acts as no app, is its own related user, and stays system only for the system uuid or a plain system actor |
| DirTree.GenerateDirTree | src/dev-center/js/apps.js:2086-2102 | the tree grown through the moving node has one object per trail, and its trails are the closure of the paths |
| DirTree.AddPath | src/dev-center/js/apps.js:2090-2098 | one path adds exactly its own prefixes, all other objects keep their places |
| DirTree.ClosureIsPrefixClosure | src/dev-center/js/apps.js:2086-2102 | the closure is the prefix closure of the input paths, independent of their order |
| DirTree.HasRootIndexHtml | src/dev-center/js/apps.js:2133-2148 | true iff some path starts with index.html, or all paths share one first component c and some path starts with c/index.html |
| DirTree.IndexMeans | src/dev-center/js/apps.js:2133-2148 | what is asked, with the file's name |
| DirTree.SetRootDirTree | src/dev-center/js/apps.js:2104-2131 | items are rewritten in place iff all paths share one first component that has something below it; the components of a listed item's text are then the old ones without the first |
| DirPaths.RemoveFirstDropsRoot | src/dev-center/js/apps.js:2114-2122 | removing the first occurrence of a path's first component drops just that component |
| DirPaths.RemoveFirstAt | src/dev-center/js/apps.js:2114-2122 | the first occurrence of a text is cut out, wherever it is |
| DirPaths.StrippedField | src/dev-center/js/apps.js:2112-2123 | one field of an item is rewritten, depending on which it has |
| RouteGates.Materialize | src/backend/server.ts:889-1248 | boot fails for exactly a malformed subscription, a missing path or an unsupported method; otherwise the path is joined to the prefix, with single slashes, and the chain is in rank order and holds per rank exactly the gates asked for |
| RouteGates.ChainIsDetermined | src/backend/server.ts:889-1188 | order and asked-for gates leave only one chain |
| RouteGates.AuthExactlyOnce | src/backend/server.ts:953-968 | the auth gate is there exactly once iff an option implies it, and no gate that reads the actor is there without it |
| RouteGates.AnonymousIsRefused | src/backend/server.ts:953-966 | with any of the nine options that imply authentication, no request without a caller is handled, whatever other gates answer |
| RouteGates.CallerDoesNotMatter | src/backend/server.ts:953-966 | with none of them, two requests that differ in the caller only run the same gates to the same end |
| RouteGates.PushHost | src/backend/server.ts:924-950 | the host and origin gates that the options ask for, in order |
| RouteGates.PushIdentity | src/backend/server.ts:953-1011 | the gates about who the caller is, in order, each with the options that ask for it |
| RouteGates.PushStanding | src/backend/server.ts:1013-1077 | the gates about what the caller may do, in order, each with the option that asks for it |
| RouteGates.PushLimits | src/backend/server.ts:1079-1129 | rate limits, credits, slot, captcha and token gates, in order, each with the option that asks for it |
| RouteGates.PushBodies | src/backend/server.ts:1130-1188 | body parsers, the caller's own middleware and the events, in order, each with the option that asks for it |
| RouteGates.ActorGatesSeeAnActor | src/backend/server.ts:966-1077 | when an actor-reading gate runs, the auth gate has run before and there is an actor, not suspended and not blocked |
| RouteGates.RefusalStopsLaterGates | src/backend/server.ts:889-1188 | whoever is refused at a gate reached no gate of higher rank |
| RouteGates.RefusalsAreCheap | src/backend/server.ts:1060-1116 | a refusal by the plan gate or any gate that reads the actor spends no rate limit and asks for no slot; a rate or credit refusal asks for no slot |
| RouteGates.ChargedInOrder | src/backend/server.ts:1079-1089 | a request is charged the declared limits in order, each once, and all of them if the handler runs |
| RouteGates.HandlerRunsIff | src/backend/server.ts:889-1188 | the gates let a request by iff the host matches (verb routes only), every option's promise about the caller holds, and each gate answered elsewhere lets it by |
| RouteGates.PassesGatesIff | src/backend/server.ts:889-1188 | the same condition written out in the options, the request and the outside answers alone |
| RouteGates.OffHostIsSkipped | src/backend/server.ts:924-939 | a request for another host leaves a verb route at its first gate |
| RouteGates.VerbServesIff | src/backend/server.ts:918-1234 | a verb route handles a request iff it is admitted for a matching host, and passes it on iff the host does not match |
| RouteGates.UseServesIff | src/backend/server.ts:1190-1211 | a `use` route handles a request iff it is admitted for a listed host, passes it on iff it is admitted for another one, and refuses it iff it is not admitted |
| RouteGates.UseRefusesOtherHosts | src/backend/server.ts:1190-1206 | on a `use` route that implies authentication a request without credentials is refused whatever its host |
| RouteGates.AdminRouteAdmits | src/backend/core/http/middleware/gates.ts:254-296 | the admin options admit an admin who either acts directly through a listed app, or has no app anywhere up the issuer chain and a recent proof of identity |
| RouteGates.ApiTokensOnly | src/backend/core/http/types.ts:134-146 | `requireUserActor` with `allowFullAccessToken` and `noUserSession` admits exactly full-access tokens and workers, and no app |
| RouteGates.AllowListIsKeptIff | src/backend/core/http/middleware/gates.ts:484-500 | for a caller to whom all else is granted, "handled iff it is a listed app" holds iff the caller has an app of its own; without one it is handled |
| RouteGates.AllowListAndMintersIff | src/backend/core/http/middleware/gates.ts:484-500 | the same for "handled iff it acts through a listed app, directly or by a token that the app minted": it holds iff the caller has an app of its own or does act through a listed one |
| RouteGates.UnlistedCallersGetIn | src/backend/core/http/middleware/gates.ts:484-500 | on a route that sets the allow-list only, a plain user and a full-access token minted by any app are handled |
| RoutePaths.JoinedIsClean | src/backend/server.ts:1241-1248 | a joined path has no doubled slash, unless it came unprefixed with one |
| RoutePaths.JoinMeans | src/backend/server.ts:1241-1248 | an empty prefix and a pattern leave the path alone; otherwise one slash joins prefix and path |
| RoutePaths.JoinAssociative | src/backend/server.ts:1241-1248 | prefixes may be joined in either grouping, empty ones included |
| ShutdownHooks.HooksStartOnceInOrder | src/backend/server.ts:1468-1503 | however calls overlap and whichever hooks fail, the hooks started are a first stretch of the layer order, each once and only after the one before fulfilled; all have fulfilled unless no call came, one still waits, or one threw |
| ShutdownHooks.StepInv | src/backend/server.ts:1474-1503 | only one call ever holds the hooks, and it waits for, or was thrown at by, the last one started |
| ShutdownHooks.StepMeans | src/backend/server.ts:1474-1503 | what a beginning call does, and what a call does when its hook settles |
| ShutdownHooks.FirstHookStartsAtOnce | src/backend/server.ts:1474-1481 | hook 0 has started as soon as any call has begun |
| ShutdownHooks.ReturnsEarlyIff | src/backend/server.ts:1474-1503 | a call returns before every hook has fulfilled iff the flag was set when it began and another call was waiting for a hook or had been thrown at by one |
| ShutdownHooks.SecondCallDoesNotWait | src/backend/server.ts:1475-1481 | a second call may return while the first waits for hook 0 |
| HostedUrls.GetHostedDomains | src/backend/util/hostedAppBacking.ts:86-95 | exactly the bare configured domains, each once |
| HostedUrls.NormalizeMeans | src/backend/util/hostedAppBacking.ts:59-66 | a domain is trimmed, lowered, and loses one leading dot |
| HostedUrls.BareMeans | src/backend/util/hostedAppBacking.ts:68-72 | the bare domain is what comes before the first colon |
| HostedUrls.ProtocolAndUrl | src/backend/util/hostedAppBacking.ts:123-137 | the configured protocol is trimmed and loses one colon at its end; a URL is protocol, `://`, host and path |
| HostedUrls.BuildCandidates | src/backend/util/hostedAppBacking.ts:105-142 | exactly the URLs of a configured or port-stripped host, a protocol and one of three paths, each once; none for an empty name |
| HostedUrls.CandidateMeans | src/backend/util/hostedAppBacking.ts:113-141 | a candidate, written out: a configured domain with or without its port, a protocol, and one of three paths |
| HostedUrls.ExtractSubdomain | src/backend/util/hostedAppBacking.ts:149-180 | what precedes the longest configured domain that ends the hostname after a dot, else nothing |
| HostedUrls.ExtractsMeans | src/backend/util/hostedAppBacking.ts:162-177 | a name is extracted iff it stands before the longest configured domain and its dot; nothing iff no domain stands there, or nothing before the longest |
| HostedUrls.ExtractsOneName | src/backend/util/hostedAppBacking.ts:162-177 | the result does not depend on the order of the configured domains |
| HostedUrls.HostRoundTrip | src/backend/util/hostedAppBacking.ts:149-180 | a name's host is read back as the name iff no longer configured domain ends that host |
| HostedUrls.SingleLabelIsSafe | src/backend/util/hostedAppBacking.ts:162-177 | a name without a dot is never overshadowed, however domains overlap |
| HostedUrls.DottedNameIsMisread | src/backend/util/hostedAppBacking.ts:162-177 | a name with a dot is read back as another one when a longer domain takes the match |
| HostedUrls.CandidateRoundTrip | src/backend/util/hostedAppBacking.ts:105-180 | each http or https candidate, with or without port, is read back as its name iff not overshadowed, so always for single-label names |
| HostedUrls.CandidateIff | src/backend/util/hostedAppBacking.ts:105-142 | with slash-free names, domains and protocol, a URL is a candidate iff its protocol, its host and what follows are each among those built |
| HostedUrls.ResolvingUrlIsCandidateIff | src/backend/util/hostedAppBacking.ts:97-142 | of the web URLs on a name's host, with any port, path, query or fragment, the candidates are exactly those with one of three paths and nothing else, and with no port or a configured one |
| HostedUrls.BackingIsUnavailable | src/backend/util/hostedAppBacking.ts:187-217 | available iff the URL is not hosted, or the row of the extracted name, from the store or else the primary, belongs to the app's owner |
| ProxyLogging.ProxyLogger.OnData | extensions/devWatcher.ts:57-66 | after any chunk, logged lines plus buffer are the newline split of all input so far, and the buffer holds no newline |
| ProxyLogging.ProxyLogger.OnEnd | extensions/devWatcher.ts:68-73 | at the end the log is the newline split with a final empty piece dropped |
| ProxyLogging.LogStream | extensions/devWatcher.ts:50-75 | however a stream is cut, what is logged is the newline split of the whole text with a final empty piece dropped |
| ProxyLogging.LinesOfUnsplit | extensions/devWatcher.ts:57-66 | complete lines followed by an unfinished one split into exactly those |
| DriverMethods.ResolveCallableMethods | src/backend/drivers/meta.ts:543-563 | a name is callable iff the nearest object below Object.prototype that owns it holds a function value, and it is neither `constructor` nor reserved |
| DriverMethods.LookupIsNearest | src/backend/drivers/meta.ts:545-560 | lookup finds what the first object on the chain that owns the name holds |
| ConfigMerge.DeepMerge | src/backend/index.ts:53-65 | at every key path the result holds what the override holds there, unless both hold objects; where the override holds nothing, what the base holds, unless the override put a non-object above it |
| ConfigMerge.MergeAt | src/backend/index.ts:53-65 | the same for the merge as a function, and two objects join their keys |
| ConfigMerge.KeyByKey | src/backend/index.ts:57-63 | an unset key keeps the base's whole value, a set one gets the override's unless both hold objects, and no other key appears |
| ConfigMerge.MergeWithEmpty | src/backend/index.ts:53-65 | an empty override leaves the config, and over an empty config only the override is left |
| ConfigMerge.MergeTwice | src/backend/index.ts:53-65 | merging the same override again changes nothing |
| ConfigMerge.CoveredIsOverridden | src/backend/index.ts:53-65 | a merge is its override iff the override sets, all the way down, everything that the base sets |
| ConfigMerge.AssociativeIff | src/backend/index.ts:50-65 | three configs merge alike in either grouping iff wherever the middle one holds a non-object between two objects, the last covers the first |
| ConfigMerge.GroupingMatters | src/backend/index.ts:50-65 | such a middle value with uncovered outer objects does make the groupings differ |
| FileSigning.MessageDetermines | src/backend/util/fileSigning.ts:60-67 | for one secret the message determines uid, action and expiry, whatever slashes uid and secret hold |
| FileSigning.SignedText | src/backend/util/fileSigning.ts:60-67 | what is hashed for each action |
| FileSigning.SecretsKeptApart | src/backend/util/fileSigning.ts:60-67 | for slash-free secrets it determines the secret too |
| FileSigning.SlashedSecretsCollide | src/backend/util/fileSigning.ts:60-67 | a secret with a slash can share messages with another secret |
| FileSigning.SecretsShareIff | src/backend/util/fileSigning.ts:60-67 | two secrets share some message iff they are equal or one ends with an action component and the other |
| FileSigning.EqualUpToCase | src/backend/util/fileSigning.ts:76-84 | against a hash the byte comparison is text equality up to letter case |
| FileSigning.SignatureGrants | src/backend/util/fileSigning.ts:149-200 | a signature verifies iff uid and expiry are those signed, it has not expired, and it was made for writing or reading is asked |
| FileSigning.AcceptedIsSigned | src/backend/util/fileSigning.ts:149-200 | a query is accepted iff, up to case, it carries the signature of its uid and expiry for writing or for the action asked, before expiry |
| FileSigning.VerdictReasons | src/backend/util/fileSigning.ts:154-199 | why a query is refused: the first thing missing, then expiry, else the signature |
| FileSigning.SignedFileLifetime | src/backend/util/fileSigning.ts:102-142 | a signed file's write signature is good for both actions and its read signature for reading only, until an expiry less than a second after the lifetime asked for |
| Emails.Parts.Apply | src/backend/util/email.ts:35-42 | a rule rewrites the local part in place and leaves the domain |
| Emails.CleanEmail | src/backend/util/email.ts:89-104 | the loop over the provider's rules computes the canonical form |
| Emails.CleanByDomain | src/backend/util/email.ts:45-104 | what cleaning does to the addresses of each listed domain |
| Emails.CleanUnlisted | src/backend/util/email.ts:98-104 | an address of any other domain, `yahoo`'s included, only gets its letters lowered |
| Emails.AddressParts | src/backend/util/email.ts:90-92 | the two parts of an address, in lower case; what follows a second `@` is dropped |
| Emails.KnownDomains | src/backend/util/email.ts:113-116 | which domains count as known |
| Emails.RewriteLaws | src/backend/util/email.ts:35-42 | rules commute, and each is spent after one use |
| Emails.RulesAreASet | src/backend/util/email.ts:44-54 | only which rules a provider lists matters, not their order or number |
| Emails.CleanTwice | src/backend/util/email.ts:89-104 | cleaning is idempotent iff the domain is neither `constructor` nor `__proto__` |
| Emails.SameInboxIff | src/backend/util/email.ts:89-104 | two addresses clean alike iff their domains mean the same and the provider's rules make their locals equal |
| Emails.GmailInbox | src/backend/util/email.ts:35-83 | gmail and googlemail addresses clean alike iff their locals agree after lowercasing, cutting at `+` and dropping dots |
| Emails.KeyFactors | src/backend/util/email.ts:107-110 | the abuse key of the clean address is that of the address, with the same two exceptions |
| Emails.KeyTwice | src/backend/util/email.ts:107-110 | the abuse key is idempotent, with the same two exceptions |
| Emails.CleaningKeepsProvider | src/backend/util/email.ts:113-116 | cleaning does not change whether the provider is known |

## Left out

- Strings are sequences of characters with ASCII case folding; UTF-16 code units, Unicode folding and multi-byte characters split across stream chunks are not modelled.
- Object keys that collide with `Object.prototype` members are modelled in the email tables only; in the directory tree, the route options and the merge they are not.
- Getters, setters and proxies on scrubbed or merged objects, and a mutation of the array of values while a pool runs.
- Worker pool: concurrency is an integer; claiming an index and settling a call are separate steps, so the model has more interleavings than the JavaScript turns allow.
- Thumbnails: S3, presigning, `sharp` and SQL are answers given to the handlers. A row update that fails after a copy leaves the copy waiting for good. The endpoint test of the legacy pointer form is a parameter, and a removal acts on the pointer that the row held when it was removed.
- ThumbnailHandlers.Extension.HandleUploadPrepare: items are values in an array, not objects that the caller may hold twice.
- Icons: the UTF-8 decoder is a parameter; values that are not strings, and the icon endpoint URL checks of the same file, are not modelled.
- Actors.KeyIsUnambiguous: its colon condition is sufficient; `Actors.AppKeyIsSharedIff` is exact for app actors, but not every token with a colon in an inner field has a double. User rows are reduced to the uuid, apps to their uid.
- DirTree.SetRootDirTree: items are values in an array that is rewritten in place; the new array that the source returns is not modelled.
- RouteGates.Run: rate, credit, plan, origin, captcha and body gates answer through a parameter; what they store and the release of concurrency slots are not modelled, and neither are nested middleware arrays.
- RouteGates.Materialize: Express itself, patterns in paths beyond their passing through unjoined, and the options of gates that do not bear on their order.
- HostedUrls.CandidateRoundTrip: the URL parser is a parameter assumed to read a host, as it stands, out of http and https URLs of the built shapes; a candidate under another configured protocol is not covered.
- HostedUrls.CandidateIff: assumes that name, domains and configured protocol hold no slash, nor the mark of the query or fragment that a URL adds, as otherwise one URL can be cut into such parts in several ways.
- FileSigning.SignatureGrants: assumes that no other text has the hash of the signed message; numbers are whole multiples of a fixed unit, so rounding is not modelled. The URLs, MIME types and entry fields of a signed file are left out.
- ConfigMerge.DeepMerge: configs are values, so sharing between the inputs and the result is not modelled.
- The `resolveDriverMethod` lookups of the driver metadata, `isBlockedEmail` and `mimeFromName`: each is a single table lookup or suffix test with nothing to prove beyond its body.
- Whether prepare-shutdown hooks have finished before the shutdown hooks start is not stated, as the code does not ensure it.
- Permissions, metering, stores, caches, sockets and the user interface.
