/**
 The last-word scrub of a `/whoami` response: a depth-limited, cycle-safe walk that deletes the
 sensitive keys of every object it visits, in place, on a graph that may share objects and loop.
 `Visit` says which objects the walk reaches; `ScrubSensitive` is the walk on the heap.
 */
module Scrub {

  const SENSITIVE_KEYS: set<string> := {
    "password", "tmp_password", "pass_recovery_token", "email_confirm_code", "email_confirm_token",
    "change_email_confirm_token", "otp_secret", "otp_recovery_codes", "card_fingerprint", "phone",
    "clean_email", "signup_ip", "signup_ip_forwarded", "signup_user_agent", "signup_origin",
    "signup_server", "audit_metadata"
  }

  const MAX_DEPTH := 8

  /** `Plain` stands for null, undefined, and everything whose typeof is not 'object'. */
  datatype Value = Plain | Ref(obj: JsObject)

  datatype Entry = Entry(key: string, value: Value)

  /** An object or an array: its own enumerable entries, in order. */
  class JsObject {
    const isArray: bool
    var entries: seq<Entry>

    constructor (isArray: bool, entries: seq<Entry>)
      ensures this.isArray == isArray && this.entries == entries
    {
      this.isArray, this.entries := isArray, entries;
    }
  }

  datatype Node = Node(isArray: bool, entries: seq<Entry>)

  /** A picture of the heap at one moment. */
  type Graph = map<JsObject, Node>

  ghost function Snapshot(S: set<JsObject>): Graph
    reads S
  {
    map o | o in S :: Node(o.isArray, o.entries)
  }

  function Without(es: seq<Entry>, keys: set<string>): seq<Entry> {
    if es == [] then []
    else (if es[0].key in keys then [] else [es[0]]) + Without(es[1..], keys)
  }

  lemma {:induction false} WithoutMember(es: seq<Entry>, keys: set<string>, e: Entry)
    ensures e in Without(es, keys) <==> e in es && e.key !in keys
  {
    if es != [] {
      WithoutMember(es[1..], keys, e);
      assert es == [es[0]] + es[1..];
    }
  }

  lemma {:induction false} WithoutTwice(es: seq<Entry>, a: set<string>, b: set<string>)
    ensures Without(Without(es, a), b) == Without(es, a + b)
  {
    if es != [] {
      WithoutTwice(es[1..], a, b);
      var rest := Without(es[1..], a);
      if es[0].key !in a {
        assert Without(es, a) == [es[0]] + rest && ([es[0]] + rest)[1..] == rest;
      } else {
        assert Without(es, a) == rest && Without(es, a + b) == Without(es[1..], a + b);
      }
    }
  }

  lemma {:induction false} WithoutNothing(es: seq<Entry>)
    ensures Without(es, {}) == es
  {
    if es != [] {
      WithoutNothing(es[1..]);
    }
  }

  lemma {:induction false} WithoutAppend(es: seq<Entry>, e: Entry, keys: set<string>)
    ensures Without(es + [e], keys) == Without(es, keys) + (if e.key in keys then [] else [e])
  {
    if es == [] {
      assert es + [e] == [e] && [e][1..] == [];
    } else {
      WithoutAppend(es[1..], e, keys);
      assert (es + [e])[1..] == es[1..] + [e];
    }
  }

  lemma WithoutStep(es: seq<Entry>, i: nat, keys: set<string>)
    requires i < |es|
    ensures Without(es[..i + 1], keys) == if es[i].key in keys then Without(es[..i], keys) else Without(es[..i], keys) + [es[i]]
  {
    assert es[..i + 1] == es[..i] + [es[i]];
    WithoutAppend(es[..i], es[i], keys);
  }

  lemma {:induction false} WithoutAgrees(es: seq<Entry>, a: set<string>, b: set<string>)
    requires forall e :: e in es ==> (e.key in a <==> e.key in b)
    ensures Without(es, a) == Without(es, b)
  {
    if es != [] {
      assert es[0] in es;
      assert forall e :: e in es[1..] ==> e in es;
      WithoutAgrees(es[1..], a, b);
    }
  }

  lemma WithoutSubset(es: seq<Entry>, keys: set<string>)
    ensures forall e | e in Without(es, keys) :: e in es
  {
    forall e | e in Without(es, keys)
      ensures e in es
    {
      WithoutMember(es, keys, e);
    }
  }

  /** The entries that survive a visit: all of an array's, the non-sensitive ones of an object's. */
  function KeptEntries(n: Node, keys: set<string>): seq<Entry> {
    if n.isArray then n.entries else Without(n.entries, keys)
  }

  function Scrubbed(n: Node, keys: set<string>): Node {
    n.(entries := KeptEntries(n, keys))
  }

  /** Entries of `g` lead to objects of `g` only. */
  ghost predicate Closed(g: Graph) {
    forall o, e :: o in g && e in g[o].entries && e.value.Ref? ==> e.value.obj in g
  }

  ghost predicate Within(es: seq<Entry>, g: Graph) {
    forall e :: e in es && e.value.Ref? ==> e.value.obj in g
  }

  lemma KeptWithin(keys: set<string>, g: Graph, o: JsObject)
    requires Closed(g) && o in g
    ensures Within(KeptEntries(g[o], keys), g)
  {
    WithoutSubset(g[o].entries, keys);
  }

  /** The objects seen after walking `v` at `depth`, if `seen` were seen before. */
  ghost function Visit(keys: set<string>, g: Graph, v: Value, seen: set<JsObject>, depth: nat): (r: set<JsObject>)
    requires Closed(g) && depth <= MAX_DEPTH + 1 && (v.Ref? ==> v.obj in g)
    ensures seen <= r
    decreases MAX_DEPTH + 1 - depth, 0
  {
    if depth > MAX_DEPTH || v.Plain? || v.obj in seen then seen
    else
      KeptWithin(keys, g, v.obj);
      VisitAll(keys, g, KeptEntries(g[v.obj], keys), seen + {v.obj}, depth + 1)
  }

  ghost function VisitAll(keys: set<string>, g: Graph, es: seq<Entry>, seen: set<JsObject>, depth: nat): (r: set<JsObject>)
    requires Closed(g) && depth <= MAX_DEPTH + 1 && Within(es, g)
    ensures seen <= r
    decreases MAX_DEPTH + 1 - depth, |es| + 1
  {
    if es == [] then seen
    else
      assert es[0] in es && Within(es[1..], g);
      VisitAll(keys, g, es[1..], Visit(keys, g, es[0].value, seen, depth), depth)
  }

  lemma {:induction false} VisitAllAppend(keys: set<string>, g: Graph, es: seq<Entry>, e: Entry, seen: set<JsObject>, depth: nat)
    requires Closed(g) && depth <= MAX_DEPTH + 1 && Within(es + [e], g)
    ensures Within(es, g) && (e.value.Ref? ==> e.value.obj in g)
    ensures VisitAll(keys, g, es + [e], seen, depth) == Visit(keys, g, e.value, VisitAll(keys, g, es, seen, depth), depth)
    decreases |es|
  {
    assert forall x :: x in es ==> x in es + [e];
    assert e in es + [e];
    if es == [] {
      assert es + [e] == [e] && [e][1..] == [];
    } else {
      assert (es + [e])[1..] == es[1..] + [e];
      assert forall x :: x in (es + [e])[1..] ==> x in es + [e];
      VisitAllAppend(keys, g, es[1..], e, Visit(keys, g, es[0].value, seen, depth), depth);
    }
  }

  /** The walk only looks at kept entries, so scrubbing objects on the way does not change its course. */
  ghost predicate SameKept(keys: set<string>, g: Graph, g': Graph) {
    g.Keys == g'.Keys && forall o :: o in g ==> g'[o].isArray == g[o].isArray && KeptEntries(g'[o], keys) == KeptEntries(g[o], keys)
  }

  lemma {:induction false} VisitSame(keys: set<string>, g: Graph, g': Graph, v: Value, seen: set<JsObject>, depth: nat)
    requires Closed(g) && Closed(g') && SameKept(keys, g, g') && depth <= MAX_DEPTH + 1 && (v.Ref? ==> v.obj in g)
    ensures Visit(keys, g', v, seen, depth) == Visit(keys, g, v, seen, depth)
    decreases MAX_DEPTH + 1 - depth, 0
  {
    if !(depth > MAX_DEPTH || v.Plain? || v.obj in seen) {
      KeptWithin(keys, g, v.obj);
      assert KeptEntries(g'[v.obj], keys) == KeptEntries(g[v.obj], keys);
      VisitAllSame(keys, g, g', KeptEntries(g[v.obj], keys), seen + {v.obj}, depth + 1);
    }
  }

  lemma {:induction false} VisitAllSame(keys: set<string>, g: Graph, g': Graph, es: seq<Entry>, seen: set<JsObject>, depth: nat)
    requires Closed(g) && Closed(g') && SameKept(keys, g, g') && depth <= MAX_DEPTH + 1 && Within(es, g)
    ensures VisitAll(keys, g', es, seen, depth) == VisitAll(keys, g, es, seen, depth)
    decreases MAX_DEPTH + 1 - depth, |es| + 1
  {
    if es != [] {
      assert es[0] in es && Within(es[1..], g);
      VisitSame(keys, g, g', es[0].value, seen, depth);
      VisitAllSame(keys, g, g', es[1..], Visit(keys, g, es[0].value, seen, depth), depth);
    }
  }

  /** Walking one more entry, on a heap already scrubbed in part, continues the walk on the original. */
  lemma WalkStep(keys: set<string>, g: Graph, g': Graph, es: seq<Entry>, e: Entry, seen: set<JsObject>, depth: nat)
    requires Closed(g) && Closed(g') && SameKept(keys, g, g') && depth <= MAX_DEPTH + 1
    requires Within(es, g) && (e.value.Ref? ==> e.value.obj in g)
    ensures Within(es + [e], g)
    ensures VisitAll(keys, g, es + [e], seen, depth) == Visit(keys, g', e.value, VisitAll(keys, g, es, seen, depth), depth)
  {
    assert forall x :: x in es + [e] ==> x in es || x == e;
    VisitAllAppend(keys, g, es, e, seen, depth);
    VisitSame(keys, g, g', e.value, VisitAll(keys, g, es, seen, depth), depth);
  }

  /**
   The `seen` set the recursive calls share, with a count of the objects entered. The count never
   exceeds the number of members, so no object is entered twice.
   */
  class Seen {
    var members: set<JsObject>
    ghost var entered: nat

    ghost predicate Valid()
      reads this
    {
      entered == |members|
    }

    constructor ()
      ensures Valid() && members == {}
    {
      members, entered := {}, 0;
    }

    method Add(o: JsObject)
      requires Valid() && o !in members
      modifies this
      ensures Valid() && members == old(members) + {o} && entered == old(entered) + 1
    {
      members, entered := members + {o}, entered + 1;
    }
  }

  /** What a walk leaves behind: newly visited objects scrubbed, everything else as it was. */
  ghost predicate ScrubbedExactly(keys: set<string>, before: Graph, after: Graph, visited: set<JsObject>) {
    && after.Keys == before.Keys
    && forall o :: o in before ==> after[o] == if o in visited then Scrubbed(before[o], keys) else before[o]
  }

  lemma ScrubbedSameKept(keys: set<string>, before: Graph, after: Graph, visited: set<JsObject>)
    requires Closed(before) && ScrubbedExactly(keys, before, after, visited)
    ensures SameKept(keys, before, after) && Closed(after)
  {
    forall o | o in before
      ensures KeptEntries(after[o], keys) == KeptEntries(before[o], keys)
      ensures Within(after[o].entries, before)
    {
      WithoutTwice(before[o].entries, keys, keys);
      assert keys + keys == keys;
      KeptWithin(keys, before, o);
      assert Within(before[o].entries, before);
    }
  }

  lemma ScrubbedCompose(keys: set<string>, g0: Graph, g1: Graph, g2: Graph, a: set<JsObject>, b: set<JsObject>)
    requires ScrubbedExactly(keys, g0, g1, a) && ScrubbedExactly(keys, g1, g2, b) && a !! b
    ensures ScrubbedExactly(keys, g0, g2, a + b)
  {
  }

  lemma Grown(a: set<JsObject>, b: set<JsObject>, c: set<JsObject>)
    requires a <= b <= c
    ensures (b - a) + (c - b) == c - a && (b - a) !! (c - b)
  {
  }

  /**
   The recursive walk. It enters exactly the objects of `Visit` that were not seen before, each
   once, scrubs those and leaves every other object alone.
   */
  method ScrubSensitive(keys: set<string>, value: Value, seen: Seen, depth: nat, ghost S: set<JsObject>)
    requires seen.Valid() && depth <= MAX_DEPTH + 1
    requires Closed(Snapshot(S)) && (value.Ref? ==> value.obj in S)
    modifies S, seen
    ensures seen.Valid()
    ensures seen.members == Visit(keys, old(Snapshot(S)), value, old(seen.members), depth)
    ensures ScrubbedExactly(keys, old(Snapshot(S)), Snapshot(S), seen.members - old(seen.members))
    decreases MAX_DEPTH + 1 - depth
  {
    ghost var g0 := Snapshot(S);
    if depth > MAX_DEPTH || value.Plain? || value.obj in seen.members {
      return;
    }
    var o := value.obj;
    seen.Add(o);
    if o.isArray {
      ScrubArray(keys, o, seen, depth, S);
    } else {
      ScrubObject(keys, o, seen, depth, S);
    }
  }

  /** After the first `i` entries of a list that the walk goes through. */
  ghost predicate Walked(keys: set<string>, g0: Graph, g: Graph, list: seq<Entry>, i: nat,
                         seen0: set<JsObject>, seen: set<JsObject>, depth: nat)
    requires Closed(g0) && depth <= MAX_DEPTH
  {
    && i <= |list| && Within(list, g0) && Within(list[..i], g0) && seen0 <= seen
    && seen == VisitAll(keys, g0, list[..i], seen0, depth + 1)
    && ScrubbedExactly(keys, g0, g, seen - seen0)
  }

  lemma WalkedStart(keys: set<string>, g0: Graph, list: seq<Entry>, seen0: set<JsObject>, depth: nat)
    requires Closed(g0) && depth <= MAX_DEPTH && Within(list, g0)
    ensures Walked(keys, g0, g0, list, 0, seen0, seen0, depth)
  {
    assert list[..0] == [];
  }

  lemma WalkedSoFar(keys: set<string>, g0: Graph, g1: Graph, list: seq<Entry>, i: nat,
                    seen0: set<JsObject>, seen1: set<JsObject>, depth: nat)
    requires Closed(g0) && depth <= MAX_DEPTH && Walked(keys, g0, g1, list, i, seen0, seen1, depth) && i < |list|
    ensures Closed(g1) && SameKept(keys, g0, g1) && (list[i].value.Ref? ==> list[i].value.obj in g1)
  {
    assert list[i] in list;
    ScrubbedSameKept(keys, g0, g1, seen1 - seen0);
  }

  lemma WalkedOn(keys: set<string>, g0: Graph, g1: Graph, g2: Graph, list: seq<Entry>, i: nat,
                 seen0: set<JsObject>, seen1: set<JsObject>, seen2: set<JsObject>, depth: nat)
    requires Closed(g0) && Closed(g1) && SameKept(keys, g0, g1) && depth <= MAX_DEPTH && i < |list|
    requires Walked(keys, g0, g1, list, i, seen0, seen1, depth) && (list[i].value.Ref? ==> list[i].value.obj in g1)
    requires seen2 == Visit(keys, g1, list[i].value, seen1, depth + 1) && ScrubbedExactly(keys, g1, g2, seen2 - seen1)
    ensures Walked(keys, g0, g2, list, i + 1, seen0, seen2, depth)
  {
    assert list[..i + 1] == list[..i] + [list[i]];
    WalkStep(keys, g0, g1, list[..i], list[i], seen0, depth + 1);
    Grown(seen0, seen1, seen2);
    ScrubbedCompose(keys, g0, g1, g2, seen1 - seen0, seen2 - seen1);
  }

  method ScrubArray(keys: set<string>, o: JsObject, seen: Seen, depth: nat, ghost S: set<JsObject>)
    requires seen.Valid() && depth <= MAX_DEPTH && Closed(Snapshot(S)) && o in S && o in seen.members && o.isArray
    modifies S, seen
    ensures seen.Valid()
    ensures Within(old(o.entries), old(Snapshot(S)))
    ensures seen.members == VisitAll(keys, old(Snapshot(S)), old(o.entries), old(seen.members), depth + 1)
    ensures ScrubbedExactly(keys, old(Snapshot(S)), Snapshot(S), seen.members - old(seen.members))
    decreases MAX_DEPTH + 1 - depth, 0
  {
    ghost var g0, seen0 := Snapshot(S), seen.members;
    var list := o.entries;
    assert Within(list, g0) by {
      assert list == g0[o].entries;
    }
    WalkedStart(keys, g0, list, seen0, depth);
    hide Walked, ScrubbedExactly, SameKept, Closed, Visit, VisitAll, Within;
    var i := 0;
    while i < |list|
      invariant 0 <= i <= |list| && list == old(o.entries) && seen.Valid()
      invariant Walked(keys, g0, Snapshot(S), list, i, seen0, seen.members, depth)
    {
      ghost var g1, seen1 := Snapshot(S), seen.members;
      WalkedSoFar(keys, g0, g1, list, i, seen0, seen1, depth);
      ScrubSensitive(keys, list[i].value, seen, depth + 1, S);
      WalkedOn(keys, g0, g1, Snapshot(S), list, i, seen0, seen1, seen.members, depth);
      i := i + 1;
    }
    WalkedEnd(keys, g0, Snapshot(S), list, seen0, seen.members, depth);
  }

  lemma WalkedEnd(keys: set<string>, g0: Graph, g: Graph, list: seq<Entry>, seen0: set<JsObject>, seen: set<JsObject>, depth: nat)
    requires Closed(g0) && depth <= MAX_DEPTH && Walked(keys, g0, g, list, |list|, seen0, seen, depth)
    ensures Within(list, g0) && seen == VisitAll(keys, g0, list, seen0, depth + 1) && ScrubbedExactly(keys, g0, g, seen - seen0)
  {
    assert list[..|list|] == list;
  }

  /** In the middle of object `o`: the keys `gone` are deleted from it, `visited` are scrubbed. */
  ghost predicate Midway(keys: set<string>, g0: Graph, g: Graph, o: JsObject, gone: set<string>, visited: set<JsObject>)
    requires o in g0 && !g0[o].isArray
  {
    && gone <= keys && o !in visited
    && o in g && g[o] == Node(false, Without(g0[o].entries, gone))
    && ScrubbedExactly(keys, g0, g[o := g0[o]], visited)
  }

  lemma MidwaySameKept(keys: set<string>, g0: Graph, g: Graph, o: JsObject, gone: set<string>, visited: set<JsObject>)
    requires Closed(g0) && o in g0 && !g0[o].isArray && Midway(keys, g0, g, o, gone, visited)
    ensures SameKept(keys, g0, g) && Closed(g)
  {
    var g' := g[o := g0[o]];
    ScrubbedSameKept(keys, g0, g', visited);
    WithoutTwice(g0[o].entries, gone, keys);
    assert gone + keys == keys;
    assert g.Keys == g'.Keys;
    WithoutSubset(g0[o].entries, gone);
    forall x | x in g
      ensures Within(g[x].entries, g0)
    {
      assert x != o ==> g'[x] == g[x] && Within(g'[x].entries, g');
    }
  }

  lemma MidwayVisits(keys: set<string>, g0: Graph, g1: Graph, g2: Graph, o: JsObject, gone: set<string>, a: set<JsObject>, b: set<JsObject>)
    requires o in g0 && !g0[o].isArray && Midway(keys, g0, g1, o, gone, a)
    requires ScrubbedExactly(keys, g1, g2, b) && a !! b && o !in b
    ensures Midway(keys, g0, g2, o, gone, a + b)
  {
  }

  lemma MidwayStart(keys: set<string>, g: Graph, o: JsObject)
    requires o in g && !g[o].isArray
    ensures Midway(keys, g, g, o, {}, {})
  {
    WithoutNothing(g[o].entries);
    assert g[o := g[o]] == g;
  }

  lemma MidwayDelete(keys: set<string>, g0: Graph, g: Graph, o: JsObject, gone: set<string>, visited: set<JsObject>, key: string)
    requires o in g0 && !g0[o].isArray && Midway(keys, g0, g, o, gone, visited) && key in keys
    ensures Midway(keys, g0, g[o := Node(false, Without(g[o].entries, {key}))], o, gone + {key}, visited)
  {
    WithoutTwice(g0[o].entries, gone, {key});
    assert g[o := Node(false, Without(g[o].entries, {key}))][o := g0[o]] == g[o := g0[o]];
  }

  lemma MidwayEnd(keys: set<string>, g0: Graph, g: Graph, o: JsObject, gone: set<string>, visited: set<JsObject>)
    requires o in g0 && !g0[o].isArray && Midway(keys, g0, g, o, gone, visited)
    requires forall j :: 0 <= j < |g0[o].entries| && g0[o].entries[j].key in keys ==> g0[o].entries[j].key in gone
    ensures ScrubbedExactly(keys, g0, g, visited + {o})
  {
    WithoutAgrees(g0[o].entries, gone, keys);
    assert g.Keys == g[o := g0[o]].Keys;
    forall x | x in g0 && x != o
      ensures g[x] == g[o := g0[o]][x]
    {
    }
  }

  /** The `delete` operator. */
  method DeleteKey(o: JsObject, key: string, ghost S: set<JsObject>)
    requires o in S
    modifies o
    ensures Snapshot(S) == old(Snapshot(S))[o := Node(o.isArray, Without(old(o.entries), {key}))]
  {
    o.entries := Without(o.entries, {key});
  }

  /** The walk of object `o`, at `depth`, after its first `i` keys. */
  ghost predicate Halfway(keys: set<string>, g0: Graph, g: Graph, o: JsObject, i: nat, gone: set<string>,
                          seen0: set<JsObject>, seen: set<JsObject>, depth: nat)
    requires Closed(g0) && depth <= MAX_DEPTH && o in g0 && !g0[o].isArray && i <= |g0[o].entries|
  {
    var list := g0[o].entries;
    && o in seen0 && seen0 <= seen
    && (forall j :: 0 <= j < i && list[j].key in keys ==> list[j].key in gone)
    && Within(Without(list[..i], keys), g0)
    && seen == VisitAll(keys, g0, Without(list[..i], keys), seen0, depth + 1)
    && Midway(keys, g0, g, o, gone, seen - seen0)
  }

  lemma HalfwayStart(keys: set<string>, g: Graph, o: JsObject, seen: set<JsObject>, depth: nat)
    requires Closed(g) && depth <= MAX_DEPTH && o in g && !g[o].isArray && o in seen
    ensures Halfway(keys, g, g, o, 0, {}, seen, seen, depth)
  {
    MidwayStart(keys, g, o);
    assert seen - seen == {};
  }

  lemma HalfwayDelete(keys: set<string>, g0: Graph, g: Graph, o: JsObject, i: nat, gone: set<string>,
                      seen0: set<JsObject>, seen: set<JsObject>, depth: nat)
    requires Closed(g0) && depth <= MAX_DEPTH && o in g0 && !g0[o].isArray && i < |g0[o].entries|
    requires Halfway(keys, g0, g, o, i, gone, seen0, seen, depth) && g0[o].entries[i].key in keys
    ensures var key := g0[o].entries[i].key;
      Halfway(keys, g0, g[o := Node(false, Without(g[o].entries, {key}))], o, i + 1, gone + {key}, seen0, seen, depth)
  {
    WithoutStep(g0[o].entries, i, keys);
    MidwayDelete(keys, g0, g, o, gone, seen - seen0, g0[o].entries[i].key);
  }

  lemma HalfwayEnd(keys: set<string>, g0: Graph, g: Graph, o: JsObject, gone: set<string>,
                   seen0: set<JsObject>, seen: set<JsObject>, depth: nat)
    requires Closed(g0) && depth <= MAX_DEPTH && o in g0 && !g0[o].isArray
    requires Halfway(keys, g0, g, o, |g0[o].entries|, gone, seen0, seen, depth)
    ensures Within(KeptEntries(g0[o], keys), g0)
    ensures seen == VisitAll(keys, g0, KeptEntries(g0[o], keys), seen0, depth + 1)
    ensures ScrubbedExactly(keys, g0, g, seen - seen0 + {o})
  {
    assert g0[o].entries[..|g0[o].entries|] == g0[o].entries;
    MidwayEnd(keys, g0, g, o, gone, seen - seen0);
  }

  lemma HalfwaySoFar(keys: set<string>, g0: Graph, g1: Graph, o: JsObject, i: nat, gone: set<string>,
                     seen0: set<JsObject>, seen1: set<JsObject>, depth: nat)
    requires Closed(g0) && depth <= MAX_DEPTH && o in g0 && !g0[o].isArray && i < |g0[o].entries|
    requires Halfway(keys, g0, g1, o, i, gone, seen0, seen1, depth)
    ensures Closed(g1) && SameKept(keys, g0, g1) && (g0[o].entries[i].value.Ref? ==> g0[o].entries[i].value.obj in g1)
  {
    MidwaySameKept(keys, g0, g1, o, gone, seen1 - seen0);
    assert g0[o].entries[i] in g0[o].entries;
  }

  /** One more kept entry, walked on a heap already scrubbed in part. */
  lemma KeptOn(keys: set<string>, g0: Graph, g1: Graph, list: seq<Entry>, i: nat, seen0: set<JsObject>, seen1: set<JsObject>, depth: nat)
    requires Closed(g0) && Closed(g1) && SameKept(keys, g0, g1) && depth <= MAX_DEPTH && i < |list| && list[i].key !in keys
    requires list[i].value.Ref? ==> list[i].value.obj in g1
    requires Within(Without(list[..i], keys), g0) && seen1 == VisitAll(keys, g0, Without(list[..i], keys), seen0, depth + 1)
    ensures Within(Without(list[..i + 1], keys), g0)
    ensures VisitAll(keys, g0, Without(list[..i + 1], keys), seen0, depth + 1) == Visit(keys, g1, list[i].value, seen1, depth + 1)
  {
    WithoutStep(list, i, keys);
    WalkStep(keys, g0, g1, Without(list[..i], keys), list[i], seen0, depth + 1);
  }

  lemma HalfwayOn(keys: set<string>, g0: Graph, g1: Graph, g2: Graph, o: JsObject, i: nat, gone: set<string>,
                  seen0: set<JsObject>, seen1: set<JsObject>, seen2: set<JsObject>, depth: nat)
    requires Closed(g0) && Closed(g1) && SameKept(keys, g0, g1) && depth <= MAX_DEPTH
    requires o in g0 && !g0[o].isArray && i < |g0[o].entries| && g0[o].entries[i].key !in keys
    requires Halfway(keys, g0, g1, o, i, gone, seen0, seen1, depth)
    requires var v := g0[o].entries[i].value;
      (v.Ref? ==> v.obj in g1) && seen2 == Visit(keys, g1, v, seen1, depth + 1) && ScrubbedExactly(keys, g1, g2, seen2 - seen1)
    ensures Halfway(keys, g0, g2, o, i + 1, gone, seen0, seen2, depth)
  {
    KeptOn(keys, g0, g1, g0[o].entries, i, seen0, seen1, depth);
    hide SameKept, ScrubbedExactly, VisitAll, Visit, Without, Closed, Within, Midway;
    Grown(seen0, seen1, seen2);
    MidwayVisits(keys, g0, g1, g2, o, gone, seen1 - seen0, seen2 - seen1);
  }

  /** The recursive call for the `i`-th key of `o`, which is kept. */
  method ScrubProperty(keys: set<string>, o: JsObject, ghost i: nat, e: Entry, seen: Seen, depth: nat,
                       ghost S: set<JsObject>, ghost g0: Graph, ghost gone: set<string>, ghost seen0: set<JsObject>)
    requires seen.Valid() && depth <= MAX_DEPTH && Closed(g0) && o in g0 && !g0[o].isArray
    requires i < |g0[o].entries| && e == g0[o].entries[i] && e.key !in keys
    requires Halfway(keys, g0, Snapshot(S), o, i, gone, seen0, seen.members, depth)
    modifies S, seen
    ensures seen.Valid()
    ensures Halfway(keys, g0, Snapshot(S), o, i + 1, gone, seen0, seen.members, depth)
    decreases MAX_DEPTH + 1 - depth, 0
  {
    hide Halfway, ScrubbedExactly, SameKept, Closed, Visit, VisitAll;
    ghost var g1, seen1 := Snapshot(S), seen.members;
    HalfwaySoFar(keys, g0, g1, o, i, gone, seen0, seen1, depth);
    ScrubSensitive(keys, e.value, seen, depth + 1, S);
    HalfwayOn(keys, g0, g1, Snapshot(S), o, i, gone, seen0, seen1, seen.members, depth);
  }

  method ScrubObject(keys: set<string>, o: JsObject, seen: Seen, depth: nat, ghost S: set<JsObject>)
    requires seen.Valid() && depth <= MAX_DEPTH && Closed(Snapshot(S)) && o in S && o in seen.members && !o.isArray
    modifies S, seen
    ensures seen.Valid()
    ensures Within(KeptEntries(old(Snapshot(S))[o], keys), old(Snapshot(S)))
    ensures seen.members == VisitAll(keys, old(Snapshot(S)), KeptEntries(old(Snapshot(S))[o], keys), old(seen.members), depth + 1)
    ensures ScrubbedExactly(keys, old(Snapshot(S)), Snapshot(S), seen.members - old(seen.members) + {o})
    decreases MAX_DEPTH + 1 - depth, 1
  {
    hide Halfway, ScrubbedExactly, Visit, VisitAll, Closed, Within, Without, Midway;
    ghost var g0, seen0, gone: set<string> := Snapshot(S), seen.members, {};
    HalfwayStart(keys, g0, o, seen0, depth);
    var list := o.entries;
    var i := 0;
    while i < |list|
      invariant 0 <= i <= |list| && seen.Valid()
      invariant Halfway(keys, g0, Snapshot(S), o, i, gone, seen0, seen.members, depth)
    {
      if list[i].key in keys {
        HalfwayDelete(keys, g0, Snapshot(S), o, i, gone, seen0, seen.members, depth);
        DeleteKey(o, list[i].key, S);
        gone := gone + {list[i].key};
      } else {
        ScrubProperty(keys, o, i, list[i], seen, depth, S, g0, gone, seen0);
      }
      i := i + 1;
    }
    HalfwayEnd(keys, g0, Snapshot(S), o, gone, seen0, seen.members, depth);
  }
}

/** What the walk reaches, and when the depth limit keeps it from reaching everything. */
module ScrubReach {
  import opened Scrub

  ghost function Targets(es: seq<Entry>): set<JsObject> {
    if es == [] then {} else (if es[0].value.Ref? then {es[0].value.obj} else {}) + Targets(es[1..])
  }

  lemma {:induction false} TargetsMember(es: seq<Entry>, e: Entry)
    requires e in es && e.value.Ref?
    ensures e.value.obj in Targets(es)
  {
    if e != es[0] {
      TargetsMember(es[1..], e);
    }
  }

  /** The objects `o` leads to through the entries a visit keeps; with no keys, through all entries. */
  ghost function Children(keys: set<string>, g: Graph, o: JsObject): set<JsObject>
    requires o in g
  {
    Targets(KeptEntries(g[o], keys))
  }

  ghost predicate IsPath(keys: set<string>, g: Graph, root: JsObject, older p: seq<JsObject>) {
    && |p| > 0 && p[0] == root
    && (forall i :: 0 <= i < |p| ==> p[i] in g)
    && (forall i :: 0 <= i < |p| - 1 ==> p[i + 1] in Children(keys, g, p[i]))
  }

  ghost predicate Reachable(keys: set<string>, g: Graph, root: JsObject, o: JsObject) {
    exists p :: IsPath(keys, g, root, p) && p[|p| - 1] == o
  }

  ghost predicate Distinct(p: seq<JsObject>) {
    forall i, j :: 0 <= i < j < |p| ==> p[i] != p[j]
  }

  /** No simple path from the root is longer than the depth limit. */
  ghost predicate Shallow(keys: set<string>, g: Graph, root: JsObject) {
    forall p :: IsPath(keys, g, root, p) && Distinct(p) ==> |p| - 1 <= MAX_DEPTH
  }

  /** `v` can be reached by one more edge from the end of `p`, or is the root if `p` is empty. */
  ghost predicate Extends(keys: set<string>, g: Graph, root: JsObject, p: seq<JsObject>, v: Value) {
    v.Ref? ==> IsPath(keys, g, root, p + [v.obj])
  }

  lemma ExtendsAll(keys: set<string>, g: Graph, root: JsObject, p: seq<JsObject>, e: Entry)
    requires IsPath(keys, g, root, p) && Closed(g) && e in KeptEntries(g[p[|p| - 1]], keys)
    ensures Extends(keys, g, root, p, e.value)
  {
    if e.value.Ref? {
      KeptWithin(keys, g, p[|p| - 1]);
      TargetsMember(KeptEntries(g[p[|p| - 1]], keys), e);
      var q := p + [e.value.obj];
      forall i | 0 <= i < |q| - 1
        ensures q[i + 1] in Children(keys, g, q[i])
      {
        assert i < |p| - 1 ==> q[i + 1] == p[i + 1] && q[i] == p[i];
      }
    }
  }

  /** A path within the depth limit leads to `o`. */
  ghost predicate Near(keys: set<string>, g: Graph, root: JsObject, o: JsObject) {
    exists p :: IsPath(keys, g, root, p) && |p| - 1 <= MAX_DEPTH && p[|p| - 1] == o
  }

  /** Whatever the walk enters can be reached, and along a path within the depth limit. */
  lemma {:induction false} VisitReachable(keys: set<string>, g: Graph, root: JsObject, p: seq<JsObject>, v: Value, seen: set<JsObject>)
    requires Closed(g) && |p| <= MAX_DEPTH + 1 && (v.Ref? ==> v.obj in g) && Extends(keys, g, root, p, v)
    ensures forall o | o in Visit(keys, g, v, seen, |p|) - seen :: Near(keys, g, root, o)
    decreases MAX_DEPTH + 1 - |p|, 0
  {
    if !(|p| > MAX_DEPTH || v.Plain? || v.obj in seen) {
      var q := p + [v.obj];
      assert q[|q| - 1] == v.obj;
      KeptWithin(keys, g, v.obj);
      VisitAllReachable(keys, g, root, q, KeptEntries(g[v.obj], keys), seen + {v.obj});
    }
  }

  lemma {:induction false} VisitAllReachable(keys: set<string>, g: Graph, root: JsObject, p: seq<JsObject>, es: seq<Entry>, seen: set<JsObject>)
    requires Closed(g) && |p| <= MAX_DEPTH + 1 && Within(es, g) && IsPath(keys, g, root, p)
    requires forall e :: e in es ==> e in KeptEntries(g[p[|p| - 1]], keys)
    ensures forall o | o in VisitAll(keys, g, es, seen, |p|) - seen :: Near(keys, g, root, o)
    decreases MAX_DEPTH + 1 - |p|, |es| + 1
  {
    if es != [] {
      assert es[0] in es && Within(es[1..], g);
      ExtendsAll(keys, g, root, p, es[0]);
      VisitReachable(keys, g, root, p, es[0].value, seen);
      assert forall e :: e in es[1..] ==> e in es;
      VisitAllReachable(keys, g, root, p, es[1..], Visit(keys, g, es[0].value, seen, |p|));
    }
  }

  ghost predicate ClosedUnder(keys: set<string>, g: Graph, from: set<JsObject>, to: set<JsObject>) {
    forall o :: o in from ==> o in g && Children(keys, g, o) <= to
  }

  /**
   On a shallow graph the depth limit never cuts the walk short: a walk that got to `v` along the
   simple path `p`, all of it seen, enters `v`, and everything it enters leads to seen objects only.
   */
  lemma {:induction false} VisitComplete(keys: set<string>, g: Graph, root: JsObject, p: seq<JsObject>, v: Value, seen: set<JsObject>)
    requires Closed(g) && Shallow(keys, g, root) && |p| <= MAX_DEPTH + 1 && (v.Ref? ==> v.obj in g) && Extends(keys, g, root, p, v)
    requires Distinct(p) && forall o :: o in p ==> o in seen
    ensures v.Ref? ==> v.obj in Visit(keys, g, v, seen, |p|)
    ensures ClosedUnder(keys, g, Visit(keys, g, v, seen, |p|) - seen, Visit(keys, g, v, seen, |p|))
    decreases MAX_DEPTH + 1 - |p|, 0
  {
    if v.Ref? && v.obj !in seen {
      var q := p + [v.obj];
      assert forall i :: 0 <= i < |p| ==> p[i] in p && q[i] == p[i];
      assert Distinct(q) && |q| - 1 <= MAX_DEPTH;
      KeptWithin(keys, g, v.obj);
      VisitAllComplete(keys, g, root, q, KeptEntries(g[v.obj], keys), seen + {v.obj});
    }
  }

  lemma {:induction false} VisitAllComplete(keys: set<string>, g: Graph, root: JsObject, p: seq<JsObject>, es: seq<Entry>, seen: set<JsObject>)
    requires Closed(g) && Shallow(keys, g, root) && |p| <= MAX_DEPTH + 1 && Within(es, g) && IsPath(keys, g, root, p)
    requires Distinct(p) && forall o :: o in p ==> o in seen
    requires forall e :: e in es ==> e in KeptEntries(g[p[|p| - 1]], keys)
    ensures Targets(es) <= VisitAll(keys, g, es, seen, |p|)
    ensures ClosedUnder(keys, g, VisitAll(keys, g, es, seen, |p|) - seen, VisitAll(keys, g, es, seen, |p|))
    decreases MAX_DEPTH + 1 - |p|, |es| + 1
  {
    if es != [] {
      assert es[0] in es && Within(es[1..], g);
      ExtendsAll(keys, g, root, p, es[0]);
      var mid := Visit(keys, g, es[0].value, seen, |p|);
      VisitComplete(keys, g, root, p, es[0].value, seen);
      assert forall e :: e in es[1..] ==> e in es;
      VisitAllComplete(keys, g, root, p, es[1..], mid);
      var all := VisitAll(keys, g, es[1..], mid, |p|);
      assert VisitAll(keys, g, es, seen, |p|) == all;
      forall o | o in all - seen
        ensures o in g && Children(keys, g, o) <= all
      {
        assert o in mid - seen || o in all - mid;
      }
    }
  }

  lemma {:induction false} ClosedCatchesPath(keys: set<string>, g: Graph, root: JsObject, p: seq<JsObject>, s: set<JsObject>)
    requires IsPath(keys, g, root, p) && root in s && ClosedUnder(keys, g, s, s)
    ensures p[|p| - 1] in s
    decreases |p|
  {
    if |p| > 1 {
      var q := p[..|p| - 1];
      ClosedCatchesPath(keys, g, root, q, s);
      assert p[|p| - 2 + 1] in Children(keys, g, p[|p| - 2]);
    }
  }

  /** On a shallow graph the walk enters exactly what can be reached through the entries it keeps. */
  lemma VisitedIsReachable(keys: set<string>, g: Graph, root: JsObject)
    requires Closed(g) && root in g && Shallow(keys, g, root)
    ensures forall o | o in g :: o in Visit(keys, g, Ref(root), {}, 0) <==> Reachable(keys, g, root, o)
    ensures root in Visit(keys, g, Ref(root), {}, 0)
  {
    var all := Visit(keys, g, Ref(root), {}, 0);
    assert [] + [root] == [root];
    VisitReachable(keys, g, root, [], Ref(root), {});
    VisitComplete(keys, g, root, [], Ref(root), {});
    assert all - {} == all;
    forall o | o in g && Reachable(keys, g, root, o)
      ensures o in all
    {
      var p :| IsPath(keys, g, root, p) && p[|p| - 1] == o;
      ClosedCatchesPath(keys, g, root, p, all);
    }
  }

  /** The walk enters everything that can be reached. */
  ghost predicate Complete(keys: set<string>, g: Graph, root: JsObject)
    requires Closed(g) && root in g
  {
    forall o | o in g :: o in Visit(keys, g, Ref(root), {}, 0) <==> Reachable(keys, g, root, o)
  }

  /** No object can be reached in two ways: the graph of ordinary JSON. */
  ghost predicate IsTree(keys: set<string>, g: Graph, root: JsObject) {
    forall p, q :: IsPath(keys, g, root, p) && IsPath(keys, g, root, q) && p[|p| - 1] == q[|q| - 1] ==> p == q
  }

  /** On any graph, a complete walk leaves no object beyond the depth limit. */
  lemma CompleteIsNear(keys: set<string>, g: Graph, root: JsObject)
    requires Closed(g) && root in g && Complete(keys, g, root)
    ensures forall o | o in g && Reachable(keys, g, root, o) :: Near(keys, g, root, o)
  {
    assert [] + [root] == [root];
    VisitReachable(keys, g, root, [], Ref(root), {});
    var all := Visit(keys, g, Ref(root), {}, 0);
    assert all - {} == all;
  }

  lemma FarEnd(keys: set<string>, g: Graph, root: JsObject, p: seq<JsObject>)
    requires IsTree(keys, g, root) && IsPath(keys, g, root, p)
    ensures Near(keys, g, root, p[|p| - 1]) <==> |p| - 1 <= MAX_DEPTH
  {
  }

  /** On a tree the walk is complete exactly when no path is longer than the depth limit. */
  lemma TreeIsCompleteIffShallow(keys: set<string>, g: Graph, root: JsObject)
    requires Closed(g) && root in g && IsTree(keys, g, root)
    ensures Complete(keys, g, root) <==> Shallow(keys, g, root)
  {
    if Shallow(keys, g, root) {
      VisitedIsReachable(keys, g, root);
    } else {
      var p :| IsPath(keys, g, root, p) && Distinct(p) && |p| - 1 > MAX_DEPTH;
      assert Reachable(keys, g, root, p[|p| - 1]);
      FarEnd(keys, g, root, p);
      if Complete(keys, g, root) {
        CompleteIsNear(keys, g, root);
        assert false;
      }
    }
  }

  lemma ShallowCloses(keys: set<string>, g: Graph, root: JsObject)
    requires Closed(g) && root in g && Shallow(keys, g, root)
    ensures var all := Visit(keys, g, Ref(root), {}, 0); root in all && ClosedUnder(keys, g, all, all)
  {
    assert [] + [root] == [root];
    VisitComplete(keys, g, root, [], Ref(root), {});
    var all := Visit(keys, g, Ref(root), {}, 0);
    assert all - {} == all;
  }

  lemma ScrubbedCloses(keys: set<string>, before: Graph, after: Graph, all: set<JsObject>)
    requires Closed(before) && ScrubbedExactly(keys, before, after, all) && ClosedUnder(keys, before, all, all)
    ensures ClosedUnder({}, after, all, all)
  {
    forall o | o in all
      ensures o in after && Children({}, after, o) <= all
    {
      WithoutNothing(after[o].entries);
    }
  }

  /** After the scrub of a shallow graph, nothing that can still be reached has a sensitive key. */
  lemma ScrubbedResponseIsClean(keys: set<string>, before: Graph, after: Graph, root: JsObject)
    requires Closed(before) && root in before && Shallow(keys, before, root)
    requires ScrubbedExactly(keys, before, after, Visit(keys, before, Ref(root), {}, 0))
    ensures forall o, e | Reachable({}, after, root, o) && !after[o].isArray && e in after[o].entries :: e.key !in keys
  {
    var all := Visit(keys, before, Ref(root), {}, 0);
    ShallowCloses(keys, before, root);
    ScrubbedCloses(keys, before, after, all);
    forall o, e | Reachable({}, after, root, o) && !after[o].isArray && e in after[o].entries
      ensures e.key !in keys
    {
      var p :| IsPath({}, after, root, p) && p[|p| - 1] == o;
      ClosedCatchesPath({}, after, root, p, all);
      WithoutMember(before[o].entries, keys, e);
    }
  }

  /** Entry by entry, what a scrub leaves: all but the sensitive ones of the visited objects that are no arrays. */
  lemma EntriesAfter(keys: set<string>, before: Graph, after: Graph, visited: set<JsObject>)
    requires ScrubbedExactly(keys, before, after, visited)
    ensures forall o, e | o in before ::
      e in after[o].entries <==> e in before[o].entries && !(!before[o].isArray && e.key in keys && o in visited)
  {
    forall o, e | o in before
      ensures e in after[o].entries <==> e in before[o].entries && !(!before[o].isArray && e.key in keys && o in visited)
    {
      WithoutMember(before[o].entries, keys, e);
    }
  }

  /** What a shallow graph is: no simple path from the root has more than nine objects. */
  lemma ShallowMeans(keys: set<string>, g: Graph, root: JsObject)
    ensures Shallow(keys, g, root) <==> forall p :: IsPath(keys, g, root, p) && Distinct(p) ==> |p| <= 9
  {
  }

  /** The call at the end of the handler, with a fresh `seen` set at depth 0. */
  method ScrubResponse(details: JsObject, ghost S: set<JsObject>)
    requires details in S && Closed(Snapshot(S))
    modifies S
    ensures ScrubbedExactly(SENSITIVE_KEYS, old(Snapshot(S)), Snapshot(S), Visit(SENSITIVE_KEYS, old(Snapshot(S)), Ref(details), {}, 0))
    ensures old(Shallow(SENSITIVE_KEYS, Snapshot(S), details)) ==>
      forall o, e | Reachable({}, Snapshot(S), details, o) && !o.isArray && e in o.entries :: e.key !in SENSITIVE_KEYS
  {
    ghost var before := Snapshot(S);
    var seen := new Seen();
    ScrubSensitive(SENSITIVE_KEYS, Ref(details), seen, 0, S);
    assert seen.members - {} == seen.members;
    if Shallow(SENSITIVE_KEYS, before, details) {
      ScrubbedResponseIsClean(SENSITIVE_KEYS, before, Snapshot(S), details);
    }
  }

  // ----- what the depth limit misses -----

  /** Objects in a chain, the last but one of which the root also holds directly. */
  ghost predicate LongWayRound(keys: set<string>, g: Graph, p: seq<JsObject>, link: string, shared: string, secret: string) {
    && link !in keys && shared !in keys && link != shared && secret in keys
    && |p| == MAX_DEPTH + 2 && Distinct(p) && (forall i :: 0 <= i < |p| ==> p[i] in g)
    && g[p[0]] == Node(false, [Entry(link, Ref(p[1])), Entry(shared, Ref(p[MAX_DEPTH]))])
    && (forall i :: 1 <= i <= MAX_DEPTH ==> g[p[i]] == Node(false, [Entry(link, Ref(p[i + 1]))]))
    && g[p[MAX_DEPTH + 1]] == Node(false, [Entry(secret, Plain)])
  }

  ghost function Elements(p: seq<JsObject>): set<JsObject> {
    set o | o in p
  }

  lemma WalkOne(keys: set<string>, g: Graph, o: JsObject, next: JsObject, link: string, seen: set<JsObject>, depth: nat)
    requires Closed(g) && o in g && next in g && link !in keys && depth <= MAX_DEPTH && o !in seen
    requires g[o] == Node(false, [Entry(link, Ref(next))])
    ensures Children(keys, g, o) == {next}
    ensures Visit(keys, g, Ref(o), seen, depth) == Visit(keys, g, Ref(next), seen + {o}, depth + 1)
  {
    var es := [Entry(link, Ref(next))];
    assert es[1..] == [];
    assert Without(es, keys) == [es[0]] + Without(es[1..], keys) == es;
    KeptWithin(keys, g, o);
    assert Targets(es) == {next} + Targets(es[1..]);
    var mid := Visit(keys, g, Ref(next), seen + {o}, depth + 1);
    assert VisitAll(keys, g, es, seen + {o}, depth + 1) == VisitAll(keys, g, es[1..], mid, depth + 1) == mid;
  }

  lemma {:induction false} ChainVisit(keys: set<string>, g: Graph, p: seq<JsObject>, link: string, shared: string, secret: string, i: nat)
    requires Closed(g) && LongWayRound(keys, g, p, link, shared, secret) && 1 <= i <= MAX_DEPTH + 1
    ensures Visit(keys, g, Ref(p[i]), Elements(p[..i]), i) == Elements(p[..MAX_DEPTH + 1])
    decreases MAX_DEPTH + 1 - i
  {
    if i <= MAX_DEPTH {
      ChainVisit(keys, g, p, link, shared, secret, i + 1);
      assert p[..i + 1] == p[..i] + [p[i]];
      assert Elements(p[..i]) + {p[i]} == Elements(p[..i + 1]);
      WalkOne(keys, g, p[i], p[i + 1], link, Elements(p[..i]), i);
    }
  }

  lemma TwoEntries(keys: set<string>, g: Graph, o: JsObject, e: Entry, f: Entry)
    requires Closed(g) && o in g && g[o] == Node(false, [e, f]) && e.key !in keys && f.key !in keys && e.value.Ref? && f.value.Ref?
    ensures Children(keys, g, o) == {e.value.obj, f.value.obj} && e.value.obj in g && f.value.obj in g
    ensures Visit(keys, g, Ref(o), {}, 0) == Visit(keys, g, f.value, Visit(keys, g, e.value, {o}, 1), 1)
  {
    var es := [e, f];
    assert es[1..] == [f] && es[1..][1..] == [];
    assert Without(es[1..], keys) == [f] + Without(es[1..][1..], keys) == [f];
    assert Without(es, keys) == [e] + Without(es[1..], keys) == es;
    assert Targets(es[1..]) == {f.value.obj} + Targets(es[1..][1..]);
    KeptWithin(keys, g, o);
    assert e in es && f in es;
    assert {} + {o} == {o};
    TwoVisits(keys, g, e, f, {o}, 1);
  }

  lemma TwoVisits(keys: set<string>, g: Graph, e: Entry, f: Entry, seen: set<JsObject>, depth: nat)
    requires Closed(g) && Within([e, f], g) && depth <= MAX_DEPTH + 1
    ensures (e.value.Ref? ==> e.value.obj in g) && (f.value.Ref? ==> f.value.obj in g)
    ensures VisitAll(keys, g, [e, f], seen, depth) == Visit(keys, g, f.value, Visit(keys, g, e.value, seen, depth), depth)
  {
    var es := [e, f];
    assert es[1..] == [f] && es[1..][1..] == [];
    assert e in es && f in es;
    var mid := Visit(keys, g, e.value, seen, depth);
    assert VisitAll(keys, g, es, seen, depth) == VisitAll(keys, g, es[1..], mid, depth);
    assert VisitAll(keys, g, es[1..], mid, depth) == VisitAll(keys, g, es[1..][1..], Visit(keys, g, f.value, mid, depth), depth);
  }

  /**
   A path within the limit is not enough when objects are shared: an object two edges from the root
   keeps its password when the object that holds it is first reached along a path of the maximal length.
   */
  lemma DepthLimitMissesNearObjects(keys: set<string>, g: Graph, p: seq<JsObject>, link: string, shared: string, secret: string)
    requires Closed(g) && LongWayRound(keys, g, p, link, shared, secret)
    ensures IsPath(keys, g, p[0], [p[0], p[MAX_DEPTH], p[MAX_DEPTH + 1]])
    ensures p[MAX_DEPTH + 1] !in Visit(keys, g, Ref(p[0]), {}, 0)
  {
    TwoEntries(keys, g, p[0], Entry(link, Ref(p[1])), Entry(shared, Ref(p[MAX_DEPTH])));
    WalkOne(keys, g, p[MAX_DEPTH], p[MAX_DEPTH + 1], link, {}, 0);
    assert p[..1] == [p[0]] && Elements(p[..1]) == {p[0]};
    ChainVisit(keys, g, p, link, shared, secret, 1);
    var all := Elements(p[..MAX_DEPTH + 1]);
    assert p[MAX_DEPTH] in p[..MAX_DEPTH + 1];
    assert Visit(keys, g, Ref(p[MAX_DEPTH]), all, 1) == all;
    assert p[MAX_DEPTH + 1] !in all;
    hide Visit, Targets, Without;
    var near := [p[0], p[MAX_DEPTH], p[MAX_DEPTH + 1]];
    assert near[1] in Children(keys, g, near[0]) && near[2] in Children(keys, g, near[1]);
  }

  /** An object that holds nothing but a link to the next. */
  ghost predicate LinksTo(o: JsObject, link: string, next: JsObject)
    reads o
  {
    !o.isArray && o.entries == [Entry(link, Ref(next))]
  }

  /** Such a heap, built object by object from the end of the chain. */
  method BuildLongWayRound(keys: set<string>, link: string, shared: string, secret: string) returns (p: seq<JsObject>)
    requires link !in keys && shared !in keys && link != shared && secret in keys
    ensures fresh(Elements(p))
    ensures var g := Snapshot(Elements(p)); Closed(g) && LongWayRound(keys, g, p, link, shared, secret)
  {
    var end := new JsObject(false, [Entry(secret, Plain)]);
    p := [end];
    while |p| < MAX_DEPTH + 1
      invariant 1 <= |p| <= MAX_DEPTH + 1 && Distinct(p) && fresh(Elements(p))
      invariant !p[|p| - 1].isArray && p[|p| - 1].entries == [Entry(secret, Plain)]
      invariant forall i :: 0 <= i < |p| - 1 ==> LinksTo(p[i], link, p[i + 1])
    {
      var o := new JsObject(false, [Entry(link, Ref(p[0]))]);
      assert forall x <- p :: x in Elements(p) && x != o;
      p := [o] + p;
    }
    var root := new JsObject(false, [Entry(link, Ref(p[0])), Entry(shared, Ref(p[MAX_DEPTH - 1]))]);
    assert forall x <- p :: x in Elements(p) && x != root;
    ghost var chain := p;
    p := [root] + p;
    assert forall i :: 1 <= i < |p| ==> p[i] == chain[i - 1];
    LongWayRoundBuilt(keys, p, link, shared, secret);
  }

  lemma LongWayRoundBuilt(keys: set<string>, p: seq<JsObject>, link: string, shared: string, secret: string)
    requires link !in keys && shared !in keys && link != shared && secret in keys
    requires |p| == MAX_DEPTH + 2 && Distinct(p)
    requires !p[0].isArray && p[0].entries == [Entry(link, Ref(p[1])), Entry(shared, Ref(p[MAX_DEPTH]))]
    requires forall i :: 1 <= i <= MAX_DEPTH ==> LinksTo(p[i], link, p[i + 1])
    requires !p[MAX_DEPTH + 1].isArray && p[MAX_DEPTH + 1].entries == [Entry(secret, Plain)]
    ensures var g := Snapshot(Elements(p)); Closed(g) && LongWayRound(keys, g, p, link, shared, secret)
  {
    var g := Snapshot(Elements(p));
    assert forall i :: 0 <= i < |p| ==> p[i] in p && p[i] in g;
    forall o, e | o in g && e in g[o].entries && e.value.Ref?
      ensures e.value.obj in g
    {
      var i :| 0 <= i < |p| && p[i] == o;
      assert 1 <= i <= MAX_DEPTH ==> LinksTo(p[i], link, p[i + 1]);
    }
  }

  /**
   The scrub leaves the sensitive entry in place on that heap, where it can still be reached: any two
   keys that are not sensitive and one that is will do.
   */
  method ScrubMissesEntry(link: string, shared: string, secret: string) returns (root: JsObject, near: JsObject, end: JsObject)
    requires link !in SENSITIVE_KEYS && shared !in SENSITIVE_KEYS && link != shared && secret in SENSITIVE_KEYS
    ensures Ref(near) in Values(root.entries) && Ref(end) in Values(near.entries)
    ensures !end.isArray && Entry(secret, Plain) in end.entries
  {
    var p := BuildLongWayRound(SENSITIVE_KEYS, link, shared, secret);
    ghost var S := Elements(p);
    ghost var g := Snapshot(S);
    root, near, end := p[0], p[MAX_DEPTH], p[MAX_DEPTH + 1];
    assert p[0] in p && p[MAX_DEPTH] in p && p[MAX_DEPTH + 1] in p;
    DepthLimitMissesNearObjects(SENSITIVE_KEYS, g, p, link, shared, secret);
    LinksAreKept(SENSITIVE_KEYS, g, p, link, shared, secret);
    hide Shallow, Visit;
    ScrubResponse(root, S);
  }

  function Values(es: seq<Entry>): set<Value> {
    set e | e in es :: e.value
  }

  lemma LinksAreKept(keys: set<string>, g: Graph, p: seq<JsObject>, link: string, shared: string, secret: string)
    requires LongWayRound(keys, g, p, link, shared, secret)
    ensures Ref(p[MAX_DEPTH]) in Values(g[p[0]].entries) && Ref(p[MAX_DEPTH]) in Values(Without(g[p[0]].entries, keys))
    ensures Ref(p[MAX_DEPTH + 1]) in Values(g[p[MAX_DEPTH]].entries)
    ensures Ref(p[MAX_DEPTH + 1]) in Values(Without(g[p[MAX_DEPTH]].entries, keys))
  {
    var direct, last := Entry(shared, Ref(p[MAX_DEPTH])), Entry(link, Ref(p[MAX_DEPTH + 1]));
    WithoutMember(g[p[0]].entries, keys, direct);
    WithoutMember(g[p[MAX_DEPTH]].entries, keys, last);
    assert g[p[0]].entries[1] == direct && g[p[MAX_DEPTH]].entries[0] == last;
  }

  /** Which keys are sensitive. */
  lemma SensitiveKeys(key: string)
    ensures key in SENSITIVE_KEYS <==> key in [
      "password", "tmp_password", "pass_recovery_token", "email_confirm_code", "email_confirm_token",
      "change_email_confirm_token", "otp_secret", "otp_recovery_codes", "card_fingerprint", "phone",
      "clean_email", "signup_ip", "signup_ip_forwarded", "signup_user_agent", "signup_origin",
      "signup_server", "audit_metadata"]
  {
  }

  /** Three keys for that heap. */
  lemma SomeKeys()
    ensures "n" !in SENSITIVE_KEYS && "s" !in SENSITIVE_KEYS && "n" != "s" && "password" in SENSITIVE_KEYS
  {
  }
}
