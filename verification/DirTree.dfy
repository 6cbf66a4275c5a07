/** Upload paths as lists of components, and the text rewrites that drop a first one. */
module DirPaths {
  import opened Wrappers
  import opened Text

  type Path = seq<string>

  function NonEmpty(parts: seq<string>): Path {
    if parts == [] then [] else (if parts[0] == "" then [] else [parts[0]]) + NonEmpty(parts[1..])
  }

  /** The components of a path string: its parts between slashes, empty ones dropped. */
  function Components(path: string): Path {
    NonEmpty(Split(path, '/'))
  }

  lemma {:induction false} NonEmptyAppend(parts: seq<string>, part: string)
    ensures NonEmpty(parts + [part]) == NonEmpty(parts) + (if part == "" then [] else [part])
  {
    if parts == [] {
      assert parts + [part] == [part] && [part][1..] == [];
    } else {
      NonEmptyAppend(parts[1..], part);
      assert (parts + [part])[1..] == parts[1..] + [part];
    }
  }

  ghost predicate SomePathStarts(paths: seq<string>, q: Path) {
    exists path :: path in paths && q <= Components(path)
  }

  ghost predicate AllBelow(paths: seq<string>, c: string) {
    forall path :: path in paths && Components(path) != [] ==> Components(path)[0] == c
  }

  // ----- dropping the only root directory from item paths -----

  /** An uploaded item; an empty `fullPath` or `path` is an absent one. */
  datatype Item = Item(fullPath: string, path: string, filepath: string, finalPath: Option<string>)

  /** `s.replace(k, '')`: the first occurrence of k goes. */
  function RemoveFirst(s: string, k: string): string {
    if k <= s then s[|k|..]
    else if s == "" then ""
    else [s[0]] + RemoveFirst(s[1..], k)
  }

  predicate OccursAt(s: string, k: string, n: nat) {
    n + |k| <= |s| && s[n..n + |k|] == k
  }

  lemma OccursBehind(s: string, k: string, n: nat)
    requires s != ""
    ensures OccursAt(s[1..], k, n) <==> OccursAt(s, k, n + 1)
  {
    if n + |k| < |s| {
      assert s[1..][n..n + |k|] == s[n + 1..n + 1 + |k|];
    }
  }

  lemma OccursFirst(s: string, k: string)
    ensures OccursAt(s, k, 0) <==> k <= s
  {
  }

  lemma RemoveFirstStep(s: string, k: string)
    requires s != "" && !OccursAt(s, k, 0)
    ensures RemoveFirst(s, k) == [s[0]] + RemoveFirst(s[1..], k)
  {
    OccursFirst(s, k);
  }

  /** The first occurrence is cut out, wherever it is; without one nothing changes. */
  lemma {:induction false} RemoveFirstAt(s: string, k: string, n: nat)
    requires OccursAt(s, k, n) && forall m: nat :: m < n ==> !OccursAt(s, k, m)
    ensures RemoveFirst(s, k) == s[..n] + s[n + |k|..]
  {
    if n == 0 {
      assert s[..|k|] == k && s[..0] == "";
    } else {
      RemoveFirstStep(s, k);
      hide RemoveFirst, OccursAt;
      OccursBehind(s, k, n - 1);
      forall m: nat | m < n - 1
        ensures !OccursAt(s[1..], k, m)
      {
        OccursBehind(s, k, m);
      }
      RemoveFirstAt(s[1..], k, n - 1);
      OccursWithin(s, k, n);
      TailOfCut(s, n, |k|);
    }
  }

  lemma OccursWithin(s: string, k: string, n: nat)
    requires OccursAt(s, k, n)
    ensures n + |k| <= |s|
  {
  }

  lemma TailOfCut(s: string, n: nat, l: nat)
    requires 0 < n && n + l <= |s|
    ensures [s[0]] + (s[1..][..n - 1] + s[1..][n - 1 + l..]) == s[..n] + s[n + l..]
  {
    assert [s[0]] + s[1..][..n - 1] == s[..n];
    assert s[1..][n - 1 + l..] == s[n + l..];
    Regroup([s[0]], s[1..][..n - 1], s[n + l..]);
  }

  lemma {:induction false} RemoveFirstNone(s: string, k: string)
    requires k != "" && forall m: nat :: !OccursAt(s, k, m)
    ensures RemoveFirst(s, k) == s
  {
    if s != "" {
      RemoveFirstStep(s, k);
      hide RemoveFirst, OccursAt;
      forall m: nat
        ensures !OccursAt(s[1..], k, m)
      {
        OccursBehind(s, k, m);
      }
      RemoveFirstNone(s[1..], k);
    }
  }

  function StripRoot(item: Item, k: string): Item {
    if item.fullPath != "" then item.(finalPath := Some(RemoveFirst(item.fullPath, k)))
    else if item.path != "" then item.(path := RemoveFirst(item.path, k))
    else item.(filepath := RemoveFirst(item.filepath, k))
  }

  /** The text that the rewrite of an item looks at, and where it leaves the result. */
  function TextOf(item: Item): string {
    if item.fullPath != "" then item.fullPath else if item.path != "" then item.path else item.filepath
  }

  function ResultOf(item: Item, stripped: Item): string {
    if item.fullPath != "" then stripped.finalPath.GetOr("")
    else if item.path != "" then stripped.path
    else stripped.filepath
  }

  lemma {:induction false} NonEmptyMember(parts: seq<string>, part: string)
    ensures part in NonEmpty(parts) ==> part in parts && part != ""
  {
    if parts != [] {
      NonEmptyMember(parts[1..], part);
    }
  }

  lemma ComponentIsName(path: string, c: string)
    requires c in Components(path)
    ensures c != "" && '/' !in c
  {
    PiecesAreFree(path, '/');
    NonEmptyMember(Split(path, '/'), c);
  }

  /** The item's text is one of the paths, as far as its components go, and has some. */
  ghost predicate IsListed(item: Item, paths: seq<string>) {
    Components(TextOf(item)) != [] && exists path <- paths :: Components(path) == Components(TextOf(item))
  }

  /** One field of an item is rewritten: `finalPath`, from `fullPath`, or else `path`, or else `filepath`. */
  lemma StrippedField(item: Item, k: string)
    ensures item.fullPath != "" ==> StripRoot(item, k) == item.(finalPath := Some(RemoveFirst(item.fullPath, k)))
    ensures item.fullPath == "" && item.path != "" ==> StripRoot(item, k) == item.(path := RemoveFirst(item.path, k))
    ensures item.fullPath == "" && item.path == "" ==> StripRoot(item, k) == item.(filepath := RemoveFirst(item.filepath, k))
  {
  }

  lemma StrippedItem(item: Item, paths: seq<string>, c: string)
    requires AllBelow(paths, c) && IsListed(item, paths)
    ensures Components(ResultOf(item, StripRoot(item, c))) == Components(TextOf(item))[1..]
  {
    var text := TextOf(item);
    assert Components(text)[0] == c;
    ComponentIsName(text, c);
    RemoveFirstDropsRoot(text, c);
  }

  lemma {:induction false} SplitHead(head: string, rest: string)
    requires '/' !in head && (rest == "" || rest[0] == '/')
    ensures Components(head + rest) == (if head == "" then [] else [head]) + (if rest == "" then [] else Components(rest[1..]))
  {
    IndexOfAppend(head, rest, '/');
    assert IndexOf(head, '/') == |head|;
    if rest == "" {
      assert head + rest == head && Split(head, '/') == [head];
      assert [head][1..] == [] && NonEmpty([]) == [];
      assert NonEmpty([head]) == (if head == "" then [] else [head]) + NonEmpty([head][1..]);
    } else {
      var s := head + rest;
      assert s[..|head|] == head && s[|head| + 1..] == rest[1..];
      assert Split(s, '/') == [head] + Split(rest[1..], '/');
      assert ([head] + Split(rest[1..], '/'))[1..] == Split(rest[1..], '/');
    }
  }

  /**
   Removing the first occurrence of a path's first component removes just that component, even if
   the same text occurs again further down.
   */
  lemma {:induction false} RemoveFirstDropsRoot(s: string, k: string)
    requires k != "" && '/' !in k && Components(s) != [] && Components(s)[0] == k
    ensures Components(RemoveFirst(s, k)) == Components(s)[1..]
  {
    var i := IndexOf(s, '/');
    var head, rest := s[..i], s[i..];
    assert s == head + rest;
    SplitHead(head, rest);
    if i == 0 {
      assert s != "" && s[0] == '/';
      assert !(k <= s) by {
        assert k[0] in k;
      }
      var t := RemoveFirst(s[1..], k);
      RemoveFirstDropsRoot(s[1..], k);
      SplitHead("", ['/'] + t);
      assert "" + (['/'] + t) == ['/'] + t && (['/'] + t)[1..] == t;
      assert RemoveFirst(s, k) == ['/'] + t;
    } else {
      assert head == k;
      assert RemoveFirst(s, k) == rest;
      SplitHead("", rest);
      assert "" + rest == rest;
    }
  }
}

/**
 The upload directory tree: a trie of nested objects grown through a moving node. A ghost map `at`
 names the object at the end of each trail from the root, which turns the pointer structure into a
 set of trails.
 */
module DirTree {
  import opened Wrappers
  import opened Text
  import opened DirPaths

  class DirNode {
    var children: map<string, DirNode>

    constructor ()
      ensures children == map[]
    {
      children := map[];
    }
  }

  // ----- trails -----

  /** A path as the steps that lead there, the last one outermost. */
  datatype Trail = Top | Step(up: Trail, name: string)

  function TrailOf(p: Path): Trail {
    if p == [] then Top else Step(TrailOf(p[..|p| - 1]), p[|p| - 1])
  }

  lemma TrailOfExtended(p: Path, c: string)
    ensures TrailOf(p + [c]) == Step(TrailOf(p), c)
  {
    assert (p + [c])[..|p|] == p;
  }

  function Prefixes(t: Trail): set<Trail> {
    if t.Top? then {Top} else Prefixes(t.up) + {t}
  }

  lemma {:induction false} TrailOfInjective(p: Path, q: Path)
    ensures TrailOf(p) == TrailOf(q) <==> p == q
  {
    if p != [] && q != [] {
      TrailOfInjective(p[..|p| - 1], q[..|q| - 1]);
      assert p == p[..|p| - 1] + [p[|p| - 1]] && q == q[..|q| - 1] + [q[|q| - 1]];
    }
  }

  lemma {:induction false} TrailPrefixes(p: Path, q: Path)
    ensures TrailOf(q) in Prefixes(TrailOf(p)) <==> q <= p
  {
    TrailOfInjective(p, q);
    if p != [] {
      var p' := p[..|p| - 1];
      TrailPrefixes(p', q);
      assert p == p' + [p[|p| - 1]];
      assert q <= p && q != p ==> q == p[..|q|] == p'[..|q|];
    }
  }

  /** The trails of the listed paths and everything above them. */
  ghost function Closure(paths: seq<string>): set<Trail> {
    if paths == [] then {Top} else Closure(paths[..|paths| - 1]) + Prefixes(TrailOf(Components(paths[|paths| - 1])))
  }

  /** The closure is the prefix closure of the input paths, whatever their order. */
  lemma {:induction false} ClosureIsPrefixClosure(paths: seq<string>, q: Path)
    ensures TrailOf(q) in Closure(paths) <==> q == [] || exists path :: path in paths && q <= Components(path)
  {
    if paths == [] {
      assert TrailOf(q) == Top <==> q == [];
    } else {
      var last := paths[|paths| - 1];
      ClosureIsPrefixClosure(paths[..|paths| - 1], q);
      TrailPrefixes(Components(last), q);
      assert paths == paths[..|paths| - 1] + [last];
    }
  }

  // ----- the tree on the heap -----

  type Kids = map<string, DirNode>

  /** One object per trail, and no trail without the trails above it. */
  ghost predicate Named(root: DirNode, at: map<Trail, DirNode>) {
    && Top in at && at[Top] == root
    && (forall p, q | p in at && q in at :: at[p] == at[q] ==> p == q)
    && (forall q | q in at && q.Step? :: q.up in at)
  }

  /** The children of the object at p are the objects one step below. */
  ghost predicate Linked(at: map<Trail, DirNode>, kids: map<Trail, Kids>) {
    && at.Keys == kids.Keys
    && (forall p, c | p in kids && c in kids[p] :: Step(p, c) in at && at[Step(p, c)] == kids[p][c])
    && (forall q | q in at && q.Step? && q.up in kids :: q.name in kids[q.up])
  }

  ghost function KidsOf(at: map<Trail, DirNode>): map<Trail, Kids>
    reads at.Values
  {
    map p | p in at :: at[p].children
  }

  /** Every object of the tree is named by exactly one trail, and linked to its children only. */
  ghost predicate Represents(root: DirNode, at: map<Trail, DirNode>)
    reads at.Values
    ensures Represents(root, at) ==> Top in at && at[Top] == root
  {
    Named(root, at) && Linked(at, KidsOf(at))
  }

  lemma NamedWithLeaf(root: DirNode, at: map<Trail, DirNode>, here: Trail, part: string, leaf: DirNode)
    requires Named(root, at) && here in at && Step(here, part) !in at && leaf !in at.Values
    ensures Named(root, at[Step(here, part) := leaf])
  {
  }

  lemma LeafIsLinked(at: map<Trail, DirNode>, kids: map<Trail, Kids>, here: Trail, part: string, leaf: DirNode)
    requires at.Keys == kids.Keys && here in at && part !in kids[here] && Step(here, part) !in at
    requires forall p, c | p in kids && c in kids[p] :: Step(p, c) in at && at[Step(p, c)] == kids[p][c]
    ensures var q := Step(here, part);
      var at', kids' := at[q := leaf], kids[here := kids[here][part := leaf]][q := map[]];
      forall p, c | p in kids' && c in kids'[p] :: Step(p, c) in at' && at'[Step(p, c)] == kids'[p][c]
  {
  }

  lemma LinkedWithLeaf(at: map<Trail, DirNode>, kids: map<Trail, Kids>, here: Trail, part: string, leaf: DirNode)
    requires Linked(at, kids) && here in at && part !in kids[here]
    requires forall q | q in at && q.Step? :: q.up in at
    ensures Step(here, part) !in at
    ensures Linked(at[Step(here, part) := leaf], kids[here := kids[here][part := leaf]][Step(here, part) := map[]])
  {
    var q := Step(here, part);
    assert q.name == part && q.up == here;
    LeafIsLinked(at, kids, here, part, leaf);
    var at', kids' := at[q := leaf], kids[here := kids[here][part := leaf]][q := map[]];
    forall r | r in at' && r.Step? && r.up in kids'
      ensures r.name in kids'[r.up]
    {
      if r != q {
        assert r in at && r.up in kids && r.name in kids[r.up];
      }
    }
  }

  lemma LeafIsNew(root: DirNode, at: map<Trail, DirNode>, kids: map<Trail, Kids>, here: Trail, part: string, leaf: DirNode)
    requires Named(root, at) && Linked(at, kids) && here in at && part !in kids[here] && leaf !in at.Values
    ensures Step(here, part) !in at && forall p | p in at && p != here :: at[p] != at[here]
    ensures Named(root, at[Step(here, part) := leaf])
    ensures Linked(at[Step(here, part) := leaf], kids[here := kids[here][part := leaf]][Step(here, part) := map[]])
  {
    LinkedWithLeaf(at, kids, here, part, leaf);
    NamedWithLeaf(root, at, here, part, leaf);
  }

  /** Hanging a fresh leaf under `here`. */
  method AddChild(root: DirNode, node: DirNode, part: string, child: DirNode, ghost at: map<Trail, DirNode>, ghost here: Trail)
    requires Represents(root, at) && here in at && at[here] == node && part !in node.children
    requires child.children == map[] && child !in at.Values
    modifies node
    ensures Represents(root, at[Step(here, part) := child])
    ensures node.children == old(node.children)[part := child]
    ensures Step(here, part) !in at
  {
    hide Named, Linked;
    ghost var kids := KidsOf(at);
    LeafIsNew(root, at, kids, here, part, child);
    ghost var at', kids' := at[Step(here, part) := child], kids[here := kids[here][part := child]][Step(here, part) := map[]];
    node.children := node.children[part := child];
    forall p | p in at'
      ensures p in kids' && at'[p].children == kids'[p]
    {
    }
    assert KidsOf(at') == kids';
  }

  lemma ChildIsNamed(root: DirNode, node: DirNode, part: string, at: map<Trail, DirNode>, here: Trail)
    requires Represents(root, at) && here in at && at[here] == node && part in node.children
    ensures Step(here, part) in at && at[Step(here, part)] == node.children[part]
  {
    assert KidsOf(at)[here] == node.children;
  }

  /** One turn of the inner loop: step to the child, creating it if it is not there. */
  method Descend(root: DirNode, node: DirNode, part: string, ghost at: map<Trail, DirNode>, ghost here: Trail)
    returns (next: DirNode, ghost at': map<Trail, DirNode>)
    requires Represents(root, at) && here in at && at[here] == node
    modifies node
    ensures Represents(root, at') && at'.Keys == at.Keys + {Step(here, part)}
    ensures at'[Step(here, part)] == next
    ensures fresh(at'.Values - at.Values)
  {
    hide Represents;
    at' := at;
    if part !in node.children {
      var child := new DirNode();
      AddChild(root, node, part, child, at, here);
      at' := at[Step(here, part) := child];
    } else {
      ChildIsNamed(root, node, part, at, here);
    }
    next := node.children[part];
  }

  lemma TrailStep(parts: seq<string>, i: nat)
    requires i < |parts|
    ensures var here := TrailOf(NonEmpty(parts[..i]));
      TrailOf(NonEmpty(parts[..i + 1])) == if parts[i] == "" then here else Step(here, parts[i])
  {
    assert parts[..i + 1] == parts[..i] + [parts[i]];
    NonEmptyAppend(parts[..i], parts[i]);
    if parts[i] == "" {
      assert NonEmpty(parts[..i + 1]) == NonEmpty(parts[..i]);
    } else {
      TrailOfExtended(NonEmpty(parts[..i]), parts[i]);
    }
  }

  lemma NoSteps(parts: seq<string>)
    ensures TrailOf(NonEmpty(parts[..0])) == Top
  {
  }

  /** The inner loop over one path's parts. */
  method AddPath(root: DirNode, path: string, ghost at: map<Trail, DirNode>) returns (ghost at': map<Trail, DirNode>)
    requires Represents(root, at)
    modifies at.Values
    ensures Represents(root, at') && at'.Keys == at.Keys + Prefixes(TrailOf(Components(path)))
    ensures fresh(at'.Values - at.Values)
  {
    hide Represents, Split, NonEmpty, TrailOf;
    var parts := Split(path, '/');
    NoSteps(parts);
    var currentNode := root;
    at' := at;
    ghost var here := Top;
    var i := 0;
    while i < |parts|
      invariant 0 <= i <= |parts| && here == TrailOf(NonEmpty(parts[..i]))
      invariant Represents(root, at') && at'.Keys == at.Keys + Prefixes(here)
      invariant here in at' && at'[here] == currentNode
      invariant fresh(at'.Values - at.Values)
    {
      TrailStep(parts, i);
      if parts[i] != "" {
        currentNode, at' := Descend(root, currentNode, parts[i], at', here);
        here := Step(here, parts[i]);
      }
      i := i + 1;
    }
    assert parts[..i] == parts;
  }

  method EmptyTree() returns (root: DirNode, ghost at: map<Trail, DirNode>)
    ensures Represents(root, at) && at.Keys == {Top} && fresh(at.Values)
  {
    root := new DirNode();
    at := map[Top := root];
  }

  /** The tree of the listed paths: its trails are exactly their prefix closure. */
  method GenerateDirTree(paths: seq<string>) returns (root: DirNode, ghost at: map<Trail, DirNode>)
    ensures Represents(root, at) && at.Keys == Closure(paths)
    ensures fresh(at.Values)
  {
    hide Represents;
    root, at := EmptyTree();
    var i := 0;
    while i < |paths|
      invariant 0 <= i <= |paths|
      invariant Represents(root, at) && at.Keys == Closure(paths[..i])
      invariant fresh(at.Values)
    {
      at := AddPath(root, paths[i], at);
      assert paths[..i + 1][..i] == paths[..i];
      i := i + 1;
    }
    assert paths[..i] == paths;
  }

  // ----- what the tree is asked -----

  const INDEX := "index.html"

  /** Every path lies in one directory, and some path starts with index.html there. */
  ghost predicate IndexInOnlyDirectory(paths: seq<string>) {
    exists c :: AllBelow(paths, c) && SomePathStarts(paths, [c, INDEX])
  }

  /** What the question is about. */
  lemma IndexMeans(paths: seq<string>)
    ensures SomePathStarts(paths, [INDEX]) <==> exists path <- paths :: ["index.html"] <= Components(path)
    ensures IndexInOnlyDirectory(paths) <==>
      exists c: string ::
        && (forall path <- paths :: Components(path) != [] ==> Components(path)[0] == c)
        && exists path <- paths :: [c, "index.html"] <= Components(path)
  {
    hide Components;
    assert forall c: string :: SomePathStarts(paths, [c, INDEX]) <==> exists path <- paths :: [c, "index.html"] <= Components(path);
    assert forall c: string :: AllBelow(paths, c) <==> forall path <- paths :: Components(path) != [] ==> Components(path)[0] == c;
  }

  lemma RootKid(root: DirNode, at: map<Trail, DirNode>, paths: seq<string>, c: string)
    requires Represents(root, at) && at.Keys == Closure(paths)
    ensures c in root.children <==> SomePathStarts(paths, [c])
    ensures c in root.children ==> Step(Top, c) in at && at[Step(Top, c)] == root.children[c]
  {
    TrailOfExtended([], c);
    assert [] + [c] == [c];
    hide Closure, Components, SomePathStarts, TrailOf;
    InClosure(paths, [c]);
    var kids := KidsOf(at);
    assert kids[Top] == root.children;
    assert Step(Top, c).up == Top && Step(Top, c).name == c;
  }

  lemma InClosure(paths: seq<string>, q: Path)
    requires q != []
    ensures TrailOf(q) in Closure(paths) <==> SomePathStarts(paths, q)
  {
    hide Closure, Components, TrailOf;
    ClosureIsPrefixClosure(paths, q);
  }

  lemma TwoSteps(c: string, d: string)
    ensures TrailOf([c, d]) == Step(Step(Top, c), d)
  {
    TrailOfExtended([], c);
    TrailOfExtended([c], d);
    assert [] + [c] == [c] && [c] + [d] == [c, d];
  }

  lemma SecondKid(root: DirNode, at: map<Trail, DirNode>, paths: seq<string>, c: string, d: string)
    requires Represents(root, at) && at.Keys == Closure(paths) && c in root.children
    ensures d in root.children[c].children <==> SomePathStarts(paths, [c, d])
  {
    hide Closure, Components, SomePathStarts, TrailOf, Named;
    RootKid(root, at, paths, c);
    InClosure(paths, [c, d]);
    TwoSteps(c, d);
    var kids, q := KidsOf(at), Step(Step(Top, c), d);
    assert kids[Step(Top, c)] == root.children[c].children;
    assert q.up == Step(Top, c) && q.name == d;
  }

  /** The root has the single child c exactly when all paths lie below c, and some do. */
  lemma OnlyKid(root: DirNode, at: map<Trail, DirNode>, paths: seq<string>, c: string)
    requires Represents(root, at) && at.Keys == Closure(paths)
    ensures root.children.Keys == {c} <==> AllBelow(paths, c) && SomePathStarts(paths, [c])
  {
    RootKid(root, at, paths, c);
    if root.children.Keys == {c} {
      forall path | path in paths && Components(path) != []
        ensures Components(path)[0] == c
      {
        var first := Components(path)[0];
        assert [first] <= Components(path);
        RootKid(root, at, paths, first);
      }
    } else if AllBelow(paths, c) && SomePathStarts(paths, [c]) {
      forall k | k in root.children
        ensures k == c
      {
        RootKid(root, at, paths, k);
      }
    }
  }

  lemma Singleton<T>(s: set<T>, x: T)
    requires |s| == 1 && x in s
    ensures s == {x}
  {
    assert |s - {x}| == 0;
  }

  /** The deploy dialog's question, answered for the paths the tree was made from, in any order. */
  method HasRootIndexHtml(root: DirNode, ghost at: map<Trail, DirNode>, ghost paths: seq<string>) returns (found: bool)
    requires Represents(root, at) && at.Keys == Closure(paths)
    ensures found <==> SomePathStarts(paths, [INDEX]) || IndexInOnlyDirectory(paths)
  {
    RootKid(root, at, paths, INDEX);
    if INDEX in root.children {
      return true;
    }
    found := false;
    if |root.children| == 1 {
      var only :| only in root.children;
      Singleton(root.children.Keys, only);
      OnlyKid(root, at, paths, only);
      SecondKid(root, at, paths, only, INDEX);
      found := INDEX in root.children[only].children;
    }
    if IndexInOnlyDirectory(paths) {
      ghost var c :| AllBelow(paths, c) && SomePathStarts(paths, [c, INDEX]);
      ghost var path :| path in paths && [c, INDEX] <= Components(path);
      assert [c] <= Components(path);
      OnlyKid(root, at, paths, c);
      assert |root.children.Keys| == 1;
    }
  }

  /** The root holds exactly one directory, and it is not empty. */
  ghost predicate OneDirectory(paths: seq<string>, c: string) {
    AllBelow(paths, c) && exists d :: SomePathStarts(paths, [c, d])
  }

  lemma OneDirectoryIsAll(paths: seq<string>, c: string)
    requires OneDirectory(paths, c)
    ensures AllBelow(paths, c)
  {
  }

  lemma OneDirectoryKids(root: DirNode, at: map<Trail, DirNode>, paths: seq<string>, c: string)
    requires Represents(root, at) && at.Keys == Closure(paths)
    ensures OneDirectory(paths, c) <==> root.children.Keys == {c} && root.children[c].children != map[]
  {
    OnlyKid(root, at, paths, c);
    if OneDirectory(paths, c) {
      var d :| SomePathStarts(paths, [c, d]);
      var path :| path in paths && [c, d] <= Components(path);
      assert [c] <= Components(path);
      SecondKid(root, at, paths, c, d);
    } else if root.children.Keys == {c} && root.children[c].children != map[] {
      var d :| d in root.children[c].children;
      SecondKid(root, at, paths, c, d);
    }
  }

  /** The in-place rewrite: only done when the tree's root has one child, and that child has children. */
  method SetRootDirTree(root: DirNode, items: array<Item>, ghost at: map<Trail, DirNode>, ghost paths: seq<string>)
    returns (stripped: Option<string>)
    requires Represents(root, at) && at.Keys == Closure(paths)
    modifies items
    ensures stripped.None? <==> forall c :: !OneDirectory(paths, c)
    ensures stripped.None? ==> items[..] == old(items[..])
    ensures stripped.Some? ==> OneDirectory(paths, stripped.value)
    ensures stripped.Some? ==> forall i :: 0 <= i < items.Length ==> items[i] == StripRoot(old(items[i]), stripped.value)
    ensures stripped.Some? ==> forall i :: 0 <= i < items.Length && IsListed(old(items[i]), paths) ==>
      Components(ResultOf(old(items[i]), items[i])) == Components(TextOf(old(items[i])))[1..]
  {
    hide Represents, OneDirectory;
    stripped := None;
    ghost var kids := root.children;
    if |root.children| == 1 {
      var only :| only in root.children;
      Singleton(root.children.Keys, only);
      OneDirectoryKids(root, at, paths, only);
      if |root.children[only].children| > 0 {
        stripped := Some(only);
        var i := 0;
        while i < items.Length
          invariant 0 <= i <= items.Length
          invariant forall j :: 0 <= j < i ==> items[j] == StripRoot(old(items[j]), only)
          invariant forall j :: i <= j < items.Length ==> items[j] == old(items[j])
        {
          items[i] := StripRoot(items[i], only);
          i := i + 1;
        }
        forall j | 0 <= j < items.Length && IsListed(old(items[j]), paths)
          ensures Components(ResultOf(old(items[j]), items[j])) == Components(TextOf(old(items[j])))[1..]
        {
          OneDirectoryIsAll(paths, only);
          StrippedItem(old(items[j]), paths, only);
        }
        return;
      }
    }
    forall c
      ensures !OneDirectory(paths, c)
    {
      OneDirectoryKids(root, at, paths, c);
      if kids.Keys == {c} {
        assert |kids.Keys| == 1;
      }
    }
  }
}
