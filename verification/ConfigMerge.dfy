/** The recursive, right-biased merge of a config over its defaults. */
module ConfigMerge {
  import opened Wrappers

  /** A plain object, or anything else: a scalar, null or an array, which the merge never looks into. */
  datatype Json = Atom(text: string) | Obj(fields: map<string, Json>)

  function Merge(base: Json, override: Json): (out: Json)
    requires base.Obj? && override.Obj?
    ensures out.Obj? && out.fields.Keys == base.fields.Keys + override.fields.Keys
    decreases override
  {
    Obj(map k | k in base.fields.Keys + override.fields.Keys ::
          if k !in override.fields then base.fields[k]
          else if override.fields[k].Obj? && k in base.fields && base.fields[k].Obj?
          then Merge(base.fields[k], override.fields[k])
          else override.fields[k])
  }

  /** The loop over the override's entries, each written over what the copy of the base holds. */
  method DeepMerge(base: map<string, Json>, override: map<string, Json>) returns (out: map<string, Json>)
    ensures Obj(out) == Merge(Obj(base), Obj(override))
    ensures forall path: seq<string> :: path != [] && At(Obj(override), path).None? ==>
      At(Obj(out), path) == if Stops(Obj(override), path) then None else At(Obj(base), path)
    ensures forall path: seq<string> ::
      path != [] && At(Obj(override), path).Some? && !(IsObjAt(Obj(override), path) && IsObjAt(Obj(base), path)) ==>
        At(Obj(out), path) == At(Obj(override), path)
    decreases Obj(override)
  {
    out := base;
    var todo := override.Keys;
    while todo != {}
      invariant todo <= override.Keys
      invariant out.Keys == base.Keys + (override.Keys - todo)
      invariant forall k :: k in base && (k !in override || k in todo) ==> out[k] == base[k]
      invariant forall k :: k in override && k !in todo ==> out[k] == Merge(Obj(base), Obj(override)).fields[k]
      decreases todo
    {
      var k :| k in todo;
      var v := override[k];
      if v.Obj? && k in out && out[k].Obj? {
        var merged := DeepMerge(out[k].fields, v.fields);
        out := out[k := Obj(merged)];
      } else {
        out := out[k := v];
      }
      todo := todo - {k};
    }
    assert out == Merge(Obj(base), Obj(override)).fields;
    forall path: seq<string> | path != []
      ensures At(Obj(override), path).None? ==>
        At(Obj(out), path) == if Stops(Obj(override), path) then None else At(Obj(base), path)
      ensures At(Obj(override), path).Some? && !(IsObjAt(Obj(override), path) && IsObjAt(Obj(base), path)) ==>
        At(Obj(out), path) == At(Obj(override), path)
    {
      MergeAt(Obj(base), Obj(override), path);
    }
  }

  // ----- what a merge holds -----

  /** What a config holds at a key path. */
  function At(c: Json, path: seq<string>): Option<Json> {
    if path == [] then Some(c)
    else if c.Obj? && path[0] in c.fields then At(c.fields[path[0]], path[1..])
    else None
  }

  predicate IsObjAt(c: Json, path: seq<string>) {
    At(c, path).Some? && At(c, path).value.Obj?
  }

  /** On the way down the path there is something that is no object, with keys of the path still to go. */
  ghost predicate Stops(c: Json, path: seq<string>) {
    exists n :: 0 < n < |path| && At(c, path[..n]).Some? && !At(c, path[..n]).value.Obj?
  }

  lemma StopsBelow(c: Json, path: seq<string>)
    requires c.Obj? && |path| > 1 && path[0] in c.fields
    ensures Stops(c, path) <==> !c.fields[path[0]].Obj? || Stops(c.fields[path[0]], path[1..])
  {
    var d, rest := c.fields[path[0]], path[1..];
    assert forall n :: 0 < n <= |path| ==> At(c, path[..n]) == At(d, rest[..n - 1]) by {
      forall n | 0 < n <= |path|
        ensures At(c, path[..n]) == At(d, rest[..n - 1])
      {
        assert path[..n][1..] == rest[..n - 1];
      }
    }
    assert At(d, rest[..0]) == Some(d);
    if Stops(d, rest) {
      var n :| 0 < n < |rest| && At(d, rest[..n]).Some? && !At(d, rest[..n]).value.Obj?;
      assert At(c, path[..n + 1]) == At(d, rest[..n + 1 - 1]);
    }
    if !d.Obj? {
      assert At(c, path[..1]) == At(d, rest[..1 - 1]);
    }
  }

  /**
   Key path by key path, what a merge holds: where the override holds something, that, unless both
   hold objects, whose keys are then joined; where it holds nothing, what the base holds, unless the
   override put something else than an object above it.
   */
  lemma {:induction false} MergeAt(a: Json, b: Json, path: seq<string>)
    requires a.Obj? && b.Obj? && path != []
    ensures At(b, path).Some? && !(IsObjAt(b, path) && IsObjAt(a, path)) ==> At(Merge(a, b), path) == At(b, path)
    ensures IsObjAt(b, path) && IsObjAt(a, path) ==>
      && IsObjAt(Merge(a, b), path)
      && At(Merge(a, b), path).value.fields.Keys == At(a, path).value.fields.Keys + At(b, path).value.fields.Keys
    ensures At(b, path).None? ==> At(Merge(a, b), path) == if Stops(b, path) then None else At(a, path)
    decreases |path|
  {
    var k, rest := path[0], path[1..];
    if k !in b.fields {
      NeverStops(b, path);
    } else if rest == [] {
      assert At(b, path) == Some(b.fields[k]);
      assert k in a.fields ==> At(a, path) == Some(a.fields[k]);
    } else {
      StopsBelow(b, path);
      if k in a.fields && a.fields[k].Obj? && b.fields[k].Obj? {
        MergeAt(a.fields[k], b.fields[k], rest);
      }
    }
  }

  lemma NeverStops(b: Json, path: seq<string>)
    requires b.Obj? && path != [] && path[0] !in b.fields
    ensures At(b, path).None? && !Stops(b, path)
  {
    forall n | 0 < n < |path|
      ensures At(b, path[..n]).None?
    {
      assert path[..n][0] == path[0];
    }
  }

  /** An empty override leaves the config, and over an empty config only the override is left. */
  lemma MergeWithEmpty(a: Json)
    requires a.Obj?
    ensures Merge(a, Obj(map[])) == a && Merge(Obj(map[]), a) == a
  {
    assert Merge(a, Obj(map[])).fields == a.fields;
    assert Merge(Obj(map[]), a).fields == a.fields;
  }

  /**
   A key that the override leaves unset keeps the base's whole value, a key that it sets gets the
   override's unless both hold objects, and no other key appears.
   */
  lemma KeyByKey(a: Json, b: Json, k: string)
    requires a.Obj? && b.Obj?
    ensures k in Merge(a, b).fields <==> k in a.fields || k in b.fields
    ensures k in a.fields && k !in b.fields ==> Merge(a, b).fields[k] == a.fields[k]
    ensures k in b.fields && !(b.fields[k].Obj? && k in a.fields && a.fields[k].Obj?) ==> Merge(a, b).fields[k] == b.fields[k]
    ensures k in b.fields && b.fields[k].Obj? && k in a.fields && a.fields[k].Obj? ==>
      Merge(a, b).fields[k] == Merge(a.fields[k], b.fields[k])
  {
  }

  /** Merging the same override again changes nothing. */
  lemma {:induction false} MergeTwice(a: Json, b: Json)
    requires a.Obj? && b.Obj?
    ensures Merge(Merge(a, b), b) == Merge(a, b)
    decreases b
  {
    var m := Merge(a, b);
    forall k | k in b.fields && b.fields[k].Obj?
      ensures Merge(m, b).fields[k] == m.fields[k]
    {
      if k in a.fields && a.fields[k].Obj? {
        MergeTwice(a.fields[k], b.fields[k]);
      } else {
        MergeSelf(b.fields[k]);
      }
    }
    assert Merge(m, b).fields == m.fields;
  }

  lemma {:induction false} MergeSelf(a: Json)
    requires a.Obj?
    ensures Merge(a, a) == a
    decreases a
  {
    forall k | k in a.fields && a.fields[k].Obj?
      ensures Merge(a, a).fields[k] == a.fields[k]
    {
      MergeSelf(a.fields[k]);
    }
    assert Merge(a, a).fields == a.fields;
  }

  /** Everything `a` sets is set by `c` too, all the way down wherever both hold objects. */
  predicate Covers(c: Json, a: Json)
    requires c.Obj? && a.Obj?
    decreases c
  {
    forall k | k in a.fields :: k in c.fields && (a.fields[k].Obj? && c.fields[k].Obj? ==> Covers(c.fields[k], a.fields[k]))
  }

  lemma {:induction false} CoveredIsOverridden(a: Json, c: Json)
    requires a.Obj? && c.Obj?
    ensures Merge(a, c) == c <==> Covers(c, a)
    decreases c
  {
    forall k | k in a.fields && k in c.fields && a.fields[k].Obj? && c.fields[k].Obj?
      ensures Merge(a.fields[k], c.fields[k]) == c.fields[k] <==> Covers(c.fields[k], a.fields[k])
    {
      CoveredIsOverridden(a.fields[k], c.fields[k]);
    }
    assert Merge(a, c) == c <==> forall k | k in Merge(a, c).fields :: k in c.fields && Merge(a, c).fields[k] == c.fields[k] by {
      if forall k | k in Merge(a, c).fields :: k in c.fields && Merge(a, c).fields[k] == c.fields[k] {
        assert Merge(a, c).fields == c.fields;
      }
    }
  }

  /**
   Wherever the middle config holds a non-object at a path where the others hold objects, the last
   one covers the first.
   */
  predicate Associates(a: Json, b: Json, c: Json)
    requires a.Obj? && b.Obj? && c.Obj?
    decreases c
  {
    forall k | k in a.fields && k in b.fields && k in c.fields && a.fields[k].Obj? && c.fields[k].Obj? ::
      if b.fields[k].Obj? then Associates(a.fields[k], b.fields[k], c.fields[k])
      else Covers(c.fields[k], a.fields[k])
  }

  /** Three configs merge the same in either grouping exactly when they associate in this sense. */
  lemma {:induction false} AssociativeIff(a: Json, b: Json, c: Json)
    requires a.Obj? && b.Obj? && c.Obj?
    ensures Merge(Merge(a, b), c) == Merge(a, Merge(b, c)) <==> Associates(a, b, c)
    decreases c
  {
    var left, right := Merge(Merge(a, b), c), Merge(a, Merge(b, c));
    assert left.fields.Keys == right.fields.Keys;
    forall k | k in left.fields
      ensures left.fields[k] == right.fields[k] <==>
        (k in a.fields && k in b.fields && k in c.fields && a.fields[k].Obj? && c.fields[k].Obj? ==>
          if b.fields[k].Obj? then Associates(a.fields[k], b.fields[k], c.fields[k])
          else Covers(c.fields[k], a.fields[k]))
    {
      if k in a.fields && k in b.fields && k in c.fields && a.fields[k].Obj? && c.fields[k].Obj? {
        if b.fields[k].Obj? {
          AssociativeIff(a.fields[k], b.fields[k], c.fields[k]);
        } else {
          CoveredIsOverridden(a.fields[k], c.fields[k]);
        }
      }
    }
    assert left == right <==> left.fields == right.fields;
    if Associates(a, b, c) {
      assert left.fields == right.fields;
    }
  }

  /** The middle non-object is what does it: the outer objects are merged in one grouping only. */
  lemma GroupingMatters(k: string, x: string, y: string, v: Json)
    requires x != y
    ensures var a, b, c := Obj(map[k := Obj(map[x := v])]), Obj(map[k := Atom("")]), Obj(map[k := Obj(map[y := v])]);
      Merge(Merge(a, b), c) != Merge(a, Merge(b, c))
  {
    var a, b, c := Obj(map[k := Obj(map[x := v])]), Obj(map[k := Atom("")]), Obj(map[k := Obj(map[y := v])]);
    AssociativeIff(a, b, c);
    var first, last := a.fields[k], c.fields[k];
    assert x in first.fields && x !in last.fields;
    assert !Covers(last, first);
    assert !Associates(a, b, c);
  }
}
