/** Which methods of a driver can be called over the wire: a walk up the prototype chain. */
module DriverMethods {
  import opened Wrappers

  /** What `getOwnPropertyDescriptor` gives: a function value, another value, or an accessor. */
  datatype Descriptor = FunctionValue | OtherValue | Accessor

  /** An object's own property names, in order, and its descriptors. */
  datatype Props = Props(names: seq<string>, descriptors: map<string, Descriptor>)

  /** A chain ends at null or at Object.prototype, which the walk does not enter. */
  datatype Chain = Null | ObjectPrototype | Link(own: Props, proto: Chain)

  ghost predicate WellFormed(chain: Chain) {
    chain.Link? ==>
      && WellFormed(chain.proto)
      && (forall n :: n in chain.own.descriptors <==> n in chain.own.names)
  }

  const RESERVED: set<string> := {"onServerStart", "onServerPrepareShutdown", "onServerShutdown", "getReportedCosts"}

  /** Ordinary lookup, stopped below Object.prototype: the nearest object that owns the name decides. */
  function Lookup(chain: Chain, name: string): Option<Descriptor> {
    if !chain.Link? then None
    else if name in chain.own.descriptors then Some(chain.own.descriptors[name])
    else Lookup(chain.proto, name)
  }

  /** The objects of a chain, nearest first. */
  function Objects(chain: Chain): seq<Props> {
    if chain.Link? then [chain.own] + Objects(chain.proto) else []
  }

  /** The object at `i` owns the name, holds `d` under it, and no nearer one owns it. */
  ghost predicate OwnsFirst(objects: seq<Props>, name: string, d: Descriptor, i: nat) {
    && i < |objects| && name in objects[i].descriptors && objects[i].descriptors[name] == d
    && forall j :: 0 <= j < i ==> name !in objects[j].descriptors
  }

  lemma OwnsBehind(own: Props, rest: seq<Props>, name: string, d: Descriptor, i: nat)
    requires name !in own.descriptors
    ensures OwnsFirst([own] + rest, name, d, i + 1) <==> OwnsFirst(rest, name, d, i)
  {
    var objects := [own] + rest;
    assert forall j :: 0 <= j < |rest| ==> objects[j + 1] == rest[j];
    assert forall j :: 1 <= j < |objects| ==> objects[j] == rest[j - 1];
  }

  lemma OwnsAtHead(own: Props, rest: seq<Props>, name: string, d: Descriptor, i: nat)
    ensures name in own.descriptors ==>
      (OwnsFirst([own] + rest, name, d, i) <==> i == 0 && own.descriptors[name] == d)
    ensures name !in own.descriptors ==> !OwnsFirst([own] + rest, name, d, 0)
  {
    assert ([own] + rest)[0] == own;
  }

  /** Lookup finds what the first object that owns the name holds, and nothing if none does. */
  lemma {:induction false} LookupIsNearest(chain: Chain, name: string, d: Descriptor)
    ensures Lookup(chain, name) == Some(d) <==> exists i :: OwnsFirst(Objects(chain), name, d, i)
  {
    if chain.Link? {
      var rest := Objects(chain.proto);
      LookupIsNearest(chain.proto, name, d);
      hide OwnsFirst;
      forall i: nat
        ensures OwnsFirst(Objects(chain), name, d, i) <==>
          if name in chain.own.descriptors then i == 0 && chain.own.descriptors[name] == d
          else i > 0 && OwnsFirst(rest, name, d, i - 1)
      {
        OwnsAtHead(chain.own, rest, name, d, i);
        if i > 0 && name !in chain.own.descriptors {
          OwnsBehind(chain.own, rest, name, d, i - 1);
        }
      }
      if name in chain.own.descriptors {
        assert chain.own.descriptors[name] == d ==> OwnsFirst(Objects(chain), name, d, 0);
      } else if i: nat :| OwnsFirst(rest, name, d, i) {
        assert OwnsFirst(Objects(chain), name, d, i + 1);
      }
    }
  }

  predicate IsCallable(chain: Chain, name: string) {
    Lookup(chain, name) == Some(FunctionValue) && name != "constructor" && name !in RESERVED
  }

  /** The callable set is exactly the names that resolve to callable functions. */
  method ResolveCallableMethods(driver: Chain) returns (callable: set<string>)
    requires WellFormed(driver)
    ensures forall name :: name in callable <==> IsCallable(driver, name)
    ensures forall name :: name in callable <==>
      && Lookup(driver, name) == Some(FunctionValue)
      && name !in ["constructor", "onServerStart", "onServerPrepareShutdown", "onServerShutdown", "getReportedCosts"]
  {
    callable := {};
    var seen: set<string> := {};
    var o := driver;
    while o.Link?
      invariant WellFormed(o)
      invariant forall name :: name in seen ==> (name in callable <==> IsCallable(driver, name))
      invariant forall name :: name in callable ==> name in seen
      invariant forall name :: name !in seen ==> Lookup(driver, name) == Lookup(o, name)
      decreases o
    {
      var names := o.own.names;
      ghost var before := seen;
      var i := 0;
      while i < |names|
        invariant 0 <= i <= |names|
        invariant forall name :: name in seen <==> name in before || name in names[..i]
        invariant forall name :: name in seen ==> (name in callable <==> IsCallable(driver, name))
        invariant forall name :: name in callable ==> name in seen
      {
        var name := names[i];
        assert names[..i + 1] == names[..i] + [name];
        if name !in seen {
          seen := seen + {name};
          assert name in names && Lookup(driver, name) == Some(o.own.descriptors[name]);
          if name != "constructor" && name !in RESERVED && o.own.descriptors[name].FunctionValue? {
            callable := callable + {name};
          }
        }
        i := i + 1;
      }
      assert names[..i] == names;
      o := o.proto;
    }
  }
}
