/** Construction of plugin objects in dependency order from a map of what each is composed of. */
module PluginBuilder {
  import opened Words

  /** Ruby hash keys: the string `"a"` and the symbol `:a` are different keys. */
  datatype Key = Str(name: string) | Sym(name: string)

  /** What the object map holds for a name: nothing, or a table that may have a `compose` list. */
  datatype Entry = Nil | Table(compose: Option<seq<string>>)

  type ObjectMap = map<string, Entry>

  /** A plugin object, made from the class named after it. */
  datatype Instance = Instance(name: string)

  datatype Result = Raised | Returned(objects: map<Key, Instance>)

  function Deps(m: ObjectMap, obj: string): seq<string> {
    if obj in m && m[obj].Table? && m[obj].compose.Some? then m[obj].compose.value else []
  }

  // ---------------------------------------------------------------- reachability

  predicate IsPath(m: ObjectMap, p: seq<string>) {
    forall i :: 0 <= i < |p| - 1 ==> p[i + 1] in Deps(m, p[i])
  }

  ghost predicate PathFromTo(m: ObjectMap, p: seq<string>, a: string, b: string) {
    |p| >= 2 && p[0] == a && p[|p| - 1] == b && IsPath(m, p)
  }

  /** `a` is composed of `b`, directly or not. */
  ghost predicate Reaches(m: ObjectMap, a: string, b: string) {
    exists p :: PathFromTo(m, p, a, b)
  }

  /** `obj` or something it is composed of is composed of itself. */
  ghost predicate CycleFrom(m: ObjectMap, obj: string) {
    exists x :: (x == obj || Reaches(m, obj, x)) && Reaches(m, x, x)
  }

  ghost predicate Acyclic(m: ObjectMap) {
    forall x :: !Reaches(m, x, x)
  }

  lemma {:induction false} ReachesDep(m: ObjectMap, a: string, d: string)
    requires d in Deps(m, a)
    ensures Reaches(m, a, d)
  {
    assert PathFromTo(m, [a, d], a, d);
  }

  /** What is reached is part of `a` itself or of something `a` is composed of. */
  lemma {:induction false} ReachedLast(m: ObjectMap, a: string, b: string) returns (last: string)
    requires Reaches(m, a, b)
    ensures b in Deps(m, last) && (last == a || Reaches(m, a, last))
  {
    var p :| PathFromTo(m, p, a, b);
    var q := p[..|p| - 1];
    last := p[|p| - 2];
    if |q| >= 2 {
      assert PathFromTo(m, q, a, last);
    }
  }

  lemma {:induction false} ReachesTrans(m: ObjectMap, a: string, b: string, c: string)
    requires Reaches(m, a, b) && Reaches(m, b, c)
    ensures Reaches(m, a, c)
  {
    var p :| PathFromTo(m, p, a, b);
    var q :| PathFromTo(m, q, b, c);
    var r := p + q[1..];
    forall i | 0 <= i < |r| - 1 ensures r[i + 1] in Deps(m, r[i]) {
      if i >= |p| - 1 {
        assert r[i] == q[i - (|p| - 1)] && r[i + 1] == q[i - (|p| - 1) + 1];
      }
    }
    assert PathFromTo(m, r, a, c);
  }

  /** What is reached is reached through a direct dependency. */
  lemma {:induction false} ReachesVia(m: ObjectMap, a: string, b: string) returns (d: string)
    requires Reaches(m, a, b)
    ensures d in Deps(m, a) && (d == b || Reaches(m, d, b))
  {
    var p :| PathFromTo(m, p, a, b);
    d := p[1];
    if |p| > 2 {
      assert PathFromTo(m, p[1..], d, b);
    }
  }

  // ---------------------------------------------------------------- the recursion

  /**
   `construct_object` as a function on the list of names built so far, in order, with a bound on
   the depth of the recursion; `None` when the bound is exceeded. A name that is already built is
   descended into again, because the check on entry looks up the string and objects are stored
   under symbols.
   */
  function Construct(m: ObjectMap, obj: string, built: seq<string>, depth: nat): Option<seq<string>>
    decreases depth, 0
  {
    if depth == 0 then None
    else match ConstructAll(m, Deps(m, obj), built, depth - 1)
      case None => None
      case Some(b) => Some(if obj in b then b else b + [obj])
  }

  function ConstructAll(m: ObjectMap, objs: seq<string>, built: seq<string>, depth: nat): Option<seq<string>>
    decreases depth, |objs|
  {
    if objs == [] then Some(built)
    else match Construct(m, objs[0], built, depth)
      case None => None
      case Some(b) => ConstructAll(m, objs[1..], b, depth)
  }

  // ---------------------------------------------------------------- what is built

  /** `x` is one of `objs`, or one of them is composed of it. */
  ghost predicate Covered(m: ObjectMap, objs: seq<string>, x: string) {
    exists o :: o in objs && (x == o || Reaches(m, o, x))
  }

  lemma {:induction false} CoveredConcat(m: ObjectMap, a: seq<string>, b: seq<string>, x: string)
    ensures Covered(m, a + b, x) <==> Covered(m, a, x) || Covered(m, b, x)
  {
    if Covered(m, a, x) {
      var o :| o in a && (x == o || Reaches(m, o, x));
      assert o in a + b;
    }
    if Covered(m, b, x) {
      var o :| o in b && (x == o || Reaches(m, o, x));
      assert o in a + b;
    }
  }

  lemma {:induction false} CoveredOne(m: ObjectMap, o: string, x: string)
    ensures Covered(m, [o], x) <==> x == o || Reaches(m, o, x)
  {
    assert o in [o];
  }

  predicate NoDuplicates(s: seq<string>) {
    forall i, j :: 0 <= i < j < |s| ==> s[i] != s[j]
  }

  /** Everything comes after what it is composed of. */
  predicate DependenciesFirst(m: ObjectMap, s: seq<string>) {
    forall i, d :: 0 <= i < |s| && d in Deps(m, s[i]) ==> d in s[..i]
  }

  predicate Good(m: ObjectMap, s: seq<string>) {
    NoDuplicates(s) && DependenciesFirst(m, s)
  }

  lemma {:induction false} GoodAppend(m: ObjectMap, s: seq<string>, obj: string)
    requires Good(m, s) && obj !in s && forall d :: d in Deps(m, obj) ==> d in s
    ensures Good(m, s + [obj])
  {
    var t := s + [obj];
    assert t[..|s|] == s;
    assert forall i :: 0 <= i < |s| ==> t[..i] == s[..i];
  }

  /** The call adds the object and what it reaches, each at most once and dependencies first. */
  lemma {:induction false} ConstructBuilds(m: ObjectMap, obj: string, built: seq<string>, depth: nat)
    requires Good(m, built) && Construct(m, obj, built, depth).Some?
    ensures var b := Construct(m, obj, built, depth).value;
            && built <= b && Good(m, b)
            && forall x :: x in b <==> x in built || x == obj || Reaches(m, obj, x)
    decreases depth, 0
  {
    var deps := Deps(m, obj);
    ConstructAllBuilds(m, deps, built, depth - 1);
    var b := ConstructAll(m, deps, built, depth - 1).value;
    if obj !in b {
      GoodAppend(m, b, obj);
    }
    forall x ensures Covered(m, deps, x) <==> Reaches(m, obj, x) {
      if Reaches(m, obj, x) {
        var d := ReachesVia(m, obj, x);
      }
      if Covered(m, deps, x) {
        var d :| d in deps && (x == d || Reaches(m, d, x));
        ReachesDep(m, obj, d);
        if x != d {
          ReachesTrans(m, obj, d, x);
        }
      }
    }
  }

  lemma {:induction false} ConstructAllBuilds(m: ObjectMap, objs: seq<string>, built: seq<string>, depth: nat)
    requires Good(m, built) && ConstructAll(m, objs, built, depth).Some?
    ensures var b := ConstructAll(m, objs, built, depth).value;
            && built <= b && Good(m, b)
            && forall x :: x in b <==> x in built || Covered(m, objs, x)
    decreases depth, |objs|
  {
    if objs == [] {
    } else {
      ConstructBuilds(m, objs[0], built, depth);
      ConstructAllBuilds(m, objs[1..], Construct(m, objs[0], built, depth).value, depth);
      assert [objs[0]] + objs[1..] == objs;
      forall x ensures Covered(m, objs, x) <==> x == objs[0] || Reaches(m, objs[0], x) || Covered(m, objs[1..], x) {
        CoveredConcat(m, [objs[0]], objs[1..], x);
        CoveredOne(m, objs[0], x);
      }
    }
  }

  // ---------------------------------------------------------------- when it ends

  lemma {:induction false} DeeperIsSame(m: ObjectMap, obj: string, built: seq<string>, depth: nat, deeper: nat)
    requires Construct(m, obj, built, depth).Some? && depth <= deeper
    ensures Construct(m, obj, built, deeper) == Construct(m, obj, built, depth)
    decreases depth, 0
  {
    DeeperIsSameAll(m, Deps(m, obj), built, depth - 1, deeper - 1);
  }

  lemma {:induction false} DeeperIsSameAll(m: ObjectMap, objs: seq<string>, built: seq<string>, depth: nat, deeper: nat)
    requires ConstructAll(m, objs, built, depth).Some? && depth <= deeper
    ensures ConstructAll(m, objs, built, deeper) == ConstructAll(m, objs, built, depth)
    decreases depth, |objs|
  {
    if objs == [] {
    } else {
      DeeperIsSame(m, objs[0], built, depth, deeper);
      DeeperIsSameAll(m, objs[1..], Construct(m, objs[0], built, depth).value, depth, deeper);
    }
  }

  /** On a cycle no depth is enough. */
  lemma {:induction false} CycleNeverEnds(m: ObjectMap, obj: string, built: seq<string>, depth: nat)
    requires CycleFrom(m, obj)
    ensures Construct(m, obj, built, depth) == None
    decreases depth, 0
  {
    if depth > 0 {
      var x :| (x == obj || Reaches(m, obj, x)) && Reaches(m, x, x);
      var d := ReachesVia(m, obj, if x == obj then obj else x);
      assert CycleFrom(m, d) by {
        if x == obj && d != obj {
          assert (obj == d || Reaches(m, d, obj)) && Reaches(m, obj, obj);
        } else {
          assert (x == d || Reaches(m, d, x)) && Reaches(m, x, x);
        }
      }
      CycleNeverEndsAll(m, Deps(m, obj), built, depth - 1, d);
    }
  }

  lemma {:induction false} CycleNeverEndsAll(m: ObjectMap, objs: seq<string>, built: seq<string>, depth: nat, d: string)
    requires d in objs && CycleFrom(m, d)
    ensures ConstructAll(m, objs, built, depth) == None
    decreases depth, |objs|
  {
    if objs[0] == d {
      CycleNeverEnds(m, d, built, depth);
    } else if Construct(m, objs[0], built, depth).Some? {
      CycleNeverEndsAll(m, objs[1..], Construct(m, objs[0], built, depth).value, depth, d);
    }
  }

  lemma {:induction false} CycleOfDep(m: ObjectMap, obj: string, d: string)
    requires d in Deps(m, obj) && CycleFrom(m, d)
    ensures CycleFrom(m, obj)
  {
    ReachesDep(m, obj, d);
    var x :| (x == d || Reaches(m, d, x)) && Reaches(m, x, x);
    if x != d {
      ReachesTrans(m, obj, d, x);
    }
    assert (x == obj || Reaches(m, obj, x)) && Reaches(m, x, x);
  }

  /** The objects being constructed further up: each of them is composed of `obj`. */
  ghost predicate CallStack(m: ObjectMap, stack: set<string>, obj: string) {
    forall x :: x in stack ==> Reaches(m, x, obj)
  }

  lemma {:induction false} NotOnStack(m: ObjectMap, stack: set<string>, obj: string)
    requires CallStack(m, stack, obj) && !CycleFrom(m, obj)
    ensures obj !in stack
  {
    assert Reaches(m, obj, obj) ==> (obj == obj || Reaches(m, obj, obj)) && CycleFrom(m, obj);
  }

  lemma {:induction false} StackGrows(m: ObjectMap, stack: set<string>, obj: string, d: string)
    requires CallStack(m, stack, obj) && d in Deps(m, obj)
    ensures CallStack(m, stack + {obj}, d)
  {
    ReachesDep(m, obj, d);
    forall x | x in stack ensures Reaches(m, x, d) {
      ReachesTrans(m, x, obj, d);
    }
  }

  /** Without a cycle some depth is enough: no object is met again below itself. */
  lemma {:induction false} EndsWithoutCycle(m: ObjectMap, obj: string, built: seq<string>, stack: set<string>)
      returns (depth: nat)
    requires !CycleFrom(m, obj) && CallStack(m, stack, obj)
    ensures Construct(m, obj, built, depth).Some?
    decreases m.Keys - stack, 1, 0
  {
    NotOnStack(m, stack, obj);
    if Deps(m, obj) == [] {
      depth := 1;
    } else {
      assert m.Keys - (stack + {obj}) < m.Keys - stack by {
        assert obj in m.Keys - stack && obj !in m.Keys - (stack + {obj});
      }
      var d := EndsWithoutCycleAll(m, obj, Deps(m, obj), built, stack);
      depth := d + 1;
    }
  }

  lemma {:induction false} EndsWithoutCycleAll(m: ObjectMap, obj: string, objs: seq<string>, built: seq<string>,
      stack: set<string>)
    returns (depth: nat)
    requires !CycleFrom(m, obj) && CallStack(m, stack, obj) && forall d :: d in objs ==> d in Deps(m, obj)
    requires m.Keys - (stack + {obj}) < m.Keys - stack
    ensures ConstructAll(m, objs, built, depth).Some?
    decreases m.Keys - stack, 0, |objs|
  {
    if objs == [] {
      depth := 0;
    } else {
      StackGrows(m, stack, obj, objs[0]);
      if CycleFrom(m, objs[0]) {
        CycleOfDep(m, obj, objs[0]);
      }
      var d0 := EndsWithoutCycle(m, objs[0], built, stack + {obj});
      var b := Construct(m, objs[0], built, d0).value;
      var d1 := EndsWithoutCycleAll(m, obj, objs[1..], b, stack);
      depth := if d0 < d1 then d1 else d0;
      DeeperIsSame(m, objs[0], built, d0, depth);
      DeeperIsSameAll(m, objs[1..], b, d1, depth);
    }
  }

  /** The recursion ends exactly when no cycle can be reached from the object. */
  lemma {:induction false} EndsIffNoCycle(m: ObjectMap, obj: string, built: seq<string>)
    ensures (exists depth: nat :: Construct(m, obj, built, depth).Some?) <==> !CycleFrom(m, obj)
  {
    if CycleFrom(m, obj) {
      forall depth: nat ensures Construct(m, obj, built, depth) == None {
        CycleNeverEnds(m, obj, built, depth);
      }
    } else {
      var depth := EndsWithoutCycle(m, obj, built, {});
    }
  }

  lemma {:induction false} AllEnd(m: ObjectMap, objs: seq<string>, built: seq<string>) returns (depth: nat)
    requires forall o :: o in objs ==> !CycleFrom(m, o)
    ensures ConstructAll(m, objs, built, depth).Some?
  {
    if objs == [] {
      depth := 0;
    } else {
      var d0 := EndsWithoutCycle(m, objs[0], built, {});
      var b := Construct(m, objs[0], built, d0).value;
      var d1 := AllEnd(m, objs[1..], b);
      depth := if d0 < d1 then d1 else d0;
      DeeperIsSame(m, objs[0], built, d0, depth);
      DeeperIsSameAll(m, objs[1..], b, d1, depth);
    }
  }

  /** Some name is composed of itself exactly when a cycle can be reached from a key. */
  lemma {:induction false} AcyclicIff(m: ObjectMap, keys: seq<string>)
    requires forall x :: x in keys <==> x in m
    ensures Acyclic(m) <==> forall o :: o in keys ==> !CycleFrom(m, o)
  {
    if x :| Reaches(m, x, x) {
      var d := ReachesVia(m, x, x);
      assert x in keys && CycleFrom(m, x);
    }
  }

  /** The construction of a whole plugin ends if and only if nothing is composed of itself. */
  lemma {:induction false} PluginEndsIffAcyclic(m: ObjectMap, keys: seq<string>)
    requires forall x :: x in keys <==> x in m
    ensures (exists depth: nat :: ConstructAll(m, keys, [], depth).Some?) <==> Acyclic(m)
  {
    AcyclicIff(m, keys);
    if Acyclic(m) {
      var depth := AllEnd(m, keys, []);
    } else {
      var o :| o in keys && CycleFrom(m, o);
      forall depth: nat ensures ConstructAll(m, keys, [], depth) == None {
        CycleNeverEndsAll(m, keys, [], depth, o);
      }
    }
  }

  // ---------------------------------------------------------------- the builder

  class Builder {
    var pluginObjects: map<Key, Instance>
    var objectMap: ObjectMap
    /** Names in the order in which their objects were made. */
    ghost var built: seq<string>

    ghost predicate Valid()
      reads this
    {
      && (forall key :: key in pluginObjects <==> key.Sym? && key.name in built)
      && (forall key :: key in pluginObjects ==> pluginObjects[key] == Instance(key.name))
    }

    /** `build_object`: makes the object unless its symbol is there. */
    method BuildObject(newObject: string)
      requires Valid()
      modifies this`pluginObjects, this`built
      ensures Valid() && built == if newObject in old(built) then old(built) else old(built) + [newObject]
    {
      if Sym(newObject) !in pluginObjects {
        pluginObjects := pluginObjects[Sym(newObject) := Instance(newObject)];
        built := built + [newObject];
      }
    }

    /** `construct_object`, for an object that reaches no cycle. */
    method ConstructObject(obj: string, ghost stack: set<string>) returns (ghost depth: nat)
      requires Valid() && !CycleFrom(objectMap, obj) && CallStack(objectMap, stack, obj)
      modifies this`pluginObjects, this`built
      ensures Valid() && Construct(objectMap, obj, old(built), depth) == Some(built)
      decreases objectMap.Keys - stack
    {
      depth := 0;
      if Str(obj) !in pluginObjects {
        if obj in objectMap && objectMap[obj].Table? && objectMap[obj].compose.Some? {
          var deps := objectMap[obj].compose.value;
          NotOnStack(objectMap, stack, obj);
          assert obj in objectMap.Keys - stack && obj !in objectMap.Keys - (stack + {obj});
          for i := 0 to |deps|
            invariant Valid()
            invariant ConstructAll(objectMap, deps[..i], old(built), depth) == Some(built)
          {
            StackGrows(objectMap, stack, obj, deps[i]);
            if CycleFrom(objectMap, deps[i]) {
              CycleOfDep(objectMap, obj, deps[i]);
            }
            ghost var before := built;
            ghost var d := ConstructObject(deps[i], stack + {obj});
            ghost var deeper := if d < depth then depth else d;
            DeeperIsSame(objectMap, deps[i], before, d, deeper);
            DeeperIsSameAll(objectMap, deps[..i], old(built), depth, deeper);
            ConstructAllAppend(objectMap, deps[..i], deps[i], old(built), deeper);
            assert deps[..i] + [deps[i]] == deps[..i + 1];
            depth := deeper;
          }
          assert deps[..|deps|] == deps;
        }
        BuildObject(obj);
        depth := depth + 1;
      }
    }

    /**
     `construct_plugin` for an acyclic map given with its keys in order: an object for each key and
     for each name a key is composed of, made once and after everything it is composed of.
     */
    method ConstructPlugin(yaml: Option<(seq<string>, ObjectMap)>) returns (result: Result)
      requires yaml.Some? ==> (forall x :: x in yaml.value.0 <==> x in yaml.value.1) && Acyclic(yaml.value.1)
      modifies this
      ensures result.Raised? <==> yaml.None?
      ensures result.Returned? ==>
                && result.objects == pluginObjects && Valid() && Good(objectMap, built) && objectMap == yaml.value.1
                && forall x :: x in built <==> x in objectMap || exists o :: o in objectMap && Reaches(objectMap, o, x)
      ensures result.Returned? ==>
                && (forall o :: o in objectMap ==> o in built)
                && (forall i, j :: 0 <= i < j < |built| ==> built[i] != built[j])
                && (forall i :: 0 <= i < |built| && built[i] in objectMap ==>
                      var entry := objectMap[built[i]];
                      entry.Table? && entry.compose.Some? ==> forall d :: d in entry.compose.value ==> d in built[..i])
                && (forall x :: x in built && x !in objectMap ==>
                      exists o :: o in built && o in objectMap && objectMap[o].Table? && objectMap[o].compose.Some?
                                  && x in objectMap[o].compose.value)
    {
      pluginObjects := map[];
      built := [];
      if yaml.None? {
        return Raised;
      }
      var keys := yaml.value.0;
      objectMap := yaml.value.1;
      for i := 0 to |keys|
        invariant objectMap == yaml.value.1 && Valid() && Good(objectMap, built)
        invariant forall x :: x in built <==> Covered(objectMap, keys[..i], x)
      {
        ghost var before := built;
        ghost var depth := ConstructObject(keys[i], {});
        ConstructBuilds(objectMap, keys[i], before, depth);
        assert keys[..i + 1] == keys[..i] + [keys[i]];
        forall x ensures x in built <==> Covered(objectMap, keys[..i + 1], x) {
          CoveredConcat(objectMap, keys[..i], [keys[i]], x);
          CoveredOne(objectMap, keys[i], x);
        }
      }
      assert keys[..|keys|] == keys;
      forall x | x in built && x !in objectMap
        ensures exists o :: o in built && x in Deps(objectMap, o)
      {
        var o :| o in objectMap && Reaches(objectMap, o, x);
        var last := ReachedLast(objectMap, o, x);
      }
      result := Returned(pluginObjects);
    }
  }

  lemma {:induction false} ConstructAllAppend(m: ObjectMap, objs: seq<string>, obj: string, built: seq<string>,
      depth: nat)
    requires ConstructAll(m, objs, built, depth).Some?
    ensures ConstructAll(m, objs + [obj], built, depth)
        == Construct(m, obj, ConstructAll(m, objs, built, depth).value, depth)
    decreases |objs|
  {
    var all := objs + [obj];
    if objs == [] {
      assert all[1..] == [];
    } else {
      assert all[1..] == objs[1..] + [obj];
      ConstructAllAppend(m, objs[1..], obj, Construct(m, objs[0], built, depth).value, depth);
    }
  }
}
