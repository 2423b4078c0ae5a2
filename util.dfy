/** `setValue` of src/util.ts: walks a JavaScript object graph along a key
    path, creating `{}` for missing intermediate keys and assigning the value
    at the final key. JavaScript objects live on the heap and may be shared or
    cyclic, so they are modelled as a class whose property map is updated in
    place; the objects a caller may see are a `world` closed under references. */
module Util {
  import opened Wrappers

  /** A plain JavaScript object: its own enumerable properties. */
  class JsObject {
    var props: map<string, JsValue>

    /** The object literal `{}`. */
    constructor()
      ensures props == map[]
    {
      props := map[];
    }
  }

  /** A JavaScript value; numbers are integers here. */
  datatype JsValue =
    | Undefined
    | Null
    | Bool(b: bool)
    | Num(n: int)
    | Str(s: string)
    | Ref(obj: JsObject)

  /** JavaScript truthiness: `undefined`, `null`, `false`, `0` and `""` are falsy. */
  predicate Truthy(v: JsValue) {
    match v
    case Undefined => false
    case Null => false
    case Bool(b) => b
    case Num(n) => n != 0
    case Str(s) => s != ""
    case Ref(_) => true
  }

  /** Every property of `m` that holds an object holds one of `objs`. */
  ghost predicate PointsInto(m: map<string, JsValue>, objs: set<JsObject>) {
    forall key :: key in m && m[key].Ref? ==> m[key].obj in objs
  }

  /** Every object referenced from an object of `world` is itself in `world`. */
  ghost predicate Closed(world: set<JsObject>)
    reads world
  {
    forall x :: x in world ==> PointsInto(x.props, world)
  }

  /** How a walk along a key path that creates nothing would end. */
  datatype Walk =
    | Stuck              // a primitive was met where an object was needed
    | Found(end: JsValue) // every key was present; the value of the last one
    | Created            // some key was missing on an object

  /** The walk of the intermediate keys of `setValue`, read off the heap before
      the call: each key is looked up with `in` on the current value. */
  ghost function Walked(v: JsValue, path: seq<string>, world: set<JsObject>): Walk
    requires Closed(world) && (v.Ref? ==> v.obj in world)
    reads world
    decreases |path|
  {
    if path == [] then Found(v)
    else if !v.Ref? then Stuck
    else if path[0] !in v.obj.props then Created
    else Walked(v.obj.props[path[0]], path[1..], world)
  }

  /** Whether `setValue` throws: the walk meets a primitive, or ends on one and
      then assigns a property of it. Once a key is missing, the rest of the walk
      goes through fresh `{}` objects and cannot throw. */
  ghost predicate Throws(v: JsValue, keys: seq<string>, world: set<JsObject>)
    requires Closed(world) && (v.Ref? ==> v.obj in world)
    reads world
  {
    keys != [] &&
    match Walked(v, keys[..|keys| - 1], world)
    case Stuck => true
    case Found(e) => !e.Ref?
    case Created => false
  }

  /** The property maps of the objects of `world`, as a value. */
  ghost function Snapshot(world: set<JsObject>): (snap: map<JsObject, map<string, JsValue>>)
    reads world
    ensures snap.Keys == world
  {
    map y | y in world :: y.props
  }

  /** What holds after the first `i` steps of the walk of `path` from `obj`.
      `snap` holds the objects of `world` as they were before the walk and
      `start` how the walk would end on them. `trail` holds the objects stood
      on and `cur` the value reached. `p` is the step at which a key was first
      found missing (`|path|` when none was): before it nothing changed, at it
      `{}` was added to an existing object, and after it the walk runs through
      the fresh `{}` objects just made. */
  ghost predicate Walking(obj: JsValue, path: seq<string>, world: set<JsObject>,
                          snap: map<JsObject, map<string, JsValue>>, start: Walk,
                          i: nat, cur: JsValue, trail: seq<JsObject>, p: nat)
    reads world, set j | 0 <= j < |trail| :: trail[j], if cur.Ref? then {cur.obj} else {}
  {
    snap.Keys == world &&
    i <= |path| && |trail| == i && p <= |path| && (p < |path| ==> p < i) &&
    (i == 0 ==> cur == obj) &&
    (i > 0 ==> obj == Ref(trail[0])) &&
    (forall j :: 0 <= j < i && j <= p ==> trail[j] in world) &&
    (forall j :: p < j < i ==> trail[j] !in world && trail[j].props.Keys == {path[j]}) &&
    (forall j :: 0 <= j < i ==> path[j] in trail[j].props) &&
    (forall j :: 0 <= j < i - 1 ==> trail[j].props[path[j]] == Ref(trail[j + 1])) &&
    (i > 0 ==> trail[i - 1].props[path[i - 1]] == cur) &&
    (p == |path| ==>
      (forall y :: y in world ==> y.props == snap[y]) &&
      Closed(world) && (cur.Ref? ==> cur.obj in world) && start == Walked(cur, path[i..], world)) &&
    (p < |path| ==>
      start.Created? && cur.Ref? && cur.obj !in world && cur.obj.props == map[] &&
      path[p] !in snap[trail[p]] && trail[p].props == snap[trail[p]][path[p] := trail[p].props[path[p]]] &&
      forall y :: y in world && y != trail[p] ==> y.props == snap[y])
  }

  /** Before the first step nothing has been walked and the walk ends as
      `Walked` says of the untouched heap. */
  lemma WalkStarts(obj: JsValue, path: seq<string>, world: set<JsObject>,
                   snap: map<JsObject, map<string, JsValue>>)
    requires Closed(world) && (obj.Ref? ==> obj.obj in world) && snap == Snapshot(world)
    ensures Walking(obj, path, world, snap, Walked(obj, path, world), 0, obj, [], |path|)
  {
    assert path[0..] == path;
  }

  /** Meeting a primitive while the walk is still unfinished is the `Stuck`
      outcome, and nothing has changed yet. */
  lemma StuckChangesNothing(obj: JsValue, path: seq<string>, world: set<JsObject>,
                            snap: map<JsObject, map<string, JsValue>>, start: Walk,
                            i: nat, cur: JsValue, trail: seq<JsObject>, p: nat)
    requires Walking(obj, path, world, snap, start, i, cur, trail, p) && i < |path| && !cur.Ref?
    ensures start.Stuck? && forall y :: y in world ==> y.props == snap[y]
  {
  }

  /** A walk that took every step did not get stuck, and it reached a primitive
      exactly when the untouched heap leads to one. */
  lemma FinishedNotStuck(obj: JsValue, path: seq<string>, world: set<JsObject>,
                         snap: map<JsObject, map<string, JsValue>>, start: Walk,
                         cur: JsValue, trail: seq<JsObject>, p: nat)
    requires Walking(obj, path, world, snap, start, |path|, cur, trail, p)
    ensures !start.Stuck?
    ensures start.Found? && !start.end.Ref? <==> !cur.Ref?
  {
  }

  /** A step that finds its key keeps the walk going without changing anything. */
  lemma FoundKeyAdvances(obj: JsValue, path: seq<string>, world: set<JsObject>,
                         snap: map<JsObject, map<string, JsValue>>, start: Walk,
                         i: nat, cur: JsValue, trail: seq<JsObject>, p: nat)
    requires Walking(obj, path, world, snap, start, i, cur, trail, p) && i < |path|
    requires cur.Ref? && path[i] in cur.obj.props
    ensures Walking(obj, path, world, snap, start, i + 1, cur.obj.props[path[i]], trail + [cur.obj], p)
  {
    assert path[i..][0] == path[i] && path[i..][1..] == path[i + 1..];
  }

  // The two-state lemmas below take all but one parameter as `new` and require
  // instead that the reference-holding ones were allocated in the earlier state.

  /** `{}` added at a missing key of an object the walk has not changed yet:
      this is the step at which the walk leaves the existing objects. */
  twostate lemma AddedToWorld(new obj: JsValue, new path: seq<string>, new world: set<JsObject>,
                              new snap: map<JsObject, map<string, JsValue>>, new start: Walk,
                              new i: nat, new x: JsObject, new trail: seq<JsObject>, p: nat)
    requires old(allocated(obj) && allocated(world) && allocated(snap) && allocated(start))
    requires old(allocated(x) && allocated(trail))
    requires old(Walking(obj, path, world, snap, start, i, Ref(x), trail, p)) && i < |path|
    requires path[i] !in old(x.props)
    requires path[i] in x.props && x.props == old(x.props)[path[i] := x.props[path[i]]]
    requires x.props[path[i]].Ref? && x.props[path[i]].obj !in world && x.props[path[i]].obj.props == map[]
    requires forall y :: y in world && y != x ==> y.props == old(y.props)
    ensures p == |path| ==> Walking(obj, path, world, snap, start, i + 1, x.props[path[i]], trail + [x], i)
  {
    assert path[i..][0] == path[i];
  }

  /** `{}` added to the empty object made at the previous step. */
  twostate lemma AddedToFresh(new obj: JsValue, new path: seq<string>, new world: set<JsObject>,
                              new snap: map<JsObject, map<string, JsValue>>, new start: Walk,
                              new i: nat, new x: JsObject, new trail: seq<JsObject>, p: nat)
    requires old(allocated(obj) && allocated(world) && allocated(snap) && allocated(start))
    requires old(allocated(x) && allocated(trail))
    requires old(Walking(obj, path, world, snap, start, i, Ref(x), trail, p)) && i < |path|
    requires path[i] in x.props && x.props == old(x.props)[path[i] := x.props[path[i]]]
    requires x.props[path[i]].Ref? && x.props[path[i]].obj !in world && x.props[path[i]].obj.props == map[]
    requires forall y :: (y in world || y in trail) && y != x ==> y.props == old(y.props)
    ensures p < |path| ==> Walking(obj, path, world, snap, start, i + 1, x.props[path[i]], trail + [x], p)
  {
  }

  /** `obj[k] = {}` for a key found missing. */
  method AddEmpty(x: JsObject, k: string)
    requires k !in x.props
    modifies x
    ensures k in x.props && x.props == old(x.props)[k := x.props[k]]
    ensures x.props[k].Ref? && fresh(x.props[k].obj) && x.props[k].obj.props == map[]
  {
    var child := new JsObject();
    x.props := x.props[k := Ref(child)];
  }

  /** One intermediate step of the walk: `if (!(k in obj)) obj[k] = {}`,
      then `obj = obj[k]`. */
  method Advance(ghost obj: JsValue, path: seq<string>, ghost world: set<JsObject>,
                 ghost snap: map<JsObject, map<string, JsValue>>, ghost start: Walk,
                 i: nat, cur: JsValue, ghost trail: seq<JsObject>, ghost p: nat)
    returns (next: JsValue, ghost nextTrail: seq<JsObject>, ghost nextP: nat)
    requires Walking(obj, path, world, snap, start, i, cur, trail, p) && i < |path| && cur.Ref?
    modifies cur.obj
    ensures nextTrail == trail + [cur.obj]
    ensures next.Ref? ==> next.obj in world || fresh(next.obj)
    ensures Walking(obj, path, world, snap, start, i + 1, next, nextTrail, nextP)
  {
    var k := path[i];
    var x := cur.obj;
    nextTrail, nextP := trail + [x], p;
    if !(k in x.props) {
      label Before:
      AddEmpty(x, k);
      AddedToWorld@Before(obj, path, world, snap, start, i, x, trail, p);
      AddedToFresh@Before(obj, path, world, snap, start, i, x, trail, p);
      nextP := if p == |path| then i else p;
    } else {
      FoundKeyAdvances(obj, path, world, snap, start, i, cur, trail, p);
    }
    next := x.props[k];
  }

  /** The loop of `setValue` over every key but the last. */
  method WalkPath(obj: JsValue, path: seq<string>, ghost world: set<JsObject>,
                  ghost snap: map<JsObject, map<string, JsValue>>)
    returns (o: Outcome, cur: JsValue, ghost trail: seq<JsObject>, ghost p: nat)
    requires Closed(world) && (obj.Ref? ==> obj.obj in world) && snap == Snapshot(world)
    modifies world
    ensures o.Fail? <==> old(Walked(obj, path, world)).Stuck?
    ensures o.Fail? ==> o.error == NotAnObject && forall y :: y in world ==> y.props == snap[y]
    ensures o.Pass? ==> Walking(obj, path, world, snap, old(Walked(obj, path, world)), |path|, cur, trail, p)
    ensures o.Pass? ==> cur.Ref? ==> cur.obj in world || fresh(cur.obj)
    ensures forall j :: 0 <= j < |trail| ==> trail[j] in world || fresh(trail[j])
  {
    ghost var start := Walked(obj, path, world);
    trail, p := [], |path|;
    cur := obj;
    var i := 0;
    WalkStarts(obj, path, world, snap);
    while i < |path|
      invariant Walking(obj, path, world, snap, start, i, cur, trail, p)
      invariant cur.Ref? ==> cur.obj in world || fresh(cur.obj)
      invariant forall j :: 0 <= j < |trail| ==> trail[j] in world || fresh(trail[j])
    {
      if !cur.Ref? {
        // `k in obj` throws when obj is not an object
        StuckChangesNothing(obj, path, world, snap, start, i, cur, trail, p);
        return Fail(NotAnObject), cur, [], p;
      }
      cur, trail, p := Advance(obj, path, world, snap, start, i, cur, trail, p);
      i := i + 1;
    }
    FinishedNotStuck(obj, path, world, snap, start, cur, trail, p);
    o := Pass;
  }

  /** The final assignment `obj[k] = value` at the end of a walk that did not
      throw: `walked` is the walk's trail and `trail` adds the object assigned. */
  twostate lemma AssignedPath(new value: JsValue, new obj: JsValue, new keys: seq<string>, new world: set<JsObject>,
                              new snap: map<JsObject, map<string, JsValue>>, new start: Walk,
                              new cur: JsValue, new walked: seq<JsObject>, p: nat, new trail: seq<JsObject>)
    requires old(allocated(obj) && allocated(world) && allocated(snap) && allocated(start))
    requires old(allocated(cur) && allocated(walked))
    requires keys != [] && cur.Ref? && trail == walked + [cur.obj]
    requires old(Walking(obj, keys[..|keys| - 1], world, snap, start, |keys| - 1, cur, walked, p))
    requires keys[|keys| - 1] in cur.obj.props && cur.obj.props == old(cur.obj.props)[keys[|keys| - 1] := value]
    requires forall y :: (y in world || y in walked) && y != cur.obj ==> y.props == old(y.props)
    ensures |trail| == |keys| && obj == Ref(trail[0])
    ensures keys[|keys| - 1] in trail[|keys| - 1].props && trail[|keys| - 1].props[keys[|keys| - 1]] == value
    ensures forall j :: 0 <= j < |trail| ==> keys[j] in trail[j].props
    ensures forall j :: 0 <= j < |trail| - 1 ==>
      trail[j].props[keys[j]] == Ref(trail[j + 1]) ||
      (trail[j] == trail[|trail| - 1] && keys[j] == keys[|trail| - 1])
    ensures forall j :: 0 <= j < |trail| - 1 && trail[j] in world && keys[j] in snap[trail[j]] ==>
      snap[trail[j]][keys[j]] == Ref(trail[j + 1])
    ensures forall j :: 0 <= j < |trail| && trail[j] !in world ==> trail[j].props.Keys == {keys[j]}
  {
    assert forall j :: 0 <= j < |keys| - 1 ==> keys[..|keys| - 1][j] == keys[j];
  }

  /** What the final assignment leaves of the objects of `world`. */
  twostate lemma AssignedFrame(new value: JsValue, new obj: JsValue, new keys: seq<string>, new world: set<JsObject>,
                               new snap: map<JsObject, map<string, JsValue>>, new start: Walk,
                               new cur: JsValue, new walked: seq<JsObject>, p: nat, new trail: seq<JsObject>)
    requires old(allocated(obj) && allocated(world) && allocated(snap) && allocated(start))
    requires old(allocated(cur) && allocated(walked))
    requires keys != [] && cur.Ref? && trail == walked + [cur.obj]
    requires old(Walking(obj, keys[..|keys| - 1], world, snap, start, |keys| - 1, cur, walked, p))
    requires keys[|keys| - 1] in cur.obj.props && cur.obj.props == old(cur.obj.props)[keys[|keys| - 1] := value]
    requires forall y :: (y in world || y in walked) && y != cur.obj ==> y.props == old(y.props)
    ensures forall y :: y in world && y !in trail ==> y.props == snap[y]
    ensures forall y :: y in world ==>
      forall key :: key in snap[y] ==>
        key in y.props && (y.props[key] == snap[y][key] || (y == cur.obj && key == keys[|keys| - 1]))
    ensures forall y :: y in world ==>
      forall key :: key in y.props && key !in snap[y] ==>
        exists j :: 0 <= j < |trail| && y == trail[j] && key == keys[j]
  {
    assert forall j :: 0 <= j < |keys| - 1 ==> keys[..|keys| - 1][j] == keys[j];
  }

  /** The final `obj[k] = value`, once the walk over every key but the last has
      reached the object `cur`. */
  method AssignLast(value: JsValue, ghost obj: JsValue, keys: seq<string>, ghost world: set<JsObject>,
                    ghost snap: map<JsObject, map<string, JsValue>>, ghost start: Walk,
                    cur: JsValue, ghost walked: seq<JsObject>, ghost p: nat)
    returns (ghost trail: seq<JsObject>)
    requires keys != [] && cur.Ref?
    requires Walking(obj, keys[..|keys| - 1], world, snap, start, |keys| - 1, cur, walked, p)
    modifies cur.obj
    ensures trail == walked + [cur.obj]
    ensures |trail| == |keys| && obj == Ref(trail[0])
    ensures keys[|keys| - 1] in trail[|keys| - 1].props && trail[|keys| - 1].props[keys[|keys| - 1]] == value
    ensures forall j :: 0 <= j < |trail| ==> keys[j] in trail[j].props
    ensures forall j {:trigger trail[j].props[keys[j]]} :: 0 <= j < |trail| - 1 ==>
      trail[j].props[keys[j]] == Ref(trail[j + 1]) ||
      (trail[j] == trail[|trail| - 1] && keys[j] == keys[|trail| - 1])
    ensures forall j {:trigger snap[trail[j]][keys[j]]} :: 0 <= j < |trail| - 1 && trail[j] in world && keys[j] in snap[trail[j]] ==>
      snap[trail[j]][keys[j]] == Ref(trail[j + 1])
    ensures forall j :: 0 <= j < |trail| && trail[j] !in world ==> trail[j].props.Keys == {keys[j]}
    ensures forall y :: y in world && y !in trail ==> y.props == snap[y]
    ensures forall y :: y in world ==>
      forall key :: key in snap[y] ==>
        key in y.props && (y.props[key] == snap[y][key] || (y == trail[|trail| - 1] && key == keys[|trail| - 1]))
    ensures forall y :: y in world ==>
      forall key :: key in y.props && key !in snap[y] ==>
        exists j :: 0 <= j < |trail| && y == trail[j] && key == keys[j]
  {
    label Before:
    trail := walked + [cur.obj];
    cur.obj.props := cur.obj.props[keys[|keys| - 1] := value];
    AssignedPath@Before(value, obj, keys, world, snap, start, cur, walked, p, trail);
    AssignedFrame@Before(value, obj, keys, world, snap, start, cur, walked, p, trail);
  }

  /** The outcome of a call that did not throw, restated against the heap on entry, of
      which `snap` is the snapshot. */
  twostate lemma Settled(keys: seq<string>, new world: set<JsObject>,
                         new snap: map<JsObject, map<string, JsValue>>, new trail: seq<JsObject>)
    requires old(allocated(world) && allocated(snap)) && snap == old(Snapshot(world))
    requires |trail| <= |keys| && forall j :: 0 <= j < |trail| ==> trail[j] in world || fresh(trail[j])
    requires forall j {:trigger snap[trail[j]][keys[j]]} :: 0 <= j < |trail| - 1 && trail[j] in world && keys[j] in snap[trail[j]] ==>
      snap[trail[j]][keys[j]] == Ref(trail[j + 1])
    requires forall j :: 0 <= j < |trail| && trail[j] !in world ==> trail[j].props.Keys == {keys[j]}
    requires forall y :: y in world && y !in trail ==> y.props == snap[y]
    requires forall y :: y in world ==>
      forall key :: key in snap[y] ==>
        key in y.props && (y.props[key] == snap[y][key] || (y == trail[|trail| - 1] && key == keys[|trail| - 1]))
    requires forall y :: y in world ==>
      forall key :: key in y.props && key !in snap[y] ==>
        exists j :: 0 <= j < |trail| && y == trail[j] && key == keys[j]
    ensures forall j {:trigger old(trail[j].props)[keys[j]]} :: 0 <= j < |trail| - 1 && trail[j] in world && keys[j] in old(trail[j].props) ==>
      old(trail[j].props)[keys[j]] == Ref(trail[j + 1])
    ensures forall j :: 0 <= j < |trail| && fresh(trail[j]) ==> trail[j].props.Keys == {keys[j]}
    ensures forall y :: y in world && y !in trail ==> y.props == old(y.props)
    ensures forall y :: y in world ==>
      forall key :: key in old(y.props) ==>
        key in y.props &&
        (y.props[key] == old(y.props)[key] || (trail != [] && y == trail[|trail| - 1] && key == keys[|trail| - 1]))
    ensures forall y :: y in world ==>
      forall key :: key in y.props && key !in old(y.props) ==>
        exists j :: 0 <= j < |trail| && y == trail[j] && key == keys[j]
  {
  }

  /** `setValue(value, obj, ...keys)`. `trail` is the sequence of objects the
      walk stood on, one per key: `trail[j]` is the object whose property
      `keys[j]` was read (or, for the last key, assigned). */
  method SetValue(value: JsValue, obj: JsValue, keys: seq<string>, ghost world: set<JsObject>)
    returns (o: Outcome, ghost trail: seq<JsObject>)
    requires Closed(world) && (obj.Ref? ==> obj.obj in world)
    modifies world
    // a falsy root or an empty key list changes nothing
    ensures !Truthy(obj) || keys == [] ==>
      o == Pass && trail == [] && forall y :: y in world ==> y.props == old(y.props)
    // the call throws exactly when the walk meets a primitive before a missing
    // key, and then it has changed nothing
    ensures o.Fail? <==> Truthy(obj) && old(Throws(obj, keys, world))
    ensures o.Fail? ==>
      o.error == NotAnObject && trail == [] && forall y :: y in world ==> y.props == old(y.props)
    // a walk that does not throw stands on one object per key, starting at obj,
    // and the last of them now holds value at the last key
    ensures o.Pass? && Truthy(obj) && keys != [] ==>
      |trail| == |keys| && obj == Ref(trail[0]) &&
      keys[|keys| - 1] in trail[|keys| - 1].props && trail[|keys| - 1].props[keys[|keys| - 1]] == value
    ensures |trail| <= |keys| && forall j :: 0 <= j < |trail| ==> trail[j] in world || fresh(trail[j])
    // each intermediate key now leads to the next object of the walk, unless the
    // final assignment overwrote that very property (an object on the path twice)
    ensures forall j :: 0 <= j < |trail| ==> keys[j] in trail[j].props
    ensures forall j {:trigger trail[j].props[keys[j]]} :: 0 <= j < |trail| - 1 ==>
      trail[j].props[keys[j]] == Ref(trail[j + 1]) ||
      (trail[j] == trail[|trail| - 1] && keys[j] == keys[|trail| - 1])
    // an intermediate key that was present is reused, not replaced
    ensures forall j {:trigger old(trail[j].props)[keys[j]]} :: 0 <= j < |trail| - 1 && trail[j] in world && keys[j] in old(trail[j].props) ==>
      old(trail[j].props)[keys[j]] == Ref(trail[j + 1])
    // an object created for a missing key is a fresh `{}` that received only the next key
    ensures forall j :: 0 <= j < |trail| && fresh(trail[j]) ==> trail[j].props.Keys == {keys[j]}
    // objects off the path are untouched
    ensures forall y :: y in world && y !in trail ==> y.props == old(y.props)
    // every existing property keeps its value, except the final key
    ensures forall y :: y in world ==>
      forall key :: key in old(y.props) ==>
        key in y.props &&
        (y.props[key] == old(y.props)[key] || (trail != [] && y == trail[|trail| - 1] && key == keys[|trail| - 1]))
    // the only properties added are path keys on path objects
    ensures forall y :: y in world ==>
      forall key :: key in y.props && key !in old(y.props) ==>
        exists j :: 0 <= j < |trail| && y == trail[j] && key == keys[j]
  {
    o, trail := Pass, [];
    if Truthy(obj) && keys != [] {
      var last := |keys| - 1;
      var cur: JsValue;
      ghost var p: nat;
      ghost var snap := Snapshot(world);
      ghost var walked: seq<JsObject>;
      o, cur, walked, p := WalkPath(obj, keys[..last], world, snap);
      if o.Pass? {
        FinishedNotStuck(obj, keys[..last], world, snap, old(Walked(obj, keys[..last], world)), cur, walked, p);
      }
      if o.Pass? && !cur.Ref? {
        // assigning a property of a primitive throws in strict mode
        o := Fail(NotAnObject);
      } else if o.Pass? {
        trail := AssignLast(value, obj, keys, world, snap, old(Walked(obj, keys[..last], world)), cur, walked, p);
        Settled(keys, world, snap, trail);
      }
    }
  }
}
