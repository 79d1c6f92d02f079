/**
 * `Message`: the process-wide broadcaster built on the emitter. The model is a
 * world of emitter objects, the recorded singleton, and the closures `Message`
 * creates (relays made by `Watch`, the garbage-collect handler made by the
 * constructor), which are the only callbacks whose behaviour is known.
 *
 * The two variants of the code differ: `Source` throws on a second
 * construction, has no `Remove` (so its garbage-collect handler throws) and
 * passes `Watch`'s identifier on; `Bundle` logs and returns on a second
 * construction, defines `Remove`, and has no identifier.
 */
module Message {
  import opened Wrappers
  import opened Values
  import opened Registry
  import opened Dispatch

  type ObjId = nat

  datatype Variant = Source | Bundle

  /** What a closure created by `Message` does when called. */
  datatype Handler =
    | Relay(msg: ObjId, name: string)   // `(event) => t.Emit(name, event)`
    | Collector(msg: ObjId)             // `(event) => t.Remove(event)`

  /**
   * `objs`: every emitter object's registry; `handlers`: the closures created
   * by `Message` (any other callback is application code); `instance`: the
   * recorded singleton; `next`: the next fresh object and closure number.
   */
  datatype World = World(objs: map<ObjId, Registry>, handlers: map<Cb, Handler>, instance: Option<ObjId>, next: nat)

  /**
   * What a call can throw: the constructor guard, `t.Remove is not a function`,
   * the engine's stack limit, and re-entering an array that is being walked
   * (which is outside the model).
   */
  datatype Fault = SingletonViolation | NotAFunction | StackOverflow | Reentered

  const GarbageCollect := "message.garbagecollect"

  /** The instance is an object, and numbers handed out so far are below `next`, so the next object and closure are fresh. */
  ghost predicate Allocated(w: World) {
    && (w.instance.Some? ==> w.instance.value in w.objs)
    && (forall o | o in w.objs :: o < w.next)
    && (forall c | c in w.handlers :: c.Closure? && c.id < w.next)
    && (forall o, n, c | o in w.objs && n in w.objs[o].lists && c in w.objs[o].lists[n] :: c.Closure? ==> c.id < w.next)
  }

  /** `new Emitter()`: a fresh object with no listeners. */
  function NewEmitter(w: World): (res: (World, ObjId))
    ensures res.1 !in w.objs || !Allocated(w)
    ensures res.0.objs == w.objs[res.1 := Empty]
    ensures Allocated(w) ==> Allocated(res.0)
  {
    (w.(objs := w.objs[w.next := Empty], next := w.next + 1), w.next)
  }

  /**
   * `new Message()`. With no recorded instance the new object registers its
   * garbage-collect handler and becomes the instance. Otherwise `Source`
   * throws, and `Bundle` hands back a bare object that is neither recorded nor
   * listening.
   */
  function Construct(w: World, v: Variant): (res: Result<(World, ObjId), Fault>)
    ensures w.instance.Some? && v == Source ==> res == Failure(SingletonViolation)
    ensures w.instance.Some? && v == Bundle ==>
      && res.Success?
      && res.value.0.instance == w.instance
      && res.value.0.objs == w.objs[res.value.1 := Empty]
      && res.value.0.handlers == w.handlers
    ensures w.instance.None? ==>
      && res.Success?
      && var (w', m) := res.value;
      && w'.instance == Some(m)
      && w'.objs.Keys == w.objs.Keys + {m}
      && (forall o | o in w.objs && o != m :: w'.objs[o] == w.objs[o])
      && w'.objs[m].lists.Keys == {GarbageCollect}
      && |w'.objs[m].lists[GarbageCollect]| == 1
      && var g := w'.objs[m].lists[GarbageCollect][0];
      && w'.handlers == w.handlers[g := Collector(m)]
      && DataOf(w'.objs[m].data, g) == NoData
    ensures res.Success? && Allocated(w) ==> res.value.1 !in w.objs && Allocated(res.value.0)
  {
    var m := w.next;
    match w.instance
    case Some(_) =>
      if v == Source then Failure(SingletonViolation)
      else Success((w.(objs := w.objs[m := Empty], next := w.next + 1), m))
    case None =>
      var g := Closure(w.next);
      var r := On(Empty, GarbageCollect, Some(g), NoData);
      Success((World(w.objs[m := r], w.handlers[g := Collector(m)], Some(m), w.next + 1), m))
  }

  /** `Message.Instance()`: the recorded instance, or a newly constructed one. It never throws. */
  function Instance(w: World, v: Variant): (res: Result<(World, ObjId), Fault>)
    ensures res.Success?
    ensures w.instance.Some? ==> res.value == (w, w.instance.value)
    ensures w.instance.None? ==> res == Construct(w, v)
    ensures res.value.0.instance == Some(res.value.1)
  {
    match w.instance
    case Some(m) => Success((w, m))
    case None => Construct(w, v)
  }

  /**
   * `message.Watch(name, target, identifier)`: registers on `target` a new
   * relay closure that re-emits `name` on the message. Only the source passes
   * the identifier on as the relay's `data`.
   */
  function Watch(w: World, v: Variant, m: ObjId, name: string, target: ObjId, identifier: Option<string>): (res: (World, ObjId))
    requires target in w.objs
    ensures res.1 == m
    ensures var (w', relay) := (res.0, Closure(w.next));
      && w'.handlers == w.handlers[relay := Relay(m, name)]
      && w'.instance == w.instance
      && w'.objs.Keys == w.objs.Keys
      && (forall o | o in w.objs && o != target :: w'.objs[o] == w.objs[o])
      && name in w'.objs[target].lists
      && w'.objs[target].lists[name] == Snapshot(w.objs[target], name) + [relay]
      && AgreeExcept(w'.objs[target].lists, w.objs[target].lists, name)
      && DataOf(w'.objs[target].data, relay) == (if v == Source && identifier.Some? then Str(identifier.value) else NoData)
      && (forall c | c != relay :: DataOf(w'.objs[target].data, c) == DataOf(w.objs[target].data, c))
    ensures Allocated(w) ==> Allocated(res.0) && Closure(w.next) !in Snapshot(w.objs[target], name)
  {
    var relay := Closure(w.next);
    var data := if v == Source && identifier.Some? then Str(identifier.value) else NoData;
    var r := On(w.objs[target], name, Some(relay), data);
    (w.(objs := w.objs[target := r], handlers := w.handlers[relay := Relay(m, name)], next := w.next + 1), m)
  }

  /** `m` is "event." followed by the name of an existing array: `Remove()` may delete it. */
  predicate Doubled(lists: map<string, seq<Cb>>, m: string) {
    |m| >= |Prefix| && m[..|Prefix|] == Prefix && m[|Prefix|..] in lists
  }

  /** One step of `Remove()`'s loop: key "event." + n, if still present, is passed to `Off`, which prefixes it again. */
  function Visit(r: Registry, n: string): Registry {
    if n in r.lists then Off(r, Prefix + n, Absent) else r
  }

  /** `Remove()`'s `for ... in` loop over the keys present when it starts. */
  function Sweep(r: Registry, keys: seq<string>): Registry
    decreases |keys|
  {
    if |keys| == 0 then r else Sweep(Visit(r, keys[0]), keys[1..])
  }

  /**
   * `Remove(name)` (bundle only): a truthy name is `Off(name)`; otherwise every
   * own key matching "event." is passed to `Off`, which looks up
   * "event.event." + n, so only arrays whose name itself starts with "event."
   * can go.
   */
  function Remove(r: Registry, name: Value): (r': Registry)
    ensures r'.data == r.data
    ensures r'.lists.Keys <= r.lists.Keys
    ensures forall n | n in r'.lists :: r'.lists[n] == r.lists[n]
    ensures Truthy(name) ==> r' == Off(r, ToText(name), Absent)
    ensures !Truthy(name) ==> forall n | n in r.lists && n !in r'.lists :: Doubled(r.lists, n)
    ensures !Truthy(name) && (forall n | n in r.lists :: !Doubled(r.lists, n)) ==> r' == r
  {
    if Truthy(name) then Off(r, ToText(name), Absent)
    else
      SweepShrinks(r, r, r.order);
      Sweep(r, r.order)
  }

  /** `Remove` deletes whole arrays by name and never reads the policies. */
  lemma RemoveIgnoresData(r: Registry, d: map<Cb, Data>, name: Value)
    ensures Remove(r.(data := d), name) == Remove(r, name).(data := d)
  {
    if !Truthy(name) {
      SweepIgnoresData(r, d, r.order);
    }
  }

  lemma {:induction false} SweepIgnoresData(r: Registry, d: map<Cb, Data>, keys: seq<string>)
    ensures Sweep(r.(data := d), keys) == Sweep(r, keys).(data := d)
    decreases |keys|
  {
    if |keys| > 0 {
      assert Visit(r.(data := d), keys[0]) == Visit(r, keys[0]).(data := d);
      SweepIgnoresData(Visit(r, keys[0]), d, keys[1..]);
    }
  }

  /** The sweep only deletes doubled names, and touches nothing else. */
  lemma {:induction false} SweepShrinks(r0: Registry, r: Registry, keys: seq<string>)
    requires r.data == r0.data && r.lists.Keys <= r0.lists.Keys
    requires forall n | n in r.lists :: r.lists[n] == r0.lists[n]
    requires forall n | n in r0.lists && n !in r.lists :: Doubled(r0.lists, n)
    ensures var r' := Sweep(r, keys);
      && r'.data == r0.data && r'.lists.Keys <= r0.lists.Keys
      && (forall n | n in r'.lists :: r'.lists[n] == r0.lists[n])
      && (forall n | n in r0.lists && n !in r'.lists :: Doubled(r0.lists, n))
    ensures (forall n | n in r0.lists :: !Doubled(r0.lists, n)) && r == r0 ==> Sweep(r, keys) == r0
    decreases |keys|
  {
    if |keys| > 0 {
      var n := keys[0];
      if n in r.lists {
        var m := Prefix + n;
        assert m[..|Prefix|] == Prefix && m[|Prefix|..] == n;
      }
      SweepShrinks(r0, Visit(r, keys[0]), keys[1..]);
    }
  }

  /**
   * `Remove()` does delete "event." + n when n has an array and is not itself
   * doubled (so nothing deletes n before the loop reaches it).
   */
  lemma {:induction false} SweepDeletes(r0: Registry, r: Registry, keys: seq<string>, n: string)
    requires r.lists.Keys <= r0.lists.Keys
    requires n in keys && n in r.lists && !Doubled(r0.lists, n)
    ensures Prefix + n !in Sweep(r, keys).lists
    decreases |keys|
  {
    if keys[0] == n {
      AbsentStays(Visit(r, n), keys[1..], Prefix + n);
    } else {
      var k := keys[0];
      if k in r.lists {
        var m := Prefix + k;
        assert m[..|Prefix|] == Prefix && m[|Prefix|..] == k;
      }
      SweepDeletes(r0, Visit(r, k), keys[1..], n);
    }
  }

  lemma {:induction false} AbsentStays(r: Registry, keys: seq<string>, m: string)
    requires m !in r.lists
    ensures m !in Sweep(r, keys).lists
    decreases |keys|
  {
    if |keys| > 0 {
      AbsentStays(Visit(r, keys[0]), keys[1..], m);
    }
  }

  /** `Remove()` on a well-formed registry deletes "event." + n for every n that has an array and is not doubled. */
  lemma RemoveAllDeletes(r: Registry, n: string)
    requires Valid(r)
    requires n in r.lists && !Doubled(r.lists, n)
    ensures Prefix + n !in Remove(r, Undefined).lists
  {
    SweepDeletes(r, r, r.order, n);
  }

  /** What a collector does to the world: `Remove(event)` on its message. */
  function Collect(w: World, m: ObjId, payload: Value): World {
    if m in w.objs then w.(objs := w.objs[m := Remove(w.objs[m], payload)]) else w
  }

  /** One delivery `callback(payload)` made by the emit of object `target`. */
  datatype Delivery = Delivery(target: ObjId, cb: Cb, payload: Value)

  /** A finished emit: the world, the next oracle position, and every delivery in call order. */
  datatype Run = Run(world: World, pos: nat, calls: seq<Delivery>)

  /** An emit part-way through its array. */
  datatype Walk = Walk(world: World, kept: seq<Cb>, pos: nat, calls: seq<Delivery>)

  /** An emit keeps the set of objects, the closures, the instance and the allocation counter. */
  ghost predicate Stable(w: World, w': World) {
    && w'.objs.Keys == w.objs.Keys
    && w'.handlers == w.handlers
    && w'.instance == w.instance
    && w'.next == w.next
  }

  /**
   * `Emit(name, payload)` on object `o`, with the effects of the closures it
   * calls: a relay emits on its message, a collector runs `Remove` (or throws
   * in the source, which has no `Remove`). Application callbacks answer from
   * `oracle`, read at position `pos` and on (one position per call, in call
   * order). `fuel` is the number of nested emits the stack allows; `busy` lists
   * the arrays being walked further up the stack.
   */
  function EmitIn(w: World, v: Variant, o: ObjId, name: string, payload: Value, oracle: seq<bool>, pos: nat,
                  fuel: nat, busy: set<(ObjId, string)>): (res: Result<Run, Fault>)
    ensures res.Success? ==> Stable(w, res.value.world)
    decreases fuel, 1, 0
  {
    if fuel == 0 then Failure(StackOverflow)
    else if o !in w.objs || name !in w.objs[o].lists || |w.objs[o].lists[name]| == 0 then Success(Run(w, pos, []))
    else if (o, name) in busy then Failure(Reentered)
    else
      var snap := w.objs[o].lists[name];
      match Relayed(w, v, o, payload, oracle, pos, fuel, busy + {(o, name)}, snap, |snap|)
      case Failure(f) => Failure(f)
      case Success(walk) => Success(Finish(walk, o, name))
  }

  /**
   * The end of an emit: the survivors become the array for `name`, unless a
   * call deleted the array meanwhile (the walk went on over the detached one).
   */
  function Finish(walk: Walk, o: ObjId, name: string): (run: Run)
    requires o in walk.world.objs
    ensures Stable(walk.world, run.world)
  {
    var r := walk.world.objs[o];
    var lists := if name in r.lists then r.lists[name := walk.kept] else r.lists;
    Run(walk.world.(objs := walk.world.objs[o := r.(lists := lists)]), walk.pos, walk.calls)
  }

  /**
   * The first `k` calls of the emit of `o` over `snap`. The world is threaded
   * through the calls so that each one sees the effects of the previous ones.
   */
  function Relayed(w: World, v: Variant, o: ObjId, payload: Value, oracle: seq<bool>, pos: nat,
                   fuel: nat, busy: set<(ObjId, string)>, snap: seq<Cb>, k: nat): (res: Result<Walk, Fault>)
    requires k <= |snap| && o in w.objs && fuel >= 1
    ensures res.Success? ==> Stable(w, res.value.world)
    decreases fuel, 0, k
  {
    if k == 0 then Success(Walk(w, [], pos, []))
    else
      match Relayed(w, v, o, payload, oracle, pos, fuel, busy, snap, k - 1)
      case Failure(f) => Failure(f)
      case Success(prev) =>
        var cb := snap[k - 1];
        match Call(prev.world, v, cb, payload, oracle, prev.pos, fuel, busy)
        case Failure(f) => Failure(f)
        case Success(run) => Success(Step(prev, o, cb, payload, cb !in prev.world.handlers && ReturnsTrue(oracle, prev.pos), run))
  }

  /**
   * One call `cb(payload)`: an application callback consumes one oracle
   * answer and touches nothing; a relay emits on its message; a collector
   * runs `Remove` on its message (the source has no `Remove` and throws).
   * Neither closure returns `true`.
   */
  function Call(w: World, v: Variant, cb: Cb, payload: Value, oracle: seq<bool>, pos: nat,
                fuel: nat, busy: set<(ObjId, string)>): (res: Result<Run, Fault>)
    requires fuel >= 1
    ensures res.Success? ==> Stable(w, res.value.world)
    decreases fuel, 0, 0
  {
    if cb !in w.handlers then Success(Run(w, pos + 1, []))
    else
      match w.handlers[cb]
      case Relay(m, n) => EmitIn(w, v, m, n, payload, oracle, pos + 1, fuel - 1, busy)
      case Collector(m) =>
        if v == Source then Failure(NotAFunction)
        else Success(Run(Collect(w, m, payload), pos + 1, []))
  }

  /** After a call: the removal rules applied to `cb` on the policies of `o` as the call left them. */
  function Step(prev: Walk, o: ObjId, cb: Cb, payload: Value, returnedTrue: bool, run: Run): (walk: Walk)
    requires o in run.world.objs
    ensures Stable(run.world, walk.world)
  {
    var r := run.world.objs[o];
    var p := Advance(Pass(prev.kept, r.data), cb, returnedTrue);
    Walk(run.world.(objs := run.world.objs[o := r.(data := p.data)]), p.kept, run.pos,
         prev.calls + [Delivery(o, cb, payload)] + run.calls)
  }

  /** `target.Emit(name, payload)` from the top level. */
  function WorldEmit(w: World, v: Variant, o: ObjId, name: string, payload: Value, oracle: seq<bool>, fuel: nat): Result<Run, Fault> {
    EmitIn(w, v, o, name, payload, oracle, 0, fuel, {})
  }
}
