/**
 * What the closures `Message` creates do when an emit reaches them: a relay
 * made by `Watch` forwards the event to the message, the garbage-collect
 * handler runs `Remove` (bundle) or throws (source), and the singleton
 * accessor always hands back the same object.
 */
module Closures {
  import opened Wrappers
  import opened Values
  import opened Registry
  import opened Dispatch
  import opened Message
  import opened Countdown

  /** `res` is a success with value `x`. */
  predicate Gives<T(==)>(res: Result<T, Fault>, x: T) {
    res.Success? && res.value == x
  }

  /** `res` is the fault `f`. */
  predicate Throws<T>(res: Result<T, Fault>, f: Fault) {
    res.Failure? && res.error == f
  }

  /** The world with the policies of object `o` replaced. */
  function WithData(w: World, o: ObjId, data: map<Cb, Data>): World
    requires o in w.objs
  {
    w.(objs := w.objs[o := w.objs[o].(data := data)])
  }

  /** The oracle answers left from position `pos` on. */
  function Drop(oracle: seq<bool>, pos: nat): (rest: seq<bool>)
    ensures forall j: nat :: ReturnsTrue(rest, j) <==> ReturnsTrue(oracle, pos + j)
  {
    if pos <= |oracle| then oracle[pos..] else []
  }

  /** One delivery to every entry of `snap`, in order, by the emit of `o`. */
  function Deliveries(o: ObjId, snap: seq<Cb>, payload: Value): (calls: seq<Delivery>)
    ensures |calls| == |snap|
    ensures forall j | 0 <= j < |snap| :: calls[j] == Delivery(o, snap[j], payload)
  {
    seq(|snap|, j requires 0 <= j < |snap| => Delivery(o, snap[j], payload))
  }

  lemma DeliveriesConcat(o: ObjId, a: seq<Cb>, b: seq<Cb>, payload: Value)
    ensures Deliveries(o, a + b, payload) == Deliveries(o, a, payload) + Deliveries(o, b, payload)
  {
    var l := Deliveries(o, a + b, payload);
    var r := Deliveries(o, a, payload) + Deliveries(o, b, payload);
    forall j | 0 <= j < |l|
      ensures l[j] == r[j]
    {
      if j < |a| {
        assert (a + b)[j] == a[j];
      } else {
        assert (a + b)[j] == b[j - |a|];
      }
    }
  }

  /**
   * Over application callbacks, the steps `start` to `k` of the walk of `o`
   * follow the registry-level pass over `snap` with answers `rets`, whatever
   * world `W` the earlier steps left behind: only the policies of `o` change,
   * and step `j` reads the oracle at `at + (j - start)`.
   */
  lemma {:induction false} WalkOn(w: World, v: Variant, o: ObjId, payload: Value, oracle: seq<bool>, pos: nat,
                                  fuel: nat, busy: set<(ObjId, string)>, snap: seq<Cb>, data: map<Cb, Data>,
                                  rets: seq<bool>, W: World, start: nat, at: nat, calls: seq<Delivery>, k: nat)
    requires start <= k <= |snap| && o in w.objs && o in W.objs && fuel >= 1
    requires forall j | start <= j < k :: snap[j] !in W.handlers
    requires forall j | start <= j < k :: ReturnsTrue(oracle, at + (j - start)) == ReturnsTrue(rets, j)
    requires var p := Dispatch.Dispatch(snap, data, rets, start);
      Gives(Relayed(w, v, o, payload, oracle, pos, fuel, busy, snap, start), Walk(WithData(W, o, p.data), p.kept, at, calls))
    ensures var p := Dispatch.Dispatch(snap, data, rets, k);
      Gives(Relayed(w, v, o, payload, oracle, pos, fuel, busy, snap, k),
            Walk(WithData(W, o, p.data), p.kept, at + (k - start), calls + Deliveries(o, snap[start..k], payload)))
    decreases k
  {
    if k == start {
      assert calls + Deliveries(o, snap[start..k], payload) == calls;
    } else {
      WalkOn(w, v, o, payload, oracle, pos, fuel, busy, snap, data, rets, W, start, at, calls, k - 1);
      WalkStep(w, v, o, payload, oracle, pos, fuel, busy, snap, data, rets, W, start, at, calls, k);
    }
  }

  /** One step of `WalkOn`: an application callback's call and the removal rules. */
  lemma WalkStep(w: World, v: Variant, o: ObjId, payload: Value, oracle: seq<bool>, pos: nat,
                 fuel: nat, busy: set<(ObjId, string)>, snap: seq<Cb>, data: map<Cb, Data>,
                 rets: seq<bool>, W: World, start: nat, at: nat, calls: seq<Delivery>, k: nat)
    requires start < k <= |snap| && o in w.objs && o in W.objs && fuel >= 1
    requires snap[k - 1] !in W.handlers
    requires ReturnsTrue(oracle, at + (k - 1 - start)) == ReturnsTrue(rets, k - 1)
    requires var p := Dispatch.Dispatch(snap, data, rets, k - 1);
      Gives(Relayed(w, v, o, payload, oracle, pos, fuel, busy, snap, k - 1),
            Walk(WithData(W, o, p.data), p.kept, at + (k - 1 - start), calls + Deliveries(o, snap[start..k - 1], payload)))
    ensures var p := Dispatch.Dispatch(snap, data, rets, k);
      Gives(Relayed(w, v, o, payload, oracle, pos, fuel, busy, snap, k),
            Walk(WithData(W, o, p.data), p.kept, at + (k - start), calls + Deliveries(o, snap[start..k], payload)))
  {
    var before := Dispatch.Dispatch(snap, data, rets, k - 1);
    var prev := Walk(WithData(W, o, before.data), before.kept, at + (k - 1 - start), calls + Deliveries(o, snap[start..k - 1], payload));
    UserStep(w, v, o, payload, oracle, pos, fuel, busy, snap, k, prev);
    StepWalk(W, o, payload, oracle, snap, data, rets, start, at, calls, k);
    var after := Dispatch.Dispatch(snap, data, rets, k);
    var walk := Walk(WithData(W, o, after.data), after.kept, at + (k - start), calls + Deliveries(o, snap[start..k], payload));
    assert Gives(Relayed(w, v, o, payload, oracle, pos, fuel, busy, snap, k), walk);
  }

  /** The world-level step over an application callback: its call, then the removal rules on `o`. */
  lemma UserStep(w: World, v: Variant, o: ObjId, payload: Value, oracle: seq<bool>, pos: nat,
                 fuel: nat, busy: set<(ObjId, string)>, snap: seq<Cb>, k: nat, prev: Walk)
    requires 0 < k <= |snap| && o in w.objs && o in prev.world.objs && fuel >= 1
    requires Gives(Relayed(w, v, o, payload, oracle, pos, fuel, busy, snap, k - 1), prev)
    requires snap[k - 1] !in prev.world.handlers
    ensures Gives(Relayed(w, v, o, payload, oracle, pos, fuel, busy, snap, k),
                  Step(prev, o, snap[k - 1], payload, ReturnsTrue(oracle, prev.pos), Run(prev.world, prev.pos + 1, [])))
  {
    CallUser(prev.world, v, snap[k - 1], payload, oracle, prev.pos, fuel, busy);
    RelayedStep(w, v, o, payload, oracle, pos, fuel, busy, snap, k, prev, Run(prev.world, prev.pos + 1, []));
  }

  /** In registry terms, the step over an application callback advances the pass by one entry. */
  lemma StepWalk(W: World, o: ObjId, payload: Value, oracle: seq<bool>, snap: seq<Cb>, data: map<Cb, Data>,
                 rets: seq<bool>, start: nat, at: nat, calls: seq<Delivery>, k: nat)
    requires start < k <= |snap| && o in W.objs
    requires ReturnsTrue(oracle, at + (k - 1 - start)) == ReturnsTrue(rets, k - 1)
    ensures var p := Dispatch.Dispatch(snap, data, rets, k - 1);
      var q := Dispatch.Dispatch(snap, data, rets, k);
      var prev := Walk(WithData(W, o, p.data), p.kept, at + (k - 1 - start), calls + Deliveries(o, snap[start..k - 1], payload));
      Step(prev, o, snap[k - 1], payload, ReturnsTrue(oracle, prev.pos), Run(prev.world, prev.pos + 1, []))
        == Walk(WithData(W, o, q.data), q.kept, at + (k - start), calls + Deliveries(o, snap[start..k], payload))
  {
    var before := Dispatch.Dispatch(snap, data, rets, k - 1);
    var done := calls + Deliveries(o, snap[start..k - 1], payload);
    var returnedTrue := ReturnsTrue(rets, k - 1);
    assert Dispatch.Dispatch(snap, data, rets, k) == Advance(before, snap[k - 1], returnedTrue);
    StepUser(W, o, before, snap[k - 1], returnedTrue, payload, done, at + (k - 1 - start), at + (k - start));
    DeliveriesStep(o, snap, start, k, calls, payload);
  }

  /** The deliveries of a walk so far, one more step on. */
  lemma DeliveriesStep(o: ObjId, snap: seq<Cb>, start: nat, k: nat, calls: seq<Delivery>, payload: Value)
    requires start < k <= |snap|
    ensures calls + Deliveries(o, snap[start..k - 1], payload) + [Delivery(o, snap[k - 1], payload)]
         == calls + Deliveries(o, snap[start..k], payload)
  {
    var d := Delivery(o, snap[k - 1], payload);
    assert snap[start..k] == snap[start..k - 1] + [snap[k - 1]];
    DeliveriesConcat(o, snap[start..k - 1], [snap[k - 1]], payload);
    assert Deliveries(o, [snap[k - 1]], payload) == [d];
  }

  /**
   * Over application callbacks only, the first `k` steps of the world-level
   * emit are the registry-level pass: only the policies of `o` change, and the
   * oracle is read from `pos` on.
   */
  lemma UserWalk(w: World, v: Variant, o: ObjId, payload: Value, oracle: seq<bool>, pos: nat,
                 fuel: nat, busy: set<(ObjId, string)>, snap: seq<Cb>, k: nat)
    requires k <= |snap| && o in w.objs && fuel >= 1
    requires forall i | 0 <= i < k :: snap[i] !in w.handlers
    ensures var p := Dispatch.Dispatch(snap, w.objs[o].data, Drop(oracle, pos), k);
      Gives(Relayed(w, v, o, payload, oracle, pos, fuel, busy, snap, k), Walk(WithData(w, o, p.data), p.kept, pos + k, Deliveries(o, snap[..k], payload)))
  {
    assert w.objs[o].(data := w.objs[o].data) == w.objs[o];
    assert w.objs[o := w.objs[o]] == w.objs;
    assert WithData(w, o, w.objs[o].data) == w;
    WalkOn(w, v, o, payload, oracle, pos, fuel, busy, snap, w.objs[o].data, Drop(oracle, pos), w, 0, pos, [], k);
    assert snap[0..k] == snap[..k];
    assert [] + Deliveries(o, snap[..k], payload) == Deliveries(o, snap[..k], payload);
  }

  /** An application callback's step only updates the policies of `o`. */
  lemma StepUser(w: World, o: ObjId, before: Pass, cb: Cb, returnedTrue: bool, payload: Value, calls: seq<Delivery>, prevPos: nat, pos: nat)
    requires o in w.objs
    ensures var after := Advance(before, cb, returnedTrue);
      var mid := WithData(w, o, before.data);
      Step(Walk(mid, before.kept, prevPos, calls), o, cb, payload, returnedTrue, Run(mid, pos, []))
        == Walk(WithData(w, o, after.data), after.kept, pos, calls + [Delivery(o, cb, payload)])
  {
    var after := Advance(before, cb, returnedTrue);
    var mid := WithData(w, o, before.data);
    assert Advance(Pass(before.kept, mid.objs[o].data), cb, returnedTrue) == after;
    assert WithData(mid, o, after.data) == WithData(w, o, after.data);
  }

  /**
   * An emit whose array holds only application callbacks is `Emitter.Emit`:
   * the registry changes as `EmitSpec` says, nothing else in the world
   * changes, and each entry is called once, in order.
   */
  lemma UserEmitAgrees(w: World, v: Variant, o: ObjId, name: string, payload: Value, oracle: seq<bool>, pos: nat,
                       fuel: nat, busy: set<(ObjId, string)>)
    requires fuel >= 1 && o in w.objs && (o, name) !in busy
    requires forall c | c in Snapshot(w.objs[o], name) :: c !in w.handlers
    ensures var snap := Snapshot(w.objs[o], name);
      Gives(EmitIn(w, v, o, name, payload, oracle, pos, fuel, busy), Run(w.(objs := w.objs[o := EmitSpec(w.objs[o], name, Drop(oracle, pos))]),
                       pos + |snap|, Deliveries(o, snap, payload)))
  {
    var r := w.objs[o];
    if name !in r.lists || |r.lists[name]| == 0 {
      assert w.objs[o := r] == w.objs;
    } else {
      var snap := r.lists[name];
      UserWalk(w, v, o, payload, oracle, pos, fuel, busy + {(o, name)}, snap, |snap|);
      assert snap[..|snap|] == snap;
      var p := Deliver(snap, r.data, Drop(oracle, pos));
      var walk := Walk(WithData(w, o, p.data), p.kept, pos + |snap|, Deliveries(o, snap, payload));
      assert Gives(Relayed(w, v, o, payload, oracle, pos, fuel, busy + {(o, name)}, snap, |snap|), walk);
      EmitInWalk(w, v, o, name, payload, oracle, pos, fuel, busy, walk);
      FinishUser(w, o, name, Drop(oracle, pos), walk.pos, walk.calls);
    }
  }

  /** Writing the survivors back completes `EmitSpec`. */
  lemma FinishUser(w: World, o: ObjId, name: string, rets: seq<bool>, pos: nat, calls: seq<Delivery>)
    requires o in w.objs && name in w.objs[o].lists && |w.objs[o].lists[name]| > 0
    ensures var p := Deliver(w.objs[o].lists[name], w.objs[o].data, rets);
      Finish(Walk(WithData(w, o, p.data), p.kept, pos, calls), o, name)
        == Run(w.(objs := w.objs[o := EmitSpec(w.objs[o], name, rets)]), pos, calls)
  {
    var r := w.objs[o];
    var p := Deliver(r.lists[name], r.data, rets);
    var r2 := r.(data := p.data);
    assert r2.(lists := r2.lists[name := p.kept]) == EmitSpec(r, name, rets);
  }

  /** One more step of an emit: the call of entry `k - 1`, then the removal rules for it. */
  lemma RelayedStep(w: World, v: Variant, o: ObjId, payload: Value, oracle: seq<bool>, pos: nat,
                    fuel: nat, busy: set<(ObjId, string)>, snap: seq<Cb>, k: nat, prev: Walk, run: Run)
    requires 0 < k <= |snap| && o in w.objs && fuel >= 1
    requires Gives(Relayed(w, v, o, payload, oracle, pos, fuel, busy, snap, k - 1), prev)
    requires Gives(Call(prev.world, v, snap[k - 1], payload, oracle, prev.pos, fuel, busy), run)
    ensures o in run.world.objs
    ensures Gives(Relayed(w, v, o, payload, oracle, pos, fuel, busy, snap, k), Step(prev, o, snap[k - 1], payload, snap[k - 1] !in prev.world.handlers && ReturnsTrue(oracle, prev.pos), run))
  {
  }

  /** An application callback's call consumes one oracle answer and changes nothing. */
  lemma CallUser(w: World, v: Variant, cb: Cb, payload: Value, oracle: seq<bool>, pos: nat, fuel: nat, busy: set<(ObjId, string)>)
    requires fuel >= 1 && cb !in w.handlers
    ensures Gives(Call(w, v, cb, payload, oracle, pos, fuel, busy), Run(w, pos + 1, []))
  {
  }

  /** A relay's call is the emit of its event on its message. */
  lemma CallRelay(w: World, v: Variant, cb: Cb, m: ObjId, name: string, payload: Value, oracle: seq<bool>, pos: nat,
                  fuel: nat, busy: set<(ObjId, string)>)
    requires fuel >= 1 && cb in w.handlers && w.handlers[cb] == Relay(m, name)
    ensures Call(w, v, cb, payload, oracle, pos, fuel, busy) == EmitIn(w, v, m, name, payload, oracle, pos + 1, fuel - 1, busy)
  {
  }

  /** An emit over a non-empty array that no caller is walking: the walk, then the write-back. */
  lemma EmitInWalk(w: World, v: Variant, o: ObjId, name: string, payload: Value, oracle: seq<bool>, pos: nat,
                   fuel: nat, busy: set<(ObjId, string)>, walk: Walk)
    requires fuel >= 1 && o in w.objs && name in w.objs[o].lists && |w.objs[o].lists[name]| > 0 && (o, name) !in busy
    requires var snap := w.objs[o].lists[name];
      Gives(Relayed(w, v, o, payload, oracle, pos, fuel, busy + {(o, name)}, snap, |snap|), walk)
    ensures o in walk.world.objs
    ensures Gives(EmitIn(w, v, o, name, payload, oracle, pos, fuel, busy), Finish(walk, o, name))
  {
  }

  /** The same, for an array of one callback. */
  lemma EmitInOne(w: World, v: Variant, o: ObjId, name: string, payload: Value, oracle: seq<bool>, pos: nat,
                  fuel: nat, busy: set<(ObjId, string)>, cb: Cb, run: Run)
    requires fuel >= 1 && o in w.objs && (o, name) !in busy
    requires Snapshot(w.objs[o], name) == [cb]
    requires Gives(Call(w, v, cb, payload, oracle, pos, fuel, busy + {(o, name)}), run)
    ensures o in run.world.objs
    ensures Gives(EmitIn(w, v, o, name, payload, oracle, pos, fuel, busy), Finish(Step(Walk(w, [], pos, []), o, cb, payload, cb !in w.handlers && ReturnsTrue(oracle, pos), run), o, name))
  {
    assert w.objs[o].lists[name] == [cb];
    var busy' := busy + {(o, name)};
    assert Gives(Relayed(w, v, o, payload, oracle, pos, fuel, busy', [cb], 0), Walk(w, [], pos, []));
    RelayedStep(w, v, o, payload, oracle, pos, fuel, busy', [cb], 1, Walk(w, [], pos, []), run);
    EmitInWalk(w, v, o, name, payload, oracle, pos, fuel, busy,
               Step(Walk(w, [], pos, []), o, cb, payload, cb !in w.handlers && ReturnsTrue(oracle, pos), run));
  }

  /** The first `n` answers of an oracle (none when `n` is not positive). */
  function Take(oracle: seq<bool>, n: int): (head: seq<bool>)
    ensures forall j: nat :: ReturnsTrue(head, j) <==> j < n && ReturnsTrue(oracle, j)
  {
    if n <= 0 then [] else if n <= |oracle| then oracle[..n] else oracle
  }

  /**
   * The answers the target's own pass reads when its entry `i` is a relay
   * whose message's emit took `skip` answers: the entries before the relay
   * read their own positions, the relay never returns `true`, and the entries
   * after it read `skip` positions further on.
   */
  function Around(oracle: seq<bool>, i: nat, skip: nat): (rets: seq<bool>)
    ensures forall j: nat {:trigger ReturnsTrue(rets, j)} ::
      ReturnsTrue(rets, j) <==> (j < i && ReturnsTrue(oracle, j)) || (i < j && ReturnsTrue(oracle, j + skip))
  {
    seq(i + 1 + |oracle|, j requires 0 <= j => (j < i && ReturnsTrue(oracle, j)) || (i < j && ReturnsTrue(oracle, j + skip)))
  }

  /** The position of the first entry `cb` of `s`, or `|s|` when there is none. */
  function IndexOf(s: seq<Cb>, cb: Cb): (j: nat)
    ensures j <= |s| && (j < |s| <==> cb in s)
    ensures j < |s| ==> s[j] == cb
    ensures forall i | 0 <= i < j :: s[i] != cb
  {
    if |s| == 0 then 0
    else if s[0] == cb then 0
    else
      var j' := IndexOf(s[1..], cb);
      assert forall i | 1 <= i < j' + 1 :: s[i] == s[1..][i - 1];
      j' + 1
  }

  /** The only position of an entry that occurs once is its first one. */
  lemma IndexOfOnly(s: seq<Cb>, cb: Cb)
    requires multiset(s)[cb] == 1
    ensures IndexOf(s, cb) < |s|
    ensures forall j | 0 <= j < |s| && s[j] == cb :: j == IndexOf(s, cb)
  {
    var k := PositionOfOnly(s, cb);
  }

  /**
   * `target`'s array for `name` holds one relay to `m`, anywhere among
   * application callbacks, and the relay's policy never removes it; `m`'s
   * listeners for `name` are application callbacks.
   */
  ghost predicate RelayReady(w: World, m: ObjId, name: string, target: ObjId, relay: Cb) {
    && m in w.objs && target in w.objs && m != target
    && relay in w.handlers && w.handlers[relay] == Relay(m, name)
    && var snap := Snapshot(w.objs[target], name);
    && multiset(snap)[relay] == 1
    && (forall c | c in snap && c != relay :: c !in w.handlers)
    && Persistent(DataOf(w.objs[target].data, relay))
    && (forall c | c in Snapshot(w.objs[m], name) :: c !in w.handlers)
  }

  /**
   * What one emit on such a target does, in registry terms: the target's own
   * pass reads its answers `Around` the relay, and `m` emits `name` with the
   * answers that follow the relay's.
   */
  function RelayNext(w: World, m: ObjId, name: string, target: ObjId, relay: Cb, oracle: seq<bool>): (w': World)
    requires m in w.objs && target in w.objs
    ensures w'.objs.Keys == w.objs.Keys && w'.handlers == w.handlers
  {
    var i := IndexOf(Snapshot(w.objs[target], name), relay);
    var skip := |Snapshot(w.objs[m], name)|;
    w.(objs := w.objs[m := EmitSpec(w.objs[m], name, Drop(oracle, i + 1))]
                     [target := EmitSpec(w.objs[target], name, Around(oracle, i, skip))])
  }

  /** `RelayNext` once per oracle, in order. */
  function RelayedEmits(w: World, m: ObjId, name: string, target: ObjId, relay: Cb, oracles: seq<seq<bool>>): (w': World)
    requires m in w.objs && target in w.objs
    ensures w'.objs.Keys == w.objs.Keys && w'.handlers == w.handlers
    decreases |oracles|
  {
    if |oracles| == 0 then w
    else RelayedEmits(RelayNext(w, m, name, target, relay, oracles[0]), m, name, target, relay, oracles[1..])
  }

  /** An emit reads only the answers of the entries its array holds. */
  lemma EmitSpecReadsPrefix(r: Registry, name: string, a: seq<bool>, b: seq<bool>)
    requires forall j | 0 <= j < |Snapshot(r, name)| :: ReturnsTrue(a, j) == ReturnsTrue(b, j)
    ensures EmitSpec(r, name, a) == EmitSpec(r, name, b)
  {
    if name in r.lists && |r.lists[name]| > 0 {
      var snap := r.lists[name];
      DispatchReadsPrefix(snap, r.data, a, b, |snap|);
    }
  }

  /** After one such emit the target and the message are ready for the next one, with the same relay. */
  lemma RelayNextReady(w: World, m: ObjId, name: string, target: ObjId, relay: Cb, oracle: seq<bool>)
    requires RelayReady(w, m, name, target, relay)
    ensures RelayReady(RelayNext(w, m, name, target, relay, oracle), m, name, target, relay)
  {
    var r := w.objs[target];
    var snap := Snapshot(r, name);
    var i := IndexOf(snap, relay);
    var rets := Around(oracle, i, |Snapshot(w.objs[m], name)|);
    var rt := EmitSpec(r, name, rets);
    var rm := EmitSpec(w.objs[m], name, Drop(oracle, i + 1));
    RelayNextObjs(w, m, name, target, relay, oracle);
    assert !ReturnsTrue(rets, i);
    KeepsRelay(r, name, relay, rets);
    EmitKeepsEntries(w.objs[m], name, Drop(oracle, i + 1));
  }

  /** A persistent relay that occurs once and does not return `true` survives the emit, and no entry is added. */
  lemma KeepsRelay(r: Registry, name: string, relay: Cb, rets: seq<bool>)
    requires multiset(Snapshot(r, name))[relay] == 1 && Persistent(DataOf(r.data, relay))
    requires !ReturnsTrue(rets, IndexOf(Snapshot(r, name), relay))
    ensures var r' := EmitSpec(r, name, rets);
      && multiset(Snapshot(r', name))[relay] == 1
      && Persistent(DataOf(r'.data, relay))
      && (forall c | c in Snapshot(r', name) :: c in Snapshot(r, name))
  {
    IndexOfOnly(Snapshot(r, name), relay);
    EmitOnce(r, name, rets, relay, false);
    EmitKeepsEntries(r, name, rets);
    assert Settle(DataOf(r.data, relay), false) == Verdict(true, DataOf(r.data, relay));
  }

  /**
   * The relay's own step: `m`'s emit has updated `m`, and the relay, which
   * does not return `true`, goes through the removal rules on the target.
   */
  lemma RelayStepWalk(w1: World, m: ObjId, target: ObjId, relay: Cb, payload: Value, p: Pass, prev: Walk, run: Run, mm: Registry)
    requires m in w1.objs && target in w1.objs && m != target
    requires prev.world == WithData(w1, target, p.data) && prev.kept == p.kept
    requires run.world == prev.world.(objs := prev.world.objs[m := mm])
    ensures var q := Advance(p, relay, false);
      Step(prev, target, relay, payload, false, run)
        == Walk(WithData(w1.(objs := w1.objs[m := mm]), target, q.data), q.kept, run.pos,
                prev.calls + [Delivery(target, relay, payload)] + run.calls)
  {
    var q := Advance(p, relay, false);
    var r := w1.objs[target];
    var t := r.(data := p.data);
    assert run.world.objs == w1.objs[target := t][m := mm];
    assert run.world.objs[target] == t;
    assert Advance(Pass(prev.kept, t.data), relay, false) == q;
    assert t.(data := q.data) == r.(data := q.data);
    assert w1.objs[target := t][m := mm][target := r.(data := q.data)] == w1.objs[m := mm][target := r.(data := q.data)];
  }

  /** The relay's call is `m`'s whole emit over its application callbacks, and the relay does not return `true`. */
  lemma RelayCall(w1: World, v: Variant, m: ObjId, name: string, target: ObjId, relay: Cb,
                  payload: Value, oracle: seq<bool>, fuel: nat, snap: seq<Cb>, i: nat, prev: Walk)
    requires fuel >= 2 && target in w1.objs && m in w1.objs && m != target
    requires i < |snap| && snap[i] == relay && prev.pos == i
    requires relay in prev.world.handlers && prev.world.handlers[relay] == Relay(m, name)
    requires m in prev.world.objs && target in prev.world.objs && prev.world.objs[m] == w1.objs[m]
    requires forall c | c in Snapshot(w1.objs[m], name) :: c !in prev.world.handlers
    requires Gives(Relayed(w1, v, target, payload, oracle, 0, fuel, {(target, name)}, snap, i), prev)
    ensures var mine := Snapshot(w1.objs[m], name);
      var run := Run(prev.world.(objs := prev.world.objs[m := EmitSpec(w1.objs[m], name, Drop(oracle, i + 1))]),
                     i + 1 + |mine|, Deliveries(m, mine, payload));
      Gives(Relayed(w1, v, target, payload, oracle, 0, fuel, {(target, name)}, snap, i + 1), Step(prev, target, relay, payload, false, run))
  {
    var busy: set<(ObjId, string)> := {(target, name)};
    CallRelay(prev.world, v, relay, m, name, payload, oracle, i, fuel, busy);
    UserEmitAgrees(prev.world, v, m, name, payload, oracle, i + 1, fuel - 1, busy);
    var mine := Snapshot(w1.objs[m], name);
    var run := Run(prev.world.(objs := prev.world.objs[m := EmitSpec(w1.objs[m], name, Drop(oracle, i + 1))]),
                   i + 1 + |mine|, Deliveries(m, mine, payload));
    RelayedStep(w1, v, target, payload, oracle, 0, fuel, busy, snap, i + 1, prev, run);
  }

  /**
   * The walk of an emit on such a target: the callbacks before the relay, the
   * relay with the message's whole emit, then the callbacks after it.
   */
  lemma RelayWalk(w1: World, v: Variant, m: ObjId, name: string, target: ObjId, relay: Cb,
                  payload: Value, oracle: seq<bool>, fuel: nat)
    requires RelayReady(w1, m, name, target, relay) && fuel >= 2
    ensures var r := w1.objs[target];
      var snap := Snapshot(r, name);
      var mine := Snapshot(w1.objs[m], name);
      var i := IndexOf(snap, relay);
      var rets := Around(oracle, i, |mine|);
      var p := Dispatch.Dispatch(snap, r.data, rets, |snap|);
      var wm := w1.(objs := w1.objs[m := EmitSpec(w1.objs[m], name, Drop(oracle, i + 1))]);
      && i < |snap|
      && Gives(Relayed(w1, v, target, payload, oracle, 0, fuel, {(target, name)}, snap, |snap|),
               Walk(WithData(wm, target, p.data), p.kept, |snap| + |mine|,
                    Deliveries(target, snap[..i], payload) + [Delivery(target, relay, payload)] + Deliveries(m, mine, payload)
                    + Deliveries(target, snap[i + 1..], payload)))
  {
    var busy: set<(ObjId, string)> := {(target, name)};
    var r := w1.objs[target];
    var snap := Snapshot(r, name);
    var mine := Snapshot(w1.objs[m], name);
    IndexOfOnly(snap, relay);
    var i := IndexOf(snap, relay);
    var rets := Around(oracle, i, |mine|);
    var wm := w1.(objs := w1.objs[m := EmitSpec(w1.objs[m], name, Drop(oracle, i + 1))]);
    var before := Deliveries(target, snap[..i], payload);
    var relayed := before + [Delivery(target, relay, payload)] + Deliveries(m, mine, payload);
    RelayBefore(w1, v, m, name, target, relay, payload, oracle, fuel);
    RelayThrough(w1, v, m, name, target, relay, payload, oracle, fuel, snap, r.data, i, before);
    RelayAfter(w1, v, target, payload, oracle, fuel, busy, snap, r.data, relay, wm, i, |mine|, relayed);
    var p := Dispatch.Dispatch(snap, r.data, rets, |snap|);
    var walk := Walk(WithData(wm, target, p.data), p.kept, |snap| + |mine|, relayed + Deliveries(target, snap[i + 1..], payload));
    assert Gives(Relayed(w1, v, target, payload, oracle, 0, fuel, busy, snap, |snap|), walk);
  }

  /**
   * The relay's step: `m` emits over its application callbacks, and the
   * relay, which does not return `true`, stays in the target's pass.
   */
  lemma RelayThrough(w1: World, v: Variant, m: ObjId, name: string, target: ObjId, relay: Cb,
                     payload: Value, oracle: seq<bool>, fuel: nat, snap: seq<Cb>, data: map<Cb, Data>,
                     i: nat, before: seq<Delivery>)
    requires fuel >= 2 && m in w1.objs && target in w1.objs && m != target
    requires i < |snap| && snap[i] == relay
    requires relay in w1.handlers && w1.handlers[relay] == Relay(m, name)
    requires forall c | c in Snapshot(w1.objs[m], name) :: c !in w1.handlers
    requires var p := Dispatch.Dispatch(snap, data, Around(oracle, i, |Snapshot(w1.objs[m], name)|), i);
      Gives(Relayed(w1, v, target, payload, oracle, 0, fuel, {(target, name)}, snap, i),
            Walk(WithData(w1, target, p.data), p.kept, i, before))
    ensures var mine := Snapshot(w1.objs[m], name);
      var q := Dispatch.Dispatch(snap, data, Around(oracle, i, |mine|), i + 1);
      var wm := w1.(objs := w1.objs[m := EmitSpec(w1.objs[m], name, Drop(oracle, i + 1))]);
      Gives(Relayed(w1, v, target, payload, oracle, 0, fuel, {(target, name)}, snap, i + 1),
            Walk(WithData(wm, target, q.data), q.kept, i + 1 + |mine|,
                 before + [Delivery(target, relay, payload)] + Deliveries(m, mine, payload)))
  {
    var busy: set<(ObjId, string)> := {(target, name)};
    var mine := Snapshot(w1.objs[m], name);
    var rets := Around(oracle, i, |mine|);
    var p := Dispatch.Dispatch(snap, data, rets, i);
    var prev := Walk(WithData(w1, target, p.data), p.kept, i, before);
    assert prev.world.objs[m] == w1.objs[m];
    RelayCall(w1, v, m, name, target, relay, payload, oracle, fuel, snap, i, prev);
    var mm := EmitSpec(w1.objs[m], name, Drop(oracle, i + 1));
    var wm := w1.(objs := w1.objs[m := mm]);
    var run := Run(prev.world.(objs := prev.world.objs[m := mm]), i + 1 + |mine|, Deliveries(m, mine, payload));
    RelayStepWalk(w1, m, target, relay, payload, p, prev, run, mm);
    var q := Dispatch.Dispatch(snap, data, rets, i + 1);
    assert !ReturnsTrue(rets, i);
    assert q == Advance(p, relay, false);
    var relayed := before + [Delivery(target, relay, payload)] + Deliveries(m, mine, payload);
    assert Step(prev, target, relay, payload, false, run) == Walk(WithData(wm, target, q.data), q.kept, i + 1 + |mine|, relayed);
    assert Gives(Relayed(w1, v, target, payload, oracle, 0, fuel, busy, snap, i + 1),
                 Walk(WithData(wm, target, q.data), q.kept, i + 1 + |mine|, relayed));
  }

  /** The callbacks after the relay: the pass goes on over them, reading the oracle `skip` positions on. */
  lemma RelayAfter(w1: World, v: Variant, target: ObjId, payload: Value, oracle: seq<bool>, fuel: nat,
                   busy: set<(ObjId, string)>, snap: seq<Cb>, data: map<Cb, Data>, relay: Cb,
                   W: World, i: nat, skip: nat, relayed: seq<Delivery>)
    requires i < |snap| && snap[i] == relay && target in w1.objs && target in W.objs && fuel >= 1
    requires forall j | 0 <= j < |snap| && snap[j] == relay :: j == i
    requires forall c | c in snap && c != relay :: c !in W.handlers
    requires var q := Dispatch.Dispatch(snap, data, Around(oracle, i, skip), i + 1);
      Gives(Relayed(w1, v, target, payload, oracle, 0, fuel, busy, snap, i + 1),
            Walk(WithData(W, target, q.data), q.kept, i + 1 + skip, relayed))
    ensures var p := Dispatch.Dispatch(snap, data, Around(oracle, i, skip), |snap|);
      Gives(Relayed(w1, v, target, payload, oracle, 0, fuel, busy, snap, |snap|),
            Walk(WithData(W, target, p.data), p.kept, |snap| + skip, relayed + Deliveries(target, snap[i + 1..], payload)))
  {
    AfterRelay(snap, relay, W.handlers, oracle, i, skip);
    WalkAfter(w1, v, target, payload, oracle, fuel, busy, snap, data, Around(oracle, i, skip), W, i, skip, relayed);
  }

  /** The callbacks after the relay, given the answers `rets` they read: the pass goes on over them. */
  lemma WalkAfter(w1: World, v: Variant, target: ObjId, payload: Value, oracle: seq<bool>, fuel: nat,
                   busy: set<(ObjId, string)>, snap: seq<Cb>, data: map<Cb, Data>, rets: seq<bool>,
                   W: World, i: nat, skip: nat, relayed: seq<Delivery>)
    requires i < |snap| && target in w1.objs && target in W.objs && fuel >= 1
    requires forall j | i + 1 <= j < |snap| :: snap[j] !in W.handlers
    requires forall j | i + 1 <= j < |snap| :: ReturnsTrue(oracle, i + 1 + skip + (j - (i + 1))) == ReturnsTrue(rets, j)
    requires var q := Dispatch.Dispatch(snap, data, rets, i + 1);
      Gives(Relayed(w1, v, target, payload, oracle, 0, fuel, busy, snap, i + 1),
            Walk(WithData(W, target, q.data), q.kept, i + 1 + skip, relayed))
    ensures var p := Dispatch.Dispatch(snap, data, rets, |snap|);
      Gives(Relayed(w1, v, target, payload, oracle, 0, fuel, busy, snap, |snap|),
            Walk(WithData(W, target, p.data), p.kept, |snap| + skip, relayed + Deliveries(target, snap[i + 1..], payload)))
  {
    WalkOn(w1, v, target, payload, oracle, 0, fuel, busy, snap, data, rets, W, i + 1, i + 1 + skip, relayed, |snap|);
    assert snap[i + 1..|snap|] == snap[i + 1..];
  }

  /** The entries after the relay are application callbacks, and each reads the oracle `skip` positions on. */
  lemma AfterRelay(snap: seq<Cb>, relay: Cb, handlers: map<Cb, Handler>, oracle: seq<bool>, i: nat, skip: nat)
    requires i < |snap| && snap[i] == relay
    requires forall j | 0 <= j < |snap| && snap[j] == relay :: j == i
    requires forall c | c in snap && c != relay :: c !in handlers
    ensures forall j | i + 1 <= j < |snap| :: snap[j] !in handlers
    ensures forall j | i + 1 <= j < |snap| :: ReturnsTrue(oracle, i + 1 + skip + (j - (i + 1))) == ReturnsTrue(Around(oracle, i, skip), j)
  {
    forall j | i + 1 <= j < |snap|
      ensures snap[j] !in handlers
    {
      assert snap[j] in snap;
    }
  }

  /** The callbacks before the relay: the pass over them, reading the oracle from the start. */
  lemma RelayBefore(w1: World, v: Variant, m: ObjId, name: string, target: ObjId, relay: Cb,
                    payload: Value, oracle: seq<bool>, fuel: nat)
    requires RelayReady(w1, m, name, target, relay) && fuel >= 2
    ensures var r := w1.objs[target];
      var snap := Snapshot(r, name);
      var i := IndexOf(snap, relay);
      var p := Dispatch.Dispatch(snap, r.data, Around(oracle, i, |Snapshot(w1.objs[m], name)|), i);
      Gives(Relayed(w1, v, target, payload, oracle, 0, fuel, {(target, name)}, snap, i),
            Walk(WithData(w1, target, p.data), p.kept, i, Deliveries(target, snap[..i], payload)))
  {
    var r := w1.objs[target];
    var snap := Snapshot(r, name);
    var i := IndexOf(snap, relay);
    var rets := Around(oracle, i, |Snapshot(w1.objs[m], name)|);
    forall j | 0 <= j < i
      ensures snap[j] !in w1.handlers
    {
      assert snap[j] in snap && snap[j] != relay;
    }
    assert w1.objs[target := r.(data := r.data)] == w1.objs;
    assert WithData(w1, target, r.data) == w1;
    WalkOn(w1, v, target, payload, oracle, 0, fuel, {(target, name)}, snap, r.data, rets, w1, 0, 0, [], i);
    assert snap[0..i] == snap[..i];
    assert [] + Deliveries(target, snap[0..i], payload) == Deliveries(target, snap[..i], payload);
  }

  /**
   * An emit on `target` whose array holds a relay to `m` among application
   * callbacks: the callbacks before the relay are called in order, then the
   * relay, which makes `m` emit, so `m`'s listeners run next, then the
   * callbacks after the relay. The relay stays registered; both registries
   * change as `RelayNext` says.
   */
  lemma RelayEmit(w1: World, v: Variant, m: ObjId, name: string, target: ObjId, relay: Cb,
                  payload: Value, oracle: seq<bool>, fuel: nat)
    requires RelayReady(w1, m, name, target, relay) && fuel >= 2
    ensures var res := WorldEmit(w1, v, target, name, payload, oracle, fuel);
      var snap := Snapshot(w1.objs[target], name);
      var mine := Snapshot(w1.objs[m], name);
      var i := IndexOf(snap, relay);
      && i < |snap|
      && res.Success?
      && res.value.calls
         == Deliveries(target, snap[..i], payload) + [Delivery(target, relay, payload)] + Deliveries(m, mine, payload)
            + Deliveries(target, snap[i + 1..], payload)
      && res.value.world == RelayNext(w1, m, name, target, relay, oracle)
      && res.value.pos == |snap| + |mine|
  {
    var none: set<(ObjId, string)> := {};
    var r := w1.objs[target];
    var snap := Snapshot(r, name);
    var mine := Snapshot(w1.objs[m], name);
    var i := IndexOf(snap, relay);
    var rets := Around(oracle, i, |mine|);
    var mm := EmitSpec(w1.objs[m], name, Drop(oracle, i + 1));
    var wm := w1.(objs := w1.objs[m := mm]);
    RelayWalk(w1, v, m, name, target, relay, payload, oracle, fuel);
    assert snap == r.lists[name];
    var p := Dispatch.Dispatch(snap, r.data, rets, |snap|);
    var calls := Deliveries(target, snap[..i], payload) + [Delivery(target, relay, payload)] + Deliveries(m, mine, payload)
                 + Deliveries(target, snap[i + 1..], payload);
    var walk := Walk(WithData(wm, target, p.data), p.kept, |snap| + |mine|, calls);
    assert none + {(target, name)} == {(target, name)};
    assert Gives(Relayed(w1, v, target, payload, oracle, 0, fuel, none + {(target, name)}, snap, |snap|), walk);
    EmitInWalk(w1, v, target, name, payload, oracle, 0, fuel, none, walk);
    assert wm.objs[target] == r;
    FinishUser(wm, target, name, rets, walk.pos, calls);
    assert Gives(WorldEmit(w1, v, target, name, payload, oracle, fuel), Run(RelayNext(w1, m, name, target, relay, oracle), walk.pos, calls));
  }

  /**
   * `Watch(name, target)` relays: the next `target.Emit(name, payload)` calls
   * the target's own listeners, then the relay, which re-emits `payload` under
   * `name` on the message, so the message's listeners run right after it.
   */
  lemma WatchThenEmit(w: World, v: Variant, m: ObjId, name: string, target: ObjId, identifier: Option<string>,
                      payload: Value, oracle: seq<bool>, fuel: nat)
    requires Allocated(w) && m in w.objs && target in w.objs && m != target
    requires forall c | c in Snapshot(w.objs[target], name) :: c !in w.handlers
    requires forall c | c in Snapshot(w.objs[m], name) :: c !in w.handlers
    requires fuel >= 2
    ensures var w1 := Watch(w, v, m, name, target, identifier).0;
      var before := Snapshot(w.objs[target], name);
      var mine := Snapshot(w.objs[m], name);
      var res := WorldEmit(w1, v, target, name, payload, oracle, fuel);
      && res.Success?
      && res.value.calls
         == Deliveries(target, before, payload) + [Delivery(target, Closure(w.next), payload)] + Deliveries(m, mine, payload)
      && res.value.world.objs
         == w1.objs[m := EmitSpec(w.objs[m], name, Drop(oracle, |before| + 1))]
                   [target := EmitSpec(w1.objs[target], name, Take(oracle, |before|))]
      && res.value.pos == |before| + 1 + |mine|
  {
    var w1 := Watch(w, v, m, name, target, identifier).0;
    WatchReady(w, v, m, name, target, identifier);
    RelayLastEmit(w1, v, m, name, target, Closure(w.next), payload, oracle, fuel, Snapshot(w.objs[target], name));
  }

  /**
   * An emit on a target whose relay is its last entry: the target's own
   * listeners, the relay, then the message's listeners, and nothing after.
   * The target's pass reads only the answers before the relay's.
   */
  lemma RelayLastEmit(w1: World, v: Variant, m: ObjId, name: string, target: ObjId, relay: Cb,
                      payload: Value, oracle: seq<bool>, fuel: nat, before: seq<Cb>)
    requires RelayReady(w1, m, name, target, relay) && fuel >= 2
    requires Snapshot(w1.objs[target], name) == before + [relay]
    ensures var mine := Snapshot(w1.objs[m], name);
      var res := WorldEmit(w1, v, target, name, payload, oracle, fuel);
      && res.Success?
      && res.value.calls
         == Deliveries(target, before, payload) + [Delivery(target, relay, payload)] + Deliveries(m, mine, payload)
      && res.value.world.objs
         == w1.objs[m := EmitSpec(w1.objs[m], name, Drop(oracle, |before| + 1))]
                   [target := EmitSpec(w1.objs[target], name, Take(oracle, |before|))]
      && res.value.pos == |before| + 1 + |mine|
  {
    var snap := Snapshot(w1.objs[target], name);
    var mine := Snapshot(w1.objs[m], name);
    IndexOfOnly(snap, relay);
    assert snap[|before|] == relay;
    assert IndexOf(snap, relay) == |before|;
    assert snap[..|before|] == before && snap[|before| + 1..] == [];
    RelayEmit(w1, v, m, name, target, relay, payload, oracle, fuel);
    WatchCalls(target, m, before, mine, snap, relay, payload);
    RelayNextLast(w1, m, name, target, relay, oracle, |before|);
  }

  /** The calls of an emit through a relay appended after `before`: nothing follows the message's listeners. */
  lemma WatchCalls(target: ObjId, m: ObjId, before: seq<Cb>, mine: seq<Cb>, snap: seq<Cb>, relay: Cb, payload: Value)
    requires |before| < |snap| && snap[..|before|] == before && snap[|before| + 1..] == []
    ensures Deliveries(target, snap[..|before|], payload) + [Delivery(target, relay, payload)] + Deliveries(m, mine, payload)
              + Deliveries(target, snap[|before| + 1..], payload)
            == Deliveries(target, before, payload) + [Delivery(target, relay, payload)] + Deliveries(m, mine, payload)
  {
    var relayed := Deliveries(target, before, payload) + [Delivery(target, relay, payload)] + Deliveries(m, mine, payload);
    assert relayed + Deliveries(target, [], payload) == relayed;
  }

  /** When the relay is the target's last entry, the target's pass reads only the answers before it. */
  lemma RelayNextLast(w1: World, m: ObjId, name: string, target: ObjId, relay: Cb, oracle: seq<bool>, n: nat)
    requires m in w1.objs && target in w1.objs && m != target
    requires IndexOf(Snapshot(w1.objs[target], name), relay) == n && n + 1 == |Snapshot(w1.objs[target], name)|
    ensures RelayNext(w1, m, name, target, relay, oracle).objs
              == w1.objs[m := EmitSpec(w1.objs[m], name, Drop(oracle, n + 1))]
                        [target := EmitSpec(w1.objs[target], name, Take(oracle, n))]
  {
    RelayNextObjs(w1, m, name, target, relay, oracle);
    AroundBeforeLast(w1.objs[target], name, oracle, n, |Snapshot(w1.objs[m], name)|);
  }

  /** The objects after `RelayNext`: the message's registry is replaced, then the target's. */
  lemma RelayNextObjs(w: World, m: ObjId, name: string, target: ObjId, relay: Cb, oracle: seq<bool>)
    requires m in w.objs && target in w.objs
    ensures var i := IndexOf(Snapshot(w.objs[target], name), relay);
      RelayNext(w, m, name, target, relay, oracle).objs
        == w.objs[m := EmitSpec(w.objs[m], name, Drop(oracle, i + 1))]
                 [target := EmitSpec(w.objs[target], name, Around(oracle, i, |Snapshot(w.objs[m], name)|))]
  {
  }

  /** With the relay last, the answers after it are never read by the target's own pass. */
  lemma AroundBeforeLast(r: Registry, name: string, oracle: seq<bool>, n: nat, skip: nat)
    requires n + 1 == |Snapshot(r, name)|
    ensures EmitSpec(r, name, Around(oracle, n, skip)) == EmitSpec(r, name, Take(oracle, n))
  {
    var around := Around(oracle, n, skip);
    var take := Take(oracle, n);
    forall j | 0 <= j < |Snapshot(r, name)|
      ensures ReturnsTrue(around, j) == ReturnsTrue(take, j)
    {
    }
    EmitSpecReadsPrefix(r, name, around, take);
  }

  /**
   * `Watch(name, target)` appends one relay to `m` after the target's own
   * listeners; when those and `m`'s listeners are application callbacks, the
   * target is ready to relay.
   */
  lemma WatchReady(w: World, v: Variant, m: ObjId, name: string, target: ObjId, identifier: Option<string>)
    requires Allocated(w) && m in w.objs && target in w.objs && m != target
    requires forall c | c in Snapshot(w.objs[target], name) :: c !in w.handlers
    requires forall c | c in Snapshot(w.objs[m], name) :: c !in w.handlers
    ensures var w1 := Watch(w, v, m, name, target, identifier).0;
      var before := Snapshot(w.objs[target], name);
      var snap := Snapshot(w1.objs[target], name);
      && RelayReady(w1, m, name, target, Closure(w.next))
      && snap == before + [Closure(w.next)]
      && w1.objs[m] == w.objs[m]
  {
    var w1 := Watch(w, v, m, name, target, identifier).0;
    var relay := Closure(w.next);
    var before := Snapshot(w.objs[target], name);
    var snap := Snapshot(w1.objs[target], name);
    assert snap == before + [relay];
    assert multiset(snap)[relay] == multiset(before)[relay] + 1;
    assert w1.objs[m] == w.objs[m];
    assert Persistent(DataOf(w1.objs[target].data, relay));
    forall c | c in snap && c != relay
      ensures c !in w1.handlers
    {
      assert c in before;
    }
    forall c | c in Snapshot(w1.objs[m], name)
      ensures c !in w1.handlers
    {
      assert c in w.objs[m].lists[name];
    }
  }

  /**
   * The message test's scenario: a new emitter is watched for `name`, and an
   * emit on it calls the relay and then every listener the message has for
   * `name`, with the emitted payload.
   */
  lemma WatchedEmitterReachesMessage(w: World, v: Variant, m: ObjId, name: string,
                                     payload: Value, oracle: seq<bool>, fuel: nat)
    requires Allocated(w) && m in w.objs && fuel >= 2
    requires forall c | c in Snapshot(w.objs[m], name) :: c !in w.handlers
    ensures var (w0, e) := NewEmitter(w);
      var res := WorldEmit(Watch(w0, v, m, name, e, None).0, v, e, name, payload, oracle, fuel);
      && res.Success?
      && res.value.calls == [Delivery(e, Closure(w0.next), payload)] + Deliveries(m, Snapshot(w.objs[m], name), payload)
  {
    var (w0, e) := NewEmitter(w);
    assert e !in w.objs && w0.objs[m] == w.objs[m] && w0.handlers == w.handlers;
    assert Snapshot(w0.objs[e], name) == [];
    WatchThenEmit(w0, v, m, name, e, None, payload, oracle, fuel);
    var res := WorldEmit(Watch(w0, v, m, name, e, None).0, v, e, name, payload, oracle, fuel);
    var relayed := [Delivery(e, Closure(w0.next), payload)];
    assert Deliveries(e, [], payload) + relayed == relayed;
    assert res.value.calls == relayed + Deliveries(m, Snapshot(w.objs[m], name), payload);
  }

  /** `target.Emit(name, payload)` once per oracle, in order, stopping at the first fault. */
  function EmitsOn(w: World, v: Variant, target: ObjId, name: string, payload: Value, oracles: seq<seq<bool>>, fuel: nat)
    : Result<World, Fault>
    decreases |oracles|
  {
    if |oracles| == 0 then Success(w)
    else
      match WorldEmit(w, v, target, name, payload, oracles[0], fuel)
      case Failure(f) => Failure(f)
      case Success(run) => EmitsOn(run.world, v, target, name, payload, oracles[1..], fuel)
  }

  /** One emit keeps every listener of `m` among those it started with, so the listeners stay application callbacks. */
  lemma EmitKeepsEntries(r: Registry, name: string, rets: seq<bool>)
    ensures forall c | c in Snapshot(EmitSpec(r, name, rets), name) :: c in Snapshot(r, name)
  {
    if name in r.lists && |r.lists[name]| > 0 {
      var snap := r.lists[name];
      DispatchKeepsOrder(snap, r.data, rets, |snap|);
      assert snap[..|snap|] == snap;
      SubsequenceIn(Deliver(snap, r.data, rets).kept, snap);
    }
  }

  /**
   * The relay never removes itself: over any number of emits on `target` it
   * stays there exactly once, and each emit is one `RelayNext`: the
   * target's own listeners go through their emit and the message through one
   * emit of its own.
   */
  lemma {:induction false} RelaySurvives(w1: World, v: Variant, m: ObjId, name: string, target: ObjId, relay: Cb,
                                         payload: Value, oracles: seq<seq<bool>>, fuel: nat)
    requires RelayReady(w1, m, name, target, relay) && fuel >= 2
    ensures Gives(EmitsOn(w1, v, target, name, payload, oracles, fuel), RelayedEmits(w1, m, name, target, relay, oracles))
    ensures RelayReady(RelayedEmits(w1, m, name, target, relay, oracles), m, name, target, relay)
    decreases |oracles|
  {
    if |oracles| > 0 {
      RelayEmit(w1, v, m, name, target, relay, payload, oracles[0], fuel);
      RelayNextReady(w1, m, name, target, relay, oracles[0]);
      RelaySurvives(RelayNext(w1, m, name, target, relay, oracles[0]), v, m, name, target, relay, payload, oracles[1..], fuel);
    }
  }

  /**
   * Bundle: emitting the garbage-collect event on a message whose only
   * listener for it is its collector runs `Remove(payload)` on that message,
   * and nothing else in the world changes.
   */
  lemma CollectorRunsRemove(w: World, o: ObjId, g: Cb, payload: Value, oracle: seq<bool>, pos: nat,
                            fuel: nat, busy: set<(ObjId, string)>)
    requires o in w.objs && fuel >= 1 && (o, GarbageCollect) !in busy
    requires Snapshot(w.objs[o], GarbageCollect) == [g]
    requires g in w.handlers && w.handlers[g] == Collector(o)
    requires DataOf(w.objs[o].data, g) == NoData
    ensures Gives(EmitIn(w, Bundle, o, GarbageCollect, payload, oracle, pos, fuel, busy), Run(w.(objs := w.objs[o := Remove(w.objs[o], payload)]), pos + 1, [Delivery(o, g, payload)]))
  {
    var busy' := busy + {(o, GarbageCollect)};
    var r := Remove(w.objs[o], payload);
    var after := w.(objs := w.objs[o := r]);
    var run := Run(after, pos + 1, []);
    assert Gives(Call(w, Bundle, g, payload, oracle, pos, fuel, busy'), run);
    EmitInOne(w, Bundle, o, GarbageCollect, payload, oracle, pos, fuel, busy, g, run);
    var walk := Step(Walk(w, [], pos, []), o, g, payload, false, run);
    assert Advance(Pass([], r.data), g, false) == Pass([g], r.data);
    assert r.(data := r.data) == r;
    assert after.objs[o := r] == after.objs;
    assert walk == Walk(after, [g], pos + 1, [Delivery(o, g, payload)]);
    if GarbageCollect in r.lists {
      assert r.(lists := r.lists[GarbageCollect := [g]]) == r;
    }
  }

  /**
   * Source: the same emit calls `t.Remove`, which the source's `Message` does
   * not define, and throws, wherever the handler sits among application
   * callbacks: the callbacks before it run, and the emit stops there.
   */
  lemma CollectorThrowsInSource(w: World, o: ObjId, g: Cb, payload: Value, oracle: seq<bool>, pos: nat,
                                fuel: nat, busy: set<(ObjId, string)>)
    requires o in w.objs && fuel >= 1 && (o, GarbageCollect) !in busy
    requires g in Snapshot(w.objs[o], GarbageCollect)
    requires forall c | c in Snapshot(w.objs[o], GarbageCollect) && c != g :: c !in w.handlers
    requires g in w.handlers && w.handlers[g].Collector?
    ensures Throws(EmitIn(w, Source, o, GarbageCollect, payload, oracle, pos, fuel, busy), NotAFunction)
  {
    var busy' := busy + {(o, GarbageCollect)};
    var r := w.objs[o];
    var snap := Snapshot(r, GarbageCollect);
    assert snap == r.lists[GarbageCollect];
    var i := IndexOf(snap, g);
    CollectBefore(w, Source, o, g, payload, oracle, pos, fuel, busy');
    var p := Dispatch.Dispatch(snap, r.data, Around(Drop(oracle, pos), i, 0), i);
    var prev := Walk(WithData(w, o, p.data), p.kept, pos + i, Deliveries(o, snap[..i], payload));
    assert Throws(Call(prev.world, Source, g, payload, oracle, prev.pos, fuel, busy'), NotAFunction);
    assert Throws(Relayed(w, Source, o, payload, oracle, pos, fuel, busy', snap, i + 1), NotAFunction);
    FailureSticks(w, Source, o, payload, oracle, pos, fuel, busy', snap, i + 1, |snap|, NotAFunction);
  }

  /** Once a call has thrown, every longer prefix of the emit throws the same fault. */
  lemma {:induction false} FailureSticks(w: World, v: Variant, o: ObjId, payload: Value, oracle: seq<bool>, pos: nat,
                                         fuel: nat, busy: set<(ObjId, string)>, snap: seq<Cb>, j: nat, k: nat, f: Fault)
    requires j <= k <= |snap| && o in w.objs && fuel >= 1
    requires Throws(Relayed(w, v, o, payload, oracle, pos, fuel, busy, snap, j), f)
    ensures Throws(Relayed(w, v, o, payload, oracle, pos, fuel, busy, snap, k), f)
    decreases k
  {
    if k > j {
      FailureSticks(w, v, o, payload, oracle, pos, fuel, busy, snap, j, k - 1, f);
    }
  }

  /** The callbacks before the garbage-collect handler: entry `j` reads the oracle at `pos + j`. */
  lemma CollectBefore(w: World, v: Variant, o: ObjId, g: Cb, payload: Value, oracle: seq<bool>, pos: nat,
                      fuel: nat, busy: set<(ObjId, string)>)
    requires o in w.objs && fuel >= 1
    requires g in Snapshot(w.objs[o], GarbageCollect)
    requires forall c | c in Snapshot(w.objs[o], GarbageCollect) && c != g :: c !in w.handlers
    ensures var r := w.objs[o];
      var snap := Snapshot(r, GarbageCollect);
      var i := IndexOf(snap, g);
      var p := Dispatch.Dispatch(snap, r.data, Around(Drop(oracle, pos), i, 0), i);
      Gives(Relayed(w, v, o, payload, oracle, pos, fuel, busy, snap, i),
            Walk(WithData(w, o, p.data), p.kept, pos + i, Deliveries(o, snap[..i], payload)))
  {
    var r := w.objs[o];
    var snap := Snapshot(r, GarbageCollect);
    var i := IndexOf(snap, g);
    var rets := Around(Drop(oracle, pos), i, 0);
    forall j | 0 <= j < i
      ensures snap[j] !in w.handlers
    {
      assert snap[j] in snap && snap[j] != g;
    }
    forall j | 0 <= j < i
      ensures ReturnsTrue(oracle, pos + (j - 0)) == ReturnsTrue(rets, j)
    {
    }
    assert w.objs[o := r.(data := r.data)] == w.objs;
    assert WithData(w, o, r.data) == w;
    WalkOn(w, v, o, payload, oracle, pos, fuel, busy, snap, r.data, rets, w, 0, pos, [], i);
    assert snap[0..i] == snap[..i];
    assert [] + Deliveries(o, snap[0..i], payload) == Deliveries(o, snap[..i], payload);
  }

  /** Bundle: the handler's step runs `Remove(payload)` on `o`, and the handler itself does not return `true`. */
  lemma CollectStep(w: World, o: ObjId, g: Cb, payload: Value, oracle: seq<bool>, pos: nat,
                    fuel: nat, busy: set<(ObjId, string)>, snap: seq<Cb>, i: nat, p: Pass, calls: seq<Delivery>)
    requires o in w.objs && fuel >= 1 && i < |snap| && snap[i] == g
    requires g in w.handlers && w.handlers[g] == Collector(o)
    requires Gives(Relayed(w, Bundle, o, payload, oracle, pos, fuel, busy, snap, i),
                   Walk(WithData(w, o, p.data), p.kept, pos + i, calls))
    ensures var wr := w.(objs := w.objs[o := Remove(w.objs[o], payload)]);
      var q := Advance(p, g, false);
      Gives(Relayed(w, Bundle, o, payload, oracle, pos, fuel, busy, snap, i + 1),
            Walk(WithData(wr, o, q.data), q.kept, pos + i + 1, calls + [Delivery(o, g, payload)]))
  {
    var prev := Walk(WithData(w, o, p.data), p.kept, pos + i, calls);
    var run := Run(Collect(prev.world, o, payload), pos + i + 1, []);
    assert Gives(Call(prev.world, Bundle, g, payload, oracle, prev.pos, fuel, busy), run);
    RelayedStep(w, Bundle, o, payload, oracle, pos, fuel, busy, snap, i + 1, prev, run);
    RemoveIgnoresData(w.objs[o], p.data, payload);
    CollectStepWalk(w, o, g, payload, p, prev, run, Remove(w.objs[o], payload));
  }

  /** The walk after the handler's step: the registry `r1` it left, carrying the pass's policies. */
  lemma CollectStepWalk(w: World, o: ObjId, g: Cb, payload: Value, p: Pass, prev: Walk, run: Run, r1: Registry)
    requires o in w.objs
    requires prev.world == WithData(w, o, p.data) && prev.kept == p.kept
    requires run.world == prev.world.(objs := prev.world.objs[o := r1.(data := p.data)])
    ensures var q := Advance(p, g, false);
      Step(prev, o, g, payload, false, run)
        == Walk(WithData(w.(objs := w.objs[o := r1]), o, q.data), q.kept, run.pos, prev.calls + [Delivery(o, g, payload)] + run.calls)
  {
    var t := r1.(data := p.data);
    var q := Advance(p, g, false);
    assert run.world.objs == w.objs[o := t];
    assert Pass(prev.kept, t.data) == p;
    assert w.objs[o := t][o := t.(data := q.data)] == w.objs[o := r1][o := r1.(data := q.data)];
  }

  /** The callbacks after the handler: entry `j` still reads the oracle at `pos + j`. */
  lemma CollectAfter(w: World, o: ObjId, g: Cb, payload: Value, oracle: seq<bool>, pos: nat, fuel: nat,
                     busy: set<(ObjId, string)>, snap: seq<Cb>, data: map<Cb, Data>, W: World, i: nat, calls: seq<Delivery>)
    requires i < |snap| && snap[i] == g && o in w.objs && o in W.objs && fuel >= 1
    requires forall j | 0 <= j < |snap| && snap[j] == g :: j == i
    requires forall c | c in snap && c != g :: c !in W.handlers
    requires var q := Dispatch.Dispatch(snap, data, Around(Drop(oracle, pos), i, 0), i + 1);
      Gives(Relayed(w, Bundle, o, payload, oracle, pos, fuel, busy, snap, i + 1),
            Walk(WithData(W, o, q.data), q.kept, pos + i + 1, calls))
    ensures var p := Dispatch.Dispatch(snap, data, Around(Drop(oracle, pos), i, 0), |snap|);
      Gives(Relayed(w, Bundle, o, payload, oracle, pos, fuel, busy, snap, |snap|),
            Walk(WithData(W, o, p.data), p.kept, pos + |snap|, calls + Deliveries(o, snap[i + 1..], payload)))
  {
    var rets := Around(Drop(oracle, pos), i, 0);
    forall j | i + 1 <= j < |snap|
      ensures snap[j] !in W.handlers && ReturnsTrue(oracle, pos + i + 1 + (j - (i + 1))) == ReturnsTrue(rets, j)
    {
      assert snap[j] in snap;
    }
    WalkPast(w, o, payload, oracle, pos, fuel, busy, snap, data, rets, W, i, calls);
  }

  /** The rest of the pass over application callbacks, given the answers `rets` they read. */
  lemma WalkPast(w: World, o: ObjId, payload: Value, oracle: seq<bool>, pos: nat, fuel: nat,
                 busy: set<(ObjId, string)>, snap: seq<Cb>, data: map<Cb, Data>, rets: seq<bool>, W: World, i: nat, calls: seq<Delivery>)
    requires i < |snap| && o in w.objs && o in W.objs && fuel >= 1
    requires forall j | i + 1 <= j < |snap| :: snap[j] !in W.handlers
    requires forall j | i + 1 <= j < |snap| :: ReturnsTrue(oracle, pos + i + 1 + (j - (i + 1))) == ReturnsTrue(rets, j)
    requires var q := Dispatch.Dispatch(snap, data, rets, i + 1);
      Gives(Relayed(w, Bundle, o, payload, oracle, pos, fuel, busy, snap, i + 1),
            Walk(WithData(W, o, q.data), q.kept, pos + i + 1, calls))
    ensures var p := Dispatch.Dispatch(snap, data, rets, |snap|);
      Gives(Relayed(w, Bundle, o, payload, oracle, pos, fuel, busy, snap, |snap|),
            Walk(WithData(W, o, p.data), p.kept, pos + |snap|, calls + Deliveries(o, snap[i + 1..], payload)))
  {
    WalkOn(w, Bundle, o, payload, oracle, pos, fuel, busy, snap, data, rets, W, i + 1, pos + i + 1, calls, |snap|);
    assert snap[i + 1..|snap|] == snap[i + 1..];
  }

  /**
   * `o`'s registry after the garbage-collect event, when the handler runs
   * `Remove(payload)` part-way through the pass: `Remove`'s result, with the
   * pass's policies, and with the survivors written back unless `Remove`
   * deleted the array itself.
   */
  function Collected(r: Registry, payload: Value, rets: seq<bool>): Registry {
    var p := Deliver(Snapshot(r, GarbageCollect), r.data, rets);
    var r1 := Remove(r, payload);
    r1.(data := p.data, lists := if GarbageCollect in r1.lists then r1.lists[GarbageCollect := p.kept] else r1.lists)
  }

  /**
   * Bundle, with the handler anywhere among application callbacks: every
   * entry is called once, in order; application callbacks read the oracle
   * from `pos`; `o` ends as `Collected` says, and nothing else changes.
   */
  lemma CollectorRunsRemoveAmong(w: World, o: ObjId, g: Cb, payload: Value, oracle: seq<bool>, pos: nat,
                                 fuel: nat, busy: set<(ObjId, string)>)
    requires o in w.objs && fuel >= 1 && (o, GarbageCollect) !in busy
    requires multiset(Snapshot(w.objs[o], GarbageCollect))[g] == 1
    requires forall c | c in Snapshot(w.objs[o], GarbageCollect) && c != g :: c !in w.handlers
    requires g in w.handlers && w.handlers[g] == Collector(o)
    ensures var snap := Snapshot(w.objs[o], GarbageCollect);
      var rets := Around(Drop(oracle, pos), IndexOf(snap, g), 0);
      Gives(EmitIn(w, Bundle, o, GarbageCollect, payload, oracle, pos, fuel, busy),
            Run(w.(objs := w.objs[o := Collected(w.objs[o], payload, rets)]), pos + |snap|, Deliveries(o, snap, payload)))
  {
    var busy' := busy + {(o, GarbageCollect)};
    var r := w.objs[o];
    var snap := Snapshot(r, GarbageCollect);
    IndexOfOnly(snap, g);
    var i := IndexOf(snap, g);
    var rets := Around(Drop(oracle, pos), i, 0);
    var wr := w.(objs := w.objs[o := Remove(r, payload)]);
    CollectBefore(w, Bundle, o, g, payload, oracle, pos, fuel, busy');
    var p := Dispatch.Dispatch(snap, r.data, rets, i);
    var before := Deliveries(o, snap[..i], payload);
    CollectStep(w, o, g, payload, oracle, pos, fuel, busy', snap, i, p, before);
    assert Dispatch.Dispatch(snap, r.data, rets, i + 1) == Advance(p, g, false);
    var relayed := before + [Delivery(o, g, payload)];
    CollectAfter(w, o, g, payload, oracle, pos, fuel, busy', snap, r.data, wr, i, relayed);
    var pe := Dispatch.Dispatch(snap, r.data, rets, |snap|);
    var calls := relayed + Deliveries(o, snap[i + 1..], payload);
    var walk := Walk(WithData(wr, o, pe.data), pe.kept, pos + |snap|, calls);
    assert snap == r.lists[GarbageCollect];
    EmitInWalk(w, Bundle, o, GarbageCollect, payload, oracle, pos, fuel, busy, walk);
    var r1 := Remove(r, payload);
    assert Collected(r, payload, rets)
        == r1.(data := pe.data, lists := if GarbageCollect in r1.lists then r1.lists[GarbageCollect := pe.kept] else r1.lists);
    CollectFinishWorld(w, o, Remove(r, payload), pe, pos + |snap|, calls);
    DeliveriesAround(o, snap, i, payload);
  }

  /** The write-back at the end of the emit, over the registry `r1` the handler left. */
  lemma CollectFinishWorld(w: World, o: ObjId, r1: Registry, pe: Pass, n: nat, calls: seq<Delivery>)
    requires o in w.objs
    ensures var lists := if GarbageCollect in r1.lists then r1.lists[GarbageCollect := pe.kept] else r1.lists;
      Finish(Walk(WithData(w.(objs := w.objs[o := r1]), o, pe.data), pe.kept, n, calls), o, GarbageCollect)
        == Run(w.(objs := w.objs[o := r1.(data := pe.data, lists := lists)]), n, calls)
  {
    var r2 := r1.(data := pe.data);
    var lists := if GarbageCollect in r1.lists then r1.lists[GarbageCollect := pe.kept] else r1.lists;
    assert w.objs[o := r1][o := r2][o := r2.(lists := lists)] == w.objs[o := r2.(lists := lists)];
  }

  /** The deliveries over an array, split around entry `i`. */
  lemma DeliveriesAround(o: ObjId, snap: seq<Cb>, i: nat, payload: Value)
    requires i < |snap|
    ensures Deliveries(o, snap[..i], payload) + [Delivery(o, snap[i], payload)] + Deliveries(o, snap[i + 1..], payload)
            == Deliveries(o, snap, payload)
  {
    var a := Deliveries(o, snap[..i], payload);
    var b := Deliveries(o, snap[i + 1..], payload);
    var l := a + [Delivery(o, snap[i], payload)] + b;
    var r := Deliveries(o, snap, payload);
    forall j | 0 <= j < |r|
      ensures l[j] == r[j]
    {
      if j < i {
        assert l[j] == a[j];
      } else if j > i {
        assert l[j] == b[j - i - 1];
      }
    }
  }

  /**
   * The instance a first construction creates listens for garbage collection:
   * emitting it throws in the source and runs `Remove(payload)` in the bundle.
   */
  lemma ConstructedCollector(w: World, v: Variant, payload: Value, oracle: seq<bool>, fuel: nat)
    requires w.instance.None? && fuel >= 1
    ensures var (w1, m) := Construct(w, v).value;
      var res := WorldEmit(w1, v, m, GarbageCollect, payload, oracle, fuel);
      && (v == Source ==> res.Failure? && res.error == NotAFunction)
      && (v == Bundle ==> res.Success? && res.value.world == w1.(objs := w1.objs[m := Remove(w1.objs[m], payload)]))
  {
    var (w1, m) := Construct(w, v).value;
    var g := w1.objs[m].lists[GarbageCollect][0];
    assert Snapshot(w1.objs[m], GarbageCollect) == [g];
    if v == Source {
      CollectorThrowsInSource(w1, m, g, payload, oracle, 0, fuel, {});
    } else {
      CollectorRunsRemove(w1, m, g, payload, oracle, 0, fuel, {});
    }
  }

  /**
   * Bundle: a garbage-collect event with no payload leaves a fresh instance as
   * it was, since its only array's name does not start with "event.".
   */
  lemma FreshInstanceSurvivesSweep(w: World, oracle: seq<bool>, fuel: nat)
    requires w.instance.None? && fuel >= 1
    ensures var (w1, m) := Construct(w, Bundle).value;
      var res := WorldEmit(w1, Bundle, m, GarbageCollect, Undefined, oracle, fuel);
      res.Success? && res.value.world == w1
  {
    var (w1, m) := Construct(w, Bundle).value;
    ConstructedCollector(w, Bundle, Undefined, oracle, fuel);
    var r := w1.objs[m];
    assert GarbageCollect[0] != Prefix[0];
    assert !Doubled(r.lists, GarbageCollect);
    assert forall n | n in r.lists :: !Doubled(r.lists, n);
    assert Remove(r, Undefined) == r;
    assert w1.objs[m := r] == w1.objs;
    assert w1.(objs := w1.objs) == w1;
  }

  /**
   * Bundle: a garbage-collect event whose payload is the garbage-collect
   * event's own name deletes the collector's array, so the instance stops
   * listening for it.
   */
  lemma CollectorRemovesItself(w: World, oracle: seq<bool>, fuel: nat)
    requires w.instance.None? && fuel >= 1
    ensures var (w1, m) := Construct(w, Bundle).value;
      var res := WorldEmit(w1, Bundle, m, GarbageCollect, Text(GarbageCollect), oracle, fuel);
      && res.Success?
      && GarbageCollect !in res.value.world.objs[m].lists
  {
    ConstructedCollector(w, Bundle, Text(GarbageCollect), oracle, fuel);
  }

  /**
   * Source: a relay registered with an identifier is removed again by
   * `target.Off(name, identifier)`, leaving the target's array as it was.
   */
  lemma WatchThenOffById(w: World, m: ObjId, name: string, target: ObjId, id: string)
    requires Allocated(w) && target in w.objs && id != ""
    requires forall x | x in Snapshot(w.objs[target], name) :: DataOf(w.objs[target].data, x) != Str(id)
    ensures var w1 := Watch(w, Source, m, name, target, Some(id)).0;
      && Off(w1.objs[target], name, ById(id)).lists[name] == Snapshot(w.objs[target], name)
      && AgreeExcept(Off(w1.objs[target], name, ById(id)).lists, w.objs[target].lists, name)
  {
    OnThenOffById(w.objs[target], name, Closure(w.next), id);
  }

  /**
   * Bundle: `Watch` drops the identifier, so `target.Off(name, identifier)`
   * does not reach the relay.
   */
  lemma BundleWatchIgnoresIdentifier(w: World, m: ObjId, name: string, target: ObjId, id: string)
    requires target in w.objs && id != ""
    ensures var w1 := Watch(w, Bundle, m, name, target, Some(id)).0;
      Closure(w.next) in Off(w1.objs[target], name, ById(id)).lists[name]
  {
    var w1 := Watch(w, Bundle, m, name, target, Some(id)).0;
    assert Closure(w.next) in w1.objs[target].lists[name];
  }

  /** `Message.Instance()` twice gives the same object and leaves the world as the first call left it. */
  lemma InstanceIsStable(w: World, v: Variant)
    ensures var (w1, m) := Instance(w, v).value;
      Instance(w1, v).value == (w1, m)
  {
  }

  /**
   * After `Message.Instance()`, `new Message()` throws in the source; in the
   * bundle it returns a different object and the recorded instance stays.
   */
  lemma ConstructAfterInstance(w: World, v: Variant)
    requires Allocated(w)
    ensures var (w1, m) := Instance(w, v).value;
      var res := Construct(w1, v);
      && (v == Source ==> res.Failure? && res.error == SingletonViolation)
      && (v == Bundle ==> res.Success? && res.value.1 != m && res.value.0.instance == Some(m))
  {
    var (w1, m) := Instance(w, v).value;
    assert Allocated(w1);
    assert m in w1.objs;
  }
}
