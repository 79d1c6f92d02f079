/**
 * `Emitter.Emit`: one pass over the listener array of an event, invoking each
 * listener with the payload and splicing out the ones whose policy says so.
 *
 * Callbacks are opaque. What the model needs from a call is whether it
 * returned exactly `true`; that comes from an oracle `rets`, one answer per
 * invocation of this pass (a missing answer means "did not return true").
 * Listeners that call back into the same emitter are not modelled.
 */
module Dispatch {
  import opened Values
  import opened Registry

  /** One call `callback(payload)`. */
  datatype Invocation = Invocation(cb: Cb, payload: Value)

  /** What the policy decides after one call: keep the entry, and the callback's `data` afterwards. */
  datatype Verdict = Verdict(keep: bool, after: Data)

  /** The state of a pass: the entries kept so far and the policies as they stand. */
  datatype Pass = Pass(kept: seq<Cb>, data: map<Cb, Data>)

  /** Whether invocation `j` of the pass returned exactly `true`. */
  predicate ReturnsTrue(rets: seq<bool>, j: nat) {
    j < |rets| && rets[j]
  }

  /**
   * The removal rules for one call: a `true` result removes the entry and
   * skips the policy; a number is decremented and removes the entry once below
   * 1; boolean `true` removes it; anything else keeps it.
   */
  function Settle(d: Data, returnedTrue: bool): Verdict {
    if returnedTrue then Verdict(false, d)
    else
      match d
      case Num(n) => Verdict(n - 1 >= 1, Num(n - 1))
      case Bool(b) => Verdict(!b, d)
      case _ => Verdict(true, d)
  }

  /** The pass after invoking `cb`: its entry is kept or dropped and its policy updated. */
  function Advance(p: Pass, cb: Cb, returnedTrue: bool): Pass {
    var v := Settle(DataOf(p.data, cb), returnedTrue);
    Pass(
      if v.keep then p.kept + [cb] else p.kept,
      if v.after == DataOf(p.data, cb) then p.data else p.data[cb := v.after])
  }

  /** The pass after the first `k` entries of the array `snap` the emit started from. */
  function Dispatch(snap: seq<Cb>, data: map<Cb, Data>, rets: seq<bool>, k: nat): Pass
    requires k <= |snap|
    decreases k
  {
    if k == 0 then Pass([], data)
    else Advance(Dispatch(snap, data, rets, k - 1), snap[k - 1], ReturnsTrue(rets, k - 1))
  }

  /** The completed pass over `snap`. */
  function Deliver(snap: seq<Cb>, data: map<Cb, Data>, rets: seq<bool>): Pass {
    Dispatch(snap, data, rets, |snap|)
  }

  /** Every entry of `snap` invoked once, in order, with `payload`. */
  function Invocations(snap: seq<Cb>, payload: Value): (calls: seq<Invocation>)
    ensures |calls| == |snap|
    ensures forall j | 0 <= j < |snap| :: calls[j] == Invocation(snap[j], payload)
  {
    seq(|snap|, j requires 0 <= j < |snap| => Invocation(snap[j], payload))
  }

  /**
   * The registry after `Emit(name, payload)`. With no array, or an empty one,
   * nothing changes; otherwise only the array for `name` and the policies change.
   */
  function EmitSpec(r: Registry, name: string, rets: seq<bool>): (r': Registry)
    ensures name !in r.lists || |r.lists[name]| == 0 ==> r' == r
    ensures r'.lists.Keys == r.lists.Keys && r'.order == r.order
    ensures AgreeExcept(r'.lists, r.lists, name)
    ensures Valid(r) ==> Valid(r')
  {
    if name !in r.lists || |r.lists[name]| == 0 then r
    else
      var p := Deliver(r.lists[name], r.data, rets);
      Registry(r.lists[name := p.kept], r.order, p.data)
  }

  /**
   * The dispatch loop as written: `i` and `l` walk the live array, and a removal
   * splices slot `i` out and shortens `l` without advancing `i`, so the next
   * listener moves into the slot that is visited next. The three places where
   * the loop splices are gathered into one, chosen by `remove`.
   */
  method Emit(r: Registry, name: string, payload: Value, rets: seq<bool>)
    returns (r': Registry, calls: seq<Invocation>)
    ensures r' == EmitSpec(r, name, rets)
    ensures calls == Invocations(Snapshot(r, name), payload)
  {
    calls := [];
    if name !in r.lists || |r.lists[name]| == 0 {
      return r, calls;
    }
    var callbacks := r.lists[name];
    ghost var snap := callbacks;
    var data := r.data;
    var i := 0;
    var l := |callbacks|;
    while i < l
      invariant 0 <= i <= l == |callbacks|
      invariant |calls| <= |snap|
      invariant callbacks[i..] == snap[|calls|..]
      invariant Dispatch(snap, r.data, rets, |calls|) == Pass(callbacks[..i], data)
      invariant forall j | 0 <= j < |calls| :: calls[j] == Invocation(snap[j], payload)
      decreases l - i
    {
      var callback := callbacks[i];
      var returnedTrue := ReturnsTrue(rets, |calls|);
      ghost var next := Advance(Pass(callbacks[..i], data), callback, returnedTrue);
      SliceStep(callbacks, i, snap, |calls|);
      assert Dispatch(snap, r.data, rets, |calls| + 1) == next;
      calls := calls + [Invocation(callback, payload)];
      var remove := returnedTrue;
      if !returnedTrue {
        match DataOf(data, callback)
        case Num(n) =>
          data := data[callback := Num(n - 1)];
          remove := n - 1 < 1;
        case Bool(b) =>
          remove := b;
        case _ =>
      }
      assert next == Pass(if remove then callbacks[..i] else callbacks[..i] + [callback], data);
      if remove {
        callbacks := callbacks[..i] + callbacks[i + 1..];
        l := l - 1;
      } else {
        i := i + 1;
      }
      assert next == Pass(callbacks[..i], data);
    }
    assert |snap[|calls|..]| == 0;
    assert |calls| == |snap|;
    assert callbacks[..i] == callbacks;
    r' := Registry(r.lists[name := callbacks], r.order, data);
  }

  /** The slices the loop of `Emit` relies on when it keeps or splices out slot `i`. */
  lemma SliceStep(callbacks: seq<Cb>, i: nat, snap: seq<Cb>, c: nat)
    requires i < |callbacks| && c <= |snap| && callbacks[i..] == snap[c..]
    ensures c < |snap| && callbacks[i] == snap[c]
    ensures snap[..c + 1] == snap[..c] + [snap[c]]
    ensures callbacks[..i + 1] == callbacks[..i] + [callbacks[i]]
    ensures callbacks[i + 1..] == snap[c + 1..]
    ensures (callbacks[..i] + callbacks[i + 1..])[..i] == callbacks[..i]
    ensures (callbacks[..i] + callbacks[i + 1..])[i..] == snap[c + 1..]
  {
    assert callbacks[i..][0] == snap[c..][0];
    assert callbacks[i + 1..] == callbacks[i..][1..];
    assert snap[c + 1..] == snap[c..][1..];
  }

  /** Survivors of a pass keep their relative order. */
  lemma {:induction false} DispatchKeepsOrder(snap: seq<Cb>, data: map<Cb, Data>, rets: seq<bool>, k: nat)
    requires k <= |snap|
    ensures IsSubsequence(Dispatch(snap, data, rets, k).kept, snap[..k])
    decreases k
  {
    if k > 0 {
      var p := Dispatch(snap, data, rets, k - 1);
      DispatchKeepsOrder(snap, data, rets, k - 1);
      assert snap[..k] == snap[..k - 1] + [snap[k - 1]];
      if Settle(DataOf(p.data, snap[k - 1]), ReturnsTrue(rets, k - 1)).keep {
        ExtendBoth(p.kept, snap[..k - 1], snap[k - 1]);
      } else {
        ExtendRight(p.kept, snap[..k - 1], snap[k - 1]);
      }
    }
  }

  /** A pass over the first `k` entries reads only the first `k` answers. */
  lemma {:induction false} DispatchReadsPrefix(snap: seq<Cb>, data: map<Cb, Data>, a: seq<bool>, b: seq<bool>, k: nat)
    requires k <= |snap|
    requires forall j | 0 <= j < k :: ReturnsTrue(a, j) == ReturnsTrue(b, j)
    ensures Dispatch(snap, data, a, k) == Dispatch(snap, data, b, k)
    decreases k
  {
    if k > 0 {
      DispatchReadsPrefix(snap, data, a, b, k - 1);
    }
  }

  /** A callback the pass has not reached is neither kept nor has its policy touched. */
  lemma {:induction false} DispatchUntouched(snap: seq<Cb>, data: map<Cb, Data>, rets: seq<bool>, k: nat, cb: Cb)
    requires k <= |snap| && cb !in snap[..k]
    ensures cb !in Dispatch(snap, data, rets, k).kept
    ensures DataOf(Dispatch(snap, data, rets, k).data, cb) == DataOf(data, cb)
    decreases k
  {
    if k > 0 {
      assert snap[..k] == snap[..k - 1] + [snap[k - 1]];
      DispatchUntouched(snap, data, rets, k - 1, cb);
    }
  }

  /**
   * A callback registered once in the array is invoked once (as invocation `j`),
   * and afterwards its entry and policy are exactly what the removal rules say
   * for that one call; the other entries of the array do not interfere.
   */
  lemma {:induction false} DispatchOnce(snap: seq<Cb>, data: map<Cb, Data>, rets: seq<bool>, k: nat, j: nat)
    requires k <= |snap| && j < |snap|
    requires forall i | 0 <= i < |snap| && i != j :: snap[i] != snap[j]
    ensures var p := Dispatch(snap, data, rets, k);
      var v := Settle(DataOf(data, snap[j]), ReturnsTrue(rets, j));
      && multiset(p.kept)[snap[j]] == (if k <= j || !v.keep then 0 else 1)
      && DataOf(p.data, snap[j]) == (if k <= j then DataOf(data, snap[j]) else v.after)
    decreases k
  {
    if k > 0 {
      DispatchOnce(snap, data, rets, k - 1, j);
    }
  }

  /** If every call of `cb` returns exactly `true`, the pass drops all its entries and leaves its policy alone. */
  lemma {:induction false} TrueResultRemoves(snap: seq<Cb>, data: map<Cb, Data>, rets: seq<bool>, k: nat, cb: Cb)
    requires k <= |snap|
    requires forall j | 0 <= j < |snap| && snap[j] == cb :: ReturnsTrue(rets, j)
    ensures cb !in Dispatch(snap, data, rets, k).kept
    ensures DataOf(Dispatch(snap, data, rets, k).data, cb) == DataOf(data, cb)
    decreases k
  {
    if k > 0 {
      TrueResultRemoves(snap, data, rets, k - 1, cb);
    }
  }

  /** Boolean `true` data drops every entry of the callback after its call, whatever it returns. */
  lemma {:induction false} OneShotRemoves(snap: seq<Cb>, data: map<Cb, Data>, rets: seq<bool>, k: nat, cb: Cb)
    requires k <= |snap| && DataOf(data, cb) == Bool(true)
    ensures cb !in Dispatch(snap, data, rets, k).kept
    ensures DataOf(Dispatch(snap, data, rets, k).data, cb) == Bool(true)
    decreases k
  {
    if k > 0 {
      OneShotRemoves(snap, data, rets, k - 1, cb);
    }
  }

  /** The policies under which a listener is never removed automatically: absent, a string, or `false`. */
  predicate Persistent(d: Data) {
    d.NoData? || d.Str? || d == Bool(false)
  }

  /**
   * A callback with a persistent policy whose calls never return `true` keeps
   * every one of its entries, and its policy does not change.
   */
  lemma {:induction false} PersistentKept(snap: seq<Cb>, data: map<Cb, Data>, rets: seq<bool>, k: nat, cb: Cb)
    requires k <= |snap| && Persistent(DataOf(data, cb))
    requires forall j | 0 <= j < |snap| && snap[j] == cb :: !ReturnsTrue(rets, j)
    ensures multiset(Dispatch(snap, data, rets, k).kept)[cb] == multiset(snap[..k])[cb]
    ensures DataOf(Dispatch(snap, data, rets, k).data, cb) == DataOf(data, cb)
    decreases k
  {
    if k > 0 {
      PersistentKept(snap, data, rets, k - 1, cb);
      assert snap[..k] == snap[..k - 1] + [snap[k - 1]];
      var p := Dispatch(snap, data, rets, k - 1);
      var q := Advance(p, snap[k - 1], ReturnsTrue(rets, k - 1));
      assert Dispatch(snap, data, rets, k) == q;
      assert multiset(snap[..k]) == multiset(snap[..k - 1]) + multiset{snap[k - 1]};
      if snap[k - 1] == cb {
        assert Settle(DataOf(p.data, cb), ReturnsTrue(rets, k - 1)) == Verdict(true, DataOf(p.data, cb));
        assert q == Pass(p.kept + [cb], p.data);
        assert multiset(p.kept + [cb]) == multiset(p.kept) + multiset{cb};
      } else {
        assert DataOf(q.data, cb) == DataOf(p.data, cb);
        assert multiset(q.kept)[cb] == multiset(p.kept)[cb];
      }
    }
  }
}
