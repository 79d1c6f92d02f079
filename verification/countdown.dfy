/**
 * Repeated `Emit` calls on one event: how many times a listener fires under
 * each removal policy. Each emit consults its own oracle (see `Dispatch`).
 */
module Countdown {
  import opened Wrappers
  import opened Registry
  import opened Dispatch

  /** The registry after one `Emit(name)` per oracle, in order. */
  function EmitTimes(r: Registry, name: string, oracles: seq<seq<bool>>): Registry
    decreases |oracles|
  {
    if |oracles| == 0 then r else EmitTimes(EmitSpec(r, name, oracles[0]), name, oracles[1..])
  }

  /** How many times `cb` is invoked over those emits: once per entry of the array each emit starts from. */
  function Fired(r: Registry, name: string, cb: Cb, oracles: seq<seq<bool>>): nat
    decreases |oracles|
  {
    if |oracles| == 0 then 0
    else multiset(Snapshot(r, name))[cb] + Fired(EmitSpec(r, name, oracles[0]), name, cb, oracles[1..])
  }

  /** No call of `cb` returns exactly `true` during those emits. */
  ghost predicate NeverTrue(r: Registry, name: string, cb: Cb, oracles: seq<seq<bool>>)
    decreases |oracles|
  {
    |oracles| == 0 ||
    (&& (forall j | 0 <= j < |Snapshot(r, name)| && Snapshot(r, name)[j] == cb :: !ReturnsTrue(oracles[0], j))
     && NeverTrue(EmitSpec(r, name, oracles[0]), name, cb, oracles[1..]))
  }

  /** No call at all returns `true`. */
  ghost predicate Silent(oracles: seq<seq<bool>>) {
    forall e, j | 0 <= e < |oracles| && 0 <= j :: !ReturnsTrue(oracles[e], j)
  }

  function Min(a: int, b: int): int {
    if a < b then a else b
  }

  lemma {:induction false} SilentNeverTrue(r: Registry, name: string, cb: Cb, oracles: seq<seq<bool>>)
    requires Silent(oracles)
    ensures NeverTrue(r, name, cb, oracles)
    decreases |oracles|
  {
    if |oracles| > 0 {
      assert Silent(oracles[1..]) by {
        forall e, j | 0 <= e < |oracles[1..]| && 0 <= j
          ensures !ReturnsTrue(oracles[1..][e], j)
        {
          assert oracles[1..][e] == oracles[e + 1];
        }
      }
      SilentNeverTrue(EmitSpec(r, name, oracles[0]), name, cb, oracles[1..]);
    }
  }

  /** The position of an entry that occurs once. */
  lemma {:induction false} PositionOfOnly(s: seq<Cb>, cb: Cb) returns (j: nat)
    requires multiset(s)[cb] == 1
    ensures j < |s| && s[j] == cb
    ensures forall i | 0 <= i < |s| && i != j :: s[i] != cb
    decreases |s|
  {
    assert s == [s[0]] + s[1..];
    if s[0] == cb {
      j := 0;
      assert multiset(s[1..])[cb] == 0;
      forall i | 0 < i < |s|
        ensures s[i] != cb
      {
        assert s[i] == s[1..][i - 1];
      }
    } else {
      var j' := PositionOfOnly(s[1..], cb);
      j := j' + 1;
      forall i | 0 < i < |s| && i != j
        ensures s[i] != cb
      {
        assert s[i] == s[1..][i - 1];
      }
    }
  }

  /**
   * One emit with a callback registered once whose call returns `t`: afterwards
   * it is registered once or not at all, as the removal rules decide, and its
   * policy is the rules' updated one.
   */
  lemma EmitOnce(r: Registry, name: string, rets: seq<bool>, cb: Cb, t: bool)
    requires multiset(Snapshot(r, name))[cb] == 1
    requires forall j | 0 <= j < |Snapshot(r, name)| && Snapshot(r, name)[j] == cb :: ReturnsTrue(rets, j) == t
    ensures var v := Settle(DataOf(r.data, cb), t);
      && multiset(Snapshot(EmitSpec(r, name, rets), name))[cb] == (if v.keep then 1 else 0)
      && DataOf(EmitSpec(r, name, rets).data, cb) == v.after
  {
    var snap := Snapshot(r, name);
    var j := PositionOfOnly(snap, cb);
    DispatchOnce(snap, r.data, rets, |snap|, j);
  }

  /** A callback absent from the array is never invoked again: no emit puts it back. */
  lemma {:induction false} AbsentNeverFires(r: Registry, name: string, cb: Cb, oracles: seq<seq<bool>>)
    requires cb !in Snapshot(r, name)
    ensures Fired(r, name, cb, oracles) == 0
    ensures cb !in Snapshot(EmitTimes(r, name, oracles), name)
    decreases |oracles|
  {
    if |oracles| > 0 {
      var snap := Snapshot(r, name);
      assert snap[..|snap|] == snap;
      DispatchUntouched(snap, r.data, oracles[0], |snap|, cb);
      assert multiset(snap)[cb] == 0;
      AbsentNeverFires(EmitSpec(r, name, oracles[0]), name, cb, oracles[1..]);
    }
  }

  /**
   * `On(name, cb, n)` with n >= 1: a callback registered once with a count
   * fires on exactly the first n emits (fewer if there are fewer), provided its
   * calls do not return `true`.
   */
  lemma {:induction false} CountdownFires(r: Registry, name: string, cb: Cb, oracles: seq<seq<bool>>)
    requires multiset(Snapshot(r, name))[cb] == 1
    requires DataOf(r.data, cb).Num? && DataOf(r.data, cb).n >= 1
    requires NeverTrue(r, name, cb, oracles)
    ensures Fired(r, name, cb, oracles) == Min(DataOf(r.data, cb).n, |oracles|)
    decreases |oracles|
  {
    if |oracles| > 0 {
      var n := DataOf(r.data, cb).n;
      var r' := EmitSpec(r, name, oracles[0]);
      EmitOnce(r, name, oracles[0], cb, false);
      if n - 1 >= 1 {
        CountdownFires(r', name, cb, oracles[1..]);
      } else {
        AbsentNeverFires(r', name, cb, oracles[1..]);
      }
    }
  }

  /** `On(name, cb, true)`: the callback fires on the first emit only, whatever it returns. */
  lemma {:induction false} OneShotFiresOnce(r: Registry, name: string, cb: Cb, oracles: seq<seq<bool>>)
    requires multiset(Snapshot(r, name))[cb] == 1
    requires DataOf(r.data, cb) == Bool(true)
    ensures Fired(r, name, cb, oracles) == Min(1, |oracles|)
  {
    if |oracles| > 0 {
      var snap := Snapshot(r, name);
      OneShotRemoves(snap, r.data, oracles[0], |snap|, cb);
      AbsentNeverFires(EmitSpec(r, name, oracles[0]), name, cb, oracles[1..]);
    }
  }

  /**
   * A callback with no data, a string identifier or `false` whose calls never
   * return `true` fires on every emit and is still registered afterwards.
   */
  lemma {:induction false} PersistentFiresEvery(r: Registry, name: string, cb: Cb, oracles: seq<seq<bool>>)
    requires multiset(Snapshot(r, name))[cb] == 1
    requires Persistent(DataOf(r.data, cb))
    requires NeverTrue(r, name, cb, oracles)
    ensures Fired(r, name, cb, oracles) == |oracles|
    ensures multiset(Snapshot(EmitTimes(r, name, oracles), name))[cb] == 1
    decreases |oracles|
  {
    if |oracles| > 0 {
      EmitOnce(r, name, oracles[0], cb, false);
      PersistentFiresEvery(EmitSpec(r, name, oracles[0]), name, cb, oracles[1..]);
    }
  }

  /**
   * A callback whose calls on one emit all return `true` fires on that emit
   * (once per entry) and never again, whatever its policy.
   */
  lemma {:induction false} TrueStopsFiring(r: Registry, name: string, cb: Cb, oracles: seq<seq<bool>>)
    requires |oracles| > 0
    requires forall j | 0 <= j < |Snapshot(r, name)| && Snapshot(r, name)[j] == cb :: ReturnsTrue(oracles[0], j)
    ensures Fired(r, name, cb, oracles) == multiset(Snapshot(r, name))[cb]
    ensures DataOf(EmitSpec(r, name, oracles[0]).data, cb) == DataOf(r.data, cb)
  {
    var snap := Snapshot(r, name);
    TrueResultRemoves(snap, r.data, oracles[0], |snap|, cb);
    AbsentNeverFires(EmitSpec(r, name, oracles[0]), name, cb, oracles[1..]);
  }

  /** The worked example: `On('test.event', cb, 3)` on a fresh emitter, then four emits, fires `cb` three times. */
  lemma CountThreeOverFourEmits(cb: Cb, oracles: seq<seq<bool>>)
    requires |oracles| == 4 && Silent(oracles)
    ensures Fired(On(Empty, "test.event", Some(cb), Num(3)), "test.event", cb, oracles) == 3
  {
    var r := On(Empty, "test.event", Some(cb), Num(3));
    assert Snapshot(r, "test.event") == [cb];
    SilentNeverTrue(r, "test.event", cb, oracles);
    CountdownFires(r, "test.event", cb, oracles);
  }

  /**
   * A listener without a policy whose first call returns `false` and second
   * returns `true` is called twice over three emits: the second call removes it.
   */
  lemma FalseThenTrueFiresTwice(cb: Cb, third: seq<bool>)
    ensures Fired(On(Empty, "x", Some(cb), NoData), "x", cb, [[false], [true], third]) == 2
    ensures cb !in Snapshot(EmitTimes(On(Empty, "x", Some(cb), NoData), "x", [[false], [true], third]), "x")
  {
    var r := On(Empty, "x", Some(cb), NoData);
    var oracles := [[false], [true], third];
    assert Snapshot(r, "x") == [cb];
    EmitOnce(r, "x", [false], cb, false);
    var r1 := EmitSpec(r, "x", [false]);
    EmitOnce(r1, "x", [true], cb, true);
    var r2 := EmitSpec(r1, "x", [true]);
    assert oracles[1..][1..] == [third];
    AbsentNeverFires(r2, "x", cb, [third]);
  }

  /** `On(name, cb, 1)`: the callback fires on the first emit only, whatever it returns. */
  lemma CountOneFiresOnce(r: Registry, name: string, cb: Cb, oracles: seq<seq<bool>>)
    requires multiset(Snapshot(r, name))[cb] == 1
    requires DataOf(r.data, cb) == Num(1)
    ensures Fired(r, name, cb, oracles) == Min(1, |oracles|)
  {
    if |oracles| > 0 {
      var j := PositionOfOnly(Snapshot(r, name), cb);
      EmitOnce(r, name, oracles[0], cb, ReturnsTrue(oracles[0], j));
      var next := EmitSpec(r, name, oracles[0]);
      assert cb !in Snapshot(next, name) by {
        assert multiset(Snapshot(next, name))[cb] == 0;
      }
      AbsentNeverFires(next, name, cb, oracles[1..]);
    }
  }

  /**
   * `On(name, cb, true)` and `On(name, cb, 1)` fire equally often, whatever the
   * calls return: either way the first call removes the entry.
   */
  lemma OneShotMatchesCountOne(r: Registry, name: string, cb: Cb, oracles: seq<seq<bool>>)
    requires multiset(Snapshot(r, name))[cb] == 0
    ensures Fired(On(r, name, Some(cb), Bool(true)), name, cb, oracles)
         == Fired(On(r, name, Some(cb), Num(1)), name, cb, oracles)
         == Min(1, |oracles|)
  {
    var one := On(r, name, Some(cb), Num(1));
    var shot := On(r, name, Some(cb), Bool(true));
    assert multiset(Snapshot(one, name))[cb] == 1;
    assert multiset(Snapshot(shot, name))[cb] == 1;
    OneShotFiresOnce(shot, name, cb, oracles);
    CountOneFiresOnce(one, name, cb, oracles);
  }
}
