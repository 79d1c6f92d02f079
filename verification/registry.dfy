/**
 * The listener registry an `Emitter` keeps on itself: one array per event
 * name (stored under the property key "event." + name), and a `data` policy
 * stored on each callback object. Registration (`On`) and removal (`Off`).
 */
module Registry {
  import opened Wrappers
  import opened Values

  /** A callback's identity: an application function, or a closure created by `Message`. */
  datatype Cb = Fn(id: nat) | Closure(id: nat)

  /** The third argument of `On`, kept as the callback's `data` property. */
  datatype Data = NoData | Num(n: int) | Bool(b: bool) | Str(s: string)

  /**
   * `lists`: the listener arrays by event name; `order`: the insertion order of
   * their property keys (what a `for ... in` over the instance visits);
   * `data`: each callback's policy.
   */
  datatype Registry = Registry(lists: map<string, seq<Cb>>, order: seq<string>, data: map<Cb, Data>)

  /** The second argument of `Off`: absent, a string identifier, or a function reference. */
  datatype Listener = Absent | ById(id: string) | ByRef(cb: Cb)

  /** The prefix of every listener array's property key. */
  const Prefix := "event."

  /** The name `On`, `Off` and `Emit` use when called without one: "event." + undefined. */
  const Unnamed := "undefined"

  const Empty := Registry(map[], [], map[])

  /** `callback.data`; a callback never registered has none. */
  function DataOf(data: map<Cb, Data>, cb: Cb): Data {
    if cb in data then data[cb] else NoData
  }

  /** The listener array for `name`, or nothing when there is none. */
  function Snapshot(r: Registry, name: string): seq<Cb> {
    if name in r.lists then r.lists[name] else []
  }

  ghost predicate Distinct(s: seq<string>) {
    forall i, j | 0 <= i < j < |s| :: s[i] != s[j]
  }

  /** `order` lists exactly the event names that have an array, each once. */
  ghost predicate Valid(r: Registry) {
    && (forall n :: n in r.lists <==> n in r.order)
    && Distinct(r.order)
  }

  /** Two listener maps agree on every name except `name`. */
  ghost predicate AgreeExcept(a: map<string, seq<Cb>>, b: map<string, seq<Cb>>, name: string) {
    forall n | n != name :: (n in a <==> n in b) && (n in a ==> a[n] == b[n])
  }

  /** `s` without the element `x`. */
  function Without(s: seq<string>, x: string): (r: seq<string>)
    ensures forall y :: y in r <==> y in s && y != x
    ensures Distinct(s) ==> Distinct(r)
    ensures |r| <= |s|
    decreases |s|
  {
    if |s| == 0 then []
    else
      var rest := Without(s[1..], x);
      if s[0] == x then rest
      else
        assert Distinct(s) ==> s[0] !in s[1..];
        [s[0]] + rest
  }

  /** `a` is `b` with some entries dropped and the rest kept in order. */
  predicate IsSubsequence(a: seq<Cb>, b: seq<Cb>)
    decreases |b|
  {
    if |a| == 0 then true
    else if |b| == 0 then false
    else if a[0] == b[0] then IsSubsequence(a[1..], b[1..])
    else IsSubsequence(a, b[1..])
  }

  /** Every entry of a subsequence is an entry of the whole. */
  lemma {:induction false} SubsequenceIn(a: seq<Cb>, b: seq<Cb>)
    requires IsSubsequence(a, b)
    ensures forall x | x in a :: x in b
    decreases |b|
  {
    if |a| > 0 {
      if a[0] == b[0] {
        SubsequenceIn(a[1..], b[1..]);
        forall x | x in a
          ensures x in b
        {
          if x != a[0] {
            assert x in a[1..];
            assert x in b[1..];
          }
        }
      } else {
        SubsequenceIn(a, b[1..]);
      }
    }
  }

  /**
   * `On(name, callback, data)`: without a callback nothing happens; otherwise
   * the array is created if missing, the callback is pushed at its end and
   * `data` overwrites the callback's policy (a second registration of the same
   * function shares, and resets, that one policy).
   */
  function On(r: Registry, name: string, callback: Option<Cb>, data: Data): (r': Registry)
    ensures callback.None? ==> r' == r
    ensures callback.Some? ==> name in r'.lists && r'.lists[name] == Snapshot(r, name) + [callback.value]
    ensures callback.Some? ==> DataOf(r'.data, callback.value) == data
    ensures forall c | callback != Some(c) :: DataOf(r'.data, c) == DataOf(r.data, c)
    ensures AgreeExcept(r'.lists, r.lists, name)
    ensures Valid(r) ==> Valid(r')
  {
    match callback
    case None => r
    case Some(c) =>
      var order := if name in r.lists then r.order else r.order + [name];
      Registry(r.lists[name := Snapshot(r, name) + [c]], order, r.data[c := data])
  }

  /** Whether `Off` treats `listener` as absent: `undefined` and the empty string are falsy. */
  predicate Falsy(listener: Listener) {
    listener.Absent? || listener == ById("")
  }

  /**
   * Whether `Off(name, listener)` removes `cb`: a string matches the callback's
   * `data`, anything else matches by reference.
   */
  predicate Matches(data: map<Cb, Data>, listener: Listener, cb: Cb) {
    match listener
    case Absent => false
    case ById(id) => DataOf(data, cb) == Str(id)
    case ByRef(f) => cb == f
  }

  /** The entries of `list` that `listener` does not match, in their original order. */
  function Retain(list: seq<Cb>, data: map<Cb, Data>, listener: Listener): seq<Cb>
    decreases |list|
  {
    if |list| == 0 then []
    else
      var rest := Retain(list[1..], data, listener);
      if Matches(data, listener, list[0]) then rest else [list[0]] + rest
  }

  /** `Off` removes every matching entry, and only those: each other callback keeps its multiplicity. */
  lemma {:induction false} RetainContents(list: seq<Cb>, data: map<Cb, Data>, listener: Listener)
    ensures forall c ::
      multiset(Retain(list, data, listener))[c] == if Matches(data, listener, c) then 0 else multiset(list)[c]
    decreases |list|
  {
    if |list| > 0 {
      RetainContents(list[1..], data, listener);
      assert list == [list[0]] + list[1..];
    }
  }

  /** Appending to the longer sequence keeps a subsequence a subsequence. */
  lemma {:induction false} ExtendRight(a: seq<Cb>, b: seq<Cb>, x: Cb)
    requires IsSubsequence(a, b)
    ensures IsSubsequence(a, b + [x])
    decreases |b|
  {
    if |a| > 0 {
      assert (b + [x])[1..] == b[1..] + [x];
      if a[0] == b[0] {
        ExtendRight(a[1..], b[1..], x);
      } else {
        ExtendRight(a, b[1..], x);
      }
    }
  }

  /** Appending the same entry to both sides keeps a subsequence a subsequence. */
  lemma {:induction false} ExtendBoth(a: seq<Cb>, b: seq<Cb>, x: Cb)
    requires IsSubsequence(a, b)
    ensures IsSubsequence(a + [x], b + [x])
    decreases |b|
  {
    if |b| > 0 {
      assert (b + [x])[1..] == b[1..] + [x];
      if |a| > 0 && a[0] == b[0] {
        assert (a + [x])[1..] == a[1..] + [x];
        ExtendBoth(a[1..], b[1..], x);
      } else if |a| == 0 {
        if b[0] != x {
          ExtendBoth(a, b[1..], x);
          assert a + [x] == [x];
        }
      } else {
        ExtendBoth(a, b[1..], x);
      }
    } else {
      assert a == [];
      assert IsSubsequence([x][1..], [x][1..]);
    }
  }

  /** The survivors of `Off` keep their relative order. */
  lemma {:induction false} RetainKeepsOrder(list: seq<Cb>, data: map<Cb, Data>, listener: Listener)
    ensures IsSubsequence(Retain(list, data, listener), list)
    decreases |list|
  {
    if |list| > 0 {
      RetainKeepsOrder(list[1..], data, listener);
      if Matches(data, listener, list[0]) {
        SkipHead(Retain(list[1..], data, listener), list);
      }
    }
  }

  lemma {:induction false} SkipHead(a: seq<Cb>, b: seq<Cb>)
    requires |b| > 0 && IsSubsequence(a, b[1..])
    ensures IsSubsequence(a, b)
    decreases |b|, 0
  {
    if |a| > 0 && a[0] == b[0] {
      DropFront(a, b[1..]);
    }
  }

  lemma {:induction false} DropFront(a: seq<Cb>, b: seq<Cb>)
    requires |a| > 0 && IsSubsequence(a, b)
    ensures IsSubsequence(a[1..], b)
    decreases |b|, 1
  {
    if |b| > 0 {
      if a[0] == b[0] {
        SkipHead(a[1..], b);
      } else {
        DropFront(a, b[1..]);
        SkipHead(a[1..], b);
      }
    }
  }

  /**
   * `Off(name, listener)`: no-op when there is no array for `name`; a falsy
   * listener deletes the array; otherwise every matching entry is removed.
   * The source compares against an undeclared `identifier`; this is the
   * evident intent, using the `listener` argument (`OffAsWritten` keeps the code).
   */
  function Off(r: Registry, name: string, listener: Listener): (r': Registry)
    ensures name !in r.lists ==> r' == r
    ensures name in r.lists && Falsy(listener) ==> name !in r'.lists
    ensures name in r.lists && !Falsy(listener) ==>
      && name in r'.lists
      && forall c :: c in r'.lists[name] <==> c in r.lists[name] && !Matches(r.data, listener, c)
    ensures name in r.lists && !Falsy(listener) ==> IsSubsequence(r'.lists[name], r.lists[name])
    ensures name in r.lists && !Falsy(listener) ==>
      forall c :: multiset(r'.lists[name])[c] == (if Matches(r.data, listener, c) then 0 else multiset(r.lists[name])[c])
    ensures AgreeExcept(r'.lists, r.lists, name)
    ensures r'.data == r.data
    ensures Valid(r) ==> Valid(r')
  {
    if name !in r.lists then r
    else if Falsy(listener) then Registry(r.lists - {name}, Without(r.order, name), r.data)
    else
      var kept := Retain(r.lists[name], r.data, listener);
      RetainKeepsOrder(r.lists[name], r.data, listener);
      RetainContents(r.lists[name], r.data, listener);
      assert forall c :: c in kept <==> multiset(kept)[c] > 0;
      Registry(r.lists[name := kept], r.order, r.data)
  }

  /**
   * `Off` as written: with a truthy listener its loop reads the undeclared
   * `identifier` on the first iteration, so a non-empty array makes it throw.
   */
  function OffAsWritten(r: Registry, name: string, listener: Listener): (res: Result<Registry, ScriptError>)
    ensures res.Success? ==> res.value == Off(r, name, listener)
    ensures name in r.lists && |r.lists[name]| > 0 && !Falsy(listener) <==> res.Failure?
  {
    if name !in r.lists then Success(r)
    else if Falsy(listener) then Success(Off(r, name, listener))
    else if |r.lists[name]| > 0 then Failure(ReferenceError)
    else
      assert Retain([], r.data, listener) == [];
      assert r.lists[name := []] == r.lists;
      Success(Off(r, name, listener))
  }

  /**
   * The `while (i--)` loop of `Off`: walks the array from the end and splices
   * out every matching entry; the result is the order-preserving filter `Retain`.
   */
  method Splice(list: seq<Cb>, data: map<Cb, Data>, listener: Listener) returns (callbacks: seq<Cb>)
    ensures callbacks == Retain(list, data, listener)
  {
    callbacks := list;
    var i := |list|;
    while i > 0
      invariant 0 <= i <= |list|
      invariant callbacks == list[..i] + Retain(list[i..], data, listener)
      decreases i
    {
      i := i - 1;
      SpliceStep(list, i, callbacks, data, listener);
      var callback := callbacks[i];
      if Matches(data, listener, callback) {
        callbacks := callbacks[..i] + callbacks[i + 1..];
      }
    }
    assert list[0..] == list;
  }

  /** One iteration of `Splice`: removing slot `i` or keeping it extends the filtered suffix by one. */
  lemma SpliceStep(list: seq<Cb>, i: nat, callbacks: seq<Cb>, data: map<Cb, Data>, listener: Listener)
    requires i < |list|
    requires callbacks == list[..i + 1] + Retain(list[i + 1..], data, listener)
    ensures i < |callbacks| && callbacks[i] == list[i]
    ensures (if Matches(data, listener, list[i]) then callbacks[..i] + callbacks[i + 1..] else callbacks)
      == list[..i] + Retain(list[i..], data, listener)
  {
    var rest := Retain(list[i + 1..], data, listener);
    assert list[..i + 1] == list[..i] + [list[i]];
    Cut(list[..i], list[i], rest);
    RetainStep(list, i, data, listener);
  }

  lemma Cut(front: seq<Cb>, x: Cb, rest: seq<Cb>)
    ensures (front + [x] + rest)[|front|] == x
    ensures (front + [x] + rest)[..|front|] + (front + [x] + rest)[|front| + 1..] == front + rest
  {
    var s := front + [x] + rest;
    assert s[..|front|] == front;
    assert s[|front| + 1..] == rest;
  }

  lemma RetainStep(list: seq<Cb>, i: nat, data: map<Cb, Data>, listener: Listener)
    requires i < |list|
    ensures Retain(list[i..], data, listener) ==
      (if Matches(data, listener, list[i]) then [] else [list[i]]) + Retain(list[i + 1..], data, listener)
  {
    assert list[i..][1..] == list[i + 1..];
  }

  /** Filtering a list none of whose entries match, followed by one that does, gives the list back. */
  lemma {:induction false} RetainDropsLast(s: seq<Cb>, c: Cb, data: map<Cb, Data>, listener: Listener)
    requires forall x | x in s :: !Matches(data, listener, x)
    requires Matches(data, listener, c)
    ensures Retain(s + [c], data, listener) == s
    decreases |s|
  {
    if |s| == 0 {
      assert Retain([c][1..], data, listener) == [];
    } else {
      assert (s + [c])[1..] == s[1..] + [c];
      RetainDropsLast(s[1..], c, data, listener);
      assert s == [s[0]] + s[1..];
    }
  }

  /**
   * Registering a callback under a fresh string identifier and then calling
   * `Off(name, identifier)` removes that registration and nothing else.
   */
  lemma OnThenOffById(r: Registry, name: string, cb: Cb, id: string)
    requires id != ""
    requires cb !in Snapshot(r, name)
    requires forall x | x in Snapshot(r, name) :: DataOf(r.data, x) != Str(id)
    ensures var r' := Off(On(r, name, Some(cb), Str(id)), name, ById(id));
      && r'.lists[name] == Snapshot(r, name)
      && AgreeExcept(r'.lists, r.lists, name)
      && forall c | c != cb :: DataOf(r'.data, c) == DataOf(r.data, c)
  {
    var on := On(r, name, Some(cb), Str(id));
    RetainDropsLast(Snapshot(r, name), cb, on.data, ById(id));
  }

  /** `Off(name, f)` after `On(name, f)` leaves no entry of `f` under `name`, and keeps every other entry. */
  lemma OnThenOffByRef(r: Registry, name: string, cb: Cb, data: Data)
    ensures var r' := Off(On(r, name, Some(cb), data), name, ByRef(cb));
      && cb !in r'.lists[name]
      && (forall c | c != cb :: multiset(r'.lists[name])[c] == multiset(Snapshot(r, name))[c])
      && AgreeExcept(r'.lists, r.lists, name)
  {
    var on := On(r, name, Some(cb), data);
    RetainContents(on.lists[name], on.data, ByRef(cb));
  }

  /**
   * `Off()` with no name looks up the array of the name "undefined": it is not
   * a reset, every other event keeps its listeners.
   */
  lemma OffWithoutNameKeepsOthers(r: Registry, name: string)
    requires name in r.lists && name != Unnamed
    ensures name in Off(r, Unnamed, Absent).lists
    ensures Off(r, Unnamed, Absent).lists[name] == r.lists[name]
  {
  }
}
