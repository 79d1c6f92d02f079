# emitter — a Dafny model of the listener registry and the `Message` singleton

The library gives every `Emitter` object a listener registry kept on the
object itself: one array of callbacks per event, stored under the property
key `"event." + name`, and a removal policy stored as the `data` property of
each callback function. `On` registers, `Emit` calls every listener once and
splices out the ones whose policy says so, `Off` removes a whole array or the
matching entries. `Set` copies configuration properties onto the object,
coercing each value to the type the property already has. `Message` is an
`Emitter` meant to exist once per process: a constructor guard, a static
`Instance()` accessor, a `Watch` relay that re-emits another object's event on
the message, a garbage-collect listener, and, in the compiled bundle only,
`Remove`.

Both copies of the code are modelled: `src/` (the ES source) and
`publish/emitter.js` (the compiled bundle). Their `Emitter` parts behave the
same and share one model. Their `Message` parts differ, and the world model
takes a `Variant` (`Source` or `Bundle`):

- on a second construction the source throws, while the bundle logs, returns
  a bare object and keeps the recorded instance;
- the source's `Watch` passes an identifier on as the relay's `data`; the
  bundle's takes none;
- only the bundle defines `Remove`, so in the source the garbage-collect
  handler throws when called.

Modules, one per file:

- `Wrappers` (`wrappers.dfy`): `Option` and `Result`.
- `Values` (`values.dfy`): JavaScript values as payloads and property values,
  truthiness, and `String(v)`.
- `Properties` (`properties.dfy`): `Set` and its coercion.
- `Registry` (`registry.dfy`): the registry, `On`, `Off`, and the `Off` loop
  as written (`Splice`).
- `Dispatch` (`dispatch.dfy`): `Emit` as the index/length splice loop
  (`Emit`), proved equal to a fold over the array the emit starts from
  (`EmitSpec`), and the removal rules.
- `Countdown` (`countdown.dfy`): repeated emits, and how often a listener
  fires under each policy.
- `Message` (`message.dfy`): a world of emitter objects, the singleton
  lifecycle, `Watch`, `Remove`, and an emit that runs the closures `Message`
  creates.
- `Closures` (`closures.dfy`): what those closures do when an emit reaches them.

Callbacks written by the application are opaque. Each call's outcome comes
from an oracle, a `seq<bool>` with one answer per call, read in call order.
An answer means "returned exactly `true`"; a missing answer means it did not.
The closures created by `Message` are not opaque: the model knows what a
relay and the garbage-collect handler do.

## Model

| member | source | states |
|---|---|---|
| Properties.Set | src/Emitter.js:23-50 | Falsy `props` leave the object as it is. Otherwise the keys afterwards are the old keys plus the keys of `props` whose value is not `undefined`. Each such key holds the incoming value coerced against its current value, and every other key keeps its value. The bundle's `Set` (publish/emitter.js:40-72) is the same code. |
| Properties.SetAsWritten | src/Emitter.js:33-36 | As written, the number branch reads an undeclared `param`. `Set` throws exactly when an assigned key currently holds a number; otherwise it gives the intended result. |
| Properties.BooleanCoercion | src/Emitter.js:37-40 | A key holding a boolean becomes `true` exactly when the incoming value is the string "true" or "1", and `false` for anything else. |
| Properties.SetTextIdempotent | src/Emitter.js:30-47 | Applying props made only of strings twice gives the same object as applying them once. |
| Properties.BooleanNotIdempotent | src/Emitter.js:37-44 | A boolean assigned to a new key is stored unchanged, but a second identical `Set` coerces it against the now-boolean key and turns `true` into `false`. |
| Properties.NumberBranchThrows | src/Emitter.test.js:23-45 | On the test's input (`a` holds 0, incoming "1") the code as written throws. The intended `Set` stores 1 when the parser reads "1" as 1. |
| Registry.On | src/Emitter.js:116-134 | Without a callback nothing changes. Otherwise the event's array is the old array, or an empty one, with the callback appended at the end. The callback's policy becomes the given data and every other policy is kept. No other event's array changes, and key order stays consistent. The bundle's `On` (publish/emitter.js:147-165) is the same code. |
| Registry.Off | src/Emitter.js:144-184 | An event with no array is a no-op. A falsy listener (absent or the empty string) deletes the array. Otherwise an entry survives iff the listener does not match it: a string matches on `data`, anything else by reference. Every non-matching callback keeps all its entries, and survivors keep their order. Other events and all policies are unchanged. The bundle's `Off` (publish/emitter.js:178-220) is the same code. |
| Registry.OffAsWritten | src/Emitter.js:158-181 | As written, the loop compares against an undeclared `identifier`. It throws exactly when the array exists, is non-empty and the listener is truthy; otherwise it gives the intended result. |
| Registry.Splice | src/Emitter.js:158-181 | The backward `while (i--)` loop with in-place `splice(i, 1)` leaves exactly the order-preserving filter of the entries the listener does not match. |
| Registry.RetainContents | src/Emitter.js:164-178 | The filter keeps every non-matching entry as often as it occurred and drops every matching one. |
| Registry.RetainKeepsOrder | src/Emitter.js:158-181 | The filter's result is a subsequence of the array. |
| Registry.OnThenOffById | src/Emitter.test.js:97-107 | `Off(name, id)` removes a fresh registration made with a fresh identifier, restores the earlier array and leaves other events alone. |
| Registry.OnThenOffByRef | src/Emitter.test.js:138-151 | `Off(name, f)` after `On(name, f)` leaves no entry of `f`, and every other callback keeps its number of entries. |
| Registry.OffWithoutNameKeepsOthers | src/Emitter.js:147-156 | `Off()` with no arguments only deletes the array of the event named "undefined". Every other event keeps its listeners. |
| Dispatch.EmitSpec | src/Emitter.js:64-66 | No array, or an empty one, leaves the registry unchanged. Otherwise only the event's array and the policies change, and key order is kept. |
| Dispatch.Emit | src/Emitter.js:60-104 | The `++i < l` loop with `splice(i--, 1)` and `l--` calls each listener of the starting array exactly once, in order, with the payload. It ends with the registry that folding the removal rules over that array gives. The bundle's `Emit` (publish/emitter.js:85-132) is the same loop. |
| Dispatch.DispatchReadsPrefix | src/Emitter.js:73-80 | The outcome of the first k calls of an emit depends only on what those k calls return, not on later answers. |
| Dispatch.DispatchKeepsOrder | src/Emitter.js:73-101 | The listeners that survive an emit keep their relative order. |
| Dispatch.DispatchUntouched | src/Emitter.js:73-101 | A callback the emit never reaches is not kept by it, and its policy is untouched. |
| Dispatch.DispatchOnce | src/Emitter.js:76-98 | A callback registered once is called once. Afterwards its entry and policy are exactly what the rules decide for that call, whatever the other entries do. |
| Dispatch.TrueResultRemoves | src/Emitter.js:76-80 | A listener whose calls return exactly `true` is removed, and its numeric count is not decremented. |
| Dispatch.OneShotRemoves | src/Emitter.js:92-98 | Boolean `true` data removes the listener after its call, whatever the call returns. |
| Dispatch.PersistentKept | src/Emitter.js:82-98 | With absent, string or `false` data, and no `true` result, every entry is kept and the policy is unchanged. |
| Countdown.EmitOnce | src/Emitter.js:76-98 | Over one emit, a callback registered once is kept or dropped and has its policy updated exactly as the rules say for its call. |
| Countdown.AbsentNeverFires | src/Emitter.js:62-73 | A callback missing from the array is never called by later emits and never comes back. |
| Countdown.CountdownFires | src/Emitter.js:82-90 | A listener registered once with count n >= 1, whose calls never return `true`, fires on exactly min(n, k) of k emits. |
| Countdown.OneShotFiresOnce | src/Emitter.test.js:165-175 | Data `true` makes a listener fire on the first of any number of emits only. |
| Countdown.PersistentFiresEvery | src/Emitter.js:92-98 | Absent, string or `false` data, with no `true` result, makes a listener fire on every emit and stay registered. |
| Countdown.TrueStopsFiring | src/Emitter.test.js:57-71 | Once every call of a listener on one emit returns `true`, it fires on no later emit, and its policy was not touched. |
| Countdown.CountThreeOverFourEmits | src/Emitter.test.js:177-188 | The test's scenario: `On('test.event', cb, 3)` on a new emitter and then four emits whose calls never return `true` call `cb` three times. |
| Countdown.FalseThenTrueFiresTwice | src/Emitter.test.js:57-71 | The test's scenario: a call returning `false` and then one returning `true` give two calls over three emits, and the listener ends up removed. |
| Countdown.CountOneFiresOnce | src/Emitter.js:82-90 | A listener registered once with data `1` fires on the first of any number of emits only, whatever its calls return. |
| Countdown.OneShotMatchesCountOne | src/Emitter.test.js:153-175 | Data `true` and data `1` fire equally often, whatever the calls return: once, on the first emit, and never without an emit. |
| Message.Construct | src/Message.js:25-39 | With no recorded instance, a new object is recorded with exactly one listener, on "message.garbagecollect", and that listener is a garbage-collect handler with no data. With an instance recorded, the source fails and the recorded instance stays, while the bundle (publish/emitter.js:269-289) returns a new bare object with no listener. |
| Message.Instance | src/Message.js:49-51 | `Instance()` never throws. It returns the recorded instance when there is one and leaves the world unchanged. With no instance it is `new Message()`: it constructs one, records it and registers its garbage-collect handler. Either way the object it returns is the recorded instance afterwards. The bundle's `Instance()` (publish/emitter.js:350-352) is the same code. |
| Message.Watch | src/Message.js:62-68 | Exactly one new relay, re-emitting `name` on the message, is appended to the target's array for `name`. Its data is the identifier in the source and absent in the bundle. No other object or array changes. The bundle's `Watch` (publish/emitter.js:313-321) takes no identifier. |
| Message.NewEmitter | src/Emitter.js:11-13 | A new emitter is a new object with no listeners. |
| Message.Remove | publish/emitter.js:333-347 | A truthy name is `Off(name)`. Otherwise only arrays whose own name starts with "event." (followed by an existing event name) can be deleted. Surviving arrays and all policies are unchanged, and a registry without such names is unchanged. |
| Message.RemoveAllDeletes | publish/emitter.js:340-344 | `Remove()` does delete the array of "event." + n for every event n that has an array and whose own name is not of that doubled form. |
| Message.SweepShrinks | publish/emitter.js:340-344 | The key loop only deletes doubled names and changes nothing else. |
| Message.SweepDeletes | publish/emitter.js:340-344 | The key loop deletes "event." + n once it reaches n. |
| Message.EmitIn | src/Emitter.js:60-104 | An emit with the closures it runs keeps the set of objects, the created closures, the recorded instance and the allocation counter. |
| Closures.UserEmitAgrees | src/Emitter.js:60-104 | In the world model, an emit whose listeners are all application callbacks is `Emitter.Emit`. Only that object's registry changes, exactly as `EmitSpec` says, and every listener is called once, in order. |
| Closures.WatchThenEmit | src/Message.js:62-68 | After `Watch(name, target)`, when the target's listeners for `name` and the message's listeners for `name` are application callbacks, `target.Emit(name, p)` first calls the target's listeners in order, then the new relay, then every listener the message has for `name`, all with `p`. The target's registry goes through one emit over the answers of its own listeners, and the message's through one emit over the answers that follow. |
| Closures.WatchReady | src/Message.js:62-68 | `Watch` appends exactly one relay after the target's own listeners, with a policy that never removes it, and leaves the message's registry alone. |
| Closures.RelayLastEmit | src/Message.js:65 | When the relay is the target's last entry, an emit calls the target's callbacks, then the relay, then the message's listeners, and nothing after. The target's pass reads only the answers of its own callbacks. |
| Closures.WatchedEmitterReachesMessage | src/Message.test.js:15-25 | The test's scenario: a new emitter watched by the message delivers its emit to the relay and then to every listener the message has for that event. |
| Closures.RelayNextReady | src/Message.js:65 | After such an emit the target still holds the relay exactly once, with a policy that never removes it. Its other entries and the message's listeners are still application callbacks: an emit adds no entry. |
| Closures.RelayEmit | src/Message.js:65 | An emit on a target whose array holds one relay to the message, anywhere among application callbacks, calls the callbacks before the relay, then the relay, then the message's listeners for the same event, then the callbacks after the relay. The target's registry goes through one emit in which the relay never returns `true` and the later callbacks read the answers after the message's. The message's registry goes through one emit over the answers right after the relay's. |
| Closures.RelaySurvives | src/Message.js:62-68 | The relay never removes itself. Over any number of target emits the relay stays in the target's array exactly once, and each target emit is one emit of the target's registry and one of the message's. |
| Closures.CollectorRunsRemove | publish/emitter.js:283-285 | In the bundle, when the garbage-collect handler is the only listener for "message.garbagecollect", emitting that event runs `Remove(payload)` on the message. The handler is called once and the rest of the world is unchanged. |
| Closures.CollectorRunsRemoveAmong | publish/emitter.js:283-285 | In the bundle, with the handler registered once anywhere among application callbacks, every entry is called once, in order. `Remove(payload)` runs when the handler's turn comes. The message ends with `Remove`'s registry carrying the pass's policies, and the survivors are written back unless `Remove` deleted the array. Nothing else in the world changes. |
| Closures.CollectorThrowsInSource | src/Message.js:36 | In the source the same emit throws, wherever the handler sits among application callbacks, because the source's `Message` has no `Remove`. |
| Message.RemoveIgnoresData | publish/emitter.js:333-347 | `Remove` deletes whole arrays by name only. What it does does not depend on any callback's policy, and it leaves the policies as they are. |
| Closures.ConstructedCollector | src/Message.js:36-38 | A first construction leaves an instance whose garbage-collect event throws (source) or runs `Remove` on the instance and changes nothing else in the world (bundle). |
| Closures.FreshInstanceSurvivesSweep | publish/emitter.js:340-344 | A garbage-collect event with no payload leaves a fresh bundle instance as it was. |
| Closures.CollectorRemovesItself | publish/emitter.js:336-338 | A garbage-collect event whose payload is "message.garbagecollect" deletes the handler's own array. |
| Closures.WatchThenOffById | src/Message.js:58-65 | A relay registered with an identifier is removed by `target.Off(name, identifier)`. That restores the target's array and leaves its other events alone. |
| Closures.BundleWatchIgnoresIdentifier | publish/emitter.js:313-318 | In the bundle, `Off(name, identifier)` does not reach a relay, because `Watch` keeps no identifier. |
| Closures.InstanceIsStable | src/Message.test.js:7-9 | Two `Instance()` calls give the same object and leave the world as the first call left it. |
| Closures.ConstructAfterInstance | src/Message.test.js:11-13 | After `Instance()`, `new Message()` throws in the source. In the bundle it gives a different object, and the recorded instance is unchanged. |

## Where the code and the design disagree

The model follows the code:

- `Off()` with no name does not remove every listener, as the tests expect
  (src/Emitter.test.js:123-136). The name becomes "event.undefined", so only
  the event named "undefined" is affected (`OffWithoutNameKeepsOthers`).
- `On()` with no arguments does not throw, although the tests expect an error
  (src/Emitter.test.js:84-88). Its only guard is the missing callback.
- `Set` has no string case. A key holding a string takes the incoming value
  as is, so the test's expectation of `'1'` for an incoming number 1 does not
  hold (src/Emitter.test.js:41).
- The bundle's `Remove()` passes each full key "event.n" to `Off`, which adds
  the prefix again. It therefore only deletes events whose names themselves
  start with "event." (`Remove`, `RemoveAllDeletes`).
- The source's `Message` has no `Remove`, although its garbage-collect
  handler calls one (`CollectorThrowsInSource`).
- The source's `Off(name, identifier)` would throw (see Findings).
  `WatchThenOffById` is stated over the intended `Off`.

## Left out

- `console.log` in `Emit` and `console.error` in the bundle's constructor: output only, with no effect on state.
- Properties.Set: JavaScript's `+value`/`isNaN` conversion and floating-point numbers are not modelled; the conversion is an abstract `parse` parameter, and a number is an `int`.
- Properties.Set: `Set` called through the constructor (`new Emitter(props)`, `new Message(props)`) is not modelled; every new object starts with an empty bag, and `NewEmitter` and `Construct` take no props.
- Dispatch.Emit: numeric data is an integer. Fractional counts (2.5 fires twice, 0.5 once), `NaN` and `Infinity` (never removed, because `--data < 1` stays false) are not modelled.
- Closures.RelayEmit: the relay must occur once in the target's array. The target's other listeners for the event and the message's listeners for it must be application callbacks. A second relay or a garbage-collect handler in either array is not covered, and a relay from the message to itself is the `Reentered` case of `Message.EmitIn`.
- Closures.RelaySurvives: the same conditions as `RelayEmit`: one relay, with application callbacks around it on the target and as the message's listeners.
- Closures.WatchThenEmit: the target's existing listeners for the event and the message's listeners for it must be application callbacks. A relay or a garbage-collect handler among them is not covered.
- Closures.CollectorRunsRemoveAmong: the handler must occur once, belong to the emitting object, and have only application callbacks beside it. A relay in the same array is not covered.
- Closures.CollectorThrowsInSource: the handler's neighbours must be application callbacks, so that nothing before it throws or relays first.
- Dispatch.Emit: application callbacks are opaque; throwing callbacks and callbacks that call `On`, `Off` or `Emit` on the emitter they are registered on are not modelled.
- Message.EmitIn: a relay chain that comes back to an array the same emit is walking yields the fault `Reentered` instead of modelling the in-place splicing of one array by two loops. The stack depth is a `fuel` parameter, and running out of it is `StackOverflow`.
- Registry.On: a callback's `data` is a property of the function object, shared by every emitter it is registered on. The model keeps the policies per emitter, so a function registered on two objects is treated as two policies.
- Namespace collisions between properties set by `Set` and the `"event."` keys on the same object, and the unused `listeners` property of `Message`, are not modelled.
- The state an object is left in after a call throws (for example a partly completed `Set`) is not modelled; a fault ends the model's computation.
- Babel helpers (`_createClass`, `_inherits`, `_possibleConstructorReturn`, `_typeof`, `_classCallCheck`) are plumbing. Only their observable effects are modelled: the return from the bundle's constructor, and `typeof`.

## Findings

| source | as written | input that shows it | evidently intended | confidence | as-written member | corrected member |
|---|---|---|---|---|---|---|
| src/Emitter.js:164-174 (also publish/emitter.js:198-210) | The loop of `Off` tests `typeof identifer` and compares entries with `identifier`, and neither is declared. With a truthy listener and a non-empty array the first comparison throws ReferenceError. | `On('test.event', mock, 'test')` then `Off('test.event', 'test')` (src/Emitter.test.js:97-107) | Compare with the `listener` argument: by `data` for a string, by reference otherwise | not executed; high | Registry.OffAsWritten | Registry.Off |
| src/Emitter.js:34 (also publish/emitter.js:54) | The number branch of `Set` reads `+param`, and `param` is not declared. Setting a key that holds a number throws ReferenceError. | `a = 0` then `Set({a: "1"})` (src/Emitter.test.js:23-45) | Parse the incoming value `props[key]`, 0 when it is not a number | not executed; high | Properties.SetAsWritten | Properties.Set |
