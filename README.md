# prism-event-bus in Dafny

A model of `<prism-event-bus>`, a custom element that serves as a small publish/subscribe
bus between the elements of a page. Each bus has a `name` and a list of
subscribers. Each subscriber is a record `{target, types}`. An empty `types` list is a
wildcard: it accepts every event posted without restriction. A bus also keeps a
delay buffer: an event posted with `postDelayed` that no subscriber lists
by type waits there. It is delivered to the next element whose registration adds its type.
The static entry points (`post`, `postDelayed`, `register`, `unregister`,
`getInstance`) find buses by name in the document, and create them on demand.

The project has six modules:

- `Collections` (collections.dfy): `Option`, the set of a sequence's elements, duplicate
  freedom, and erasing an element from a sequence.
- `TypeSets` (typesets.dfy): `_union` and `_difference`. The source builds a dictionary
  and returns its keys, so a result lists each type once.
- `Registry` (registry.dfy): the subscriber records, and the list of records that
  `addSubscriber` and `removeSubcriber` produce, written as functions of the old list.
  Properties proved include uniqueness of targets, what happens to a
  re-registered target, idempotence, and what unregistering leaves.
- `Dispatcher` (dispatcher.dfy): which records an `emit` reaches, and the delay buffer.
  Polling (`_poll`) is the function `Replay`.
- `EventBus` (bus.dfy): the state of one bus as a value (`BusState`), with the
  operations as functions on it and the invariant they keep. The class `Bus` performs
  `emit`, `queue`, `_enqueue`, `_dequeue`, `_poll`, `addSubscriber` and `removeSubcriber`
  step by step on its fields `subscribers` and `buffer`. Each method is proved to produce
  exactly the state and the deliveries that the functions describe.
- `BusDirectory` (directory.dfy): the document, seen as the class `Directory`. It has
  a map from name to live bus and the names in creation order; new buses are appended to
  the document body, so creation order is the order a broadcast visits them in. It also
  has a ghost map of every bus's state. The static entry points are its methods.

Conventions of the model:

- Calls `target.dispatchEvent(event)` are not performed. Each operation returns them,
  in order, as a sequence of `Delivery` values.
- An element is a value. Its `id` stands for object identity, which is what
  `item.target === element` compares. Its `deliverable` flag stands for the presence of a
  `dispatchEvent` method.
- A missing element (`null`/`undefined`) is `None`. A missing or non-array `types`
  argument is `None`; `Normalize` turns it into `[]`.
- The falsy `name` of `post` and `postDelayed` is the empty string. `register` and
  `unregister` take their name explicitly; the default parameter value is
  `DefaultName`, which is `"default"`.
- `removeSubcriber` removes the bus from the document when its last subscriber leaves.
  `Bus.RemoveSubscriber` reports this as `destroyed`, and `Directory.Unregister` then
  drops the bus from the map and from the order.

The growth test of a re-registration is modelled as written: it compares the length of
the union with the length of the stored list. `RepeatedTypeHidesNewType` shows what this
means. An element first registered with `["a", "a"]` and then with `["b"]` is not
registered for `"b"`. `UnionGrowthTest` shows that the test is exact, in both
directions, whenever the stored list has no duplicates. `RegisterAccepts` draws the
consequence: such an element is afterwards registered for every type it passed.

## Model

| member | source | states |
|---|---|---|
| `Collections.Erase` | prism-event-bus.js:209-213 | Taking a destroyed bus out of the document order removes exactly its name and keeps the rest free of duplicates. The other buses keep their order, which is the order later broadcasts visit them in |
| `TypeSets.Dedup` | prism-event-bus.js:237-244 | The keys of a dictionary filled from a list: the same elements, each once, and no more entries than the list |
| `TypeSets.Remove` | prism-event-bus.js:259-263 | Deleting the keys of `targets`: the elements of the list minus those of `targets`, still duplicate-free |
| `TypeSets.Union` | prism-event-bus.js:236-245 | `_union` returns every type of either list and no other, without duplicates |
| `TypeSets.Difference` | prism-event-bus.js:254-265 | `_difference` returns the types of `sources` not in `targets`, without duplicates |
| `TypeSets.UnionGrowthTest` | prism-event-bus.js:171-172 | With a duplicate-free stored list, `union.length > types.length` holds if and only if some added type is new |
| `Registry.Find` | prism-event-bus.js:169 | `find` returns the first record whose target is the element, and nothing exactly when no record has that target |
| `Registry.FilterFacts` | prism-event-bus.js:204-206 | The filtered list holds only records of other targets, holds every such record, and keeps targets unique |
| `Registry.Deliverable` | prism-event-bus.js:165 | Definition of the guard on `!element` or `!element.dispatchEvent`. What the guard promises is stated by `Bus.AddSubscriber`, `Bus.RemoveSubscriber`, `Directory.Register` and `Directory.Unregister`: for a refused element they change nothing |
| `Registry.Grows` | prism-event-bus.js:170-172 | A new element always grows the registry. For a known element with a duplicate-free stored list, the test holds exactly when some passed type is new |
| `Registry.Registered` | prism-event-bus.js:168-185 | After `addSubscriber` the element has a record. The list grows by one exactly for a new element, and every record of another element is kept |
| `Registry.Polled` | prism-event-bus.js:172-184 | `addSubscriber` polls only types it was passed, and all of them for a new element |
| `Registry.Removes` | prism-event-bus.js:201-219 | The removal path is taken only for a known element. It is taken exactly when `types` is empty, or when the stored list is non-empty and every stored type is among `types` |
| `Registry.DifferenceEmpty` | prism-event-bus.js:216-217 | `_difference` is empty exactly when every stored type is among the removed ones |
| `Registry.Unregistered` | prism-event-bus.js:199-226 | `removeSubcriber` never lengthens the list. It keeps the length unless it removes, and on the removal path the element has no record left |
| `Registry.Without` | prism-event-bus.js:204-206 | `subscribers.filter(item => item.target !== element)` keeps exactly the other targets' records and keeps them unique |
| `Registry.RegisterKeepsUnique` | prism-event-bus.js:168-185 | `addSubscriber` never gives one target two records |
| `Registry.RegisterNew` | prism-event-bus.js:179-185 | A new target gets one record `{element, types}` in front of the unchanged old list, and the buffer is polled for `types` |
| `Registry.RegisterExisting` | prism-event-bus.js:170-178 | A known target keeps its place and the other records stay. When the union grows, its types become the union and `types` is polled; otherwise nothing changes and nothing is polled |
| `Registry.RegisterAccepts` | prism-event-bus.js:164-185 | If the stored types have no duplicates, the element is afterwards registered for every type it passed |
| `Registry.RepeatedTypeHidesNewType` | prism-event-bus.js:171-174 | A stored list with a repeated type makes the length test miss a new type: after `["a","a"]` then `["b"]` the record is still `["a","a"]` and nothing is polled |
| `Registry.RegisterIdempotent` | prism-event-bus.js:164-185 | Registering the same element with the same types twice changes nothing the second time and polls nothing |
| `Registry.UnregisterKeepsUnique` | prism-event-bus.js:195-227 | `removeSubcriber` never gives one target two records |
| `Registry.UnregisterOthersUntouched` | prism-event-bus.js:195-227 | `removeSubcriber` leaves the records of the other targets as they were, in the same order |
| `Registry.UnregisterOutcome` | prism-event-bus.js:199-225 | Unknown element: no change. Empty `types`, or a non-empty list that would become empty: the record is removed. Otherwise the record keeps exactly its types not in `types`, and a wildcard stays a wildcard |
| `Registry.UnregisterShrinks` | prism-event-bus.js:195-227 | After `removeSubcriber`, every type a record lists was listed by some record before |
| `Dispatcher.Matches` | prism-event-bus.js:340 | Definition of the `item.types` test inside `emit`. What it promises is stated by `WildcardReach`, `RestrictedSilence` and `DispatchMembership` |
| `Dispatcher.Dispatch` | prism-event-bus.js:335-347 | `emit` makes at most one delivery per record, each of the posted event |
| `Dispatcher.DispatchCount` | prism-event-bus.js:335-347 | The count `emit` returns equals the number of records the event matches |
| `Dispatcher.DispatchMembership` | prism-event-bus.js:337-345 | A delivery is made if and only if it carries the event to the target of a record that lists the type, or that is a wildcard when the emit is unrestricted |
| `Dispatcher.DispatchOncePerTarget` | prism-event-bus.js:337-345 | With one record per target, no element receives the same emit twice |
| `Dispatcher.RestrictedSilence` | prism-event-bus.js:292 | A restricted emit reaches nobody if and only if no record lists the event's type |
| `Dispatcher.WildcardReach` | prism-event-bus.js:340 | A wildcard subscriber receives every unrestricted emit and no restricted one |
| `Dispatcher.RestrictedWithinUnrestricted` | prism-event-bus.js:340 | Every delivery of a restricted emit is also made by the unrestricted emit |
| `Dispatcher.Pending` | prism-event-bus.js:319-325 | The events waiting for a type, or none, on a well-formed buffer is empty exactly when the type has no entry, and holds only events of that type |
| `Dispatcher.Enqueued` | prism-event-bus.js:304-310 | `_enqueue` appends the event to the list of its own type only, adds that type to the buffer's keys, and keeps the buffer well formed |
| `Dispatcher.Deliver` | prism-event-bus.js:277-280 | Delivering a dequeued list calls `dispatchEvent` on the element once per event, oldest first |
| `Dispatcher.Replay` | prism-event-bus.js:274-282 | `_poll` delivers only to the polling element and, on a well-formed buffer, only events of the polled types |
| `Dispatcher.ReplayMembership` | prism-event-bus.js:274-282 | Polling delivers, to the polling element only, exactly the events buffered under one of the polled types |
| `Dispatcher.ReplayNothingPending` | prism-event-bus.js:274-282 | Polling types with nothing buffered delivers nothing |
| `Dispatcher.ReplayDrainsOnce` | prism-event-bus.js:318-326 | Once the polled types are dequeued, polling them again, by any element, delivers nothing |
| `EventBus.Normalize` | prism-event-bus.js:166 | Definition of the replacement of a missing or non-array `types` by `[]`. Its effect is stated by `Directory.Register` and `Directory.Unregister`, which pass `Normalize(types)` on to `AfterRegister` and `AfterUnregister` |
| `EventBus.AfterRegister` | prism-event-bus.js:164-186 | After `addSubscriber` the element has a record. The buffer only loses entries and keeps the lists it does not drop |
| `EventBus.AfterUnregister` | prism-event-bus.js:195-227 | `removeSubcriber` leaves the buffer as it was and never adds records |
| `EventBus.Destroys` | prism-event-bus.js:202-213 | The bus is destroyed only for a known element, and only when no record is left afterwards |
| `EventBus.AfterQueue` | prism-event-bus.js:290-296 | `queue` keeps the subscribers and every other type's pending events. The event's own type either keeps its list or gets the event appended |
| `EventBus.RegisterPreservesInvariant` | prism-event-bus.js:164-186 | `addSubscriber` keeps targets unique, the buffer well formed, and no event buffered under a type some record lists |
| `EventBus.UnregisterPreservesInvariant` | prism-event-bus.js:195-227 | `removeSubcriber` keeps the same invariant |
| `EventBus.QueuePreservesInvariant` | prism-event-bus.js:290-296 | `queue` keeps the same invariant |
| `EventBus.QueueBuffersIff` | prism-event-bus.js:290-296 | `queue` leaves the subscribers alone. It buffers the event after those already waiting for its type exactly when no record lists the type; otherwise it changes nothing |
| `EventBus.DelayedEventReplayedOnce` | prism-event-bus.js:290-296 | A delayed event nobody lists is buffered. The next new element registering for its type receives it, after the older events of that type; a later registration for that type receives nothing |
| `EventBus.LastSubscriberLeaves` | prism-event-bus.js:202-219 | When the only subscriber leaves, by an empty list or by removing all its listed types, the bus is destroyed |
| `EventBus.Bus.constructor` | prism-event-bus.js:38-56 | A new bus has the given name, no subscribers and an empty buffer |
| `EventBus.Bus.Emit` | prism-event-bus.js:335-347 | The loop over `subscribers` makes exactly the deliveries of `Dispatch`, in list order, and returns their number |
| `EventBus.Bus.Enqueue` | prism-event-bus.js:304-310 | The buffer becomes `Enqueued` of the old buffer; the subscribers do not change |
| `EventBus.Bus.Dequeue` | prism-event-bus.js:318-326 | Returns the events waiting for the type, or none, and removes that type from the buffer; nothing else changes |
| `EventBus.Bus.Poll` | prism-event-bus.js:274-282 | The loop makes exactly the deliveries of `Replay` and removes every polled type from the buffer |
| `EventBus.Bus.Queue` | prism-event-bus.js:290-296 | Makes the restricted emit's deliveries, leaves the bus in the state `AfterQueue`, and keeps the invariant |
| `EventBus.Bus.AddSubscriber` | prism-event-bus.js:164-186 | Ignores a missing or undeliverable element. Otherwise the bus reaches `AfterRegister`, the polled events are delivered, and the invariant is kept |
| `EventBus.Bus.RemoveSubscriber` | prism-event-bus.js:195-227 | Ignores a missing or undeliverable element. Otherwise the bus reaches `AfterUnregister` with the buffer untouched, and reports destruction exactly when the last record left |
| `BusDirectory.Emitted` | prism-event-bus.js:73-77 | Every delivery of a broadcast `post` carries the posted event |
| `BusDirectory.QueueAll` | prism-event-bus.js:96-98 | A broadcast `queue` touches the same buses and leaves every bus's subscribers alone |
| `BusDirectory.EmittedMembership` | prism-event-bus.js:74-76 | A broadcast makes a delivery if and only if emitting on one of the buses makes it |
| `BusDirectory.BroadcastReachesEveryBus` | prism-event-bus.js:73-77 | A broadcast `post` reaches every subscriber that a `post` to its own bus reaches |
| `BusDirectory.Directory.constructor` | prism-event-bus.js:147-155 | A document starts with no bus |
| `BusDirectory.Directory.Lookup` | prism-event-bus.js:148 | The query finds the bus of that name, or null exactly when there is none |
| `BusDirectory.Directory.Append` | prism-event-bus.js:151-152 | A named, empty bus joins the map, the states and the end of the document order; every other bus stays |
| `BusDirectory.Directory.Create` | prism-event-bus.js:149-153 | A fresh, empty bus with the name is added and its name is appended to the document order |
| `BusDirectory.Directory.GetInstance` | prism-event-bus.js:147-155 | Returns the existing bus of that name. If there is none, creates and appends one when `init` holds, and otherwise returns null and changes nothing |
| `BusDirectory.Directory.Post` | prism-event-bus.js:65-78 | A named post emits unrestricted on that bus or does nothing if it is missing. An unnamed post emits on every bus in document order. Nothing changes |
| `BusDirectory.Directory.QueueOn` | prism-event-bus.js:89-92 | `queue` on one bus changes that bus to `AfterQueue` and no other |
| `BusDirectory.Directory.QueueEach` | prism-event-bus.js:96-98 | `queue` on every bus in document order: every bus reaches `AfterQueue`, with the deliveries of each in turn |
| `BusDirectory.Directory.PostDelayed` | prism-event-bus.js:87-100 | A named delayed post creates the bus if missing and queues on it. An unnamed one makes sure "default" exists, then queues on every bus. Existing buses stay the same objects, and a bus it creates is a fresh object |
| `BusDirectory.Directory.SubscribeOn` | prism-event-bus.js:117 | `addSubscriber` on one bus changes that bus to `AfterRegister` and no other |
| `BusDirectory.Directory.Register` | prism-event-bus.js:110-118 | Ignores a missing or undeliverable element. Otherwise normalises `types`, gets or creates the bus and registers on it. Existing buses stay the same objects |
| `BusDirectory.Directory.UnsubscribeOn` | prism-event-bus.js:136 | `removeSubcriber` on one bus changes that bus to `AfterUnregister` and no other, and reports whether it is destroyed |
| `BusDirectory.Directory.Drop` | prism-event-bus.js:210-211 | A destroyed bus leaves the map, the states and the document order; every other bus stays |
| `BusDirectory.Directory.Unregister` | prism-event-bus.js:128-138 | Ignores a missing or undeliverable element, or a missing bus (none is created). Otherwise unregisters, and removes the bus from the document when it loses its last subscriber |

## Left out

- Polymer hosting is not modelled: property declarations, `this.set` change notification and `customElements.define`. Only the resulting field values are.
- The `dispatchEvent` calls are returned as `Delivery` values, not performed. Event listeners, bubbling and re-entrant calls into the bus from a listener are not modelled.
- `console.debug` output is left out.
- The document is modelled only as the buses this code creates, kept in creation order. Bus elements written into the page by hand, or moved by other code, are not modelled. Neither are two buses with the same name.
- Bus names are used as plain map keys. A name that makes `prism-event-bus[name=...]` an invalid or different CSS selector is not modelled, and neither is the page-level `document.body`.
- `Union`: its result lists the types in first-insertion order. `Object.keys` puts integer-like keys such as `"1"` first; the contracts promise only membership and the absence of duplicates.
- Keys inherited from `Object.prototype` (`"toString" in {}` holds) are not modelled. In the source, `_dequeue` returns a function for such a type. `_poll` then throws at `queuedEvents.forEach` (line 277), so `register(el, ["toString"])` throws after the record has been stored. Likewise `_enqueue` throws at `items.push` (line 307) for a delayed `"toString"` event that nobody lists. The key `"__proto__"` is not modelled either: `temp["__proto__"] = true` (lines 239, 242 and 257) sets no key, so `_union` and `_difference` drop that type, while the model's `Union` and `Difference` keep it. Two tests then differ. At line 172, stored `["__proto__"]` plus `["__proto__", "x"]` gives the union `["x"]` in the source, which does not grow; the model's union has length 2 and grows. At line 217, stored `["__proto__", "a"]` minus `["a"]` gives an empty difference in the source, which removes the record; the model keeps `["__proto__"]`.
- Event types are strings. The source turns other values into string keys, which is not modelled.
- A record stores the caller's `types` array itself. Later mutation of that array by the caller, which would alias into the bus, is not modelled.
