# jedi: handler decoration and reverse lookup, modelled in Dafny

jedi is a jQuery plugin. `$.jedi(types, decorator)` registers decorators
per base event type. The plugin overrides `$.fn.bind`, `$.fn.unbind` and
`$.fn.die`, so every handler bound afterwards reaches jQuery wrapped in the
decorators of its type. The oldest decorator is the outermost wrapper, so
`[d0, d1]` around `h` gives `d0(d1(h))`.

jQuery can only remove a handler by the function it was given, which is the
decorated one. So jedi keeps a ledger on each element, under the data key
`js-jedi`. The ledger maps each original handler to its decorated
counterpart. An `unbind(type, h)` then finds the decorated function and
hands that to jQuery.

The model has these parts:

- `SeqFacts`: small facts about sequences and maps that the proofs cite.
- `Strings`: `$.trim`, `replace(/\s+/, ' ')` and `split`, written out as
  JavaScript defines them. The regular expression has no `g` flag, so only
  the first run of white space is collapsed.
- `EventTypes`: the `EventType` descriptor, `EventType.get`,
  `EventType.gets` and the hit test `EventType.isHit`.
- `Handlers`: the JavaScript values the overrides inspect. Plain functions
  (`Fn`) are compared by identity; decorated ones structurally. The decorated handler is the symbolic term
  `Wrap(d, inner)`, and FILO composition is `Compose`.
- `Multimap`: append-per-key maps. Both the decorator registry and the
  ledgers have this shape.
- `Host`: element ids, and the log of calls made into jQuery's own
  `bind`, `unbind` and `die`.
- `Ledger`: ledger entries, and what one backward pass of `removeHandler`
  does to one element's entries and to the host log.
- `JediSpec`: each entry point as a pure function on the state (registry,
  ledgers, host log), together with the lemmas the plugin promises.
- `Plugin`: class `JediContext` holds that state in fields. It has one
  method per function of the plugin, written with the source's loops.
  Each method is proved to move the state as its `JediSpec` function says.

Some of the code's behaviour is easy to misread; the model follows the
code:

- `EventType.gets` keeps empty pieces. The piece `""` yields a descriptor
  with the empty base type, and that descriptor is bound.
- Only the first run of white space is collapsed.
- `.die()` makes no host call at all.
- `.die(type)` without a handler makes no host call either.
- `removeAllStored` throws a `TypeError` on an element that never had a
  ledger. The model returns that as an outcome (`ThrewTypeError`); it does
  not treat a missing ledger as empty. Elements earlier in the collection
  have been emptied by then, and the host `unbind` is not reached.

## Model

| member | source | states |
|---|---|---|
| Strings.Trim | jedi.js:17 | `$.trim`: the result has no white space at either end, and input without white space at its ends is returned unchanged |
| Strings.TrimCutsOnlyEnds | jedi.js:17 | `$.trim` cuts only the ends: its result is the slice of the input after the leading white space, and everything before and after that slice is white space |
| Strings.CollapseFirstRunShape | jedi.js:27 | `replace(/\s+/, ' ')` replaces the first run of white space with one space; the rest of the input after that run is kept verbatim, later runs included |
| Strings.CollapseNoSpace | jedi.js:27 | input without white space passes through `replace(/\s+/, ' ')` unchanged |
| Strings.PiecesOfOneToken | jedi.js:27-29 | a list without inner white space is one piece, the trimmed input |
| Strings.SplitJoin | jedi.js:18 | `split('.')` loses nothing: joining the pieces with `.` rebuilds the input |
| Strings.JoinSplit | jedi.js:18 | pieces free of the separator are recovered by splitting their join |
| Strings.PiecesOfTwoTokens | jedi.js:554 | `"a b"` names exactly the two types `a` and `b` |
| EventTypes.Get | jedi.js:14-21 | `eventType` is the trimmed token; `type` followed by `"." + ns` for each namespace rebuilds it; no piece contains `.`; the selector is kept unchanged |
| EventTypes.GetRebuilds | jedi.js:14-21 | a well-formed descriptor is what `get` makes of its own `eventType` |
| EventTypes.GetEmpty | jedi.js:14-21 | the empty piece gives the descriptor with the empty type and no namespaces |
| EventTypes.Gets | jedi.js:23-32 | one descriptor per space-separated piece, in order, each carrying the given selector; never empty |
| EventTypes.GetsOneToken | jedi.js:23-32 | a list without inner white space gives exactly the descriptor `get` gives |
| EventTypes.PiecesKeepLaterRuns | jedi.js:27-29 | for tokens `a`, `b`, `c` without white space, `a  b  c` splits into `a`, `b`, the empty piece and `c`: the second run of white space survives the collapse |
| EventTypes.GetsKeepsLaterRuns | jedi.js:23-32 | for the same input, `gets` returns four descriptors, the third with empty `type` and no namespaces, the others what `get` makes of `a`, `b` and `c` |
| EventTypes.GetsOfFourPieces | jedi.js:29-31 | four pieces give four descriptors, one per piece in order |
| EventTypes.SharesNamespace | jedi.js:54-61 | the namespace loop returns true exactly when the two lists share an element |
| EventTypes.IsHit | jedi.js:34-62 | hit iff the src type is empty or equal to the target's, and the src selector is unset or equal, and the src has no namespaces or shares one with the target |
| EventTypes.IsHitSelf | jedi.js:64-66 | every descriptor hits itself |
| EventTypes.NamespaceOnlyHits | jedi.js:34-62 | the request `".n"` hits exactly the entries carrying namespace `n`, whatever their type |
| EventTypes.TypeOnlyHits | jedi.js:34-62 | the request `"t"` hits exactly the entries of type `t`, whatever their namespaces |
| Handlers.ComposeLayers | jedi.js:169-187 | composing `[d0..dn-1]` around `fn` puts `d0` outermost and `dn-1` innermost, directly over `fn` |
| Handlers.ComposeIsIdentity | jedi.js:178-186 | decoration returns `fn` itself exactly when the decorator list is empty |
| Handlers.ComposeAppend | jedi.js:178-186 | a decorator appended to the list ends up innermost |
| Host.RemoverCall | jedi.js:118 | the remover is called on the one element with the request's event type and the entry's decorated function; it is a host `unbind` exactly when the remover is `unbind`, and a host `die` otherwise |
| Multimap.AppendEachLookup | jedi.js:556-561 | each key's list keeps its old contents as a prefix and gains one copy per occurrence of the key; other keys are untouched |
| Multimap.AppendEachKeys | jedi.js:557-559 | appending creates exactly the missing keys that were named |
| Ledger.SurvivorsMembers | jedi.js:99-123 | after a pass an entry survives iff it was there and is not (hit and, given a handler, bound with that handler) |
| Ledger.RemoverCallsReverse | jedi.js:105-121 | one remover call per hit entry bound with the handler, in reverse ledger order, each with that entry's decorated function |
| Ledger.ForwardedAreDropped | jedi.js:107-120 | with a handler, an entry is forwarded iff it is in the ledger and dropped, and the survivors and the forwarded entries together account for the whole ledger; with no handler, no remover call is made |
| Ledger.RemoverCallsOf | jedi.js:118 | every call a pass makes goes to the primitive it was given (`unbind` for `.unbind`, `die` for `.die`), on the pass's one element, with the requested event type as its first of two arguments |
| Ledger.NothingToDrop | jedi.js:105-122 | a ledger with nothing to drop is left unchanged and causes no remover call |
| Ledger.SurvivorsIdempotent | jedi.js:99-123 | a second pass with the same request drops nothing and calls no remover |
| JediSpec.RegisterLookup | jedi.js:550-562 | `$.jedi` appends the decorator to the end of each named type's list, once per time the type is named; other types, ledgers and host are unchanged |
| JediSpec.UnregisterAllUndecorates | jedi.js:563-569 | after `$.unjedi` decoration is the identity for every type; ledgers and host are unchanged |
| JediSpec.RegisterWrapsInnermost | jedi.js:550-562 | a newly registered decorator wraps innermost in later decorations |
| JediSpec.StoreLookup | jedi.js:68-97 | nothing is stored when `origFn === decorFn`; otherwise each element's ledger keeps its entries and gains the new entry at the end |
| JediSpec.NormalizeBindArgs | jedi.js:241-251 | a function in the data slot becomes the handler; `false` in the data slot becomes the prevent-bubble handler; any other data is passed on unchanged, and a function or `false` in the data slot leaves `undefined` as the data |
| JediSpec.BindDescsKeepsRegistry | jedi.js:265-270 | binding never changes the registry |
| JediSpec.BindDescsLog | jedi.js:265-270 | one host bind per descriptor, in order, with the descriptor's token and the handler decorated for its type |
| JediSpec.BindDescsLedger | jedi.js:265-270 | each element's ledger is its old ledger followed by one entry per descriptor whose decoration changed the handler |
| JediSpec.BindTypePreventBubble | jedi.js:247-260 | `false` as data or handler gives exactly one host bind `(eventType, data, false)` and no ledger change |
| JediSpec.BindTypeHandler | jedi.js:262-272 | a handler bind makes one host bind per descriptor of `gets(eventType, null)` and records the new entries; the registry is unchanged |
| JediSpec.NoDecoratorsNoEntries | jedi.js:75-79 | with no decorators for the types, the host receives the handler itself and no entry is recorded |
| JediSpec.BindMapKeepsRegistry | jedi.js:232-239 | the events-map form never changes the registry |
| JediSpec.BindMapPairIsHandler | jedi.js:234-245 | a map pair `(type, fn)` binds as `bind(type, undefined, fn)` |
| JediSpec.DescBindsOnlyBinds | jedi.js:265-270 | the per-descriptor loop only appends host bind calls |
| JediSpec.BindTypeOnlyBinds | jedi.js:241-272 | the string form only appends host bind calls |
| JediSpec.BindMapOnlyBinds | jedi.js:232-239 | the events-map form only appends host bind calls with string types; the host never receives the map |
| JediSpec.PurgeOneIdempotent | jedi.js:99-123 | running `removeHandler` twice is running it once |
| JediSpec.PurgeEachFixed | jedi.js:157-161 | a state with nothing left to drop is unchanged by `removeHandlers` |
| JediSpec.PurgeEachEffect | jedi.js:157-161 | `removeHandlers` leaves each listed element's ledger equal to its survivors, other ledgers and the registry unchanged, and only appends to the log |
| JediSpec.PurgeEachIdempotent | jedi.js:157-161 | running `removeHandlers` twice is running it once |
| JediSpec.TruncateEachEffect | jedi.js:163-167 | `removeAllStored` creates and deletes no ledger, and each ledger is either emptied or untouched; when every element has a ledger, exactly the listed ones are emptied |
| JediSpec.SignatureType | jedi.js:342-375 | `()` is 1, `(string, fn)` 3, `(string, false)` 4, any other `(string …)` 2, `($.Event)` 5, anything else -1; each as an if-and-only-if |
| JediSpec.UnbindForwards | jedi.js:377-410 | unless `.unbind()` throws, the last host call is `unbind` with the original arguments; the registry is never changed; a throwing call makes no host call |
| JediSpec.UnbindLedger | jedi.js:383-405 | only signature 1 truncates; signatures 2, 3 and 5 run `removeHandlers`; 4 and -1 leave the ledgers alone |
| JediSpec.UnbindTwice | jedi.js:393-407 | a second identical `unbind` (type, type and handler, or event) changes no ledger and only forwards its arguments |
| JediSpec.PurgeEachOnlyRemoverCalls | jedi.js:157-161 | `removeHandlers` only appends to the host log, and every call it appends goes to its remover |
| JediSpec.PurgeEachNoHandlerNoCalls | jedi.js:108-118 | without a (truthy) handler, `removeHandlers` leaves the host log unchanged |
| JediSpec.PurgeEachLog | jedi.js:157-161 | the log `removeHandlers` leaves is the old log followed by exactly `PurgeCalls` over the old ledgers, element by element in collection order |
| JediSpec.PurgeCallsShape | jedi.js:118 | every call in `PurgeCalls` is the remover's call on a single element of the collection, for the requested event type |
| JediSpec.DieEffect | jedi.js:530-546 | `.die()` only truncates ledgers and makes no host call; with arguments the log grows by exactly `PurgeCalls` (host `die` calls, one per forwarded ledger entry, each on one element with that entry's decorated function), so `.die`'s own arguments are never passed on; without a handler the log is unchanged |
| JediSpec.GetOneNamespace | jedi.js:14-21 | `get("t.n")` is the descriptor with type `t` and namespaces `[n]` |
| JediSpec.GetBareType | jedi.js:14-21 | `get("t")` is the descriptor with type `t` and no namespaces |
| JediSpec.BindSingleDescriptor | jedi.js:262-272 | binding a handler for a one-descriptor token with decorators makes one host bind of the decorated function and records one entry |
| JediSpec.BindOneToken | jedi.js:262-272 | `.bind("t.n", h)` with decorators for `t`: the state after it, as a value |
| JediSpec.UnbindOneEntry | jedi.js:393-407 | `.unbind("t", h)` over the one entry for `h` unbinds that entry's decorated function, then forwards its arguments, and empties the ledger |
| JediSpec.ReverseLookupRoundTrip | jedi.js:99-123 | after `.bind("t.n", h)`, `.unbind("t", h)` hands the host the decorated function bound earlier, not `h`, and leaves the ledger empty |
| JediSpec.UnbindNamespaceOnly | jedi.js:393-404 | `.unbind(".n")` keeps exactly the entries without namespace `n`, across all types |
| JediSpec.DecoratorOrder | test/test_jedi.15.js:635-653 | `$.jedi("a b", d0)` then `$.jedi("a", d1)`: a handler for `a` becomes `d0(d1(fn))` and one for `b` becomes `d0(fn)` |
| Plugin.JediContext.constructor | jedi.js:4-5 | the plugin starts with no decorators, no ledgers and no host calls |
| Plugin.JediContext.Decorate | jedi.js:169-187 | the loop from the end of the list returns the FILO composition of the type's decorators |
| Plugin.JediContext.Jedi | jedi.js:550-562 | the registry after the loop is the one `Register` describes |
| Plugin.JediContext.Unjedi | jedi.js:563-569 | the registry becomes empty; nothing else changes |
| Plugin.JediContext.StoreDecoratorLookup | jedi.js:68-97 | each element's ledger after the loop is as `Store` describes |
| Plugin.JediContext.RemoveHandler | jedi.js:99-123 | the backward walk with in-place splices leaves the survivors in order and logs the remover calls |
| Plugin.JediContext.RemoveHandlers | jedi.js:157-161 | `removeHandler` on each element of the collection in turn |
| Plugin.JediContext.RemoveAllStored | jedi.js:163-167 | the truncation loop; `ok` is false exactly when some element has no ledger (the source throws there) |
| Plugin.JediContext.BindDescriptors | jedi.js:265-270 | decorate, store and host-bind per descriptor |
| Plugin.JediContext.BindString | jedi.js:241-272 | the string form of `bind`, including the argument shuffling and the prevent-bubble pass-through |
| Plugin.JediContext.Bind | jedi.js:222-274 | the `bind` override; it returns the collection it was called on |
| Plugin.JediContext.Unbind | jedi.js:339-411 | the `unbind` override; it returns the collection, or reports the `TypeError` of `.unbind()` on an element without a ledger |
| Plugin.JediContext.Die | jedi.js:527-547 | the `die` override; it returns the collection, or reports the `TypeError` of `.die()` |

## Left out

- jQuery itself is not modelled: `bind`, `unbind`, `die`, `live`, `$.data`, `.each`, event dispatch, bubbling and `trigger`. Elements are ids, `$.data(NAME)` is a map from element to entries, and calls into jQuery are entries in a log.
- Handler invocation is not modelled: preservation of `this`, forwarding of arguments and return values, and call order at trigger time. FILO order is stated on the symbolic composition `Wrap(d0, Wrap(d1, fn))` instead.
- Decorated functions compare structurally: two applications of the same decorators to the same handler give one equal `Wrap` term, where JavaScript gives two distinct closures. Removal always passes on the decorated function stored in the ledger entry, so no proved property depends on telling them apart.
- A decorator is an opaque id. In the model, applying one always yields a new function (`Wrap`), so it does not cover a decorator that returns its argument unchanged.
- `$.fn.live` (jedi.js:482-525) is not modelled. It reads jQuery's `this.selector`, and its events-map branch calls `live` with the wrong receiver and then falls through.
- Commented-out code is not modelled: the alternate `bind` with its `running` reentrancy guard (jedi.js:276-337), `delegate`/`undelegate` (jedi.js:413-480) and `forEachHit` (jedi.js:125-155). So the reentrancy guarantee is not modelled.
- `decorateMappedHandlers` and `decorateSingleHandler` (jedi.js:189-220) are reachable only from commented-out code and are not modelled.
- `decorators` is a plain JavaScript object, and the model treats it as a map. So keys inherited from `Object.prototype` (such as `"constructor"`) are not modelled as the source would see them.
- `bind` called with a first argument that is neither a string nor an object is not modelled (`null` is not modelled either, although `typeof null` is `'object'`). Likewise `die` with a non-string event type: `DieArgs` carries a string, so `.die(undefined)`, which `$.trim` turns into `""` and which then purges every entry, cannot be expressed.
- The `$.Event` check (`instanceof`) is a variant of the argument datatype. A string wrapped as a `String` object is not distinguished.
- `JediSpec.ReverseLookupRoundTrip`: states the unbind half from the post-bind state, and `JediSpec.BindOneToken` states that `bind` yields that state; the round trip is the two read together, not one lemma about `Unbind(Bind(…))`.
- The sample decorators that ship with the plugin (console logging, timing, `addClass`) are I/O, clock and DOM work, and are not modelled.
