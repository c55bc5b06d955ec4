/** What each entry point of jedi does to the whole observable state: the
    decorator registry, the per-element ledgers and the calls made into
    jQuery. Each function here is the specification of one method of
    `Plugin.JediContext`; the lemmas state the properties jedi promises. */
module JediSpec {
  import opened Strings
  import opened SeqFacts
  import opened Handlers
  import opened Multimap
  import opened EventTypes
  import opened Host
  import opened Ledger

  /** The module-level `decorators` object: base type to decorators, oldest first. */
  type Registry = map<string, seq<DecoratorId>>

  /** Each element's `js-jedi` data; an element that never had a ledger is
      not in the map. */
  type Ledgers = map<Element, seq<Entry>>

  datatype JediState = JediState(decorators: Registry, ledger: Ledgers, log: seq<HostCall>)

  // ---------------------------------------------------------------------
  // Decorator registry: `$.jedi` and `$.unjedi`

  /** `$.jedi(eventTypes, decorator)`. */
  function Register(s: JediState, eventTypes: string, decorator: DecoratorId): JediState {
    s.(decorators := AppendEach(s.decorators, Pieces(eventTypes), decorator))
  }

  /** `$.jedi` appends the decorator at the end of the list of each named
      type, once per time the type is named; every other type's list, the
      ledgers and the host are untouched. */
  lemma RegisterLookup(s: JediState, eventTypes: string, decorator: DecoratorId, t: string)
    ensures ListFor(Register(s, eventTypes, decorator).decorators, t)
      == ListFor(s.decorators, t) + Repeat(decorator, Count(Pieces(eventTypes), t))
    ensures Register(s, eventTypes, decorator).ledger == s.ledger
    ensures Register(s, eventTypes, decorator).log == s.log
  {
    AppendEachLookup(s.decorators, Pieces(eventTypes), decorator, t);
  }

  /** `$.unjedi()`. */
  function UnregisterAll(s: JediState): JediState {
    s.(decorators := map[])
  }

  /** After `$.unjedi()` decoration is the identity for every type. */
  lemma UnregisterAllUndecorates(s: JediState, t: string, fn: Value)
    ensures Compose(ListFor(UnregisterAll(s).decorators, t), fn) == fn
    ensures UnregisterAll(s).ledger == s.ledger && UnregisterAll(s).log == s.log
  {
  }

  /** A decorator registered after the others for a type ends up innermost
      around every handler later decorated for that type. */
  lemma RegisterWrapsInnermost(s: JediState, eventTypes: string, decorator: DecoratorId, t: string, fn: Value)
    requires Count(Pieces(eventTypes), t) == 1
    ensures Compose(ListFor(Register(s, eventTypes, decorator).decorators, t), fn)
         == Compose(ListFor(s.decorators, t), Wrap(decorator, fn))
  {
    RegisterLookup(s, eventTypes, decorator, t);
    assert Repeat(decorator, 1) == [decorator];
    ComposeAppend(ListFor(s.decorators, t), decorator, fn);
  }

  // ---------------------------------------------------------------------
  // The ledger: `storeDecoratorLookup`

  /** `storeDecoratorLookup($elems, evtType, origFn, decorFn)`. */
  function Store(L: Ledgers, elems: seq<Element>, desc: EventType, orig: Value, decor: Value): Ledgers {
    if orig == decor then L else AppendEach(L, elems, Entry(desc, orig, decor))
  }

  /** Nothing is recorded when decoration changed nothing; otherwise each
      element's ledger keeps its old entries as a prefix and gains exactly
      one new entry at the end per time it occurs in the collection. */
  lemma StoreLookup(L: Ledgers, elems: seq<Element>, desc: EventType, orig: Value, decor: Value, e: Element)
    ensures ListFor(Store(L, elems, desc, orig, decor), e)
      == if orig == decor then ListFor(L, e)
         else ListFor(L, e) + Repeat(Entry(desc, orig, decor), Count(elems, e))
  {
    if orig != decor {
      AppendEachLookup(L, elems, Entry(desc, orig, decor), e);
    }
  }

  // ---------------------------------------------------------------------
  // The `$.fn.bind` override

  /** Its argument shapes: an event-type string, or an events map given as
      its (key, value) pairs in enumeration order. */
  datatype BindEvents = Types(eventType: string) | EventsMap(pairs: seq<(string, Value)>)

  /** The argument shuffling of the string form: a function in the data slot
      is the handler, and `false` in the data slot is the prevent-bubble
      handler. Returns the event data and the handler. */
  function NormalizeBindArgs(eventData: Value, handler: Value): (r: (Value, Value))
    ensures !IsFunction(r.0) && r.0 != False
    ensures r.1 == False <==> (eventData == False || (!IsFunction(eventData) && handler == False))
    ensures r.1 != False ==> r.1 == if IsFunction(eventData) then eventData else handler
    ensures !IsFunction(eventData) && eventData != False ==> r.0 == eventData
    ensures IsFunction(eventData) || eventData == False ==> r.0 == Undefined
  {
    var (data, h) := if IsFunction(eventData) then (Undefined, eventData) else (eventData, handler);
    if data == False then (Undefined, False) else (data, h)
  }

  /** The loop body for one descriptor: decorate, record, bind. */
  function BindDesc(s: JediState, elems: seq<Element>, desc: EventType, data: Value, h: Value): JediState {
    var decor := Compose(ListFor(s.decorators, desc.baseType), h);
    JediState(
      s.decorators,
      Store(s.ledger, elems, desc, h, decor),
      s.log + [HostBind(elems, desc.eventType, data, decor)])
  }

  function BindDescs(s: JediState, elems: seq<Element>, descs: seq<EventType>, data: Value, h: Value): JediState
    decreases |descs|
  {
    if descs == [] then s
    else BindDescs(BindDesc(s, elems, descs[0], data, h), elems, descs[1..], data, h)
  }

  /** `$elems.bind(eventType, eventData, handler)` with a string event type. */
  function BindType(s: JediState, elems: seq<Element>, eventType: string, eventData: Value, handler: Value): JediState {
    var (data, h) := NormalizeBindArgs(eventData, handler);
    if h == False then s.(log := s.log + [HostBind(elems, eventType, data, False)])
    else BindDescs(s, elems, Gets(eventType, None), data, h)
  }

  /** `$elems.bind(events)`: `$elems.bind(key, value)` for each pair in turn. */
  function BindMap(s: JediState, elems: seq<Element>, pairs: seq<(string, Value)>): JediState
    decreases |pairs|
  {
    if pairs == [] then s
    else BindMap(BindType(s, elems, pairs[0].0, pairs[0].1, Undefined), elems, pairs[1..])
  }

  /** The `$.fn.bind` override. */
  function Bind(s: JediState, elems: seq<Element>, events: BindEvents, eventData: Value, handler: Value): JediState {
    match events
    case Types(eventType) => BindType(s, elems, eventType, eventData, handler)
    case EventsMap(pairs) => BindMap(s, elems, pairs)
  }

  /** The host binds issued for a list of descriptors: one per descriptor,
      in order, each with that descriptor's token and the handler decorated
      for that descriptor's base type. */
  function DescBinds(reg: Registry, elems: seq<Element>, descs: seq<EventType>, data: Value, h: Value): (r: seq<HostCall>)
    ensures |r| == |descs|
  {
    seq(|descs|, i requires 0 <= i < |descs| =>
      HostBind(elems, descs[i].eventType, data, Compose(ListFor(reg, descs[i].baseType), h)))
  }

  /** The entries one element gains from a list of descriptors when it occurs
      `n` times in the collection: for each descriptor whose decoration
      changed the handler, `n` copies of its entry. */
  function NewEntries(reg: Registry, descs: seq<EventType>, h: Value, n: nat): seq<Entry>
    decreases |descs|
  {
    if descs == [] then []
    else
      var decor := Compose(ListFor(reg, descs[0].baseType), h);
      (if decor == h then [] else Repeat(Entry(descs[0], h, decor), n)) + NewEntries(reg, descs[1..], h, n)
  }

  /** Binding over a list of descriptors never changes the registry. */
  lemma {:induction false} BindDescsKeepsRegistry(s: JediState, elems: seq<Element>, descs: seq<EventType>, data: Value, h: Value)
    ensures BindDescs(s, elems, descs, data, h).decorators == s.decorators
    decreases |descs|
  {
    if descs != [] {
      BindDescsKeepsRegistry(BindDesc(s, elems, descs[0], data, h), elems, descs[1..], data, h);
    }
  }

  /** The host calls of a bind over a list of descriptors are `DescBinds`. */
  lemma {:induction false} BindDescsLog(s: JediState, elems: seq<Element>, descs: seq<EventType>, data: Value, h: Value)
    ensures BindDescs(s, elems, descs, data, h).log == s.log + DescBinds(s.decorators, elems, descs, data, h)
    decreases |descs|
  {
    if descs == [] {
      assert s.log + [] == s.log;
    } else {
      var s1 := BindDesc(s, elems, descs[0], data, h);
      var decor := Compose(ListFor(s.decorators, descs[0].baseType), h);
      BindDescsLog(s1, elems, descs[1..], data, h);
      var call := HostBind(elems, descs[0].eventType, data, decor);
      var rest := DescBinds(s.decorators, elems, descs[1..], data, h);
      assert s1.log == s.log + [call];
      assert s1.decorators == s.decorators;
      assert DescBinds(s.decorators, elems, descs, data, h) == [call] + rest;
      ConcatAssoc(s.log, [call], rest);
    }
  }

  /** Each element's ledger after a bind over a list of descriptors is its
      old ledger followed by `NewEntries`. */
  lemma {:induction false} BindDescsLedger(s: JediState, elems: seq<Element>, descs: seq<EventType>, data: Value, h: Value, e: Element)
    ensures ListFor(BindDescs(s, elems, descs, data, h).ledger, e)
      == ListFor(s.ledger, e) + NewEntries(s.decorators, descs, h, Count(elems, e))
    decreases |descs|
  {
    if descs == [] {
      assert ListFor(s.ledger, e) + [] == ListFor(s.ledger, e);
    } else {
      var s1 := BindDesc(s, elems, descs[0], data, h);
      var decor := Compose(ListFor(s.decorators, descs[0].baseType), h);
      BindDescsLedger(s1, elems, descs[1..], data, h, e);
      StoreLookup(s.ledger, elems, descs[0], h, decor, e);
      assert s1.decorators == s.decorators;
      var here := if decor == h then [] else Repeat(Entry(descs[0], h, decor), Count(elems, e));
      var rest := NewEntries(s.decorators, descs[1..], h, Count(elems, e));
      assert ListFor(s1.ledger, e) == ListFor(s.ledger, e) + here;
      assert NewEntries(s.decorators, descs, h, Count(elems, e)) == here + rest;
      ConcatAssoc(ListFor(s.ledger, e), here, rest);
    }
  }

  /** A prevent-bubble bind (`false` as the data or as the handler) makes
      exactly one host bind, with the untouched event type, the event data
      and `false`, and does not touch the ledger or the registry. */
  lemma BindTypePreventBubble(s: JediState, elems: seq<Element>, eventType: string, eventData: Value, handler: Value)
    requires eventData == False || (!IsFunction(eventData) && handler == False)
    ensures BindType(s, elems, eventType, eventData, handler)
         == s.(log := s.log + [HostBind(elems, eventType, NormalizeBindArgs(eventData, handler).0, False)])
  {
  }

  /** A bind with a handler issues one host bind per descriptor of
      `EventType.gets(eventType, null)`, in order, carrying the handler
      decorated for that descriptor's base type, and records the entries
      of `NewEntries`; the registry is untouched. */
  lemma BindTypeHandler(s: JediState, elems: seq<Element>, eventType: string, eventData: Value, handler: Value, e: Element)
    requires !(eventData == False || (!IsFunction(eventData) && handler == False))
    ensures var (data, h) := NormalizeBindArgs(eventData, handler);
      var descs := Gets(eventType, None);
      var s' := BindType(s, elems, eventType, eventData, handler);
      && s'.decorators == s.decorators
      && s'.log == s.log + DescBinds(s.decorators, elems, descs, data, h)
      && ListFor(s'.ledger, e) == ListFor(s.ledger, e) + NewEntries(s.decorators, descs, h, Count(elems, e))
  {
    var (data, h) := NormalizeBindArgs(eventData, handler);
    BindDescsKeepsRegistry(s, elems, Gets(eventType, None), data, h);
    BindDescsLog(s, elems, Gets(eventType, None), data, h);
    BindDescsLedger(s, elems, Gets(eventType, None), data, h, e);
  }

  /** No decorator registered for any of the types: the host receives the
      handler itself and no entry is recorded. */
  lemma {:induction false} NoDecoratorsNoEntries(reg: Registry, descs: seq<EventType>, h: Value, n: nat)
    requires forall i | 0 <= i < |descs| :: ListFor(reg, descs[i].baseType) == []
    ensures NewEntries(reg, descs, h, n) == []
    ensures forall i | 0 <= i < |descs| :: Compose(ListFor(reg, descs[i].baseType), h) == h
    decreases |descs|
  {
    if descs != [] {
      NoDecoratorsNoEntries(reg, descs[1..], h, n);
      assert forall i | 1 <= i < |descs| :: descs[1..][i - 1] == descs[i];
    }
  }

  /** No form of bind changes the registry. */
  lemma {:induction false} BindMapKeepsRegistry(s: JediState, elems: seq<Element>, pairs: seq<(string, Value)>)
    ensures BindMap(s, elems, pairs).decorators == s.decorators
    decreases |pairs|
  {
    if pairs != [] {
      var s1 := BindType(s, elems, pairs[0].0, pairs[0].1, Undefined);
      var (data, h) := NormalizeBindArgs(pairs[0].1, Undefined);
      if h != False {
        BindDescsKeepsRegistry(s, elems, Gets(pairs[0].0, None), data, h);
      }
      BindMapKeepsRegistry(s1, elems, pairs[1..]);
    }
  }

  /** In an events map the value is the handler: a pair `(type, fn)`
      binds as `bind(type, undefined, fn)` would. */
  lemma BindMapPairIsHandler(s: JediState, elems: seq<Element>, eventType: string, fn: Value)
    requires IsFunction(fn)
    ensures BindMap(s, elems, [(eventType, fn)]) == BindType(s, elems, eventType, Undefined, fn)
  {
    assert [(eventType, fn)][1..] == [];
  }

  /** `after` extends `before` with host `bind` calls only. */
  predicate OnlyBindsAfter(before: seq<HostCall>, after: seq<HostCall>) {
    before <= after && forall k | |before| <= k < |after| :: after[k].HostBind?
  }

  lemma DescBindsOnlyBinds(log: seq<HostCall>, reg: Registry, elems: seq<Element>, descs: seq<EventType>, data: Value, h: Value)
    ensures OnlyBindsAfter(log, log + DescBinds(reg, elems, descs, data, h))
  {
    var calls := DescBinds(reg, elems, descs, data, h);
    forall k | |log| <= k < |log + calls| ensures (log + calls)[k].HostBind? {
      assert (log + calls)[k] == calls[k - |log|];
    }
  }

  lemma BindTypeOnlyBinds(s: JediState, elems: seq<Element>, eventType: string, eventData: Value, handler: Value)
    ensures OnlyBindsAfter(s.log, BindType(s, elems, eventType, eventData, handler).log)
  {
    var (data, h) := NormalizeBindArgs(eventData, handler);
    if h != False {
      var descs := Gets(eventType, None);
      BindDescsLog(s, elems, descs, data, h);
      DescBindsOnlyBinds(s.log, s.decorators, elems, descs, data, h);
    }
  }

  /** Every host call a bind makes is a `bind` call with a string event
      type: the host never receives the events map itself, and nothing
      is unbound. */
  lemma {:induction false} BindMapOnlyBinds(s: JediState, elems: seq<Element>, pairs: seq<(string, Value)>)
    ensures OnlyBindsAfter(s.log, BindMap(s, elems, pairs).log)
    decreases |pairs|
  {
    if pairs != [] {
      var s1 := BindType(s, elems, pairs[0].0, pairs[0].1, Undefined);
      BindTypeOnlyBinds(s, elems, pairs[0].0, pairs[0].1, Undefined);
      BindMapOnlyBinds(s1, elems, pairs[1..]);
      var l := BindMap(s, elems, pairs).log;
      assert l == BindMap(s1, elems, pairs[1..]).log;
      forall k | |s.log| <= k < |l| ensures l[k].HostBind? {
        if k < |s1.log| {
          assert l[k] == s1.log[k];
        }
      }
    }
  }

  // ---------------------------------------------------------------------
  // Removal: `removeHandler` and `removeHandlers`

  /** `removeHandler($el, evtType, handler, remover)`: an element without a
      ledger is left without one. */
  function PurgeOne(s: JediState, e: Element, req: EventType, handler: Value, remover: Remover): JediState {
    if e in s.ledger then
      JediState(
        s.decorators,
        s.ledger[e := Survivors(s.ledger[e], req, handler)],
        s.log + RemoverCalls(s.ledger[e], req, handler, remover, e))
    else s
  }

  /** `removeHandlers($elems, evtType, handler, remover)`. */
  function PurgeEach(s: JediState, elems: seq<Element>, req: EventType, handler: Value, remover: Remover): JediState
    decreases |elems|
  {
    if elems == [] then s
    else PurgeEach(PurgeOne(s, elems[0], req, handler, remover), elems[1..], req, handler, remover)
  }

  /** Running `removeHandler` twice is running it once: the second pass
      drops nothing and makes no remover call. */
  lemma PurgeOneIdempotent(s: JediState, e: Element, req: EventType, handler: Value, remover: Remover)
    ensures PurgeOne(PurgeOne(s, e, req, handler, remover), e, req, handler, remover)
         == PurgeOne(s, e, req, handler, remover)
  {
    if e in s.ledger {
      var s1 := PurgeOne(s, e, req, handler, remover);
      SurvivorsIdempotent(s.ledger[e], req, handler, remover, e);
      assert s1.log + [] == s1.log;
      assert s1.ledger[e := Survivors(s1.ledger[e], req, handler)] == s1.ledger;
    }
  }

  /** A state where every listed element's ledger has nothing left to drop
      is a fixed point of `removeHandlers`. */
  lemma {:induction false} PurgeEachFixed(s: JediState, elems: seq<Element>, req: EventType, handler: Value, remover: Remover)
    requires forall e | e in elems && e in s.ledger :: forall o | o in s.ledger[e] :: !Drops(req, handler, o)
    ensures PurgeEach(s, elems, req, handler, remover) == s
    decreases |elems|
  {
    if elems != [] {
      var e := elems[0];
      if e in s.ledger {
        NothingToDrop(s.ledger[e], req, handler, remover, e);
        assert s.log + [] == s.log;
        assert s.ledger[e := s.ledger[e]] == s.ledger;
      }
      assert PurgeOne(s, e, req, handler, remover) == s;
      PurgeEachFixed(s, elems[1..], req, handler, remover);
    }
  }

  /** `removeHandlers` leaves each listed element's ledger equal to its
      survivors (an element met twice is purged once, as the second pass
      finds nothing), leaves every other ledger and the registry alone, and
      only appends to the host log. */
  lemma {:induction false} PurgeEachEffect(s: JediState, elems: seq<Element>, req: EventType, handler: Value, remover: Remover)
    ensures var s' := PurgeEach(s, elems, req, handler, remover);
      && s'.decorators == s.decorators
      && s'.ledger.Keys == s.ledger.Keys
      && (forall e | e in s.ledger ::
            s'.ledger[e] == if e in elems then Survivors(s.ledger[e], req, handler) else s.ledger[e])
      && s.log <= s'.log
    decreases |elems|
  {
    if elems != [] {
      var s1 := PurgeOne(s, elems[0], req, handler, remover);
      PurgeEachEffect(s1, elems[1..], req, handler, remover);
      forall e | e in s.ledger && e == elems[0]
        ensures Survivors(s1.ledger[e], req, handler) == Survivors(s.ledger[e], req, handler)
      {
        SurvivorsIdempotent(s.ledger[e], req, handler, remover, e);
      }
    }
  }

  /** Running `removeHandlers` twice is running it once. */
  lemma PurgeEachIdempotent(s: JediState, elems: seq<Element>, req: EventType, handler: Value, remover: Remover)
    ensures PurgeEach(PurgeEach(s, elems, req, handler, remover), elems, req, handler, remover)
         == PurgeEach(s, elems, req, handler, remover)
  {
    var s1 := PurgeEach(s, elems, req, handler, remover);
    PurgeEachEffect(s, elems, req, handler, remover);
    forall e | e in elems && e in s1.ledger
      ensures forall o | o in s1.ledger[e] :: !Drops(req, handler, o)
    {
      assert s1.ledger[e] == Survivors(s.ledger[e], req, handler);
      SurvivorsMembers(s.ledger[e], req, handler);
    }
    PurgeEachFixed(s1, elems, req, handler, remover);
  }

  // ---------------------------------------------------------------------
  // Removal of everything: `removeAllStored`

  /** Every element of the collection has a ledger. */
  predicate AllStored(L: Ledgers, elems: seq<Element>) {
    forall i | 0 <= i < |elems| :: elems[i] in L
  }

  /** `removeAllStored($elems)`: empties each element's ledger in turn and
      stops at the first element without one, where `.splice` is called on
      `undefined` and a `TypeError` is thrown. */
  function TruncateEach(L: Ledgers, elems: seq<Element>): Ledgers
    decreases |elems|
  {
    if elems == [] then L
    else if elems[0] !in L then L
    else TruncateEach(L[elems[0] := []], elems[1..])
  }

  /** When every element has a ledger, exactly the listed elements' ledgers
      are emptied; in any case no ledger is created or removed and each one
      is either untouched or emptied. */
  lemma {:induction false} TruncateEachEffect(L: Ledgers, elems: seq<Element>)
    ensures TruncateEach(L, elems).Keys == L.Keys
    ensures forall e | e in L :: TruncateEach(L, elems)[e] == [] || TruncateEach(L, elems)[e] == L[e]
    ensures AllStored(L, elems) ==>
      forall e | e in L :: TruncateEach(L, elems)[e] == if e in elems then [] else L[e]
    decreases |elems|
  {
    if elems != [] && elems[0] in L {
      TruncateEachEffect(L[elems[0] := []], elems[1..]);
      assert AllStored(L, elems) ==> AllStored(L[elems[0] := []], elems[1..]) by {
        if AllStored(L, elems) {
          forall i | 0 <= i < |elems| - 1 ensures elems[1..][i] in L[elems[0] := []] {
            assert elems[1..][i] == elems[i + 1];
          }
        }
      }
    }
  }

  // ---------------------------------------------------------------------
  // The `$.fn.unbind` override

  /** `getSignatureType(args)`: 1 for `()`, 2 for `(eventType)`, 3 for
      `(eventType, handler)`, 4 for `(eventType, false)`, 5 for `(event)`
      and -1 for anything else. A missing second argument is `undefined`. */
  function SignatureType(args: seq<Value>): (r: int)
    ensures r == 1 <==> args == []
    ensures r == 3 <==> |args| >= 2 && args[0].Str? && IsFunction(args[1])
    ensures r == 4 <==> |args| >= 2 && args[0].Str? && args[1] == False
    ensures r == 2 <==> args != [] && args[0].Str? && !(|args| >= 2 && (IsFunction(args[1]) || args[1] == False))
    ensures r == 5 <==> args != [] && args[0].JQEvent?
    ensures r == -1 <==> args != [] && !args[0].Str? && !args[0].JQEvent?
  {
    if |args| == 0 then 1
    else if args[0].Str? then
      if |args| >= 2 && IsFunction(args[1]) then 3
      else if |args| >= 2 && args[1] == False then 4
      else 2
    else if args[0].JQEvent? then 5
    else -1
  }

  /** The event-type string rebuilt from a `$.Event`: its type, then `.` and
      its namespace when it has one. */
  function EventString(ev: Value): string
    requires ev.JQEvent?
  {
    ev.name + if ev.namespace != "" then "." + ev.namespace else ""
  }

  /** The removal request and handler of signatures 2, 3 and 5; none for the
      other signatures. */
  function UnbindRequest(args: seq<Value>): Option<(EventType, Value)> {
    var signature := SignatureType(args);
    if signature == 3 then Some((Get(args[0].s, None), args[1]))
    else if signature == 2 then Some((Get(args[0].s, None), Undefined))
    else if signature == 5 then Some((Get(EventString(args[0]), None), Undefined))
    else None
  }

  /** `.unbind()` throws when some element of the collection has no ledger. */
  predicate UnbindThrows(s: JediState, elems: seq<Element>, args: seq<Value>) {
    SignatureType(args) == 1 && !AllStored(s.ledger, elems)
  }

  /** The `$.fn.unbind` override. */
  function Unbind(s: JediState, elems: seq<Element>, args: seq<Value>): JediState {
    if SignatureType(args) == 1 then
      var L := TruncateEach(s.ledger, elems);
      if AllStored(s.ledger, elems) then JediState(s.decorators, L, s.log + [HostUnbind(elems, args)])
      else s.(ledger := L)
    else
      var s1 := match UnbindRequest(args)
        case Some((req, h)) => PurgeEach(s, elems, req, h, UnbindRemover)
        case None => s;
      s1.(log := s1.log + [HostUnbind(elems, args)])
  }

  /** Unless it throws, `unbind` ends with the host `unbind` receiving the
      original arguments; it never changes the registry. When it throws,
      the host is not called at all. */
  lemma UnbindForwards(s: JediState, elems: seq<Element>, args: seq<Value>)
    ensures Unbind(s, elems, args).decorators == s.decorators
    ensures !UnbindThrows(s, elems, args) ==>
      |Unbind(s, elems, args).log| > |s.log|
      && Unbind(s, elems, args).log[|Unbind(s, elems, args).log| - 1] == HostUnbind(elems, args)
    ensures UnbindThrows(s, elems, args) ==> Unbind(s, elems, args).log == s.log
  {
    var r := UnbindRequest(args);
    if SignatureType(args) != 1 && r.Some? {
      PurgeEachEffect(s, elems, r.value.0, r.value.1, UnbindRemover);
    }
  }

  /** Only `.unbind()` truncates ledgers; `(eventType)`, `(eventType,
      handler)` and `(event)` purge the hit entries; `(eventType, false)` and
      unknown signatures leave every ledger as it was. */
  lemma UnbindLedger(s: JediState, elems: seq<Element>, args: seq<Value>)
    ensures SignatureType(args) == 1 ==> Unbind(s, elems, args).ledger == TruncateEach(s.ledger, elems)
    ensures SignatureType(args) in {2, 3, 5} ==>
      UnbindRequest(args).Some? &&
      Unbind(s, elems, args).ledger
        == PurgeEach(s, elems, UnbindRequest(args).value.0, UnbindRequest(args).value.1, UnbindRemover).ledger
    ensures SignatureType(args) in {4, -1} ==> Unbind(s, elems, args).ledger == s.ledger
  {
    var sig := SignatureType(args);
    if sig != 1 {
      match UnbindRequest(args)
      case Some((req, h)) =>
        assert sig in {2, 3, 5};
        assert Unbind(s, elems, args).ledger == PurgeEach(s, elems, req, h, UnbindRemover).ledger;
      case None =>
        assert sig in {4, -1};
        assert Unbind(s, elems, args).ledger == s.ledger;
    }
  }

  /** Unbinding twice with a type (and handler, or event) is idempotent on the
      ledgers, and the second call makes no remover call: its only host call
      is the final forwarded `unbind`. */
  lemma UnbindTwice(s: JediState, elems: seq<Element>, args: seq<Value>)
    requires SignatureType(args) in {2, 3, 5}
    ensures var s1 := Unbind(s, elems, args);
      Unbind(s1, elems, args) == s1.(log := s1.log + [HostUnbind(elems, args)])
  {
    var (req, h) := UnbindRequest(args).value;
    var p := PurgeEach(s, elems, req, h, UnbindRemover);
    var s1 := Unbind(s, elems, args);
    assert s1 == p.(log := p.log + [HostUnbind(elems, args)]);
    PurgeEachEffect(s, elems, req, h, UnbindRemover);
    forall e | e in elems && e in s1.ledger
      ensures forall o | o in s1.ledger[e] :: !Drops(req, h, o)
    {
      assert s1.ledger[e] == Survivors(s.ledger[e], req, h);
      SurvivorsMembers(s.ledger[e], req, h);
    }
    PurgeEachFixed(s1, elems, req, h, UnbindRemover);
  }

  // ---------------------------------------------------------------------
  // The `$.fn.die` override

  /** Its argument shapes: `()`, or `(eventType[, handler])` with a missing
      handler given as `Undefined`. */
  datatype DieArgs = NoArgs | DieWith(eventType: string, handler: Value)

  /** The `$.fn.die` override. */
  function Die(s: JediState, elems: seq<Element>, args: DieArgs): JediState {
    match args
    case NoArgs => s.(ledger := TruncateEach(s.ledger, elems))
    case DieWith(eventType, handler) => PurgeEach(s, elems, Get(eventType, None), handler, DieRemover)
  }

  predicate DieThrows(s: JediState, elems: seq<Element>, args: DieArgs) {
    args.NoArgs? && !AllStored(s.ledger, elems)
  }

  /** `.die()` only truncates ledgers and calls nothing on the host; with
      arguments it purges, and its only host calls are the remover calls. */
  /** `removeHandlers` appends to the host log only calls of its remover. */
  lemma {:induction false} PurgeEachOnlyRemoverCalls(s: JediState, elems: seq<Element>, req: EventType, handler: Value, remover: Remover)
    ensures var log' := PurgeEach(s, elems, req, handler, remover).log;
      && s.log <= log'
      && forall k | |s.log| <= k < |log'| :: CallOf(remover, log'[k])
    decreases |elems|
  {
    if elems != [] {
      var s1 := PurgeOne(s, elems[0], req, handler, remover);
      PurgeEachOnlyRemoverCalls(s1, elems[1..], req, handler, remover);
      if elems[0] in s.ledger {
        RemoverCallsOf(s.ledger[elems[0]], req, handler, remover, elems[0]);
      }
    }
  }

  /** Without a handler nothing is forwarded, so `removeHandlers` leaves the
      host log as it was. */
  lemma {:induction false} PurgeEachNoHandlerNoCalls(s: JediState, elems: seq<Element>, req: EventType, handler: Value, remover: Remover)
    requires !Truthy(handler)
    ensures PurgeEach(s, elems, req, handler, remover).log == s.log
    decreases |elems|
  {
    if elems != [] {
      var s1 := PurgeOne(s, elems[0], req, handler, remover);
      if elems[0] in s.ledger {
        ForwardedAreDropped(s.ledger[elems[0]], req, handler);
        RemoverCallsReverse(s.ledger[elems[0]], req, handler, remover, elems[0]);
        assert s.log + [] == s.log;
      }
      PurgeEachNoHandlerNoCalls(s1, elems[1..], req, handler, remover);
    }
  }

  /** The calls `removeHandlers` makes over `elems`, read off the ledgers
      alone; each element's pass sees the ledger the earlier passes left. */
  function PurgeCalls(L: Ledgers, elems: seq<Element>, req: EventType, handler: Value, remover: Remover): seq<HostCall>
    decreases |elems|
  {
    if elems == [] then []
    else if elems[0] in L then
      RemoverCalls(L[elems[0]], req, handler, remover, elems[0])
        + PurgeCalls(L[elems[0] := Survivors(L[elems[0]], req, handler)], elems[1..], req, handler, remover)
    else PurgeCalls(L, elems[1..], req, handler, remover)
  }

  /** `c` is a call of `remover` on a single element of `elems`, for the
      event type `eventType`. */
  predicate PassCall(remover: Remover, c: HostCall, elems: seq<Element>, eventType: string) {
    && CallOf(remover, c)
    && |c.elems| == 1 && c.elems[0] in elems
    && |c.args| == 2 && c.args[0] == Str(eventType)
  }

  /** The log `removeHandlers` leaves is the old log followed by exactly the
      calls `PurgeCalls` reads off the old ledgers. */
  lemma {:induction false} PurgeEachLog(s: JediState, elems: seq<Element>, req: EventType, handler: Value, remover: Remover)
    ensures PurgeEach(s, elems, req, handler, remover).log == s.log + PurgeCalls(s.ledger, elems, req, handler, remover)
    decreases |elems|
  {
    if elems != [] {
      var e := elems[0];
      var s1 := PurgeOne(s, e, req, handler, remover);
      PurgeEachLog(s1, elems[1..], req, handler, remover);
      if e in s.ledger {
        ConcatAssoc(s.log, RemoverCalls(s.ledger[e], req, handler, remover, e),
                    PurgeCalls(s1.ledger, elems[1..], req, handler, remover));
      }
    }
  }

  /** Every call `removeHandlers` makes is its remover's call on one element
      of the collection, for the requested event type: the collection and
      the handler it was given are never passed on whole. */
  lemma {:induction false} PurgeCallsShape(L: Ledgers, elems: seq<Element>, req: EventType, handler: Value, remover: Remover)
    ensures forall k | 0 <= k < |PurgeCalls(L, elems, req, handler, remover)| ::
      PassCall(remover, PurgeCalls(L, elems, req, handler, remover)[k], elems, req.eventType)
    decreases |elems|
  {
    if elems != [] {
      var e := elems[0];
      var rest := elems[1..];
      assert forall x | x in rest :: x in elems;
      if e in L {
        var L1 := L[e := Survivors(L[e], req, handler)];
        var first := RemoverCalls(L[e], req, handler, remover, e);
        var later := PurgeCalls(L1, rest, req, handler, remover);
        PurgeCallsShape(L1, rest, req, handler, remover);
        RemoverCallsOf(L[e], req, handler, remover, e);
        assert PurgeCalls(L, elems, req, handler, remover) == first + later;
        forall k | 0 <= k < |first + later|
          ensures PassCall(remover, (first + later)[k], elems, req.eventType)
        {
          if k < |first| {
            assert (first + later)[k] == first[k];
          } else {
            assert (first + later)[k] == later[k - |first|];
          }
        }
      } else {
        PurgeCallsShape(L, rest, req, handler, remover);
      }
    }
  }

  lemma DieEffect(s: JediState, elems: seq<Element>, args: DieArgs)
    ensures Die(s, elems, args).decorators == s.decorators
    ensures args.NoArgs? ==> Die(s, elems, args) == s.(ledger := TruncateEach(s.ledger, elems))
    ensures args.DieWith? ==> s.log <= Die(s, elems, args).log
    ensures args.DieWith? ==>
      forall k | |s.log| <= k < |Die(s, elems, args).log| :: Die(s, elems, args).log[k].HostDie?
    ensures args.DieWith? ==>
      Die(s, elems, args).log == s.log + PurgeCalls(s.ledger, elems, Get(args.eventType, None), args.handler, DieRemover)
    ensures args.DieWith? && !Truthy(args.handler) ==> Die(s, elems, args).log == s.log
  {
    if args.DieWith? {
      var req := Get(args.eventType, None);
      PurgeEachEffect(s, elems, req, args.handler, DieRemover);
      PurgeEachOnlyRemoverCalls(s, elems, req, args.handler, DieRemover);
      PurgeEachLog(s, elems, req, args.handler, DieRemover);
      if !Truthy(args.handler) {
        PurgeEachNoHandlerNoCalls(s, elems, req, args.handler, DieRemover);
      }
    }
  }

  // ---------------------------------------------------------------------
  // Reverse lookup: what an unbind by original handler finds

  /** The descriptor of a token `t.n` without white space. */
  lemma GetOneNamespace(t: string, n: string)
    requires t != [] && n != [] && NoSpace(t) && NoSpace(n) && '.' !in t && '.' !in n
    ensures NoSpace(Trim(t + "." + n))
    ensures Get(t + "." + n, None) == EventType(t + "." + n, t, [n], None)
  {
    var tok := t + "." + n;
    assert !IsSpace('.');
    assert NoSpace(tok) by {
      forall i | 0 <= i < |tok| ensures !IsSpace(tok[i]) {
        if i < |t| { assert tok[i] == t[i]; }
        else if i > |t| { assert tok[i] == n[i - |t| - 1]; }
      }
    }
    assert Trim(tok) == tok;
    assert Join([t, n], '.') == tok by {
      assert [t, n][1..] == [n];
    }
    assert [t] + [n] == [t, n];
    GetRebuilds(EventType(tok, t, [n], None));
  }

  /** The descriptor of a bare type `t`: no namespaces. */
  lemma GetBareType(t: string)
    requires t != [] && NoSpace(t) && '.' !in t
    ensures Get(t, None) == EventType(t, t, [], None)
  {
    SplitWithoutSeparator(t, '.');
    assert t[0] in t && t[|t| - 1] in t;
    assert Trim(t) == t;
  }

  /** `.bind(tok, h)` on one element without a ledger, for a token that
      parses to the single descriptor `d` whose type has decorators: one
      host bind of the decorated function and one entry recording it. */
  lemma BindSingleDescriptor(s: JediState, e: Element, tok: string, d: EventType, h: Value)
    requires Gets(tok, None) == [d]
    requires e !in s.ledger
    requires ListFor(s.decorators, d.baseType) != []
    requires IsFunction(h)
    ensures var D := Compose(ListFor(s.decorators, d.baseType), h);
      && D != h
      && Bind(s, [e], Types(tok), h, Undefined)
         == JediState(s.decorators, s.ledger[e := [Entry(d, h, D)]], s.log + [HostBind([e], d.eventType, Undefined, D)])
  {
    var D := Compose(ListFor(s.decorators, d.baseType), h);
    ComposeIsIdentity(ListFor(s.decorators, d.baseType), h);
    var o := Entry(d, h, D);
    assert NormalizeBindArgs(h, Undefined) == (Undefined, h);
    assert [d][1..] == [];
    assert AppendEach(s.ledger, [e], o) == s.ledger[e := [o]] by {
      assert [e][1..] == [];
      assert ListFor(s.ledger, e) + [o] == [o];
    }
    assert BindDescs(s, [e], [d], Undefined, h) == BindDesc(s, [e], d, Undefined, h);
  }

  /** The same for the token `t.n`. */
  lemma BindOneToken(s: JediState, e: Element, t: string, n: string, h: Value)
    requires t != [] && n != [] && NoSpace(t) && NoSpace(n) && '.' !in t && '.' !in n
    requires e !in s.ledger
    requires ListFor(s.decorators, t) != []
    requires IsFunction(h)
    ensures var D := Compose(ListFor(s.decorators, t), h);
      var d := EventType(t + "." + n, t, [n], None);
      && D != h
      && Bind(s, [e], Types(t + "." + n), h, Undefined)
         == JediState(s.decorators, s.ledger[e := [Entry(d, h, D)]], s.log + [HostBind([e], t + "." + n, Undefined, D)])
  {
    var tok := t + "." + n;
    GetOneNamespace(t, n);
    GetsOneToken(tok, None);
    BindSingleDescriptor(s, e, tok, EventType(tok, t, [n], None), h);
  }

  /** `.unbind("t", h)` on one element whose ledger holds one entry for `h`
      of type `t`: one host unbind of that entry's decorated function, then
      the forwarded call, and the entry is gone. */
  lemma UnbindOneEntry(s: JediState, e: Element, t: string, o: Entry, h: Value)
    requires t != [] && NoSpace(t) && '.' !in t
    requires e in s.ledger && s.ledger[e] == [o]
    requires o.desc.baseType == t && o.original == h
    requires IsFunction(h)
    ensures Unbind(s, [e], [Str(t), h])
         == JediState(s.decorators, s.ledger[e := []],
                      s.log + [HostUnbind([e], [Str(t), o.decorated]), HostUnbind([e], [Str(t), h])])
  {
    GetBareType(t);
    var req := EventType(t, t, [], None);
    assert SignatureType([Str(t), h]) == 3;
    assert UnbindRequest([Str(t), h]) == Some((req, h));
    assert IsHit(req, o.desc) && Drops(req, h, o) && Forwards(req, h, o);
    assert [o][1..] == [];
    assert Survivors([o], req, h) == [];
    assert RemoverCalls([o], req, h, UnbindRemover, e) == [HostUnbind([e], [Str(t), o.decorated])];
    assert [e][1..] == [];
    assert PurgeEach(s, [e], req, h, UnbindRemover) == PurgeOne(s, e, req, h, UnbindRemover);
  }

  /** The second half of binding `h` for `t.n` on one element while `t` has
      decorators and then unbinding `(t, h)`: from the state that
      `BindOneToken` shows the bind leaves (one host bind of the decorated
      function `D`, one entry `h -> D`), the unbind makes one host unbind of
      `D` itself (not of `h`), found through the ledger, and last forwards
      its own arguments unchanged. The element's ledger ends empty and the
      registry is untouched. */
  lemma ReverseLookupRoundTrip(s: JediState, e: Element, t: string, n: string, h: Value)
    requires t != [] && n != [] && NoSpace(t) && NoSpace(n) && '.' !in t && '.' !in n
    requires e !in s.ledger
    requires ListFor(s.decorators, t) != []
    requires IsFunction(h)
    ensures var D := Compose(ListFor(s.decorators, t), h);
      var bound := HostBind([e], t + "." + n, Undefined, D);
      var s1 := JediState(s.decorators, s.ledger[e := [Entry(EventType(t + "." + n, t, [n], None), h, D)]], s.log + [bound]);
      && D != h
      && Unbind(s1, [e], [Str(t), h])
         == JediState(s.decorators, s.ledger[e := []],
                      s.log + [bound, HostUnbind([e], [Str(t), D]), HostUnbind([e], [Str(t), h])])
  {
    var D := Compose(ListFor(s.decorators, t), h);
    var d := EventType(t + "." + n, t, [n], None);
    var b := HostBind([e], t + "." + n, Undefined, D);
    var s1 := JediState(s.decorators, s.ledger[e := [Entry(d, h, D)]], s.log + [b]);
    var u1, u2 := HostUnbind([e], [Str(t), D]), HostUnbind([e], [Str(t), h]);
    ComposeIsIdentity(ListFor(s.decorators, t), h);
    UnbindOneEntry(s1, e, t, Entry(d, h, D), h);
    AppendThree(s.log, b, u1, u2);
    UpdateTwice(s.ledger, e, [Entry(d, h, D)], []);
  }

  /** `.unbind(".n")` keeps, on each element of the collection, exactly the
      entries that do not carry namespace `n`, whatever their type. */
  lemma UnbindNamespaceOnly(s: JediState, elems: seq<Element>, n: string, e: Element)
    requires NoSpace(n) && '.' !in n
    requires e in elems && e in s.ledger
    ensures var s' := Unbind(s, elems, [Str("." + n)]);
      && e in s'.ledger
      && forall o :: o in s'.ledger[e] <==> o in s.ledger[e] && n !in o.desc.namespaces
  {
    var args := [Str("." + n)];
    var req := Get("." + n, None);
    assert SignatureType(args) == 2;
    assert UnbindRequest(args) == Some((req, Undefined));
    UnbindLedger(s, elems, args);
    PurgeEachEffect(s, elems, req, Undefined, UnbindRemover);
    SurvivorsMembers(s.ledger[e], req, Undefined);
    forall o ensures Drops(req, Undefined, o) <==> n in o.desc.namespaces {
      NamespaceOnlyHits(n, o.desc);
    }
  }

  // ---------------------------------------------------------------------
  // A scenario: the order of decorators

  lemma CountPair(a: string, b: string)
    requires a != b
    ensures Count([a, b], a) == 1 && Count([a, b], b) == 1
  {
    var ks := [a, b];
    assert ks[1..] == [b] && ks[1..][1..] == [];
    assert Count([b], a) == 0 && Count([b], b) == 1;
  }

  /** `$.jedi(a + " " + b, d0)` and then `$.jedi(a, d1)` on an empty registry:
      a handler bound for `a` reaches the host as `d0(d1(fn))`, the older
      decorator outermost, and one bound for `b` as `d0(fn)`. */
  lemma DecoratorOrder(s: JediState, a: string, b: string, d0: DecoratorId, d1: DecoratorId, fn: Value)
    requires a != [] && b != [] && NoSpace(a) && NoSpace(b) && a != b
    requires s.decorators == map[]
    ensures var r := Register(Register(s, a + " " + b, d0), a, d1).decorators;
      && Compose(ListFor(r, a), fn) == Wrap(d0, Wrap(d1, fn))
      && Compose(ListFor(r, b), fn) == Wrap(d0, fn)
  {
    PiecesOfTwoTokens(a, b);
    assert Trim(a) == a && NoSpace(Trim(a)) by {
      assert a[0] in a && a[|a| - 1] in a;
    }
    PiecesOfOneToken(a);
    var s1 := Register(s, a + " " + b, d0);
    RegisterLookup(s, a + " " + b, d0, a);
    RegisterLookup(s, a + " " + b, d0, b);
    CountPair(a, b);
    assert Repeat(d0, 1) == [d0];
    RegisterLookup(s1, a, d1, a);
    RegisterLookup(s1, a, d1, b);
    assert [a][1..] == [] && Count([a][1..], a) == 0 && Count([a][1..], b) == 0;
    assert Count([a], a) == 1 && Count([a], b) == 0;
    assert Repeat(d1, 1) == [d1] && Repeat(d1, 0) == [];
    var r := Register(s1, a, d1).decorators;
    assert ListFor(r, a) == [d0, d1] && ListFor(r, b) == [d0];
    assert [d0, d1][1..] == [d1] && [d1][1..] == [] && [d0][1..] == [];
    assert Compose([d1], fn) == Wrap(d1, fn) && Compose([d0], fn) == Wrap(d0, fn);
    assert Compose([d0, d1], fn) == Wrap(d0, Compose([d1], fn));
  }
}
