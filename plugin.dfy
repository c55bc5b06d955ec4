/** The plugin's mutable side: the closure state that `$.jedi`, `$.unjedi`
    and the overrides share (the `decorators` object, each element's
    `js-jedi` data, and the calls made into jQuery's own methods), with one
    method per function of the plugin. Each method is proved to move the
    state exactly as the matching function of `JediSpec` says. */
module Plugin {
  import opened Handlers
  import opened Multimap
  import opened EventTypes
  import opened Host
  import opened Ledger
  import opened JediSpec

  class JediContext {
    var decorators: Registry
    var ledger: Ledgers
    /** Every call made so far into jQuery's original `bind`, `unbind` and `die`. */
    var log: seq<HostCall>

    function State(): JediState
      reads this
    {
      JediState(decorators, ledger, log)
    }

    /** The plugin as loaded: no decorators, no ledgers, no calls yet. */
    constructor ()
      ensures State() == JediState(map[], map[], [])
    {
      decorators := map[];
      ledger := map[];
      log := [];
    }

    /** `decorate(type, fn)`: wraps `fn` in the decorators of `type`, walking
        the list from its end so that the oldest decorator ends up outermost. */
    method Decorate(baseType: string, fn: Value) returns (out: Value)
      ensures out == Compose(ListFor(decorators, baseType), fn)
    {
      var decors := ListFor(decorators, baseType);
      out := fn;
      var i := |decors|;
      while i > 0
        invariant 0 <= i <= |decors|
        invariant out == Compose(decors[i..], fn)
      {
        assert decors[i - 1..][1..] == decors[i..];
        out := Wrap(decors[i - 1], out);
        i := i - 1;
      }
    }

    /** `$.jedi(eventTypes, decorator)`. */
    method Jedi(eventTypes: string, decorator: DecoratorId)
      modifies this
      ensures State() == Register(old(State()), eventTypes, decorator)
    {
      var types := Strings.Pieces(eventTypes);
      var i := 0;
      while i < |types|
        invariant 0 <= i <= |types|
        invariant AppendEach(decorators, types[i..], decorator) == AppendEach(old(decorators), types, decorator)
        invariant ledger == old(ledger) && log == old(log)
      {
        var t := types[i];
        AppendEachStep(decorators, types, i, decorator);
        // a missing list is created empty, then the decorator is pushed on
        var list := if t in decorators then decorators[t] else [];
        decorators := decorators[t := list + [decorator]];
        i := i + 1;
      }
    }

    /** `$.unjedi()`. */
    method Unjedi()
      modifies this
      ensures State() == UnregisterAll(old(State()))
    {
      decorators := map[];
    }

    /** `storeDecoratorLookup($elems, evtType, origFn, decorFn)`. */
    method StoreDecoratorLookup(elems: seq<Element>, desc: EventType, orig: Value, decor: Value)
      modifies this
      ensures State() == old(State()).(ledger := Store(old(ledger), elems, desc, orig, decor))
    {
      if orig == decor {
        return;
      }
      var o := Entry(desc, orig, decor);
      var i := 0;
      while i < |elems|
        invariant 0 <= i <= |elems|
        invariant AppendEach(ledger, elems[i..], o) == AppendEach(old(ledger), elems, o)
        invariant decorators == old(decorators) && log == old(log)
      {
        var e := elems[i];
        AppendEachStep(ledger, elems, i, o);
        var data := if e in ledger then ledger[e] else [];
        data := data + [o];
        ledger := ledger[e := data];
        i := i + 1;
      }
    }

    /** `removeHandler($el, evtType, handler, remover)`: walks the element's
        entries from the last one back, splicing out the dropped ones and
        calling the remover for the forwarded ones. The walk reads nothing
        from the host, so its remover calls are collected in `calls` and
        appended to the log in the order they were made. */
    method RemoveHandler(e: Element, req: EventType, handler: Value, remover: Remover)
      modifies this
      ensures State() == PurgeOne(old(State()), e, req, handler, remover)
    {
      var data := if e in ledger then ledger[e] else [];
      ghost var orig := data;
      var calls: seq<HostCall> := [];
      var i := |data|;
      assert orig[i..] == [] && orig[..i] == orig;
      while i > 0
        invariant Walked(orig, i, data, [], calls, req, handler, remover, e)
        modifies {}
      {
        WalkStep(orig, i, data, [], calls, req, handler, remover, e);
        var o := data[i - 1];
        if Drops(req, handler, o) {
          data := data[..i - 1] + data[i..];
        }
        if Forwards(req, handler, o) {
          calls := calls + [RemoverCall(remover, e, req.eventType, o.decorated)];
        }
        i := i - 1;
      }
      WalkDone(orig, data, [], calls, req, handler, remover, e);
      assert calls == RemoverCalls(orig, req, handler, remover, e);
      if e in ledger {
        ledger := ledger[e := data];
        log := log + calls;
      }
    }

    /** `removeHandlers($elems, evtType, handler, remover)`. */
    method RemoveHandlers(elems: seq<Element>, req: EventType, handler: Value, remover: Remover)
      modifies this
      ensures State() == PurgeEach(old(State()), elems, req, handler, remover)
    {
      var i := 0;
      while i < |elems|
        invariant 0 <= i <= |elems|
        invariant PurgeEach(State(), elems[i..], req, handler, remover)
               == PurgeEach(old(State()), elems, req, handler, remover)
      {
        assert elems[i..][0] == elems[i] && elems[i..][1..] == elems[i + 1..];
        RemoveHandler(elems[i], req, handler, remover);
        i := i + 1;
      }
    }

    /** `removeAllStored($elems)`: `ok` is false when an element without a
        ledger was met, where the source's `.splice` on `undefined` throws;
        the elements before it have been emptied by then. */
    method RemoveAllStored(elems: seq<Element>) returns (ok: bool)
      modifies this
      ensures ok == AllStored(old(ledger), elems)
      ensures State() == old(State()).(ledger := TruncateEach(old(ledger), elems))
    {
      var i := 0;
      while i < |elems|
        invariant 0 <= i <= |elems|
        invariant TruncateEach(ledger, elems[i..]) == TruncateEach(old(ledger), elems)
        invariant ledger.Keys == old(ledger).Keys
        invariant AllStored(old(ledger), elems[..i])
        invariant decorators == old(decorators) && log == old(log)
      {
        var e := elems[i];
        assert elems[i..][0] == e && elems[i..][1..] == elems[i + 1..];
        if e !in ledger {
          assert !AllStored(old(ledger), elems) by {
            assert elems[i] !in old(ledger);
          }
          return false;
        }
        ledger := ledger[e := []];
        assert elems[..i + 1] == elems[..i] + [e];
        i := i + 1;
      }
      assert elems[..i] == elems;
      return true;
    }

    /** The loop of the string form over `EventType.gets(eventType, null)`:
        decorate the handler for each descriptor's base type, record the
        entry, bind the descriptor's token. */
    method BindDescriptors(elems: seq<Element>, descs: seq<EventType>, data: Value, h: Value)
      modifies this
      ensures State() == BindDescs(old(State()), elems, descs, data, h)
    {
      var i := 0;
      while i < |descs|
        invariant 0 <= i <= |descs|
        invariant BindDescs(State(), elems, descs[i..], data, h) == BindDescs(old(State()), elems, descs, data, h)
      {
        var desc := descs[i];
        assert descs[i..][0] == desc && descs[i..][1..] == descs[i + 1..];
        var decor := Decorate(desc.baseType, h);
        StoreDecoratorLookup(elems, desc, h, decor);
        log := log + [HostBind(elems, desc.eventType, data, decor)];
        i := i + 1;
      }
    }

    /** The string form of the `$.fn.bind` override. */
    method BindString(elems: seq<Element>, eventType: string, eventData: Value, handler: Value)
      modifies this
      ensures State() == BindType(old(State()), elems, eventType, eventData, handler)
    {
      var data, h := eventData, handler;
      if IsFunction(data) {
        h := data;
        data := Undefined;
      }
      if data == False {
        h := False;
        data := Undefined;
      }
      assert (data, h) == NormalizeBindArgs(eventData, handler);
      if h == False {
        log := log + [HostBind(elems, eventType, data, False)];
        return;
      }
      BindDescriptors(elems, Gets(eventType, None), data, h);
    }

    /** The `$.fn.bind` override; it returns the collection it was called on.
        The events-map form binds each (type, value) pair with the value in
        the data slot, which the string form then treats as the handler. */
    method Bind(elems: seq<Element>, events: BindEvents, eventData: Value, handler: Value) returns (r: seq<Element>)
      modifies this
      ensures r == elems
      ensures State() == JediSpec.Bind(old(State()), elems, events, eventData, handler)
    {
      match events {
        case Types(eventType) =>
          BindString(elems, eventType, eventData, handler);
        case EventsMap(pairs) =>
          var i := 0;
          while i < |pairs|
            invariant 0 <= i <= |pairs|
            invariant BindMap(State(), elems, pairs[i..]) == BindMap(old(State()), elems, pairs)
          {
            assert pairs[i..][0] == pairs[i] && pairs[i..][1..] == pairs[i + 1..];
            BindString(elems, pairs[i].0, pairs[i].1, Undefined);
            i := i + 1;
          }
      }
      return elems;
    }

    /** The `$.fn.unbind` override. */
    method Unbind(elems: seq<Element>, args: seq<Value>) returns (r: Completion)
      modifies this
      ensures r == if UnbindThrows(old(State()), elems, args) then ThrewTypeError else Returned(elems)
      ensures State() == JediSpec.Unbind(old(State()), elems, args)
    {
      var signature := SignatureType(args);
      var evtType: Option<EventType> := None;
      var h := Undefined;
      if signature == 1 {
        var ok := RemoveAllStored(elems);
        if !ok {
          return ThrewTypeError;
        }
      } else if signature == 3 {
        h := args[1];
        evtType := Some(Get(args[0].s, None));
      } else if signature == 2 {
        evtType := Some(Get(args[0].s, None));
      } else if signature == 5 {
        evtType := Some(Get(EventString(args[0]), None));
      }
      if evtType.Some? {
        RemoveHandlers(elems, evtType.value, h, UnbindRemover);
      }
      log := log + [HostUnbind(elems, args)];
      return Returned(elems);
    }

    /** The `$.fn.die` override. */
    method Die(elems: seq<Element>, args: DieArgs) returns (r: Completion)
      modifies this
      ensures r == if DieThrows(old(State()), elems, args) then ThrewTypeError else Returned(elems)
      ensures State() == JediSpec.Die(old(State()), elems, args)
    {
      if args.NoArgs? {
        var ok := RemoveAllStored(elems);
        return if ok then Returned(elems) else ThrewTypeError;
      }
      RemoveHandlers(elems, Get(args.eventType, None), args.handler, DieRemover);
      return Returned(elems);
    }
  }
}
