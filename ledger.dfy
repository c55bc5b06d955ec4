/** The per-element ledger kept under the data key `js-jedi`: one entry per
    decorated binding, mapping the caller's handler to the function that was
    actually bound. This module holds what one `removeHandler` pass does to
    one element's entries. */
module Ledger {
  import opened Handlers
  import opened EventTypes
  import opened Host

  /** `{eventType, namespaces, type, selector, original, decorated}`; the
      first four fields are those of the descriptor `desc` the entry was
      recorded for. */
  datatype Entry = Entry(desc: EventType, original: Value, decorated: Value)

  /** The entries a pass drops: those hit by the request that were bound with
      `handler`, or every hit entry when no handler is given. */
  predicate Drops(req: EventType, handler: Value, o: Entry) {
    IsHit(req, o.desc) && (!Truthy(handler) || handler == o.original)
  }

  /** The entries whose decorated function a pass hands to the remover. */
  predicate Forwards(req: EventType, handler: Value, o: Entry) {
    IsHit(req, o.desc) && Truthy(handler) && handler == o.original
  }

  /** The entries a pass keeps, in their old order. */
  function Survivors(s: seq<Entry>, req: EventType, handler: Value): seq<Entry>
    decreases |s|
  {
    if s == [] then []
    else (if Drops(req, handler, s[0]) then [] else [s[0]]) + Survivors(s[1..], req, handler)
  }

  /** The survivors are exactly the entries not dropped. */
  lemma {:induction false} SurvivorsMembers(s: seq<Entry>, req: EventType, handler: Value)
    ensures |Survivors(s, req, handler)| <= |s|
    ensures forall o :: o in Survivors(s, req, handler) <==> o in s && !Drops(req, handler, o)
    decreases |s|
  {
    if s != [] {
      SurvivorsMembers(s[1..], req, handler);
      assert forall o :: o in s <==> o == s[0] || o in s[1..] by {
        assert s == [s[0]] + s[1..];
      }
    }
  }

  /** The entries a pass forwards, in ledger order. */
  function Forwarded(s: seq<Entry>, req: EventType, handler: Value): seq<Entry>
    decreases |s|
  {
    if s == [] then []
    else (if Forwards(req, handler, s[0]) then [s[0]] else []) + Forwarded(s[1..], req, handler)
  }

  /** The remover calls of a pass. The pass walks the entries from the last
      one back to the first, so the call for a later entry comes first. */
  function RemoverCalls(s: seq<Entry>, req: EventType, handler: Value, remover: Remover, e: Element): seq<HostCall>
    decreases |s|
  {
    if s == [] then []
    else
      RemoverCalls(s[1..], req, handler, remover, e)
        + (if Forwards(req, handler, s[0]) then [RemoverCall(remover, e, req.eventType, s[0].decorated)] else [])
  }

  /** One backward step of a pass: entry `i - 1` joins the segment already
      walked, in front of its survivors and after its remover calls. */
  lemma PassStep(s: seq<Entry>, i: nat, req: EventType, handler: Value, remover: Remover, e: Element)
    requires 0 < i <= |s|
    ensures Survivors(s[i - 1..], req, handler)
      == (if Drops(req, handler, s[i - 1]) then [] else [s[i - 1]]) + Survivors(s[i..], req, handler)
    ensures RemoverCalls(s[i - 1..], req, handler, remover, e)
      == RemoverCalls(s[i..], req, handler, remover, e)
         + (if Forwards(req, handler, s[i - 1]) then [RemoverCall(remover, e, req.eventType, s[i - 1].decorated)] else [])
  {
    assert s[i - 1..][0] == s[i - 1] && s[i - 1..][1..] == s[i..];
  }

  /** The ledger side of one backward step: once entries `i..` have been
      walked, splicing out entry `i - 1` when it is dropped (and keeping it
      otherwise) leaves entries `i - 1..` walked. */
  lemma DropStep(s: seq<Entry>, i: nat, data: seq<Entry>, req: EventType, handler: Value)
    requires 0 < i <= |s|
    requires data == s[..i] + Survivors(s[i..], req, handler)
    ensures data[i - 1] == s[i - 1]
    ensures Drops(req, handler, s[i - 1]) ==>
      data[..i - 1] + data[i..] == s[..i - 1] + Survivors(s[i - 1..], req, handler)
    ensures !Drops(req, handler, s[i - 1]) ==>
      data == s[..i - 1] + Survivors(s[i - 1..], req, handler)
  {
    var tail := Survivors(s[i..], req, handler);
    PassStep(s, i, req, handler, UnbindRemover, 0);
    assert data[..i - 1] == s[..i - 1];
    assert data[i..] == tail;
    assert s[..i] == s[..i - 1] + [s[i - 1]];
    if Drops(req, handler, s[i - 1]) {
      assert [] + tail == tail;
    } else {
      assert data == s[..i - 1] + ([s[i - 1]] + tail);
    }
  }

  /** The host side of one backward step: the remover call for entry
      `i - 1`, when it is forwarded, comes after those of entries `i..`. */
  lemma CallStep(s: seq<Entry>, i: nat, before: seq<HostCall>, log: seq<HostCall>,
                 req: EventType, handler: Value, remover: Remover, e: Element)
    requires 0 < i <= |s|
    requires log == before + RemoverCalls(s[i..], req, handler, remover, e)
    ensures Forwards(req, handler, s[i - 1]) ==>
      log + [RemoverCall(remover, e, req.eventType, s[i - 1].decorated)]
        == before + RemoverCalls(s[i - 1..], req, handler, remover, e)
    ensures !Forwards(req, handler, s[i - 1]) ==>
      log == before + RemoverCalls(s[i - 1..], req, handler, remover, e)
  {
    var calls := RemoverCalls(s[i..], req, handler, remover, e);
    PassStep(s, i, req, handler, remover, e);
    var call := [RemoverCall(remover, e, req.eventType, s[i - 1].decorated)];
    assert before + calls + call == before + (calls + call);
    assert calls + [] == calls;
  }

  /** The state of a backward pass once entries `i..` of `s` have been
      walked: those entries replaced by their survivors, and their remover
      calls appended to `before`. */
  predicate Walked(s: seq<Entry>, i: nat, data: seq<Entry>, before: seq<HostCall>, log: seq<HostCall>,
                   req: EventType, handler: Value, remover: Remover, e: Element)
  {
    && i <= |s|
    && data == s[..i] + Survivors(s[i..], req, handler)
    && log == before + RemoverCalls(s[i..], req, handler, remover, e)
  }

  /** One backward step: entry `i - 1` is still in place, and splicing it
      out when it is dropped and calling the remover when it is forwarded
      leaves entries `i - 1..` walked. */
  lemma WalkStep(s: seq<Entry>, i: nat, data: seq<Entry>, before: seq<HostCall>, log: seq<HostCall>,
                 req: EventType, handler: Value, remover: Remover, e: Element)
    requires 0 < i && Walked(s, i, data, before, log, req, handler, remover, e)
    ensures i - 1 < |data| && data[i - 1] == s[i - 1]
    ensures Walked(s, i - 1,
      if Drops(req, handler, s[i - 1]) then data[..i - 1] + data[i..] else data,
      before,
      if Forwards(req, handler, s[i - 1]) then log + [RemoverCall(remover, e, req.eventType, s[i - 1].decorated)] else log,
      req, handler, remover, e)
  {
    DropStep(s, i, data, req, handler);
    CallStep(s, i, before, log, req, handler, remover, e);
  }

  /** A finished pass: the survivors of all of `s`, and all its remover calls. */
  lemma WalkDone(s: seq<Entry>, data: seq<Entry>, before: seq<HostCall>, log: seq<HostCall>,
                 req: EventType, handler: Value, remover: Remover, e: Element)
    requires Walked(s, 0, data, before, log, req, handler, remover, e)
    ensures data == Survivors(s, req, handler)
    ensures log == before + RemoverCalls(s, req, handler, remover, e)
  {
    assert s[0..] == s && s[..0] == [];
  }

  /** One remover call per forwarded entry, in reverse ledger order, each
      passed the request's event type and that entry's decorated function. */
  lemma {:induction false} RemoverCallsReverse(s: seq<Entry>, req: EventType, handler: Value, remover: Remover, e: Element)
    ensures |RemoverCalls(s, req, handler, remover, e)| == |Forwarded(s, req, handler)|
    ensures forall k | 0 <= k < |Forwarded(s, req, handler)| ::
      RemoverCalls(s, req, handler, remover, e)[k]
        == RemoverCall(remover, e, req.eventType, Forwarded(s, req, handler)[|Forwarded(s, req, handler)| - 1 - k].decorated)
    decreases |s|
  {
    if s != [] {
      RemoverCallsReverse(s[1..], req, handler, remover, e);
    }
  }

  /** Every call of a pass goes to the primitive the pass was given, on the
      pass's one element, for the requested event type. */
  lemma RemoverCallsOf(s: seq<Entry>, req: EventType, handler: Value, remover: Remover, e: Element)
    ensures forall k | 0 <= k < |RemoverCalls(s, req, handler, remover, e)| ::
      && CallOf(remover, RemoverCalls(s, req, handler, remover, e)[k])
      && RemoverCalls(s, req, handler, remover, e)[k].elems == [e]
      && |RemoverCalls(s, req, handler, remover, e)[k].args| == 2
      && RemoverCalls(s, req, handler, remover, e)[k].args[0] == Str(req.eventType)
  {
    RemoverCallsReverse(s, req, handler, remover, e);
  }

  /** With a handler, the forwarded entries are exactly the dropped ones;
      without one, nothing is forwarded. */
  lemma {:induction false} ForwardedAreDropped(s: seq<Entry>, req: EventType, handler: Value)
    ensures Truthy(handler) ==> |Survivors(s, req, handler)| + |Forwarded(s, req, handler)| == |s|
    ensures !Truthy(handler) ==> Forwarded(s, req, handler) == []
    ensures Truthy(handler) ==>
      forall o :: o in Forwarded(s, req, handler) <==> o in s && Drops(req, handler, o)
    decreases |s|
  {
    if s != [] {
      ForwardedAreDropped(s[1..], req, handler);
      assert forall o :: o in s <==> o == s[0] || o in s[1..] by {
        assert s == [s[0]] + s[1..];
      }
    }
  }

  /** A segment with nothing to drop is left as it is and produces no call. */
  lemma {:induction false} NothingToDrop(s: seq<Entry>, req: EventType, handler: Value, remover: Remover, e: Element)
    requires forall o | o in s :: !Drops(req, handler, o)
    ensures Survivors(s, req, handler) == s
    ensures RemoverCalls(s, req, handler, remover, e) == []
    decreases |s|
  {
    if s != [] {
      assert s[0] in s;
      assert forall o | o in s[1..] :: o in s;
      NothingToDrop(s[1..], req, handler, remover, e);
      assert [s[0]] + s[1..] == s;
    }
  }

  /** A second pass with the same request and handler finds nothing to do. */
  lemma SurvivorsIdempotent(s: seq<Entry>, req: EventType, handler: Value, remover: Remover, e: Element)
    ensures Survivors(Survivors(s, req, handler), req, handler) == Survivors(s, req, handler)
    ensures RemoverCalls(Survivors(s, req, handler), req, handler, remover, e) == []
  {
    SurvivorsMembers(s, req, handler);
    NothingToDrop(Survivors(s, req, handler), req, handler, remover, e);
  }
}
