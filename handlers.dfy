/** The JavaScript values that reach the overrides as arguments, and the
    decoration of a handler by the registered decorators. */
module Handlers {

  /** A registered decorator, by identity. */
  type DecoratorId = nat

  /** The argument values the overrides inspect. Functions are compared by
      identity: `Fn(id)` is a caller's function, `Wrap(d, inner)` is the
      function that decorator `d` returned when it was given `inner`. */
  datatype Value =
    | Undefined
    | Null
    | False
    | Str(s: string)
    | JQEvent(name: string, namespace: string)    // a `$.Event`: its `type` and `namespace`
    | Fn(id: nat)
    | Wrap(decorator: DecoratorId, inner: Value)
    | Other(id: nat)                              // `true`, a number other than 0, an object

  /** `$.isFunction(v)`, and `typeof v === 'function'`. */
  predicate IsFunction(v: Value) {
    v.Fn? || v.Wrap?
  }

  /** JavaScript truthiness. */
  predicate Truthy(v: Value) {
    !(v.Undefined? || v.Null? || v.False? || v == Str(""))
  }

  /** The FILO composition `d0(d1(...dn-1(fn)))` of the list `[d0, ..., dn-1]`:
      the oldest decorator is the outermost wrapper. */
  function Compose(ds: seq<DecoratorId>, fn: Value): Value
    decreases |ds|
  {
    if ds == [] then fn else Wrap(ds[0], Compose(ds[1..], fn))
  }

  /** The decorators wrapped around a value, read from the outermost inwards. */
  function Layers(v: Value): seq<DecoratorId> {
    if v.Wrap? then [v.decorator] + Layers(v.inner) else []
  }

  /** What is left of a value once every wrapper is peeled off. */
  function Core(v: Value): Value {
    if v.Wrap? then Core(v.inner) else v
  }

  /** Composition puts the list's decorators, in list order from the outside
      in, on top of whatever wrappers the handler already had. */
  lemma {:induction false} ComposeLayers(ds: seq<DecoratorId>, fn: Value)
    ensures Layers(Compose(ds, fn)) == ds + Layers(fn)
    ensures Core(Compose(ds, fn)) == Core(fn)
    decreases |ds|
  {
    if ds != [] {
      ComposeLayers(ds[1..], fn);
      assert [ds[0]] + (ds[1..] + Layers(fn)) == ds + Layers(fn);
    }
  }

  /** Decoration returns the handler itself exactly when there is no
      decorator to apply; this is what lets the ledger skip a binding. */
  lemma ComposeIsIdentity(ds: seq<DecoratorId>, fn: Value)
    ensures Compose(ds, fn) == fn <==> ds == []
  {
    ComposeLayers(ds, fn);
    if ds != [] {
      assert |Layers(Compose(ds, fn))| > |Layers(fn)|;
    }
  }

  /** A decorator appended to the list ends up innermost, directly around
      the handler. */
  lemma {:induction false} ComposeAppend(ds: seq<DecoratorId>, d: DecoratorId, fn: Value)
    ensures Compose(ds + [d], fn) == Compose(ds, Wrap(d, fn))
    decreases |ds|
  {
    if ds == [] {
      assert [] + [d] == [d];
      assert [d][1..] == [];
    } else {
      ComposeAppend(ds[1..], d, fn);
      assert (ds + [d])[1..] == ds[1..] + [d];
    }
  }
}
