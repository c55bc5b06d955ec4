/** The jQuery side, seen from the overrides: element identities, the calls
    they make into jQuery's own `bind`, `unbind` and `die`, and how a call
    to an override ends. */
module Host {
  import opened Handlers

  /** A DOM element, by identity; a jQuery collection is a sequence of them. */
  type Element = nat

  /** One call into a jQuery primitive that the overrides replaced,
      with the receiving collection and the arguments passed. */
  datatype HostCall =
    | HostBind(elems: seq<Element>, eventType: string, data: Value, handler: Value)
    | HostUnbind(elems: seq<Element>, args: seq<Value>)
    | HostDie(elems: seq<Element>, args: seq<Value>)

  /** The primitive `removeHandler` calls for each resolved entry. */
  datatype Remover = UnbindRemover | DieRemover

  /** `remover.call($el, eventType, fn)`. */
  function RemoverCall(remover: Remover, e: Element, eventType: string, fn: Value): (c: HostCall)
    ensures c.HostUnbind? || c.HostDie?
    ensures c.HostUnbind? <==> remover.UnbindRemover?
    ensures c.elems == [e] && c.args == [Str(eventType), fn]
  {
    match remover
    case UnbindRemover => HostUnbind([e], [Str(eventType), fn])
    case DieRemover => HostDie([e], [Str(eventType), fn])
  }

  /** `c` is a call of the primitive `remover` stands for. */
  predicate CallOf(remover: Remover, c: HostCall) {
    match remover
    case UnbindRemover => c.HostUnbind?
    case DieRemover => c.HostDie?
  }

  /** How a call to an override ends: it returns the collection it was
      called on, or a `TypeError` escapes from it. */
  datatype Completion = Returned(collection: seq<Element>) | ThrewTypeError
}
