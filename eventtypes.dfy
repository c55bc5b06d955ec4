/** `EventType`: the descriptor of one event-type token (`"click.a.b"`),
    its parsers `EventType.get` and `EventType.gets`, and the "hit" test that
    decides whether a removal request matches a stored binding. */
module EventTypes {
  import opened Strings
  import opened SeqFacts

  datatype Option<T> = None | Some(value: T)

  /** `new EventType(eventType, type, namespaces, selector)`. `baseType` is
      the source's `type` field; a selector of `null` or `undefined` is `None`. */
  datatype EventType = EventType(
    eventType: string,
    baseType: string,
    namespaces: seq<string>,
    selector: Option<string>)

  /** A selector that is a non-empty string (the truthy ones). */
  predicate HasSelector(selector: Option<string>) {
    selector.Some? && selector.value != ""
  }

  /** `EventType.get(token, selector)`: the trimmed token, split at `.` into
      the base type and the namespaces. */
  function Get(token: string, selector: Option<string>): (r: EventType)
    ensures r.eventType == Trim(token) && r.selector == selector
    ensures Join([r.baseType] + r.namespaces, '.') == r.eventType
    ensures '.' !in r.baseType && forall i | 0 <= i < |r.namespaces| :: '.' !in r.namespaces[i]
  {
    var t := Trim(token);
    var pieces := Split(t, '.');
    SplitJoin(t, '.');
    assert [pieces[0]] + pieces[1..] == pieces;
    EventType(t, pieces[0], pieces[1..], selector)
  }

  /** The other direction: a descriptor whose pieces hold no `.` and whose
      token needs no trimming is what `Get` makes of its own token. */
  lemma GetRebuilds(d: EventType)
    requires '.' !in d.baseType && forall i | 0 <= i < |d.namespaces| :: '.' !in d.namespaces[i]
    requires d.eventType == Join([d.baseType] + d.namespaces, '.')
    requires Trim(d.eventType) == d.eventType
    ensures Get(d.eventType, d.selector) == d
  {
    var pieces := [d.baseType] + d.namespaces;
    assert forall i | 0 <= i < |pieces| :: '.' !in pieces[i] by {
      forall i | 0 <= i < |pieces| ensures '.' !in pieces[i] {
        if i > 0 { assert pieces[i] == d.namespaces[i - 1]; }
      }
    }
    JoinSplit(pieces, '.');
    assert pieces[1..] == d.namespaces;
  }

  /** `EventType.gets(s, selector)`: one descriptor per space-separated piece,
      in order, each carrying `selector`. `$.map` drops a piece only when its
      callback returns `null` or `undefined`, and `Get` always returns an
      object, so empty pieces give descriptors too. */
  function Gets(s: string, selector: Option<string>): (r: seq<EventType>)
    ensures |r| == |Pieces(s)| >= 1
    ensures forall i | 0 <= i < |r| ::
      r[i].selector == selector && r[i].eventType == Trim(Pieces(s)[i])
  {
    var pieces := Pieces(s);
    seq(|pieces|, i requires 0 <= i < |pieces| => Get(pieces[i], selector))
  }

  lemma GetsAt(s: string, selector: Option<string>, i: nat)
    requires i < |Pieces(s)|
    ensures Gets(s, selector)[i] == Get(Pieces(s)[i], selector)
  {
  }

  /** A list with no inner white space gives exactly one descriptor, the
      same that `EventType.get` gives. */
  lemma GetsOneToken(s: string, selector: Option<string>)
    requires NoSpace(Trim(s))
    ensures Gets(s, selector) == [Get(s, selector)]
  {
    PiecesOfOneToken(s);
    TrimIdempotent(s);
  }

  /** `a  b  c` with its two runs written as single characters. */
  lemma TwoRunsShape(a: string, b: string, c: string)
    ensures a + "  " + b + "  " + c == a + ([' '] + ([' '] + (b + ([' '] + ([' '] + c)))))
  {
  }

  /** The collapse turns the first run into one space and keeps the second. */
  lemma CollapseTwoRuns(a: string, b: string, c: string)
    requires b != [] && NoSpace(a) && NoSpace(b)
    ensures CollapseFirstRun(a + ([' '] + ([' '] + (b + ([' '] + ([' '] + c))))))
         == a + ([' '] + (b + ([' '] + ([' '] + c))))
  {
    var w := b + ([' '] + ([' '] + c));
    var x := [' '] + w;
    var y := [' '] + x;
    CollapseAfterToken(a, y);
    assert y[0] == ' ' && IsSpace(' ');
    assert CollapseFirstRun(y) == [' '] + TrimLeft(y);
    TrimLeftSpace(' ', x);
    TrimLeftSpace(' ', w);
    assert w[0] == b[0];
  }

  /** The split of the collapsed list: four pieces, the third empty. */
  lemma SplitTwoRuns(a: string, b: string, c: string)
    requires ' ' !in a && ' ' !in b && ' ' !in c
    ensures Split(a + ([' '] + (b + ([' '] + ([' '] + c)))), ' ') == [a, b, [], c]
  {
    var v := [' '] + ([' '] + c);
    SplitWithoutSeparator(c, ' ');
    SplitAtSeparator(' ', c);
    SplitAtSeparator(' ', [' '] + c);
    SplitPrefix(b, v, ' ');
    assert b + [] == b;
    SplitAtSeparator(' ', b + v);
    SplitPrefix(a, [' '] + (b + v), ' ');
    assert a + [] == a;
  }

  /** The second run of white space in `a  b  c` survives the collapse, so
      the split yields an empty piece between `b` and `c`. */
  lemma PiecesKeepLaterRuns(a: string, b: string, c: string)
    requires a != [] && b != [] && c != []
    requires NoSpace(a) && NoSpace(b) && NoSpace(c)
    ensures Pieces(a + "  " + b + "  " + c) == [a, b, "", c]
  {
    var s := a + "  " + b + "  " + c;
    assert ' ' !in a && ' ' !in b && ' ' !in c by { assert IsSpace(' '); }
    TwoRunsShape(a, b, c);
    assert s[0] == a[0] && s[|s| - 1] == c[|c| - 1];
    assert Trim(s) == s;
    CollapseTwoRuns(a, b, c);
    SplitTwoRuns(a, b, c);
  }

  /** The empty token is the empty type with no namespaces. */
  lemma GetEmpty(selector: Option<string>)
    ensures Get("", selector) == EventType("", "", [], selector)
  {
    assert Trim("") == "";
    assert Split("", '.') == [""];
  }

  /** Four pieces give four descriptors, one per piece. */
  lemma GetsOfFourPieces(s: string, selector: Option<string>, p0: string, p1: string, p2: string, p3: string)
    requires Pieces(s) == [p0, p1, p2, p3]
    ensures Gets(s, selector) == [Get(p0, selector), Get(p1, selector), Get(p2, selector), Get(p3, selector)]
  {
    var r := Gets(s, selector);
    GetsAt(s, selector, 0);
    GetsAt(s, selector, 1);
    GetsAt(s, selector, 2);
    GetsAt(s, selector, 3);
    FourElements(r, Get(p0, selector), Get(p1, selector), Get(p2, selector), Get(p3, selector));
  }

  /** Only the first run of white space is collapsed: `a  b  c` gives four
      descriptors, the third of them the empty type with no namespaces. */
  lemma GetsKeepsLaterRuns(a: string, b: string, c: string, selector: Option<string>)
    requires a != [] && b != [] && c != []
    requires NoSpace(a) && NoSpace(b) && NoSpace(c)
    ensures Gets(a + "  " + b + "  " + c, selector) ==
      [Get(a, selector), Get(b, selector), EventType("", "", [], selector), Get(c, selector)]
  {
    PiecesKeepLaterRuns(a, b, c);
    GetsOfFourPieces(a + "  " + b + "  " + c, selector, a, b, "", c);
    GetEmpty(selector);
  }

  /** The namespace loop of `isHit`: `$.inArray(src[i], target) !== -1` for
      some `i`, scanned from the front with an early return. */
  function SharesNamespace(src: seq<string>, target: seq<string>): (r: bool)
    ensures r <==> exists x :: x in src && x in target
    decreases |src|
  {
    if src == [] then false
    else if src[0] in target then true
    else SharesNamespace(src[1..], target)
  }

  /** `EventType.isHit(src, target)` (and `src.isHit(target)`): does the
      request `src` hit the stored binding `target`? */
  function IsHit(src: EventType, target: EventType): (r: bool)
    ensures r <==>
      && (src.baseType == "" || src.baseType == target.baseType)
      && (!HasSelector(src.selector) || src.selector == target.selector)
      && (src.namespaces == [] || exists x :: x in src.namespaces && x in target.namespaces)
  {
    if src.baseType != "" && src.baseType != target.baseType then false
    else if HasSelector(src.selector) && src.selector != target.selector then false
    else if |src.namespaces| == 0 then true
    else SharesNamespace(src.namespaces, target.namespaces)
  }

  /** Every descriptor hits itself. */
  lemma IsHitSelf(d: EventType)
    ensures IsHit(d, d)
  {
    if d.namespaces != [] {
      assert d.namespaces[0] in d.namespaces;
    }
  }

  /** A namespace-only request `".n"` hits exactly the bindings that carry
      namespace `n`, whatever their type (and selector, which it lacks). */
  lemma NamespaceOnlyHits(n: string, target: EventType)
    requires NoSpace(n) && '.' !in n
    ensures IsHit(Get("." + n, None), target) <==> n in target.namespaces
  {
    var t := "." + n;
    assert !IsSpace('.');
    assert Trim(t) == t by {
      assert t[0] == '.';
      assert n != [] ==> t[|t| - 1] == n[|n| - 1];
    }
    assert t[0] == '.' && t[1..] == n;
    SplitWithoutSeparator(n, '.');
    assert Split(t, '.') == [[], n];
    var d := Get(t, None);
    assert d.baseType == "" && d.namespaces == [n];
  }

  /** A type-only request `"t"` hits exactly the bindings of base type `t`,
      whatever their namespaces. */
  lemma TypeOnlyHits(t: string, target: EventType)
    requires t != [] && NoSpace(t) && '.' !in t
    ensures IsHit(Get(t, None), target) <==> target.baseType == t
  {
    SplitWithoutSeparator(t, '.');
    var d := Get(t, None);
    assert d.baseType == t && d.namespaces == [];
  }
}
