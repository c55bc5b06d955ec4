/** The string primitives of the JavaScript runtime and of jQuery that the
    event-type parser is built from: `$.trim`, `replace(/\s+/, ' ')` (a
    regular expression without the `g` flag, so only the first match is
    replaced) and `split` with a one-character separator. */
module Strings {
  import opened SeqFacts

  /** A character matched by `\s` in an ECMAScript 5 regular expression:
      the white space and line terminator characters, with the space
      separators of Unicode 6.2 (which still counted U+180E among them). */
  predicate IsSpace(c: char) {
    c in SingleSpaces || '\U{2000}' <= c <= '\U{200A}'
  }

  const SingleSpaces: set<char> :=
    {' ', '\t', '\n', '\r', '\U{000B}', '\U{000C}', '\U{00A0}', '\U{1680}',
     '\U{180E}', '\U{2028}', '\U{2029}', '\U{202F}', '\U{205F}', '\U{3000}', '\U{FEFF}'}

  predicate NoSpace(s: string) {
    forall i | 0 <= i < |s| :: !IsSpace(s[i])
  }

  /** Drops the leading run of white space. */
  function TrimLeft(s: string): (r: string)
    ensures |r| <= |s| && r == s[|s| - |r|..]
    ensures forall i | 0 <= i < |s| - |r| :: IsSpace(s[i])
    ensures r == [] || !IsSpace(r[0])
    decreases |s|
  {
    if s != [] && IsSpace(s[0]) then TrimLeft(s[1..]) else s
  }

  /** Drops the trailing run of white space. */
  function TrimRight(s: string): (r: string)
    ensures |r| <= |s| && r == s[..|r|]
    ensures forall i | |r| <= i < |s| :: IsSpace(s[i])
    ensures r == [] || !IsSpace(r[|r| - 1])
    decreases |s|
  {
    if s != [] && IsSpace(s[|s| - 1]) then TrimRight(s[..|s| - 1]) else s
  }

  /** `r` is `s` with white space cut from its two ends and nothing else:
      the `k` characters before `r` and all characters after it are white
      space, and `r` is the slice of `s` in between. */
  predicate CutsOnlyEnds(s: string, k: nat, r: string) {
    && k + |r| <= |s| && r == s[k..k + |r|]
    && (forall i | 0 <= i < k :: IsSpace(s[i]))
    && (forall i | k + |r| <= i < |s| :: IsSpace(s[i]))
  }

  /** `$.trim(s)`: white space removed from both ends. */
  function Trim(s: string): (r: string)
    ensures |r| <= |s|
    ensures r == [] || (!IsSpace(r[0]) && !IsSpace(r[|r| - 1]))
    ensures (s == [] || (!IsSpace(s[0]) && !IsSpace(s[|s| - 1]))) ==> r == s
  {
    TrimRight(TrimLeft(s))
  }

  /** `$.trim` touches nothing but the two ends: its result is the slice of
      the input after the leading run of white space that `TrimLeft` cuts,
      and only white space follows it. */
  lemma {:induction false} TrimCutsOnlyEnds(s: string)
    ensures CutsOnlyEnds(s, |s| - |TrimLeft(s)|, Trim(s))
  {
    CutBothEnds(s, TrimLeft(s), TrimRight(TrimLeft(s)));
    assert Trim(s) == TrimRight(TrimLeft(s));
  }

  /** A left cut followed by a right cut, both of white space only, cuts
      only the ends of `s`. */
  lemma {:induction false} CutBothEnds(s: string, t: string, r: string)
    requires |t| <= |s| && t == s[|s| - |t|..] && forall i | 0 <= i < |s| - |t| :: IsSpace(s[i])
    requires |r| <= |t| && r == t[..|r|] && forall i | |r| <= i < |t| :: IsSpace(t[i])
    ensures CutsOnlyEnds(s, |s| - |t|, r)
  {
    var k := |s| - |t|;
    DropTake(s, k, |r|);
    forall i | k + |r| <= i < |s| ensures IsSpace(s[i]) {
      assert s[i] == t[i - k];
    }
  }

  lemma TrimIdempotent(s: string)
    ensures Trim(Trim(s)) == Trim(s)
  {
  }

  /** Index of the first white space character, or |s| when there is none. */
  function FirstSpace(s: string): (i: nat)
    ensures i <= |s|
    ensures forall k | 0 <= k < i :: !IsSpace(s[k])
    ensures i < |s| ==> IsSpace(s[i])
    decreases |s|
  {
    if s == [] || IsSpace(s[0]) then 0 else 1 + FirstSpace(s[1..])
  }

  /** A leading white space character is dropped by the left trim. */
  lemma TrimLeftSpace(c: char, u: string)
    requires IsSpace(c)
    ensures TrimLeft([c] + u) == TrimLeft(u)
  {
    assert ([c] + u)[0] == c && ([c] + u)[1..] == u;
  }

  /** `s.replace(/\s+/, ' ')`: the leftmost maximal run of white space
      becomes one space; every later run is left as it is. */
  function CollapseFirstRun(s: string): string
    decreases |s|
  {
    if s == [] then []
    else if IsSpace(s[0]) then [' '] + TrimLeft(s)
    else [s[0]] + CollapseFirstRun(s[1..])
  }

  /** Input without white space passes through the collapse unchanged. */
  lemma {:induction false} CollapseNoSpace(s: string)
    requires NoSpace(s)
    ensures CollapseFirstRun(s) == s
    decreases |s|
  {
    if s != [] {
      NoSpaceTail(s);
      CollapseNoSpace(s[1..]);
      assert [s[0]] + s[1..] == s;
    }
  }

  /** Before the first white space character the input is copied as it is. */
  lemma {:induction false} CollapseFirstRunPrefix(s: string)
    ensures CollapseFirstRun(s) == s[..FirstSpace(s)] + CollapseFirstRun(s[FirstSpace(s)..])
    decreases |s|
  {
    if s == [] || IsSpace(s[0]) {
      assert s[..0] == [] && s[0..] == s;
    } else {
      var t := s[1..];
      var i := FirstSpace(t);
      CollapseFirstRunPrefix(t);
      assert FirstSpace(s) == 1 + i;
      assert CollapseFirstRun(s) == [s[0]] + CollapseFirstRun(t);
      SliceCons(s, i);
      ConcatAssoc([s[0]], t[..i], CollapseFirstRun(t[i..]));
    }
  }

  /** The first run is replaced by one space, and what follows it is a
      suffix of the input: later runs of white space survive unchanged. */
  lemma {:induction false} CollapseFirstRunShape(s: string)
    requires FirstSpace(s) < |s|
    ensures CollapseFirstRun(s) == s[..FirstSpace(s)] + [' '] + TrimLeft(s[FirstSpace(s)..])
  {
    var i := FirstSpace(s);
    var u := s[i..];
    CollapseFirstRunPrefix(s);
    assert u != [] && u[0] == s[i];
    ConcatAssoc(s[..i], [' '], TrimLeft(u));
  }

  /** `s.split(c)` for a one-character separator `c`: the pieces between
      occurrences of `c`, empty pieces included; never an empty list. */
  function Split(s: string, c: char): (r: seq<string>)
    ensures |r| >= 1
    ensures forall i | 0 <= i < |r| :: c !in r[i]
    decreases |s|
  {
    if s == [] then [[]]
    else
      var rest := Split(s[1..], c);
      if s[0] == c then [[]] + rest
      else [[s[0]] + rest[0]] + rest[1..]
  }

  /** A leading separator starts with an empty piece. */
  lemma SplitAtSeparator(c: char, u: string)
    ensures Split([c] + u, c) == [[]] + Split(u, c)
  {
    assert ([c] + u)[0] == c && ([c] + u)[1..] == u;
  }

  /** `pieces.join(c)`. */
  function Join(pieces: seq<string>, c: char): string
    decreases |pieces|
  {
    if |pieces| == 0 then []
    else if |pieces| == 1 then pieces[0]
    else pieces[0] + [c] + Join(pieces[1..], c)
  }

  /** Splitting loses nothing: joining the pieces with the separator gives
      the input back. */
  lemma {:induction false} SplitJoin(s: string, c: char)
    ensures Join(Split(s, c), c) == s
    decreases |s|
  {
    if s != [] {
      var rest := Split(s[1..], c);
      SplitJoin(s[1..], c);
      if s[0] == c {
        assert ([[]] + rest)[1..] == rest;
        assert Join([[]] + rest, c) == [c] + Join(rest, c);
      } else if |rest| == 1 {
        assert Join(rest, c) == rest[0];
      } else {
        var r := [[s[0]] + rest[0]] + rest[1..];
        assert r[1..] == rest[1..];
        assert Join(r, c) == [s[0]] + rest[0] + [c] + Join(rest[1..], c);
        assert s == [s[0]] + s[1..];
      }
    }
  }

  lemma {:induction false} SplitWithoutSeparator(s: string, c: char)
    requires c !in s
    ensures Split(s, c) == [s]
    decreases |s|
  {
    if s != [] {
      SplitWithoutSeparator(s[1..], c);
      assert [s[0]] + s[1..] == s;
    }
  }

  lemma {:induction false} SplitPrefix(p: string, t: string, c: char)
    requires c !in p
    ensures Split(p + t, c) == [p + Split(t, c)[0]] + Split(t, c)[1..]
    decreases |p|
  {
    var r := Split(t, c);
    if p == [] {
      assert p + t == t;
      assert p + r[0] == r[0];
      assert [r[0]] + r[1..] == r;
    } else {
      SplitPrefix(p[1..], t, c);
      HeadTail(p, t);
      HeadTail(p, r[0]);
      assert p[0] != c;
      var rest := Split(p[1..] + t, c);
      assert rest == [p[1..] + r[0]] + r[1..];
      assert Split(p + t, c) == [[p[0]] + rest[0]] + rest[1..];
    }
  }

  /** The other direction of the round trip: pieces free of the separator
      are recovered from their join. */
  lemma {:induction false} JoinSplit(pieces: seq<string>, c: char)
    requires |pieces| >= 1
    requires forall i | 0 <= i < |pieces| :: c !in pieces[i]
    ensures Split(Join(pieces, c), c) == pieces
    decreases |pieces|
  {
    if |pieces| == 1 {
      SplitWithoutSeparator(pieces[0], c);
    } else {
      var tail := Join(pieces[1..], c);
      JoinSplit(pieces[1..], c);
      assert ([c] + tail)[1..] == tail;
      assert ([c] + tail)[0] == c;
      assert Split([c] + tail, c) == [[]] + pieces[1..];
      assert pieces[0] + [] == pieces[0];
      assert pieces[0] + [c] + tail == pieces[0] + ([c] + tail);
      assert Join(pieces, c) == pieces[0] + ([c] + tail);
      SplitPrefix(pieces[0], [c] + tail, c);
      assert [pieces[0]] + pieces[1..] == pieces;
    }
  }

  /** The space-separated pieces of an event-type list, as both
      `EventType.gets` and `$.jedi` compute them:
      `$.trim(s).replace(/\s+/, ' ').split(' ')`. */
  function Pieces(s: string): (r: seq<string>)
    ensures |r| >= 1
  {
    Split(CollapseFirstRun(Trim(s)), ' ')
  }

  /** A list without inner white space is a single piece: the trimmed input. */
  lemma PiecesOfOneToken(s: string)
    requires NoSpace(Trim(s))
    ensures Pieces(s) == [Trim(s)]
  {
    assert ' ' !in Trim(s) by {
      assert IsSpace(' ');
    }
    CollapseNoSpace(Trim(s));
    SplitWithoutSeparator(Trim(s), ' ');
  }

  /** Two tokens separated by one space are two pieces. */
  lemma PiecesOfTwoTokens(a: string, b: string)
    requires a != [] && b != [] && NoSpace(a) && NoSpace(b)
    ensures Pieces(a + " " + b) == [a, b]
  {
    var s := a + " " + b;
    assert s[0] == a[0] && s[|s| - 1] == b[|b| - 1];
    assert Trim(s) == s;
    CollapseOneSpace(a, b);
    SplitOneSpace(a, b);
  }

  lemma NoSpaceTail(a: string)
    requires a != [] && NoSpace(a)
    ensures !IsSpace(a[0]) && NoSpace(a[1..])
  {
    forall i | 0 <= i < |a| - 1 ensures !IsSpace(a[1..][i]) {
      assert a[1..][i] == a[i + 1];
    }
  }

  /** A character that is not white space is copied and the collapse goes on. */
  lemma CollapseCons(c: char, u: string)
    requires !IsSpace(c)
    ensures CollapseFirstRun([c] + u) == [c] + CollapseFirstRun(u)
  {
    assert ([c] + u)[0] == c && ([c] + u)[1..] == u;
  }

  /** A leading token without white space passes through the collapse. */
  lemma {:induction false} CollapseAfterToken(a: string, t: string)
    requires NoSpace(a)
    ensures CollapseFirstRun(a + t) == a + CollapseFirstRun(t)
    decreases |a|
  {
    if a == [] {
      assert a + t == t;
    } else {
      var c, a' := a[0], a[1..];
      NoSpaceTail(a);
      CollapseAfterToken(a', t);
      assert a + t == [c] + (a' + t);
      CollapseCons(c, a' + t);
      assert [c] + (a' + CollapseFirstRun(t)) == a + CollapseFirstRun(t);
    }
  }

  lemma CollapseOneSpace(a: string, b: string)
    requires b != [] && NoSpace(a) && NoSpace(b)
    ensures CollapseFirstRun(a + " " + b) == a + " " + b
  {
    var u := " " + b;
    assert IsSpace(u[0]) && u[1..] == b;
    assert TrimLeft(u) == TrimLeft(b);
    assert TrimLeft(b) == b;
    assert CollapseFirstRun(u) == u;
    CollapseAfterToken(a, u);
    assert a + u == a + " " + b;
  }

  lemma SplitOneSpace(a: string, b: string)
    requires ' ' !in a && ' ' !in b
    ensures Split(a + " " + b, ' ') == [a, b]
  {
    var u := " " + b;
    SplitWithoutSeparator(b, ' ');
    assert u[0] == ' ' && u[1..] == b;
    assert Split(u, ' ') == [[]] + [b];
    SplitPrefix(a, u, ' ');
    assert a + u == a + " " + b;
    assert a + [] == a;
  }
}
