/** The string operations of JavaScript that the models share. */
module JsText {
  datatype Option<+T> = None | Some(value: T)

  /** The characters String.trim removes and \s matches. */
  predicate IsSpace(c: char) {
    || '\t' <= c <= '\r' || c == ' ' || c == '\U{00A0}' || c == '\U{1680}'
    || '\U{2000}' <= c <= '\U{200A}' || c == '\U{2028}' || c == '\U{2029}' || c == '\U{202F}'
    || c == '\U{205F}' || c == '\U{3000}' || c == '\U{FEFF}'
  }

  function TrimStart(s: string): string {
    if s != "" && IsSpace(s[0]) then TrimStart(s[1..]) else s
  }

  function TrimEnd(s: string): string {
    if s != "" && IsSpace(s[|s| - 1]) then TrimEnd(s[..|s| - 1]) else s
  }

  function Trim(s: string): string { TrimEnd(TrimStart(s)) }

  predicate StartsWith(s: string, p: string) { |p| <= |s| && s[..|p|] == p }

  predicate EndsWith(s: string, p: string) { |p| <= |s| && s[|s| - |p|..] == p }

  /** indexOf: the first place where p starts. */
  function Find(s: string, p: string): (r: Option<nat>)
    ensures r.Some? ==> r.value + |p| <= |s| && s[r.value..r.value + |p|] == p
  {
    if StartsWith(s, p) then Some(0)
    else if s == "" then None
    else match Find(s[1..], p)
      case None => None
      case Some(i) => Some(i + 1)
  }

  /** The length of the longest prefix whose characters all satisfy p. */
  function Span(s: string, p: char -> bool): (n: nat)
    ensures n <= |s| && (forall i :: 0 <= i < n ==> p(s[i])) && (n < |s| ==> !p(s[n]))
  {
    if s != "" && p(s[0]) then 1 + Span(s[1..], p) else 0
  }

  function Join(parts: seq<string>, separator: string): string {
    if parts == [] then ""
    else if |parts| == 1 then parts[0]
    else parts[0] + separator + Join(parts[1..], separator)
  }

  /** split on one character. */
  function Split(s: string, c: char): (parts: seq<string>)
    ensures parts != []
  {
    if s == "" then [""]
    else
      var rest := Split(s[1..], c);
      if s[0] == c then [""] + rest else [[s[0]] + rest[0]] + rest[1..]
  }

  // ---------------------------------------------------------------- what these operations mean

  /** A run of characters of one kind that another kind ends. */
  lemma {:induction false} SpanIs(a: string, t: string, p: char -> bool)
    requires (forall i :: 0 <= i < |a| ==> p(a[i])) && (t == "" || !p(t[0]))
    ensures Span(a + t, p) == |a|
  {
    if a == "" {
      assert a + t == t;
    } else {
      assert (a + t)[1..] == a[1..] + t;
      SpanIs(a[1..], t, p);
    }
  }

  /** White space and line terminators, as JavaScript lists them. */
  lemma WhiteSpace(c: char)
    ensures IsSpace(c) <==> c in {
      '\t', '\n', '\U{000B}', '\U{000C}', '\r', ' ', '\U{00A0}', '\U{1680}', '\U{2000}', '\U{2001}', '\U{2002}',
      '\U{2003}', '\U{2004}', '\U{2005}', '\U{2006}', '\U{2007}', '\U{2008}', '\U{2009}', '\U{200A}', '\U{2028}',
      '\U{2029}', '\U{202F}', '\U{205F}', '\U{3000}', '\U{FEFF}'}
  {
  }

  predicate Spaces(s: string) { forall i :: 0 <= i < |s| ==> IsSpace(s[i]) }

  lemma {:induction false} TrimStartIs(s: string) returns (a: string)
    ensures s == a + TrimStart(s) && Spaces(a) && (TrimStart(s) != "" ==> !IsSpace(TrimStart(s)[0]))
  {
    hide IsSpace;
    a := "";
    if s != "" && IsSpace(s[0]) {
      a := TrimStartIs(s[1..]);
      a := [s[0]] + a;
    }
  }

  lemma {:induction false} TrimEndIs(s: string) returns (b: string)
    ensures s == TrimEnd(s) + b && Spaces(b)
    ensures TrimEnd(s) != "" ==> !IsSpace(TrimEnd(s)[|TrimEnd(s)| - 1]) && TrimEnd(s)[0] == s[0]
  {
    hide IsSpace;
    b := "";
    if s != "" && IsSpace(s[|s| - 1]) {
      b := TrimEndIs(s[..|s| - 1]);
      b := b + [s[|s| - 1]];
    }
  }

  /** Trimming takes white space off both ends, and all of it. */
  lemma TrimIs(s: string) returns (a: string, b: string)
    ensures s == a + Trim(s) + b && Spaces(a) && Spaces(b)
    ensures Trim(s) != "" ==> !IsSpace(Trim(s)[0]) && !IsSpace(Trim(s)[|Trim(s)| - 1])
  {
    hide IsSpace, TrimStart, TrimEnd;
    a := TrimStartIs(s);
    b := TrimEndIs(TrimStart(s));
  }

  /** A text without white space at its ends comes out of any white space around it. */
  lemma {:induction false} TrimUnwraps(a: string, t: string, b: string)
    requires Spaces(a) && Spaces(b) && t != "" && !IsSpace(t[0]) && !IsSpace(t[|t| - 1])
    ensures Trim(a + t + b) == t
    decreases |a| + |b|
  {
    hide IsSpace;
    var s := a + t + b;
    if a != "" {
      assert s[0] == a[0] && s[1..] == a[1..] + t + b;
      assert TrimStart(s) == TrimStart(s[1..]);
      TrimUnwraps(a[1..], t, b);
    } else if b != "" {
      assert TrimStart(s) == s;
      var shorter := a + t + b[..|b| - 1];
      assert s[|s| - 1] == b[|b| - 1] && s[..|s| - 1] == shorter;
      assert shorter[0] == t[0] && TrimStart(shorter) == shorter;
      TrimUnwraps(a, t, b[..|b| - 1]);
    } else {
      assert s == t;
    }
  }

  /** indexOf finds an occurrence if there is one, and none before it. */
  lemma {:induction false} FindIsFirst(a: string, p: string, b: string)
    ensures Find(a + (p + b), p).Some? && Find(a + (p + b), p).value <= |a|
  {
    var s := a + (p + b);
    if a == "" {
      assert s[..|p|] == p;
    } else {
      assert s[1..] == a[1..] + (p + b);
      FindIsFirst(a[1..], p, b);
    }
  }

  /** The text p in the text s, with a before it and b behind. */
  predicate Splits(s: string, a: string, p: string, b: string) { s == a + (p + b) }

  ghost predicate Occurs(s: string, p: string) { exists a, b :: Splits(s, a, p, b) }

  lemma OccursExactly(s: string, p: string)
    ensures Occurs(s, p) <==> Find(s, p).Some?
  {
    hide Find;
    if a, b :| Splits(s, a, p, b) { FindIsFirst(a, p, b); }
    if Find(s, p).Some? { Reassembled(s, Find(s, p).value, p); }
  }

  /** Cut at the first place where p occurs. */
  ghost predicate CutsAt(s: string, p: string, left: string, right: string) {
    Splits(s, left, p, right) && forall a, b :: Splits(s, a, p, b) ==> |left| <= |a|
  }

  lemma CutIsFound(s: string, p: string, left: string, right: string)
    requires CutsAt(s, p, left, right)
    ensures Find(s, p) == Some(|left|) && left == s[..|left|] && right == s[|left| + |p|..]
  {
    hide Find;
    CutIsText(s, p, left, right);
    FindIsFirst(left, p, right);
    Reassembled(s, Find(s, p).value, p);
  }

  lemma CutIsText(s: string, p: string, left: string, right: string)
    requires CutsAt(s, p, left, right)
    ensures s == left + (p + right) && left == s[..|left|] && right == s[|left| + |p|..]
  {
  }

  lemma Reassembled(s: string, i: nat, p: string)
    requires i + |p| <= |s| && s[i..i + |p|] == p
    ensures Splits(s, s[..i], p, s[i + |p|..])
  {
    assert s == s[..i] + (s[i..i + |p|] + s[i + |p|..]);
  }

  lemma FoundIsCut(s: string, p: string)
    requires Find(s, p).Some?
    ensures var i := Find(s, p).value; CutsAt(s, p, s[..i], s[i + |p|..])
  {
    hide Find;
    Reassembled(s, Find(s, p).value, p);
    forall a, b | Splits(s, a, p, b) ensures Find(s, p).value <= |a| { FindIsFirst(a, p, b); }
  }

  lemma JoinStep(parts: seq<string>, c: char)
    requires parts != []
    ensures Join(parts, [c]) == if |parts| == 1 then parts[0] else parts[0] + ([c] + Join(parts[1..], [c]))
  {
    if |parts| > 1 { Grouped(parts[0], [c], Join(parts[1..], [c])); }
  }

  lemma Grouped(a: string, b: string, c: string)
    ensures (a + b) + c == a + (b + c)
  {
  }

  lemma SplitStep(s: string, c: char)
    requires s != ""
    ensures var rest := Split(s[1..], c);
      Split(s, c) == if s[0] == c then [""] + rest else [[s[0]] + rest[0]] + rest[1..]
  {
  }

  /** split cuts exactly at the separators. */
  lemma {:induction false} SplitIs(s: string, c: char)
    ensures Join(Split(s, c), [c]) == s && forall part :: part in Split(s, c) ==> c !in part
  {
    if s != "" {
      hide Join, Split;
      SplitIs(s[1..], c);
      SplitStep(s, c);
      OneMoreCharacter(s[0], Split(s[1..], c), c);
      assert s == [s[0]] + s[1..];
    }
  }

  lemma OneMoreCharacter(first: char, rest: seq<string>, c: char)
    requires rest != [] && forall part :: part in rest ==> c !in part
    ensures var parts := if first == c then [""] + rest else [[first] + rest[0]] + rest[1..];
      Join(parts, [c]) == [first] + Join(rest, [c]) && forall part :: part in parts ==> c !in part
  {
    hide Join;
    JoinStep(rest, c);
    if first == c {
      JoinStep([""] + rest, c);
      assert ([""] + rest)[1..] == rest;
      assert "" + ([c] + Join(rest, [c])) == [first] + Join(rest, [c]);
    } else {
      var parts := [[first] + rest[0]] + rest[1..];
      JoinStep(parts, c);
      assert parts[1..] == rest[1..];
      Grouped([first], rest[0], [c] + Join(rest[1..], [c]));
    }
  }
}
