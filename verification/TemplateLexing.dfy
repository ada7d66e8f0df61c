/** What the three patterns match, and what they pass over, in printed template text. */
module TemplateLexing {
  import opened JsText
  import opened TemplateEngine

  function Tag(inner: string): string { "{{" + inner + "}}" }

  predicate Plain(s: string) { '{' !in s && '}' !in s }

  /** White space, possibly none. */
  predicate Blank(s: string) { forall c :: c in s ==> IsSpace(c) }

  predicate Gap(s: string) { s != "" && Blank(s) }

  predicate IsVariable(path: string) { VariableLength(path) == |path| > 0 }

  /**
   * A variable's tag, with white space around the name: not a closing tag, and not an if whose condition is white
   * space.
   */
  predicate IsVariableTag(left: string, path: string, right: string) {
    && Blank(left) && IsVariable(path) && Blank(right)
    && left + path + right != "else" && left + path + right != "endif" && left + path + right != "endfor"
    && !(left == "" && path == "if" && |right| >= 2)
  }

  predicate IsCondition(gap: string, condition: string) { Gap(gap) && condition != "" && Plain(condition) }

  /** The opening tag of a loop with its white space. */
  datatype ForHead = ForHead(gap: string, item: string, beforeIn: string, afterIn: string, list: string)

  function ForTag(h: ForHead): string { "for" + (h.gap + (h.item + (h.beforeIn + ("in" + (h.afterIn + h.list))))) }

  predicate IsForHead(h: ForHead) {
    Gap(h.gap) && IsItem(h.item) && Gap(h.beforeIn) && Gap(h.afterIn) && IsList(h.list)
  }

  predicate IsItem(item: string) { item != "" && forall c :: c in item ==> IsWord(c) }

  predicate IsList(list: string) { DottedLength(list) == |list| > 0 }

  // ---------------------------------------------------------------- skipping what a pattern cannot match

  /** Every one of the three patterns starts with two opening braces. */
  ghost predicate NeedsBraces(m: string -> Hit) {
    forall s :: m(s) != Miss ==> |s| >= 2 && s[0] == '{' && s[1] == '{'
  }

  lemma ReplaceMiss(s: string, m: string -> Hit)
    requires s != "" && m(s) == Miss
    ensures ReplaceAll(s, m) == [s[0]] + ReplaceAll(s[1..], m)
  {
  }

  lemma SkipOne(s: string, m: string -> Hit)
    requires NeedsBraces(m) && s != "" && s[0] != '{'
    ensures ReplaceAll(s, m) == [s[0]] + ReplaceAll(s[1..], m)
  {
    assert m(s) == Miss;
  }

  lemma {:induction false} SkipPlain(t: string, rest: string, m: string -> Hit)
    requires NeedsBraces(m) && '{' !in t
    ensures ReplaceAll(t + rest, m) == t + ReplaceAll(rest, m)
  {
    hide ReplaceAll, NeedsBraces;
    if t == "" {
      assert t + rest == rest && t + ReplaceAll(rest, m) == ReplaceAll(rest, m);
    } else {
      assert (t + rest)[1..] == t[1..] + rest;
      assert (t + rest)[0] == t[0] && t[0] in t;
      SkipOne(t + rest, m);
      SkipPlain(t[1..], rest, m);
      assert [t[0]] + (t[1..] + ReplaceAll(rest, m)) == t + ReplaceAll(rest, m);
    }
  }

  lemma SkipTag(c: string, rest: string, m: string -> Hit)
    requires NeedsBraces(m) && Plain(c) && c != ""
    requires m(Tag(c) + rest) == Miss
    ensures ReplaceAll(Tag(c) + rest, m) == Tag(c) + ReplaceAll(rest, m)
  {
    hide ReplaceAll, Tag;
    var tail := (c + "}}") + rest;
    var after := "{" + tail;
    var s := Tag(c) + rest;
    TagSplit(c, rest);
    TagSplit(c, ReplaceAll(rest, m));
    assert after[1] == c[0] && c[0] in c;
    ReplaceMiss(s, m);
    assert m(after) == Miss;
    ReplaceMiss(after, m);
    SkipPlain(c + "}}", rest, m);
  }

  lemma TagSplit(c: string, rest: string)
    ensures Tag(c) + rest == "{" + ("{" + ((c + "}}") + rest)) && |Tag(c)| == |c| + 4
    ensures (Tag(c) + rest)[1..] == "{" + ((c + "}}") + rest)
    ensures ("{" + ((c + "}}") + rest))[1..] == (c + "}}") + rest
  {
  }

  function Later(r: Option<nat>, n: nat): Option<nat> {
    match r case None => None case Some(i) => Some(n + i)
  }

  lemma LaterAdd(r: Option<nat>, m: nat, n: nat)
    ensures Later(Later(r, m), n) == Later(r, n + m)
  {
  }

  lemma FindMiss(s: string, name: string)
    requires s != "" && s[0] != '{'
    ensures Find(s, Tag(name)) == Later(Find(s[1..], Tag(name)), 1)
  {
    StartChar(s, Tag(name), 0);
  }

  lemma StartChar(s: string, p: string, k: nat)
    requires k < |p|
    ensures StartsWith(s, p) ==> k < |s| && s[k] == p[k]
  {
    if StartsWith(s, p) { assert s[..|p|][k] == p[k]; }
  }

  lemma {:induction false} FindSkipsPlain(t: string, rest: string, name: string)
    requires '{' !in t
    ensures Find(t + rest, Tag(name)) == Later(Find(rest, Tag(name)), |t|)
  {
    hide Find, Tag;
    if t == "" {
      assert t + rest == rest;
    } else {
      assert (t + rest)[1..] == t[1..] + rest;
      assert (t + rest)[0] == t[0] && t[0] in t;
      FindMiss(t + rest, name);
      FindSkipsPlain(t[1..], rest, name);
    }
  }

  lemma FindSkipsTag(c: string, rest: string, name: string)
    requires Plain(c) && c != "" && Plain(name) && c != name
    ensures Find(Tag(c) + rest, Tag(name)) == Later(Find(rest, Tag(name)), |Tag(c)|)
  {
    hide Find, Tag, StartsWith;
    var tail := (c + "}}") + rest;
    var after := "{" + tail;
    var s := Tag(c) + rest;
    DifferentTag(c, rest, name);
    TagSplit(c, rest);
    assert after[1] == c[0] && c[0] in c;
    FindPast(s, name);
    OneBraceIsNoTag(after, name);
    FindPast(after, name);
    FindSkipsPlain(c + "}}", rest, name);
  }

  lemma OneBraceIsNoTag(s: string, name: string)
    requires |s| >= 2 && s[1] != '{'
    ensures !StartsWith(s, Tag(name))
  {
    StartChar(s, Tag(name), 1);
  }

  lemma FindPast(s: string, name: string)
    requires s != "" && !StartsWith(s, Tag(name))
    ensures Find(s, Tag(name)) == Later(Find(s[1..], Tag(name)), 1)
  {
  }

  lemma DifferentTag(c: string, rest: string, name: string)
    requires Plain(c) && Plain(name) && c != name
    ensures !StartsWith(Tag(c) + rest, Tag(name))
  {
    Cut(c, "}");
    Cut(name, "}");
    var k := FirstDifference(c + "}", name + "}");
    StartChar(Tag(c) + rest, Tag(name), 2 + k);
  }

  /** Two different words without braces differ at or before the brace that ends the shorter. */
  lemma {:induction false} FirstDifference(a: string, b: string) returns (k: nat)
    requires |a| > 0 && |b| > 0 && a[|a| - 1] == b[|b| - 1] == '}' && a != b
    requires '}' !in a[..|a| - 1] && '}' !in b[..|b| - 1]
    ensures k < |a| && k < |b| && a[k] != b[k]
  {
    if a[0] != b[0] {
      k := 0;
    } else {
      assert a == [a[0]] + a[1..] && b == [b[0]] + b[1..];
      k := FirstDifference(a[1..], b[1..]);
      k := k + 1;
    }
  }

  lemma FindHere(name: string, rest: string)
    ensures Find(Tag(name) + rest, Tag(name)) == Some(0)
  {
  }

  // ---------------------------------------------------------------- matching a printed tag

  lemma {:induction false} SpanStops(s: string, t: string, p: char -> bool)
    requires Span(s, p) < |s| || t == "" || !p(t[0])
    ensures Span(s + t, p) == Span(s, p)
  {
    if s == "" {
      assert s + t == t;
    } else if p(s[0]) {
      assert (s + t)[1..] == s[1..] + t;
      SpanStops(s[1..], t, p);
    }
  }

  lemma DropConcat(s: string, t: string, k: nat)
    requires k <= |s|
    ensures (s + t)[k..] == s[k..] + t
  {
  }

  /** What may follow the name in a tag. */
  predicate Ends(t: string) { t != "" && (t[0] == '}' || IsSpace(t[0])) }

  lemma PieceStops(s: string, t: string)
    requires Ends(t) && SuffixPiece(s) > 0
    ensures SuffixPiece(s + t) == SuffixPiece(s)
  {
    hide Span;
    DropConcat(s, t, 1);
    SpanStops(s[1..], t, IsWord);
    SpanStops(s[1..], t, IsDigit);
    assert (s + t)[1] == s[1];
  }

  lemma {:induction false} SuffixStops(s: string, t: string)
    requires SuffixLength(s) == |s| && Ends(t)
    ensures SuffixLength(s + t) == |s|
    decreases |s|
  {
    hide SuffixPiece;
    if s == "" {
      assert s + t == t;
      NoPiece(t);
    } else {
      var piece := SuffixPiece(s);
      PieceStops(s, t);
      DropConcat(s, t, piece);
      SuffixStops(s[piece..], t);
    }
  }

  lemma NoPiece(t: string)
    requires Ends(t)
    ensures SuffixPiece(t) == 0
  {
  }

  lemma VariableStops(s: string, t: string)
    requires VariableLength(s) == |s| > 0 && Ends(t)
    ensures VariableLength(s + t) == |s|
  {
    hide Span, SuffixLength;
    SpanStops(s, t, IsWord);
    var n := Span(s, IsWord);
    assert (s + t)[n..] == s[n..] + t;
    SuffixStops(s[n..], t);
  }

  predicate IsPathChar(c: char) { IsWord(c) || c == '.' || c == '[' || c == ']' }

  lemma PieceChars(s: string)
    ensures forall c :: c in s[..SuffixPiece(s)] ==> IsPathChar(c)
  {
    hide Span;
    var n := SuffixPiece(s);
    forall i | 0 <= i < n ensures IsPathChar(s[i]) {
      if i > 0 { assert s[i] == s[1..][i - 1]; }
    }
  }

  lemma {:induction false} SuffixChars(s: string)
    requires SuffixLength(s) == |s|
    ensures forall c :: c in s ==> IsPathChar(c)
    decreases |s|
  {
    hide SuffixPiece, IsPathChar;
    var piece := SuffixPiece(s);
    if s != "" {
      PieceChars(s);
      SuffixChars(s[piece..]);
      assert s == s[..piece] + s[piece..];
    }
  }

  lemma VariableChars(s: string)
    requires VariableLength(s) == |s| > 0
    ensures forall i :: 0 <= i < |s| ==> IsPathChar(s[i])
  {
    hide Span, SuffixLength, IsPathChar, IsWord;
    var n := Span(s, IsWord);
    SuffixChars(s[n..]);
    forall i | 0 <= i < |s| ensures IsPathChar(s[i]) {
      if i < n {
        WordIsPathChar(s[i]);
      } else {
        assert s[i] == s[n..][i - n] && s[i] in s[n..];
      }
    }
  }

  lemma WordIsPathChar(c: char)
    requires IsWord(c)
    ensures IsPathChar(c)
  {
  }

  lemma VariablePlain(s: string)
    requires VariableLength(s) == |s| > 0
    ensures Plain(s)
  {
    hide VariableLength;
    VariableChars(s);
  }

  lemma Cut(a: string, b: string)
    ensures (a + b)[..|a|] == a && (a + b)[|a|..] == b
  {
  }

  lemma StripTag(p: string, rest: string)
    ensures Strip(p + rest, p) == Some(rest)
  {
    Cut(p, rest);
  }

  /** A run of characters of one kind up to one of another. */
  lemma {:induction false} Run(a: string, t: string, p: char -> bool)
    requires (forall c :: c in a ==> p(c)) && t != "" && !p(t[0])
    ensures Span(a + t, p) == |a| && Past(a + t, p) == t && (a + t)[..|a|] == a
  {
    if a == "" {
      assert a + t == t;
    } else {
      assert (a + t)[1..] == a[1..] + t && (a + t)[0] == a[0] && a[0] in a;
      Run(a[1..], t, p);
    }
    Cut(a, t);
  }

  lemma PrintedVar(left: string, path: string, right: string, rest: string)
    ensures Tag(left + path + right) + rest == "{{" + (left + (path + (right + ("}}" + rest))))
  {
  }

  lemma VariableEnds(path: string, right: string, rest: string)
    requires IsVariable(path) && Blank(right)
    ensures !IsSpace(path[0]) && Ends(right + ("}}" + rest)) && VariableLength(path + (right + ("}}" + rest))) == |path|
  {
    var t := right + ("}}" + rest);
    hide VariableLength, Span;
    VariableChars(path);
    if right != "" { assert t[0] == right[0] && right[0] in right; }
    VariableStops(path, t);
  }

  lemma MatchPrintedVar(left: string, path: string, right: string, rest: string)
    requires Blank(left) && IsVariable(path) && Blank(right)
    ensures MatchVar(Tag(left + path + right) + rest) == VarMatch(path, rest)
  {
    hide VariableLength, Span, Tag, IsSpace, Ends;
    var t3 := "}}" + rest;
    var t2 := right + t3;
    var t1 := path + t2;
    PrintedVar(left, path, right, rest);
    VariableEnds(path, right, rest);
    assert t1[0] == path[0];
    ClosingIsNoSpace();
    Run(left, t1, IsSpace);
    Run(right, t3, IsSpace);
    StripTag("{{", left + t1);
    StripTag("}}", rest);
    Cut(path, t2);
    hide Strip, Past;
  }

  lemma ClosingIsNoSpace()
    ensures !IsSpace('}')
  {
  }

  lemma TagChars(c: string, rest: string)
    ensures var s := Tag(c) + rest;
      s[..2] == "{{" && s[2 + |c|] == '}' && s[3 + |c|] == '}' && forall i :: 0 <= i < |c| ==> s[2 + i] == c[i]
  {
  }

  /** Without a space behind the keyword there is no block. */
  lemma NoSpaceNoBlock(s: string)
    ensures |s| > 4 && !IsSpace(s[4]) ==> MatchIf(s) == NoIf
    ensures |s| > 5 && !IsSpace(s[5]) ==> MatchFor(s) == NoFor
    ensures !StartsWith(s, "{{if") ==> MatchIf(s) == NoIf
    ensures !StartsWith(s, "{{for") ==> MatchFor(s) == NoFor
  {
    hide Find, IsSpace, MatchForList;
    if |s| > 5 && !IsSpace(s[5]) {
      assert s[5..][0] == s[5];
      Run("", s[5..], IsSpace);
    }
  }

  /** Nor where white space follows the keyword up to the end of the tag. */
  lemma NothingNamed(s: string, right: string, rest: string)
    requires Blank(right)
    ensures s == "{{if" + (right + ("}}" + rest)) && |right| < 2 ==> MatchIf(s) == NoIf
    ensures s == "{{for" + (right + ("}}" + rest)) ==> MatchFor(s) == NoFor
  {
    hide Find, MatchForList, Span, Strip;
    var t := "}}" + rest;
    ClosingIsNoSpace();
    SpacesClose();
    StripTag("{{if", right + t);
    StripTag("{{for", right + t);
    Run(right, t, NotClosing);
    Run(right, t, IsSpace);
    Run("", t, IsWord);
    assert "" + t == t;
  }

  lemma SpacesClose()
    ensures forall c :: IsSpace(c) ==> NotClosing(c) && c != '{' && !IsPathChar(c) && c !in "ifor"
  {
  }

  /** The characters of a tag that starts with a name. */
  lemma NameChars(path: string, right: string, rest: string)
    requires IsVariable(path) && Blank(right)
    ensures var s := Tag(path + right) + rest;
      && |s| >= |path| + 4
      && (forall i :: 0 <= i < |path| ==> s[2 + i] == path[i] && !IsSpace(path[i]))
      && (s[2 + |path|] == '}' || IsSpace(s[2 + |path|]))
  {
    hide VariableLength, IsSpace, IsPathChar;
    var s := Tag(path + right) + rest;
    TagChars(path + right, rest);
    VariableChars(path);
    SpacesClose();
    assert forall i :: 0 <= i < |path| ==> s[2 + i] == (path + right)[i] == path[i];
    if right != "" { assert s[2 + |path|] == (path + right)[|path|] == right[0] && right[0] in right; }
  }

  /** A name is a keyword only if it is all of it. */
  lemma NameIsNoKeyword(path: string, right: string, rest: string)
    requires IsVariable(path) && Blank(right)
    ensures var s := Tag(path + right) + rest;
      && (StartsWith(s, "{{if") ==> path == "if" || (|s| > 4 && !IsSpace(s[4])))
      && (StartsWith(s, "{{for") ==> path == "for" || (|s| > 5 && !IsSpace(s[5])))
  {
    hide VariableLength, IsSpace, IsPathChar, Tag, StartsWith;
    var s := Tag(path + right) + rest;
    NameChars(path, right, rest);
    SpacesClose();
    if StartsWith(s, "{{if") {
      StartChar(s, "{{if", 2);
      StartChar(s, "{{if", 3);
      assert s[2] == path[0];
      if |path| == 2 { assert s[3] == path[1]; }
      if |path| > 2 { assert s[4] == path[2]; }
    }
    if StartsWith(s, "{{for") {
      StartChar(s, "{{for", 2);
      StartChar(s, "{{for", 3);
      StartChar(s, "{{for", 4);
      assert s[2] == path[0];
      if |path| > 1 { assert s[3] == path[1]; }
      if |path| > 2 { assert s[4] == path[2]; }
      if |path| > 3 { assert s[5] == path[3]; }
    }
  }

  lemma VariableIsNoBlock(left: string, path: string, right: string, rest: string)
    requires IsVariableTag(left, path, right)
    ensures MatchIf(Tag(left + path + right) + rest) == NoIf && MatchFor(Tag(left + path + right) + rest) == NoFor
  {
    hide MatchIf, MatchFor, VariableLength, IsSpace, IsPathChar, Tag, StartsWith;
    var inner := left + path + right;
    var s := Tag(inner) + rest;
    TagChars(inner, rest);
    VariableChars(path);
    SpacesClose();
    NoSpaceNoBlock(s);
    PrintedVar(left, path, right, rest);
    if left != "" {
      assert inner[0] == left[0] && left[0] in left;
      StartChar(s, "{{if", 2);
      StartChar(s, "{{for", 2);
    } else {
      assert inner == path + right;
      NothingNamed(s, right, rest);
      NameIsNoKeyword(path, right, rest);
    }
  }

  lemma IfChain(s: string, s1: string, inner: string, s2: string, body: string, rest: string)
    requires Strip(s, "{{if") == Some(s1)
    requires Span(s1, NotClosing) == |inner| >= 2 && IsSpace(s1[0]) && s1[..|inner|] == inner
    requires Strip(s1[|inner|..], "}}") == Some(s2)
    requires Find(s2, "{{endif}}") == Some(|body|) && s2[..|body|] == body && s2[|body| + 9..] == rest
    ensures MatchIf(s) == IfMatch(inner, body, rest)
  {
    hide Find, Strip, Span, IsSpace;
  }

  lemma PrintedIf(inner: string, after: string)
    ensures Tag("if" + inner) + after == "{{if" + (inner + ("}}" + after))
  {
  }

  /** The text between the opening tag of an if and its endif. */
  lemma MatchPrintedIf(gap: string, c: string, body: string, rest: string)
    requires IsCondition(gap, c)
    requires Find(body + (Tag("endif") + rest), Tag("endif")) == Some(|body|)
    ensures MatchIf(Tag("if" + (gap + c)) + (body + (Tag("endif") + rest))) == IfMatch(gap + c, body, rest)
  {
    hide Find, MatchIf, Span, Strip, IsSpace;
    var close := "{{endif}}";
    assert Tag("endif") == close;
    var s2 := body + (close + rest);
    var inner := gap + c;
    var s1 := inner + ("}}" + s2);
    PrintedIf(inner, s2);
    StripTag("{{if", s1);
    SpacesClose();
    assert gap[0] in gap && s1[0] == gap[0];
    Run(inner, "}}" + s2, NotClosing);
    Cut(inner, "}}" + s2);
    StripTag("}}", s2);
    Cut(body, close + rest);
    TailAfter(body, close, rest);
    IfChain(Tag("if" + inner) + s2, s1, inner, s2, body, rest);
  }

  lemma TailAfter(a: string, b: string, c: string)
    ensures (a + (b + c))[|a| + |b|..] == c
  {
  }

  /** The white space before a condition does not matter. */
  lemma {:induction false} GapIgnored(data: Data, gap: string, c: string)
    requires Blank(gap)
    ensures Condition(data, gap + c) == Condition(data, c)
  {
    hide FirstOperator, HasOperator, NestedValue;
    if gap == "" {
      assert gap + c == c;
    } else {
      assert (gap + c)[1..] == gap[1..] + c && (gap + c)[0] == gap[0] && gap[0] in gap;
      assert TrimStart(gap + c) == TrimStart(gap[1..] + c);
      GapIgnored(data, gap[1..], c);
    }
  }

  lemma {:induction false} DottedStops(s: string, t: string)
    requires DottedLength(s) == |s| > 0 && t != "" && t[0] == '}'
    ensures DottedLength(s + t) == |s|
    decreases |s|
  {
    SpanStops(s, t, IsWord);
    hide Span;
    var n := Span(s, IsWord);
    if n < |s| {
      assert (s + t)[n + 1..] == s[n + 1..] + t;
      DottedStops(s[n + 1..], t);
    }
  }

  lemma DottedStart(s: string)
    requires DottedLength(s) > 0
    ensures s != "" && IsWord(s[0])
  {
  }

  lemma PrintedFor(h: ForHead, s7: string)
    ensures Tag(ForTag(h)) + s7
         == "{{for" + (h.gap + (h.item + (h.beforeIn + ("in" + (h.afterIn + (h.list + ("}}" + s7)))))))
  {
  }

  lemma ForChain(s: string, s1: string, s2: string, item: string, s3: string, s4: string, s5: string, s6: string)
    requires Strip(s, "{{for") == Some(s1) && Past(s1, IsSpace) == s2 != s1
    requires Past(s2, IsWord) == s3 != s2 && |s2| == |item| + |s3| && s2[..|item|] == item
    requires Past(s3, IsSpace) == s4 != s3 && Strip(s4, "in") == Some(s5) && Past(s5, IsSpace) == s6 != s5
    ensures MatchFor(s) == MatchForList(item, s6)
  {
    hide Strip, Past, MatchForList;
  }

  lemma WordsAndSpaces()
    ensures forall c :: IsWord(c) ==> !IsSpace(c)
  {
  }

  lemma FirstIs(a: string, t: string)
    requires a != ""
    ensures (a + t)[0] == a[0] && a[0] in a
  {
  }

  /** The pieces of a printed for block. */
  lemma MatchPrintedFor(h: ForHead, body: string, rest: string)
    requires IsForHead(h)
    requires Find(body + (Tag("endfor") + rest), Tag("endfor")) == Some(|body|)
    ensures MatchFor(Tag(ForTag(h)) + (body + (Tag("endfor") + rest))) == ForMatch(h.item, h.list, body, rest)
  {
    hide Find, DottedLength, Span, MatchForList, MatchFor, Strip, Past, IsSpace, IsWord, ForTag;
    var s7 := body + (Tag("endfor") + rest);
    var s6 := h.list + ("}}" + s7);
    var s5 := h.afterIn + s6;
    var s4 := "in" + s5;
    var s3 := h.beforeIn + s4;
    var s2 := h.item + s3;
    var s1 := h.gap + s2;
    PrintedFor(h, s7);
    DottedStart(h.list);
    WordsAndSpaces();
    FirstIs(h.item, s3);
    FirstIs(h.list, "}}" + s7);
    FirstIs(h.beforeIn, s4);
    InIsNoSpace(s5);
    StripTag("{{for", s1);
    Run(h.gap, s2, IsSpace);
    Run(h.item, s3, IsWord);
    Run(h.beforeIn, s4, IsSpace);
    StripTag("in", s5);
    Run(h.afterIn, s6, IsSpace);
    ForChain(Tag(ForTag(h)) + s7, s1, s2, h.item, s3, s4, s5, s6);
    MatchPrintedList(h.item, h.list, body, rest);
  }

  lemma InIsNoSpace(t: string)
    ensures ("in" + t)[0] == 'i' && !IsSpace('i')
  {
  }

  lemma MatchPrintedList(item: string, list: string, body: string, rest: string)
    requires IsList(list)
    requires Find(body + (Tag("endfor") + rest), Tag("endfor")) == Some(|body|)
    ensures MatchForList(item, list + ("}}" + (body + (Tag("endfor") + rest)))) == ForMatch(item, list, body, rest)
  {
    hide Find, DottedLength;
    var close := "{{endfor}}";
    var s7 := body + (close + rest);
    assert Tag("endfor") == close;
    DottedStops(list, "}}" + s7);
    Cut(list, "}}" + s7);
    StripTag("}}", s7);
    hide Strip;
    Cut(body, close + rest);
    TailAfter(body, close, rest);
  }

  lemma VarNeedsBraces(data: Data)
    ensures NeedsBraces(VarHit(data))
  {
    hide MatchVar;
    forall s ensures VarHit(data)(s) != Miss ==> |s| >= 2 && s[0] == '{' && s[1] == '{' { StartOfMatch(s); }
  }

  lemma IfNeedsBraces(data: Data)
    ensures NeedsBraces(IfHit(data))
  {
    hide MatchIf;
    forall s ensures IfHit(data)(s) != Miss ==> |s| >= 2 && s[0] == '{' && s[1] == '{' { StartOfMatch(s); }
  }

  lemma ForNeedsBraces(data: Data)
    ensures NeedsBraces(ForHit(data))
  {
    hide MatchFor;
    forall s ensures ForHit(data)(s) != Miss ==> |s| >= 2 && s[0] == '{' && s[1] == '{' { StartOfMatch(s); }
  }

  lemma StartOfMatch(s: string)
    ensures MatchVar(s) != NoVar || MatchIf(s) != NoIf || MatchFor(s) != NoFor ==>
      |s| >= 2 && s[0] == '{' && s[1] == '{'
  {
    hide Find, Span, Past, VariableLength, MatchForList;
    if StartsWith(s, "{{") { assert s[..2][0] == '{' && s[..2][1] == '{'; }
    if StartsWith(s, "{{if") { assert s[..4][0] == '{' && s[..4][1] == '{'; }
    if StartsWith(s, "{{for") { assert s[..5][0] == '{' && s[..5][1] == '{'; }
  }
}
