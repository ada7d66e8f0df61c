/** The three patterns match exactly the tags of the template language, in any text. */
module TemplatePatterns {
  import opened JsText
  import opened TemplateEngine
  import opened TemplateLexing
  import opened TemplateValues

  // ---------------------------------------------------------------- paths

  /** A name that does not start with a digit. */
  predicate IsIdent(s: string) { IsName(s) && !('0' <= s[0] <= '9') }

  predicate IsField(s: string, name: string, rest: string) { IsIdent(name) && s == "." + name + rest }

  predicate IsIndexed(s: string, digits: string, rest: string) { AllDigits(digits) && s == "[" + digits + "]" + rest }

  /** Fields and indexes, one after the other. */
  ghost predicate IsSuffix(s: string)
    decreases |s|
  {
    || s == ""
    || (exists name, rest :: IsField(s, name, rest) && IsSuffix(rest))
    || (exists digits, rest :: IsIndexed(s, digits, rest) && IsSuffix(rest))
  }

  /** A path: a name, then fields and indexes. */
  ghost predicate IsPath(s: string) { exists name, rest :: IsIdent(name) && s == name + rest && IsSuffix(rest) }

  lemma SuffixStart(s: string)
    requires IsSuffix(s) && s != ""
    ensures s[0] == '.' || s[0] == '['
  {
  }

  lemma FieldPiece(name: string, rest: string)
    requires IsIdent(name) && (rest == "" || !IsWord(rest[0]))
    ensures SuffixPiece("." + name + rest) == 1 + |name|
  {
    var s := "." + name + rest;
    assert s[1..] == name + rest && s[1] == name[0];
    NameSpan(name, rest);
    hide Span;
  }

  lemma IndexPiece(digits: string, rest: string)
    requires AllDigits(digits)
    ensures SuffixPiece("[" + digits + "]" + rest) == |digits| + 2
  {
    var s := "[" + digits + "]" + rest;
    assert s[1..] == digits + ("]" + rest);
    DigitSpan(digits, "]" + rest);
    hide Span;
  }

  /** Each piece the engine takes is a field or an index. */
  lemma PieceForm(s: string) returns (text: string)
    requires SuffixPiece(s) > 0
    ensures var n := SuffixPiece(s);
      (IsIdent(text) && s[..n] == "." + text) || (AllDigits(text) && s[..n] == "[" + text + "]")
  {
    hide Span;
    var more := s[1..];
    if s[0] == '.' {
      text := more[..Span(more, IsWord)];
      assert more[0] == s[1] && text != "";
    } else {
      text := more[..Span(more, IsDigit)];
    }
  }

  lemma {:induction false} SuffixExactly(s: string)
    ensures SuffixLength(s) == |s| <==> IsSuffix(s)
    decreases |s|
  {
    hide SuffixPiece, IsIdent, AllDigits;
    if IsSuffix(s) && s != "" {
      if name, rest :| IsField(s, name, rest) && IsSuffix(rest) {
        if rest != "" { SuffixStart(rest); }
        FieldPiece(name, rest);
        assert s[1 + |name|..] == rest;
        SuffixExactly(rest);
      } else {
        var digits, rest :| IsIndexed(s, digits, rest) && IsSuffix(rest);
        IndexPiece(digits, rest);
        assert s[|digits| + 2..] == rest;
        SuffixExactly(rest);
      }
    }
    if SuffixLength(s) == |s| && s != "" {
      var n := SuffixPiece(s);
      var text := PieceForm(s);
      SuffixExactly(s[n..]);
      assert s == s[..n] + s[n..];
      assert IsField(s, text, s[n..]) || IsIndexed(s, text, s[n..]);
    }
  }

  /** The engine's variable names are exactly the paths. */
  lemma VariableExactly(s: string)
    ensures IsVariable(s) <==> IsPath(s)
  {
    hide SuffixLength, IsSuffix, Span;
    if name, rest :| IsIdent(name) && s == name + rest && IsSuffix(rest) {
      if rest != "" { SuffixStart(rest); }
      NameSpan(name, rest);
      SuffixExactly(rest);
      assert s[|name|..] == rest && s[0] == name[0];
    }
    if IsVariable(s) {
      var n := Span(s, IsWord);
      SuffixExactly(s[n..]);
      assert s == s[..n] + s[n..] && IsWord(s[0]) && n > 0;
      assert IsIdent(s[..n]);
    }
  }

  predicate IsWordThen(s: string, name: string, rest: string) { IsName(name) && s == name + rest }

  /** Words joined by dots. */
  ghost predicate IsDotted(s: string)
    decreases |s|
  {
    exists name, rest :: IsWordThen(s, name, rest) && (rest == "" || (rest[0] == '.' && IsDotted(rest[1..])))
  }

  lemma {:induction false} DottedExactly(s: string)
    ensures IsList(s) <==> IsDotted(s)
    decreases |s|
  {
    hide Span, IsName, IsList;
    if IsDotted(s) {
      var name, rest :| IsWordThen(s, name, rest) && (rest == "" || (rest[0] == '.' && IsDotted(rest[1..])));
      if rest != "" { DottedExactly(rest[1..]); }
      DottedBuilds(name, rest);
    }
    if IsList(s) {
      var n := Span(s, IsWord);
      DottedForm(s);
      if n < |s| { DottedExactly(s[n + 1..]); }
      assert s == s[..n] + s[n..];
      assert IsWordThen(s, s[..n], s[n..]);
    }
  }

  lemma DottedBuilds(name: string, rest: string)
    requires IsName(name) && (rest == "" || (rest[0] == '.' && IsList(rest[1..])))
    ensures IsList(name + rest)
  {
    var s := name + rest;
    NameSpan(name, rest);
    hide Span;
    if rest != "" { assert s[|name| + 1..] == rest[1..] && s[|name|] == '.'; }
  }

  lemma DottedForm(s: string)
    requires IsList(s)
    ensures var n := Span(s, IsWord);
      IsName(s[..n]) && (n < |s| ==> s[n] == '.' && s[n..][1..] == s[n + 1..] && IsList(s[n + 1..]))
  {
    hide Span;
  }

  // ---------------------------------------------------------------- what a match leaves behind

  lemma StripIs(s: string, p: string, rest: string)
    ensures Strip(s, p) == Some(rest) <==> s == p + rest
  {
    if s == p + rest { Cut(p, rest); }
  }

  /** A run and what follows it. */
  lemma RunOf(s: string, p: char -> bool) returns (a: string)
    ensures s == a + Past(s, p) && (forall c :: c in a ==> p(c)) && a == s[..|s| - |Past(s, p)|]
    ensures Past(s, p) == "" || !p(Past(s, p)[0])
  {
    hide Span;
    a := s[..Span(s, p)];
  }

  lemma {:induction false} SuffixOfSuffix(s: string)
    ensures SuffixLength(s[..SuffixLength(s)]) == SuffixLength(s)
    decreases |s|
  {
    hide SuffixPiece;
    var piece, n := SuffixPiece(s), SuffixLength(s);
    if piece == 0 {
      assert s[..0] == "";
      EmptyPiece();
    } else {
      SuffixOfSuffix(s[piece..]);
      PieceOfPrefix(s, n);
      assert s[..n][piece..] == s[piece..][..n - piece];
    }
  }

  lemma EmptyPiece()
    ensures SuffixPiece("") == 0
  {
  }

  lemma PieceOfPrefix(s: string, n: nat)
    requires 0 < SuffixPiece(s) <= n <= |s|
    ensures SuffixPiece(s[..n]) == SuffixPiece(s)
  {
    var t := s[..n];
    assert s[1..] == t[1..] + s[n..];
    SpanOfPrefix(s[1..], n - 1, IsWord);
    SpanOfPrefix(s[1..], n - 1, IsDigit);
    assert t[1..] == s[1..][..n - 1];
    hide Span;
  }

  lemma {:induction false} SpanOfPrefix(s: string, n: nat, p: char -> bool)
    requires n <= |s|
    ensures Span(s[..n], p) == if Span(s, p) <= n then Span(s, p) else n
  {
    if n > 0 && p(s[0]) {
      assert s[..n][1..] == s[1..][..n - 1];
      SpanOfPrefix(s[1..], n - 1, p);
    }
  }

  /** The variable name a match takes is a whole one. */
  lemma VariableOfPrefix(s: string)
    ensures VariableLength(s[..VariableLength(s)]) == VariableLength(s)
  {
    hide SuffixLength, Span;
    var n := VariableLength(s);
    if n > 0 {
      var k := Span(s, IsWord);
      SpanOfPrefix(s, n, IsWord);
      SuffixOfSuffix(s[k..]);
      assert s[..n][k..] == s[k..][..n - k] && s[..n][0] == s[0];
    }
  }

  lemma DottedStep(s: string)
    ensures var k := Span(s, IsWord);
      var more := if 0 < k < |s| && s[k] == '.' then DottedLength(s[k + 1..]) else 0;
      DottedLength(s) == if more == 0 then k else k + 1 + more
  {
    hide Span;
  }

  lemma {:induction false} DottedOfPrefix(s: string)
    ensures DottedLength(s[..DottedLength(s)]) == DottedLength(s)
    decreases |s|
  {
    hide Span, DottedLength;
    var n, k := DottedLength(s), Span(s, IsWord);
    DottedStep(s);
    DottedStep(s[..n]);
    SpanOfPrefix(s, n, IsWord);
    if n > k {
      DottedOfPrefix(s[k + 1..]);
      assert s[..n][k + 1..] == s[k + 1..][..n - k - 1] && s[..n][k] == s[k];
    }
  }

  // ---------------------------------------------------------------- exactly what each pattern matches

  /** A variable's tag and what follows it. */
  ghost predicate StartsWithVariable(s: string, path: string, rest: string) {
    exists left, right :: Blank(left) && Blank(right) && IsPath(path) && s == Tag(left + path + right) + rest
  }

  lemma VariablePattern(s: string, path: string, rest: string)
    ensures MatchVar(s) == VarMatch(path, rest) <==> StartsWithVariable(s, path, rest)
  {
    hide IsPath, IsVariable, Tag;
    VariableExactly(path);
    if StartsWithVariable(s, path, rest) {
      var left, right :| Blank(left) && Blank(right) && IsPath(path) && s == Tag(left + path + right) + rest;
      MatchPrintedVar(left, path, right, rest);
    }
    if MatchVar(s) == VarMatch(path, rest) {
      var left, right := VariableMatched(s, path, rest);
    }
  }

  lemma VariableMatched(s: string, path: string, rest: string) returns (left: string, right: string)
    requires MatchVar(s) == VarMatch(path, rest)
    ensures Blank(left) && Blank(right) && IsVariable(path) && s == Tag(left + path + right) + rest
  {
    hide VariableLength, Past, Strip, IsSpace;
    var s1 := Strip(s, "{{").value;
    var s2 := Past(s1, IsSpace);
    var n := VariableLength(s2);
    var s3 := s2[n..];
    StripIs(s, "{{", s1);
    left := RunOf(s1, IsSpace);
    VariableOfPrefix(s2);
    right := RunOf(s3, IsSpace);
    StripIs(Past(s3, IsSpace), "}}", rest);
    assert s2 == path + s3;
    PrintedVar(left, path, right, rest);
  }

  /** The opening tag of a loop, its body up to the first closing tag, and what follows. */
  ghost predicate StartsWithFor(s: string, item: string, list: string, body: string, rest: string) {
    exists h, tail :: IsForHead(h) && h.item == item && h.list == list && s == Tag(ForTag(h)) + tail
                      && CutsAt(tail, "{{endfor}}", body, rest)
  }

  lemma ForPattern(s: string, item: string, list: string, body: string, rest: string)
    ensures MatchFor(s) == ForMatch(item, list, body, rest) <==> StartsWithFor(s, item, list, body, rest)
  {
    hide IsForHead, ForTag, CutsAt;
    assert Tag("endfor") == "{{endfor}}";
    hide Tag;
    if StartsWithFor(s, item, list, body, rest) {
      var h, tail :| IsForHead(h) && h.item == item && h.list == list && s == Tag(ForTag(h)) + tail
                     && CutsAt(tail, "{{endfor}}", body, rest);
      CutIsText(tail, "{{endfor}}", body, rest);
      CutIsFound(tail, "{{endfor}}", body, rest);
      MatchPrintedFor(h, body, rest);
    }
    if MatchFor(s) == ForMatch(item, list, body, rest) {
      var h, tail := ForMatched(s, item, list, body, rest);
    }
  }

  lemma ForMatched(s: string, item: string, list: string, body: string, rest: string)
    returns (h: ForHead, tail: string)
    requires MatchFor(s) == ForMatch(item, list, body, rest)
    ensures IsForHead(h) && h.item == item && h.list == list && s == Tag(ForTag(h)) + tail
    ensures CutsAt(tail, "{{endfor}}", body, rest)
  {
    hide DottedLength, Past, Strip, IsSpace, Find, CutsAt, MatchForList, IsWord;
    var s1 := Strip(s, "{{for").value;
    var s2 := Past(s1, IsSpace);
    var s3 := Past(s2, IsWord);
    var s4 := Past(s3, IsSpace);
    var s5 := Strip(s4, "in").value;
    var s6 := Past(s5, IsSpace);
    StripIs(s, "{{for", s1);
    StripIs(s4, "in", s5);
    var gap := RunOf(s1, IsSpace);
    var name := RunOf(s2, IsWord);
    var beforeIn := RunOf(s3, IsSpace);
    var afterIn := RunOf(s5, IsSpace);
    tail := ForListMatched(name, s6, item, list, body, rest);
    h := ForHead(gap, item, beforeIn, afterIn, list);
    assert gap != "" && beforeIn != "" && afterIn != "" && item != "";
    PrintedFor(h, tail);
  }

  lemma ForListMatched(name: string, s6: string, item: string, list: string, body: string, rest: string)
    returns (tail: string)
    requires MatchForList(name, s6) == ForMatch(item, list, body, rest)
    ensures name == item && IsList(list) && s6 == list + ("}}" + tail) && CutsAt(tail, "{{endfor}}", body, rest)
  {
    hide DottedLength, Strip, Find, CutsAt;
    var n := DottedLength(s6);
    tail := Strip(s6[n..], "}}").value;
    StripIs(s6[n..], "}}", tail);
    DottedOfPrefix(s6);
    FoundIsCut(tail, "{{endfor}}");
  }

  /** The opening tag of an if, its body up to the first closing tag, and what follows. */
  ghost predicate StartsWithIf(s: string, condition: string, body: string, rest: string) {
    exists tail ::
      && |condition| >= 2 && IsSpace(condition[0]) && '}' !in condition
      && s == Tag("if" + condition) + tail && CutsAt(tail, "{{endif}}", body, rest)
  }

  lemma IfPattern(s: string, condition: string, body: string, rest: string)
    ensures MatchIf(s) == IfMatch(condition, body, rest) <==> StartsWithIf(s, condition, body, rest)
  {
    hide CutsAt, IsSpace, Find, Span, Strip;
    if StartsWithIf(s, condition, body, rest) {
      var tail :| |condition| >= 2 && IsSpace(condition[0]) && '}' !in condition
                  && s == Tag("if" + condition) + tail && CutsAt(tail, "{{endif}}", body, rest);
      CutIsFound(tail, "{{endif}}", body, rest);
      IfMatches(condition, tail, body, rest);
    }
    if MatchIf(s) == IfMatch(condition, body, rest) {
      var tail := IfMatched(s, condition, body, rest);
    }
  }

  lemma IfMatches(condition: string, tail: string, body: string, rest: string)
    requires |condition| >= 2 && IsSpace(condition[0]) && '}' !in condition
    requires Find(tail, "{{endif}}") == Some(|body|) && body == tail[..|body|] && rest == tail[|body| + 9..]
    ensures MatchIf(Tag("if" + condition) + tail) == IfMatch(condition, body, rest)
  {
    hide Find, MatchIf, Span, Strip, IsSpace, Tag;
    var s1 := condition + ("}}" + tail);
    PrintedIf(condition, tail);
    StripTag("{{if", s1);
    Run(condition, "}}" + tail, NotClosing);
    Cut(condition, "}}" + tail);
    StripTag("}}", tail);
    IfChain(Tag("if" + condition) + tail, s1, condition, tail, body, rest);
  }

  lemma IfMatched(s: string, condition: string, body: string, rest: string) returns (tail: string)
    requires MatchIf(s) == IfMatch(condition, body, rest)
    ensures |condition| >= 2 && IsSpace(condition[0]) && '}' !in condition
    ensures s == Tag("if" + condition) + tail && CutsAt(tail, "{{endif}}", body, rest)
  {
    hide Strip, Span, IsSpace, Find, CutsAt, Tag;
    var s1 := Strip(s, "{{if").value;
    var n := Span(s1, NotClosing);
    tail := Strip(s1[n..], "}}").value;
    StripIs(s, "{{if", s1);
    StripIs(s1[n..], "}}", tail);
    assert s1 == condition + ("}}" + tail);
    PrintedIf(condition, tail);
    FoundIsCut(tail, "{{endif}}");
  }
}
