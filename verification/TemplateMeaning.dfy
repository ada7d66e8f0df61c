/** The three passes against a direct evaluation of the template's syntax tree. */
module TemplateMeaning {
  import opened JsText
  import opened TemplateEngine
  import opened TemplateLexing

  datatype Node =
    | Text(text: string)
    | Var(left: string, path: string, right: string)
    | If(gap: string, condition: string, thenPart: seq<Node>, hasElse: bool, elsePart: seq<Node>)
    | For(head: ForHead, body: seq<Node>)

  /** The template text of a tree, with the white space of its tags. */
  function Print(nodes: seq<Node>): string {
    if nodes == [] then "" else PrintNode(nodes[0]) + Print(nodes[1..])
  }

  function PrintNode(node: Node): string {
    match node
    case Text(t) => t
    case Var(left, path, right) => Tag(left + path + right)
    case If(gap, c, a, hasElse, b) =>
      Tag("if" + (gap + c)) + (Print(a) + ((if hasElse then Tag("else") else "") + (Print(b) + Tag("endif"))))
    case For(head, body) => Tag(ForTag(head)) + (Print(body) + Tag("endfor"))
  }

  // ---------------------------------------------------------------- direct evaluation

  function Eval(nodes: seq<Node>, data: Data): string
    decreases nodes, 0, 0
  {
    if nodes == [] then ""
    else (match nodes[0]
          case Text(t) => t
          case Var(_, path, _) => FormatValue(NestedValue(data, path))
          case If(_, c, a, _, b) => if Condition(data, c) then Eval(a, data) else Eval(b, data)
          case For(head, body) => EvalLoop(body, head.item, LoopItems(data, head.list), 0, data))
         + Eval(nodes[1..], data)
  }

  function EvalLoop(body: seq<Node>, item: string, items: seq<Value>, i: nat, data: Data): string
    decreases body, 1, |items| - i
  {
    if i >= |items| then ""
    else Eval(body, Bind(data, item, items[i], i)) + EvalLoop(body, item, items, i + 1, data)
  }

  // ---------------------------------------------------------------- which trees

  /** An if may hold a for and a for an if, but neither its own kind. */
  predicate WellFormed(nodes: seq<Node>, inFor: bool, inIf: bool) {
    nodes == [] ||
    ((match nodes[0]
      case Text(t) => '{' !in t
      case Var(left, path, right) => IsVariableTag(left, path, right)
      case If(gap, c, a, hasElse, b) =>
        !inIf && IsCondition(gap, c) && (hasElse || b == []) && WellFormed(a, inFor, true) && WellFormed(b, inFor, true)
      case For(head, body) =>
        !inFor && IsForHead(head) && WellFormed(body, true, false))
     && WellFormed(nodes[1..], inFor, inIf))
  }

  // ---------------------------------------------------------------- what is inserted

  /** No text inserted while a tree is evaluated contains an opening brace. */
  ghost predicate Clean(nodes: seq<Node>, data: Data)
    decreases nodes, 0, 0
  {
    nodes == [] ||
    ((match nodes[0]
      case Text(_) => true
      case Var(_, path, _) => '{' !in FormatValue(NestedValue(data, path))
      case If(_, c, a, _, b) =>
        if Condition(data, c) then Clean(a, data) && LoopsClean(b, data) else LoopsClean(a, data) && Clean(b, data)
      case For(head, body) => LoopClean(body, head.item, LoopItems(data, head.list), 0, data))
     && Clean(nodes[1..], data))
  }

  /** Loops are expanded even in the branch that is not taken. */
  ghost predicate LoopsClean(nodes: seq<Node>, data: Data)
    decreases nodes, 0, 0
  {
    nodes == [] ||
    ((match nodes[0]
      case Text(_) => true
      case Var(_, _, _) => true
      case If(_, _, a, _, b) => LoopsClean(a, data) && LoopsClean(b, data)
      case For(head, body) => LoopClean(body, head.item, LoopItems(data, head.list), 0, data))
     && LoopsClean(nodes[1..], data))
  }

  ghost predicate LoopClean(body: seq<Node>, item: string, items: seq<Value>, i: nat, data: Data)
    decreases body, 1, |items| - i
  {
    i >= |items| || (Clean(body, Bind(data, item, items[i], i)) && LoopClean(body, item, items, i + 1, data))
  }

  /**
   * No text that a later pass reads again contains an opening brace: what loops and taken branches insert. The
   * values of variables outside all blocks go in last and may be anything.
   */
  ghost predicate RereadClean(nodes: seq<Node>, data: Data)
    decreases nodes, 0, 0
  {
    nodes == [] ||
    ((match nodes[0]
      case Text(_) => true
      case Var(_, _, _) => true
      case If(_, c, a, _, b) =>
        if Condition(data, c) then Clean(a, data) && LoopsClean(b, data) else LoopsClean(a, data) && Clean(b, data)
      case For(head, body) => LoopClean(body, head.item, LoopItems(data, head.list), 0, data))
     && RereadClean(nodes[1..], data))
  }

  lemma {:induction false} CleanReread(nodes: seq<Node>, data: Data)
    requires Clean(nodes, data)
    ensures RereadClean(nodes, data)
  {
    hide LoopClean, LoopsClean;
    if nodes != [] { CleanReread(nodes[1..], data); }
  }

  lemma {:induction false} EvalOpensNothing(nodes: seq<Node>, inFor: bool, inIf: bool, data: Data)
    requires WellFormed(nodes, inFor, inIf) && Clean(nodes, data)
    ensures '{' !in Eval(nodes, data)
    decreases nodes, 0, 0
  {
    if nodes != [] {
      EvalOpensNothing(nodes[1..], inFor, inIf, data);
      match nodes[0]
      case Text(_) =>
      case Var(_, _, _) =>
      case If(_, c, a, _, b) =>
        EvalOpensNothing(if Condition(data, c) then a else b, inFor, true, data);
      case For(head, body) => LoopOpensNothing(body, head.item, LoopItems(data, head.list), 0, data);
      var all, rest := Eval(nodes, data), Eval(nodes[1..], data);
      assert all == all[..|all| - |rest|] + rest;
    }
  }

  lemma {:induction false} LoopOpensNothing(body: seq<Node>, item: string, items: seq<Value>, i: nat, data: Data)
    requires WellFormed(body, true, false) && LoopClean(body, item, items, i, data)
    ensures '{' !in EvalLoop(body, item, items, i, data)
    decreases body, 1, |items| - i
  {
    if i < |items| {
      EvalOpensNothing(body, true, false, Bind(data, item, items[i], i));
      LoopOpensNothing(body, item, items, i + 1, data);
    }
  }

  // ---------------------------------------------------------------- the passes on trees

  /** Loops become the text they evaluate to. */
  function ExpandLoops(nodes: seq<Node>, data: Data): (r: seq<Node>)
    ensures |r| == |nodes|
  {
    if nodes == [] then []
    else [match nodes[0]
          case Text(_) => nodes[0]
          case Var(_, _, _) => nodes[0]
          case If(gap, c, a, hasElse, b) => If(gap, c, ExpandLoops(a, data), hasElse, ExpandLoops(b, data))
          case For(head, body) => Text(EvalLoop(body, head.item, LoopItems(data, head.list), 0, data))]
         + ExpandLoops(nodes[1..], data)
  }

  /** Conditionals become the text of the branch they take. */
  function ResolveIfs(nodes: seq<Node>, data: Data): (r: seq<Node>)
    ensures |r| == |nodes|
  {
    if nodes == [] then []
    else [match nodes[0]
          case If(_, c, a, _, b) => Text(if Condition(data, c) then Eval(a, data) else Eval(b, data))
          case _ => nodes[0]]
         + ResolveIfs(nodes[1..], data)
  }

  lemma {:induction false} ExpandKeepsMeaning(nodes: seq<Node>, inIf: bool, data: Data)
    requires WellFormed(nodes, false, inIf) && LoopsClean(nodes, data)
    ensures WellFormed(ExpandLoops(nodes, data), true, inIf)
    ensures Eval(ExpandLoops(nodes, data), data) == Eval(nodes, data)
    ensures Clean(nodes, data) ==> Clean(ExpandLoops(nodes, data), data)
    ensures RereadClean(nodes, data) ==> RereadClean(ExpandLoops(nodes, data), data)
    ensures LoopsClean(ExpandLoops(nodes, data), data)
  {
    if nodes != [] {
      ExpandKeepsMeaning(nodes[1..], inIf, data);
      match nodes[0]
      case Text(_) =>
      case Var(_, _, _) =>
      case If(_, c, a, hasElse, b) =>
        ExpandKeepsMeaning(a, true, data);
        ExpandKeepsMeaning(b, true, data);
      case For(head, body) => LoopOpensNothing(body, head.item, LoopItems(data, head.list), 0, data);
    }
  }

  lemma {:induction false} CleanLoops(nodes: seq<Node>, data: Data)
    requires Clean(nodes, data)
    ensures LoopsClean(nodes, data)
  {
    if nodes != [] {
      CleanLoops(nodes[1..], data);
      match nodes[0]
      case If(_, c, a, _, b) => if Condition(data, c) { CleanLoops(a, data); } else { CleanLoops(b, data); }
      case _ =>
    }
  }

  lemma {:induction false} RereadLoops(nodes: seq<Node>, data: Data)
    requires RereadClean(nodes, data)
    ensures LoopsClean(nodes, data)
  {
    if nodes != [] {
      RereadLoops(nodes[1..], data);
      match nodes[0]
      case If(_, c, a, _, b) => if Condition(data, c) { CleanLoops(a, data); } else { CleanLoops(b, data); }
      case _ =>
    }
  }

  lemma {:induction false} ResolveKeepsMeaning(nodes: seq<Node>, data: Data)
    requires WellFormed(nodes, true, false) && RereadClean(nodes, data)
    ensures WellFormed(ResolveIfs(nodes, data), true, true)
    ensures Eval(ResolveIfs(nodes, data), data) == Eval(nodes, data)
  {
    if nodes != [] {
      ResolveKeepsMeaning(nodes[1..], data);
      match nodes[0]
      case If(_, c, a, _, b) =>
        if Condition(data, c) { EvalOpensNothing(a, true, true, data); } else { EvalOpensNothing(b, true, true, data); }
      case _ =>
    }
  }

  // ---------------------------------------------------------------- the passes on printed trees

  lemma ReplaceHit(s: string, m: string -> Hit)
    requires m(s).Hit? && |m(s).rest| < |s|
    ensures ReplaceAll(s, m) == m(s).text + ReplaceAll(m(s).rest, m)
  {
  }

  lemma Regroup(a: string, b: string, c: string)
    ensures (a + b) + c == a + (b + c)
  {
  }

  lemma {:induction false} VariablesPass(nodes: seq<Node>, data: Data, rest: string)
    requires WellFormed(nodes, true, true)
    ensures ReplaceAll(Print(nodes) + rest, VarHit(data)) == Eval(nodes, data) + ReplaceAll(rest, VarHit(data))
    decreases |nodes|
  {
    hide ReplaceAll, MatchVar, Tag;
    var m := VarHit(data);
    if nodes == [] {
      assert Print(nodes) + rest == rest;
      assert "" + ReplaceAll(rest, m) == ReplaceAll(rest, m);
    } else {
      var tail := Print(nodes[1..]) + rest;
      VariablesPass(nodes[1..], data, rest);
      VarNeedsBraces(data);
      match nodes[0]
      case Text(t) =>
        Regroup(t, Print(nodes[1..]), rest);
        SkipPlain(t, tail, m);
        Regroup(t, Eval(nodes[1..], data), ReplaceAll(rest, m));
      case Var(left, path, right) =>
        var inner := left + path + right;
        Regroup(Tag(inner), Print(nodes[1..]), rest);
        MatchPrintedVar(left, path, right, tail);
        TagNotEmpty(inner);
        ReplaceHit(Tag(inner) + tail, m);
        Regroup(FormatValue(NestedValue(data, path)), Eval(nodes[1..], data), ReplaceAll(rest, m));
    }
  }

  lemma TagNotEmpty(c: string)
    ensures |Tag(c)| == |c| + 4
  {
  }

  lemma ProcessPrintedVariables(nodes: seq<Node>, data: Data)
    requires WellFormed(nodes, true, true)
    ensures ProcessVariables(Print(nodes), data) == Eval(nodes, data)
  {
    hide Print, Eval, WellFormed;
    VariablesPass(nodes, data, "");
    assert Print(nodes) + "" == Print(nodes);
    assert ReplaceAll("", VarHit(data)) == "";
  }

  /** A closing tag is not found inside what it closes. */
  lemma {:induction false} FindSkipsNodes(nodes: seq<Node>, inIf: bool, name: string, rest: string)
    requires WellFormed(nodes, true, inIf)
    requires name == "endfor" || (inIf && (name == "else" || name == "endif"))
    ensures Find(Print(nodes) + rest, Tag(name)) == Later(Find(rest, Tag(name)), |Print(nodes)|)
    decreases nodes, |nodes|
  {
    hide Find, Tag, PrintNode, Later;
    if nodes == [] {
      NoneSkipped(Find(rest, Tag(name)));
      assert Print(nodes) + rest == rest;
    } else {
      var tail := Print(nodes[1..]) + rest;
      FindSkipsNodes(nodes[1..], inIf, name, rest);
      Regroup(PrintNode(nodes[0]), Print(nodes[1..]), rest);
      FindSkipsNode(nodes[0], inIf, name, tail);
      LaterAdd(Find(rest, Tag(name)), |Print(nodes[1..])|, |PrintNode(nodes[0])|);
    }
  }

  lemma NoneSkipped(r: Option<nat>)
    ensures Later(r, 0) == r
  {
  }

  lemma {:induction false} FindSkipsNode(node: Node, inIf: bool, name: string, rest: string)
    requires WellFormed([node], true, inIf)
    requires name == "endfor" || (inIf && (name == "else" || name == "endif"))
    ensures Find(PrintNode(node) + rest, Tag(name)) == Later(Find(rest, Tag(name)), |PrintNode(node)|)
    decreases node, 1
  {
    hide Find, Tag, Print, VariableLength;
    match node
    case Text(t) => FindSkipsPlain(t, rest, name);
    case Var(left, path, right) =>
      VariableTagPlain(left, path, right);
      FindSkipsTag(left + path + right, rest, name);
    case If(gap, c, a, hasElse, b) => FindSkipsIf(gap, c, a, hasElse, b, rest);
  }

  lemma {:induction false} FindSkipsIf(
    gap: string, c: string, a: seq<Node>, hasElse: bool, b: seq<Node>, rest: string)
    requires IsCondition(gap, c) && WellFormed(a, true, true) && WellFormed(b, true, true)
    ensures Find(PrintNode(If(gap, c, a, hasElse, b)) + rest, Tag("endfor"))
         == Later(Find(rest, Tag("endfor")), |PrintNode(If(gap, c, a, hasElse, b))|)
    decreases If(gap, c, a, hasElse, b), 0
  {
    hide Find, Tag, Print, PrintNode, WellFormed, Plain;
    var e := if hasElse then Tag("else") else "";
    var t3 := Tag("endif") + rest;
    var t2 := Print(b) + t3;
    var t1 := e + t2;
    var t0 := Print(a) + t1;
    PrintedIfBlock(gap, c, a, hasElse, b, rest);
    PlainIf(gap, c);
    FindSkipsTag("if" + (gap + c), t0, "endfor");
    FindSkipsNodes(a, true, "endfor", t1);
    FindSkipsElse(hasElse, t2);
    FindSkipsNodes(b, true, "endfor", t3);
    FindSkipsTag("endif", rest, "endfor");
  }

  lemma FindSkipsElse(hasElse: bool, rest: string)
    ensures var e := if hasElse then Tag("else") else "";
      Find(e + rest, Tag("endfor")) == Later(Find(rest, Tag("endfor")), |e|)
  {
    hide Find, Tag;
    if hasElse { FindSkipsTag("else", rest, "endfor"); } else { assert "" + rest == rest; }
  }

  lemma PrintedIfBlock(gap: string, c: string, a: seq<Node>, hasElse: bool, b: seq<Node>, rest: string)
    ensures PrintNode(If(gap, c, a, hasElse, b)) + rest ==
      Tag("if" + (gap + c)) + (Print(a) + ((if hasElse then Tag("else") else "") + (Print(b) + (Tag("endif") + rest))))
    ensures |PrintNode(If(gap, c, a, hasElse, b))| ==
      |Tag("if" + (gap + c))| + |Print(a)| + (if hasElse then |Tag("else")| else 0) + |Print(b)| + |Tag("endif")|
  {
    hide Tag, Print;
    var e := if hasElse then Tag("else") else "";
    Regroup(Print(b), Tag("endif"), rest);
    Regroup(e, Print(b) + Tag("endif"), rest);
    Regroup(Print(a), e + (Print(b) + Tag("endif")), rest);
    Regroup(Tag("if" + (gap + c)), Print(a) + (e + (Print(b) + Tag("endif"))), rest);
  }

  lemma PlainIf(gap: string, c: string)
    requires IsCondition(gap, c)
    ensures Plain("if" + (gap + c)) && ("if" + (gap + c))[0] == 'i'
    ensures Plain("endif") && Plain("endfor")
  {
    SpacesClose();
  }

  /** The branch the engine cuts out of an if block is the branch of the tree. */
  lemma BranchIsPrinted(a: seq<Node>, hasElse: bool, b: seq<Node>, holds: bool)
    requires WellFormed(a, true, true) && WellFormed(b, true, true) && (hasElse || b == [])
    ensures Branch(Print(a) + ((if hasElse then Tag("else") else "") + Print(b)), holds)
         == Print(if holds then a else b)
  {
    hide WellFormed, Tag, Print, Branch;
    if hasElse {
      BranchWithElse(a, b, holds);
    } else {
      NothingPrinted();
      assert "" + Print(b) == "" && Print(a) + "" == Print(a);
      BranchWithoutElse(a, holds);
    }
  }

  lemma BranchWithElse(a: seq<Node>, b: seq<Node>, holds: bool)
    requires WellFormed(a, true, true)
    ensures Branch(Print(a) + (Tag("else") + Print(b)), holds) == Print(if holds then a else b)
  {
    assert Tag("else") == "{{else}}";
    hide Find, WellFormed, Tag, Print;
    var tail := Tag("else") + Print(b);
    FindSkipsNodes(a, true, "else", tail);
    TagNotEmpty("else");
    FindHere("else", Print(b));
    Cut(Print(a), tail);
    Cut(Tag("else"), Print(b));
    TailAfter(Print(a), Tag("else"), Print(b));
  }

  lemma BranchWithoutElse(a: seq<Node>, holds: bool)
    requires WellFormed(a, true, true)
    ensures Branch(Print(a), holds) == Print(if holds then a else [])
  {
    assert Tag("else") == "{{else}}";
    hide Find, WellFormed, Tag, Print;
    NothingPrinted();
    FindSkipsNodes(a, true, "else", "");
    assert Print(a) + "" == Print(a);
    NotInEmpty("else");
  }

  lemma NothingPrinted()
    ensures Print([]) == ""
  {
  }

  lemma NotInEmpty(name: string)
    ensures Find("", Tag(name)) == None
  {
  }

  /** One printed if block under the if pattern. */
  lemma IfBlockHit(gap: string, c: string, a: seq<Node>, hasElse: bool, b: seq<Node>, data: Data, rest: string)
    requires IsCondition(gap, c) && (hasElse || b == [])
    requires WellFormed(a, true, true) && WellFormed(b, true, true)
    ensures IfHit(data)(PrintNode(If(gap, c, a, hasElse, b)) + rest)
         == Hit(if Condition(data, c) then Eval(a, data) else Eval(b, data), rest)
  {
    hide Find, MatchIf, WellFormed, Print, Tag, Eval, Condition, Branch, ProcessVariables;
    var e := if hasElse then Tag("else") else "";
    var body := Print(a) + (e + Print(b));
    var close := Tag("endif") + rest;
    PrintedIfBlock(gap, c, a, hasElse, b, rest);
    Regroup(e, Print(b), close);
    Regroup(Print(a), e + Print(b), close);
    FindSkipsNodes(a, true, "endif", e + (Print(b) + close));
    if hasElse { ElseIsNotEndif(Print(b) + close); } else { assert e + (Print(b) + close) == Print(b) + close; }
    FindSkipsNodes(b, true, "endif", close);
    FindHere("endif", rest);
    MatchPrintedIf(gap, c, body, rest);
    GapIgnored(data, gap, c);
    BranchIsPrinted(a, hasElse, b, Condition(data, c));
    ProcessPrintedVariables(a, data);
    ProcessPrintedVariables(b, data);
  }

  lemma ElseIsNotEndif(rest: string)
    ensures Find(Tag("else") + rest, Tag("endif")) == Later(Find(rest, Tag("endif")), |Tag("else")|)
  {
    FindSkipsTag("else", rest, "endif");
  }

  lemma {:induction false} ConditionalsPass(nodes: seq<Node>, data: Data, rest: string)
    requires WellFormed(nodes, true, false)
    ensures ReplaceAll(Print(nodes) + rest, IfHit(data))
         == Print(ResolveIfs(nodes, data)) + ReplaceAll(rest, IfHit(data))
    decreases |nodes|
  {
    hide ReplaceAll, MatchIf, Tag, Eval, Condition;
    var m := IfHit(data);
    if nodes == [] {
      assert Print(nodes) + rest == rest;
      assert Print(ResolveIfs(nodes, data)) + ReplaceAll(rest, m) == ReplaceAll(rest, m);
    } else {
      var node, more := nodes[0], ResolveIfs(nodes[1..], data);
      var tail := Print(nodes[1..]) + rest;
      var done := ResolveIfs(nodes, data);
      assert done[1..] == more;
      ConditionalsPass(nodes[1..], data, rest);
      IfNeedsBraces(data);
      Regroup(PrintNode(node), Print(nodes[1..]), rest);
      Regroup(PrintNode(done[0]), Print(more), ReplaceAll(rest, m));
      match node
      case Text(t) => SkipPlain(t, tail, m);
      case Var(left, path, right) =>
        VariableIsNoBlock(left, path, right, tail);
        VariableTagPlain(left, path, right);
        SkipTag(left + path + right, tail, m);
      case If(gap, c, a, hasElse, b) =>
        IfBlockHit(gap, c, a, hasElse, b, data, tail);
        PrintedIfBlock(gap, c, a, hasElse, b, tail);
        TagNotEmpty("endif");
        ReplaceHit(PrintNode(node) + tail, m);
    }
  }

  lemma ProcessPrintedConditionals(nodes: seq<Node>, data: Data)
    requires WellFormed(nodes, true, false)
    ensures ProcessConditionals(Print(nodes), data) == Print(ResolveIfs(nodes, data))
  {
    hide Print, WellFormed, ResolveIfs;
    ConditionalsPass(nodes, data, "");
    assert Print(nodes) + "" == Print(nodes);
    assert ReplaceAll("", IfHit(data)) == "";
  }

  /** What the loop callback writes is what the loop evaluates to. */
  lemma {:induction false} LoopTextIsEval(body: seq<Node>, item: string, items: seq<Value>, i: nat, data: Data)
    requires WellFormed(body, true, false) && LoopClean(body, item, items, i, data)
    ensures LoopText(Print(body), item, items, i, data) == EvalLoop(body, item, items, i, data)
    decreases |items| - i
  {
    hide Print, WellFormed, Clean, RereadClean, Eval, ProcessVariables, ProcessConditionals, Bind;
    if i < |items| {
      var loopData := Bind(data, item, items[i], i);
      ProcessPrintedConditionals(body, loopData);
      CleanReread(body, loopData);
      ResolveKeepsMeaning(body, loopData);
      ProcessPrintedVariables(ResolveIfs(body, loopData), loopData);
      LoopTextIsEval(body, item, items, i + 1, data);
    }
  }

  /** One printed for block under the for pattern. */
  lemma ForBlockHit(head: ForHead, body: seq<Node>, data: Data, rest: string)
    requires IsForHead(head) && WellFormed(body, true, false)
    requires LoopClean(body, head.item, LoopItems(data, head.list), 0, data)
    ensures ForHit(data)(PrintNode(For(head, body)) + rest)
         == Hit(EvalLoop(body, head.item, LoopItems(data, head.list), 0, data), rest)
    ensures |PrintNode(For(head, body))| > 0
  {
    hide Find, MatchFor, WellFormed, Print, Tag, LoopItems, LoopText, EvalLoop, LoopClean, IsForHead;
    var close := Tag("endfor") + rest;
    Regroup(Print(body), Tag("endfor"), rest);
    Regroup(Tag(ForTag(head)), Print(body) + Tag("endfor"), rest);
    TagNotEmpty("endfor");
    FindSkipsNodes(body, false, "endfor", close);
    FindHere("endfor", rest);
    MatchPrintedFor(head, Print(body), rest);
    LoopTextIsEval(body, head.item, LoopItems(data, head.list), 0, data);
  }

  lemma {:induction false} LoopsPass(nodes: seq<Node>, inIf: bool, data: Data, rest: string)
    requires WellFormed(nodes, false, inIf) && LoopsClean(nodes, data)
    ensures ReplaceAll(Print(nodes) + rest, ForHit(data))
         == Print(ExpandLoops(nodes, data)) + ReplaceAll(rest, ForHit(data))
    decreases nodes, |nodes|
  {
    hide ReplaceAll, MatchFor, Tag, EvalLoop;
    var m := ForHit(data);
    if nodes == [] {
      assert Print(nodes) + rest == rest;
      assert Print(ExpandLoops(nodes, data)) + ReplaceAll(rest, m) == ReplaceAll(rest, m);
    } else {
      var node, more := nodes[0], ExpandLoops(nodes[1..], data);
      var tail := Print(nodes[1..]) + rest;
      var done := ExpandLoops(nodes, data);
      assert done[1..] == more;
      LoopsPass(nodes[1..], inIf, data, rest);
      ForNeedsBraces(data);
      Regroup(PrintNode(node), Print(nodes[1..]), rest);
      Regroup(PrintNode(done[0]), Print(more), ReplaceAll(rest, m));
      match node
      case Text(t) => SkipPlain(t, tail, m);
      case Var(left, path, right) =>
        VariableIsNoBlock(left, path, right, tail);
        VariableTagPlain(left, path, right);
        SkipTag(left + path + right, tail, m);
      case If(gap, c, a, hasElse, b) => LoopsPassIf(gap, c, a, hasElse, b, data, tail);
      case For(head, body) =>
        ForBlockHit(head, body, data, tail);
        ReplaceHit(PrintNode(node) + tail, m);
    }
  }

  /** The for pattern passes over the tags of an if block and works inside its branches. */
  lemma {:induction false} LoopsPassIf(
    gap: string, c: string, a: seq<Node>, hasElse: bool, b: seq<Node>, data: Data, rest: string)
    requires IsCondition(gap, c) && WellFormed(a, false, true) && WellFormed(b, false, true)
    requires LoopsClean(a, data) && LoopsClean(b, data)
    ensures ReplaceAll(PrintNode(If(gap, c, a, hasElse, b)) + rest, ForHit(data))
         == PrintNode(If(gap, c, ExpandLoops(a, data), hasElse, ExpandLoops(b, data))) + ReplaceAll(rest, ForHit(data))
    decreases If(gap, c, a, hasElse, b), 0
  {
    hide ReplaceAll, MatchFor, Tag, Print, ExpandLoops, WellFormed, LoopsClean;
    var m := ForHit(data);
    var e := if hasElse then Tag("else") else "";
    var t3 := Tag("endif") + rest;
    var t2 := Print(b) + t3;
    var t1 := e + t2;
    var t0 := Print(a) + t1;
    PrintedIfBlock(gap, c, a, hasElse, b, rest);
    PrintedIfBlock(gap, c, ExpandLoops(a, data), hasElse, ExpandLoops(b, data), ReplaceAll(rest, m));
    PlainIf(gap, c);
    NoForTag("if" + (gap + c), t0, data);
    LoopsPass(a, true, data, t1);
    if hasElse {
      NoForTag("else", t2, data);
    } else {
      assert t1 == t2 && e + ReplaceAll(t2, m) == ReplaceAll(t2, m);
    }
    LoopsPass(b, true, data, t3);
    NoForTag("endif", rest, data);
  }

  lemma VariableTagPlain(left: string, path: string, right: string)
    requires IsVariableTag(left, path, right)
    ensures Plain(left + path + right) && left + path + right != ""
  {
    hide VariableLength, IsSpace;
    SpacesClose();
    VariablePlain(path);
  }

  lemma NoForTag(c: string, rest: string, data: Data)
    requires Plain(c) && c != "" && c[0] != 'f'
    ensures ReplaceAll(Tag(c) + rest, ForHit(data)) == Tag(c) + ReplaceAll(rest, ForHit(data))
  {
    hide MatchFor, ReplaceAll, StartsWith, Tag;
    TagChars(c, rest);
    NoSpaceNoBlock(Tag(c) + rest);
    StartChar(Tag(c) + rest, "{{for", 2);
    ForNeedsBraces(data);
    SkipTag(c, rest, ForHit(data));
  }

  /**
   * Meaning preserved: rewriting the printed tree in three passes gives what evaluating the tree
   * gives, loops cut at fifty items, as long as no text that is read again brings an opening brace with it.
   */
  lemma ProcessTemplateIsEval(nodes: seq<Node>, data: Data)
    requires WellFormed(nodes, false, false) && RereadClean(nodes, data)
    ensures ProcessTemplate(Print(nodes), data) == Eval(nodes, data)
  {
    hide Print, WellFormed, RereadClean, Eval, ProcessVariables, ProcessConditionals, ResolveIfs, ExpandLoops;
    RereadLoops(nodes, data);
    LoopsPass(nodes, false, data, "");
    assert Print(nodes) + "" == Print(nodes);
    assert ReplaceAll("", ForHit(data)) == "";
    var expanded := ExpandLoops(nodes, data);
    ExpandKeepsMeaning(nodes, false, data);
    ProcessPrintedConditionals(expanded, data);
    ResolveKeepsMeaning(expanded, data);
    ProcessPrintedVariables(ResolveIfs(expanded, data), data);
    assert Print(expanded) + "" == Print(expanded);
  }

  /**
   * Why text that is read again must open no braces: a tag that arrives as the value of a variable inside an
   * if block is itself replaced by the last pass, while direct evaluation leaves it as text.
   */
  lemma InsertedTagIsReadAgain(gap: string, condition: string, outer: Node, inner: Node, data: Data)
    requires IsCondition(gap, condition) && outer.Var? && inner.Var?
    requires WellFormed([outer], false, true) && WellFormed([inner], true, true)
    requires Condition(data, condition) && FormatValue(NestedValue(data, outer.path)) == PrintNode(inner)
    ensures var nodes := [If(gap, condition, [outer], false, [])];
      && WellFormed(nodes, false, false) && Eval(nodes, data) == PrintNode(inner)
      && ProcessTemplate(Print(nodes), data) == FormatValue(NestedValue(data, inner.path))
  {
    hide NestedValue, FormatValue, ReplaceAll, MatchIf, MatchFor, MatchVar, IsVariableTag, Tag, Condition;
    var nodes := [If(gap, condition, [outer], false, [])];
    assert nodes[0].thenPart == [outer] && nodes[0].elsePart == [];
    assert WellFormed([outer], true, true);
    assert LoopsClean([outer], data) && LoopsClean([], data);
    assert LoopsClean(nodes, data) && WellFormed(nodes, false, false) && WellFormed(nodes, true, false);
    LoopsPass(nodes, false, data, "");
    assert ExpandLoops([outer], data) == [outer] && ExpandLoops(nodes, data) == nodes;
    assert Print(nodes) + "" == Print(nodes);
    NothingReplaced(ForHit(data));
    ProcessPrintedConditionals(nodes, data);
    assert Eval([outer], data) == PrintNode(inner) + "" == PrintNode(inner);
    assert ResolveIfs(nodes, data) == [Text(PrintNode(inner))];
    assert Print([Text(PrintNode(inner))]) == PrintNode(inner) + "" == PrintNode(inner) == Print([inner]);
    ProcessPrintedVariables([inner], data);
    assert Eval([inner], data) == FormatValue(NestedValue(data, inner.path)) + "";
  }

  lemma NothingReplaced(m: string -> Hit)
    ensures ReplaceAll("", m) == ""
  {
  }
}
