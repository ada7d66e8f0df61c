/** What short templates turn into, written out in full. */
module TemplateTexts {
  import opened JsText
  import opened TemplateEngine
  import opened TemplateLexing
  import opened TemplateValues
  import opened TemplateMeaning

  /** A variable's tag becomes the text of the value at its path, whatever that text is. */
  lemma VariableText(left: string, path: string, right: string, data: Data)
    requires IsVariableTag(left, path, right)
    ensures ProcessTemplate("{{" + left + path + right + "}}", data) == FormatValue(NestedValue(data, path))
  {
    hide IsVariableTag, FormatValue, NestedValue, ProcessTemplate;
    var nodes := [Var(left, path, right)];
    assert nodes[1..] == [];
    assert Print(nodes) == "{{" + left + path + right + "}}" by {
      assert Print([]) == "";
      assert "{{" + (left + path + right) + "}}" + "" == "{{" + left + path + right + "}}";
    }
    assert Eval(nodes, data) == FormatValue(NestedValue(data, path)) + "";
    ProcessTemplateIsEval(nodes, data);
  }

  /** An if with two texts becomes the first when its condition holds, and the second when it does not. */
  lemma IfText(gap: string, condition: string, a: string, b: string, data: Data)
    requires IsCondition(gap, condition) && '{' !in a && '{' !in b
    ensures ProcessTemplate("{{if" + gap + condition + "}}" + a + "{{else}}" + b + "{{endif}}", data)
         == if Condition(data, condition) then a else b
  {
    hide IsCondition, Condition, ProcessTemplate;
    var nodes := [If(gap, condition, [Text(a)], true, [Text(b)])];
    TextNode(a, data);
    TextNode(b, data);
    assert nodes[1..] == [] && Print([]) == "";
    assert Print(nodes) == "{{if" + gap + condition + "}}" + a + "{{else}}" + b + "{{endif}}" by {
      hide Print;
      assert Tag("if" + (gap + condition)) + (a + (Tag("else") + (b + Tag("endif")))) + ""
          == "{{if" + gap + condition + "}}" + a + "{{else}}" + b + "{{endif}}";
    }
    assert Eval(nodes, data) == (if Condition(data, condition) then a else b) + "";
    ProcessTemplateIsEval(nodes, data);
  }

  /** Without an else the text stays or goes. */
  lemma IfWithoutElseText(gap: string, condition: string, a: string, data: Data)
    requires IsCondition(gap, condition) && '{' !in a
    ensures ProcessTemplate("{{if" + gap + condition + "}}" + a + "{{endif}}", data)
         == if Condition(data, condition) then a else ""
  {
    hide IsCondition, Condition, ProcessTemplate;
    var nodes := [If(gap, condition, [Text(a)], false, [])];
    TextNode(a, data);
    assert nodes[1..] == [] && Print([]) == "" && Eval([], data) == "";
    assert LoopsClean([], data) && Clean([], data);
    assert Print(nodes) == "{{if" + gap + condition + "}}" + a + "{{endif}}" by {
      hide Print;
      assert Tag("if" + (gap + condition)) + (a + ("" + ("" + Tag("endif")))) + ""
          == "{{if" + gap + condition + "}}" + a + "{{endif}}";
    }
    assert Eval(nodes, data) == (if Condition(data, condition) then a else "") + "";
    ProcessTemplateIsEval(nodes, data);
  }

  lemma TextNode(t: string, data: Data)
    ensures Print([Text(t)]) == t && Eval([Text(t)], data) == t
    ensures '{' !in t ==> forall inFor, inIf :: WellFormed([Text(t)], inFor, inIf)
    ensures Clean([Text(t)], data) && LoopsClean([Text(t)], data)
  {
    assert [Text(t)][1..] == [] && t + "" == t;
  }

  // ---------------------------------------------------------------- loops

  /** The printed items, each with a text behind it. */
  function Rounds(items: seq<Value>, behind: string): string {
    if items == [] then "" else FormatValue(items[0]) + behind + Rounds(items[1..], behind)
  }

  /** A loop over its item prints the first fifty elements of the array, each with the text behind it. */
  lemma LoopPrintsItems(h: ForHead, behind: string, data: Data)
    requires IsForHead(h) && IsVariableTag("", h.item, "") && '{' !in behind
    requires forall v :: v in FirstFifty(NestedValue(data, h.list)) ==> '{' !in FormatValue(v)
    ensures ProcessTemplate(
      "{{for" + h.gap + h.item + h.beforeIn + "in" + h.afterIn + h.list + "}}{{" + h.item + "}}" + behind
      + "{{endfor}}", data) == Rounds(FirstFifty(NestedValue(data, h.list)), behind)
  {
    hide IsVariableTag, IsForHead, ProcessTemplate, NestedValue, FormatValue, Rounds;
    var body := [Var("", h.item, ""), Text(behind)];
    var nodes := [For(h, body)];
    var items := LoopItems(data, h.list);
    LoopItemsAre(data, h.list);
    ItemIsName(h);
    LoopForm(h, body, behind);
    RoundsEval(body, h.item, items, 0, behind, data);
    assert items[0..] == items;
    BodyForm(h.item, behind);
    OneLoop(h, body, data);
    ProcessTemplateIsEval(nodes, data);
  }

  lemma OneLoop(h: ForHead, body: seq<Node>, data: Data)
    ensures Eval([For(h, body)], data) == EvalLoop(body, h.item, LoopItems(data, h.list), 0, data)
    ensures IsForHead(h) && WellFormed(body, true, false) ==> WellFormed([For(h, body)], false, false)
    ensures LoopClean(body, h.item, LoopItems(data, h.list), 0, data) ==> RereadClean([For(h, body)], data)
  {
    hide EvalLoop, LoopClean, IsForHead;
    assert [For(h, body)][1..] == [] && Eval([], data) == "";
    assert EvalLoop(body, h.item, LoopItems(data, h.list), 0, data) + ""
        == EvalLoop(body, h.item, LoopItems(data, h.list), 0, data);
  }

  function FirstFifty(v: Value): seq<Value> {
    if !v.List? then [] else if |v.items| <= 50 then v.items else v.items[..50]
  }

  lemma ItemIsName(h: ForHead)
    requires IsForHead(h)
    ensures IsName(h.item)
  {
    assert forall i :: 0 <= i < |h.item| ==> h.item[i] in h.item;
  }

  lemma BodyForm(item: string, behind: string)
    requires IsVariableTag("", item, "") && '{' !in behind
    ensures WellFormed([Var("", item, ""), Text(behind)], true, false)
  {
    hide IsVariableTag;
    var body := [Var("", item, ""), Text(behind)];
    assert body[1..] == [Text(behind)] && body[1..][1..] == [];
    assert WellFormed([Text(behind)], true, false);
  }

  lemma LoopForm(h: ForHead, body: seq<Node>, behind: string)
    requires body == [Var("", h.item, ""), Text(behind)]
    ensures Print([For(h, body)]) ==
      "{{for" + h.gap + h.item + h.beforeIn + "in" + h.afterIn + h.list + "}}{{" + h.item + "}}" + behind + "{{endfor}}"
  {
    HeadText(h);
    BodyText(h.item, behind);
    assert [For(h, body)][1..] == [] && Print([]) == "";
    assert Tag("endfor") == "{{endfor}}";
    hide Print, Tag, ForTag;
    var open, close := Tag(ForTag(h)), "{{endfor}}";
    assert Print([For(h, body)]) == open + (Print(body) + close) by {
      OneNode(For(h, body));
    }
    JoinTexts("{{for" + h.gap + h.item + h.beforeIn + "in" + h.afterIn + h.list, h.item, behind, close);
  }

  lemma OneNode(node: Node)
    ensures Print([node]) == PrintNode(node)
  {
    assert [node][1..] == [] && PrintNode(node) + "" == PrintNode(node);
  }

  lemma JoinTexts(head: string, item: string, behind: string, close: string)
    ensures (head + "}}") + (("{{" + item + "}}" + behind) + close) == head + "}}{{" + item + "}}" + behind + close
  {
  }

  lemma HeadText(h: ForHead)
    ensures Tag(ForTag(h)) == "{{for" + h.gap + h.item + h.beforeIn + "in" + h.afterIn + h.list + "}}"
  {
  }

  lemma BodyText(item: string, behind: string)
    ensures Print([Var("", item, ""), Text(behind)]) == "{{" + item + "}}" + behind
  {
    var body := [Var("", item, ""), Text(behind)];
    assert body[1..] == [Text(behind)];
    OneNode(Text(behind));
    assert "" + item + "" == item;
  }

  lemma {:induction false} RoundsEval(body: seq<Node>, item: string, items: seq<Value>, i: nat, behind: string,
        data: Data)
    requires IsName(item) && i <= |items| && body == [Var("", item, ""), Text(behind)]
    requires forall v :: v in items ==> '{' !in FormatValue(v)
    ensures EvalLoop(body, item, items, i, data) == Rounds(items[i..], behind)
    ensures LoopClean(body, item, items, i, data)
    decreases |items| - i
  {
    hide NestedValue, FormatValue, Bind;
    if i < |items| {
      RoundsEval(body, item, items, i + 1, behind, data);
      assert items[i..][0] == items[i] && items[i..][1..] == items[i + 1..];
      RoundVariables(data, item, items[i], i, item);
      OneRound(item, behind, Bind(data, item, items[i], i));
    }
  }

  lemma OneRound(item: string, behind: string, inside: Data)
    ensures var body := [Var("", item, ""), Text(behind)];
      && Eval(body, inside) == FormatValue(NestedValue(inside, item)) + behind
      && ('{' !in FormatValue(NestedValue(inside, item)) ==> Clean(body, inside))
  {
    hide NestedValue, FormatValue;
    var body := [Var("", item, ""), Text(behind)];
    TextNode(behind, inside);
    assert body[1..] == [Text(behind)];
  }
}
