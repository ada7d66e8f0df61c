/** What the condition of an if means, said without the engine's comparison functions. */
module TemplateConditions {
  import opened JsText
  import opened TemplateEngine

  // ---------------------------------------------------------------- comparisons

  ghost predicate IsOperator(op: string) { op in {"==", "!=", ">=", "<=", ">", "<"} }

  /** Null equals the empty text and the word null; any other value equals the text that shows it. */
  ghost predicate EqualTo(v: Value, text: string) {
    if v == Null then text == "" || text == "null" else Display(v) == text
  }

  /** Both sides are numbers, a and b. */
  ghost predicate AreNumbers(data: Data, v: Value, text: string, a: real, b: real) {
    data.parseFloat(if v == Null then "null" else Display(v)) == Some(a) && data.parseFloat(text) == Some(b)
  }

  /** What each operator asks. Unless both sides are numbers, > and < fail and >= and <= hold. */
  ghost predicate Holds(data: Data, v: Value, op: string, text: string) {
    if op == "==" then EqualTo(v, text)
    else if op == "!=" then !EqualTo(v, text)
    else if op == ">" then exists a, b :: AreNumbers(data, v, text, a, b) && a > b
    else if op == "<" then exists a, b :: AreNumbers(data, v, text, a, b) && a < b
    else if op == ">=" then forall a, b :: AreNumbers(data, v, text, a, b) ==> a >= b
    else forall a, b :: AreNumbers(data, v, text, a, b) ==> a <= b
  }

  lemma CompareMeans(data: Data, v: Value, op: string, text: string)
    requires IsOperator(op)
    ensures Compare(data, v, op, text) <==> Holds(data, v, op, text)
  {
    hide Display;
    var x, y := data.parseFloat(if v == Null then "null" else Display(v)), data.parseFloat(text);
    if x.Some? && y.Some? { assert AreNumbers(data, v, text, x.value, y.value); }
  }

  /** Without an operator a value counts as true unless it is null, false, zero, not a number, or empty text. */
  lemma TruthyMeans(v: Value)
    ensures Truthy(v) <==> v !in {Null, Bool(false), Number("0"), Number("NaN"), Str("")}
  {
  }

  /** The text to compare with stands for itself, or for what is between its quotes. */
  lemma QuotesComeOff(t: string)
    ensures Unquote("'" + t + "'") == t && Unquote("\"" + t + "\"") == t
    ensures Unquote("'") == "" && Unquote("\"") == ""
    ensures t == "" || t[0] !in {'\'', '"'} || t[|t| - 1] != t[0] ==> Unquote(t) == t
  {
    assert ("'" + t + "'")[1..|t| + 1] == t && ("\"" + t + "\"")[1..|t| + 1] == t;
    assert ("'" + t + "'")[|t| + 1..] == "'" && ("\"" + t + "\"")[|t| + 1..] == "\"";
  }

  // ---------------------------------------------------------------- which operator counts

  lemma {:induction false} FirstFound(data: Data, t: string, operators: seq<string>, k: nat)
    requires k < |operators| && Find(t, operators[k]).Some?
    requires forall j :: 0 <= j < k ==> Find(t, operators[j]).None?
    ensures var i := Find(t, operators[k]).value;
      FirstOperator(data, t, operators)
        == Compare(data, NestedValue(data, Trim(t[..i])), operators[k], Unquote(Trim(t[i + |operators[k]|..])))
  {
    hide Find, Compare, NestedValue, Trim, Unquote;
    if k > 0 {
      assert Find(t, operators[0]).None?;
      assert forall j :: 0 <= j < k - 1 ==> operators[1..][j] == operators[j + 1];
      FirstFound(data, t, operators[1..], k - 1);
    }
  }

  /** The operators in the order in which they are looked for. */
  ghost function Rank(op: string): nat {
    if op == "==" then 0 else if op == "!=" then 1 else if op == ">=" then 2
    else if op == "<=" then 3 else if op == ">" then 4 else 5
  }

  /**
   * The meaning of a condition with an operator: the first of ==, !=, >=, <=, >, < that occurs in it anywhere cuts
   * it at its first occurrence; the left side is a path, and the right side a text with its quotes taken off.
   */
  lemma ConditionMeans(data: Data, condition: string, op: string, left: string, right: string)
    requires IsOperator(op) && CutsAt(Trim(condition), op, left, right)
    requires forall other :: IsOperator(other) && Rank(other) < Rank(op) ==> !Occurs(Trim(condition), other)
    ensures Condition(data, condition) <==>
      Holds(data, NestedValue(data, Trim(left)), op, Unquote(Trim(right)))
  {
    hide Find, Compare, NestedValue, Trim, Unquote, Holds, Occurs, CutsAt;
    var t := Trim(condition);
    CutIsFound(t, op, left, right);
    OperatorIsSeen(t, op);
    forall j | 0 <= j < Rank(op) ensures Find(t, OPERATORS[j]).None? {
      assert IsOperator(OPERATORS[j]) && Rank(OPERATORS[j]) == j;
      OccursExactly(t, OPERATORS[j]);
    }
    assert OPERATORS[Rank(op)] == op;
    FirstFound(data, t, OPERATORS, Rank(op));
    CompareMeans(data, NestedValue(data, Trim(left)), op, Unquote(Trim(right)));
  }

  lemma OperatorIsSeen(t: string, op: string)
    requires IsOperator(op) && Find(t, op).Some?
    ensures HasOperator(t)
  {
    hide Find;
    var i := Find(t, op).value;
    var a, b := t[..i], t[i + |op|..];
    assert t == a + (op + b);
    if op == ">=" {
      assert t == a + (">" + ("=" + b));
      FindIsFirst(a, ">", "=" + b);
    } else if op == "<=" {
      assert t == a + ("<" + ("=" + b));
      FindIsFirst(a, "<", "=" + b);
    }
  }

  /** The meaning of a condition without one: the path's value, as true or false. */
  lemma PlainConditionMeans(data: Data, condition: string)
    requires var t := Trim(condition); !Occurs(t, "==") && !Occurs(t, "!=") && !Occurs(t, ">") && !Occurs(t, "<")
    ensures Condition(data, condition) <==>
      NestedValue(data, Trim(condition)) !in {Null, Bool(false), Number("0"), Number("NaN"), Str("")}
  {
    hide Find, NestedValue, Trim, Truthy, Occurs;
    var t := Trim(condition);
    OccursExactly(t, "==");
    OccursExactly(t, "!=");
    OccursExactly(t, ">");
    OccursExactly(t, "<");
    TruthyMeans(NestedValue(data, t));
  }

  // ---------------------------------------------------------------- conditions as they are written

  /** A side of a comparison: no operator in it, and no white space at its ends. */
  predicate IsSide(s: string) {
    s != "" && !IsSpace(s[0]) && !IsSpace(s[|s| - 1]) && NoOperatorIn(s)
  }

  predicate NoOperatorIn(s: string) { forall i :: 0 <= i < |s| ==> s[i] !in {'=', '!', '<', '>'} }

  lemma OperatorCharacter(a: string, op: string, b: string, k: nat)
    requires NoOperatorIn(a) && NoOperatorIn(b) && k < |a + (op + b)|
    requires (a + (op + b))[k] in {'=', '!', '<', '>'}
    ensures |a| <= k < |a| + |op| && (a + (op + b))[k] == op[k - |a|]
  {
    var s := a + (op + b);
    assert forall i :: 0 <= i < |a| ==> s[i] == a[i];
    assert forall i :: 0 <= i < |b| ==> s[|a| + |op| + i] == b[i];
  }

  /** An operator that is looked for no later is found nowhere else. */
  lemma NoOtherOperator(a: string, op: string, b: string, p: string, x: string, y: string)
    requires NoOperatorIn(a) && NoOperatorIn(b) && IsOperator(op) && IsOperator(p) && Rank(p) <= Rank(op)
    requires a + (op + b) == x + (p + y)
    ensures p == op && x == a
  {
    var s := a + (op + b);
    assert s[|x|] == p[0] && s[|x| + |p| - 1] == p[|p| - 1];
    OperatorCharacter(a, op, b, |x|);
    OperatorCharacter(a, op, b, |x| + |p| - 1);
    assert |p| == 1 ==> |op| == 1;
    assert |x| == |a|;
    assert p[0] == op[0] && p[|p| - 1] == op[|p| - 1];
    assert a == s[..|a|] && x == s[..|x|];
  }

  /**
   * name op text, as it is written: for two sides without operator characters the condition asks of the value at
   * the name what the operator says.
   */
  lemma ComparisonMeans(data: Data, name: string, op: string, text: string)
    requires IsSide(name) && IsSide(text) && IsOperator(op)
    ensures Condition(data, name + " " + op + " " + text) <==> Holds(data, NestedValue(data, name), op, Unquote(text))
  {
    hide NestedValue, Trim, Unquote, Holds, IsSpace;
    var left, right := name + " ", " " + text;
    var whole := name + " " + op + " " + text;
    assert whole == left + (op + right);
    BlankIsSpace();
    TrimUnwraps("", whole, "");
    assert "" + whole + "" == whole;
    TrimUnwraps("", name, " ");
    assert "" + name + " " == left;
    TrimUnwraps(" ", text, "");
    assert " " + text + "" == right;
    assert NoOperatorIn(left) && NoOperatorIn(right);
    forall a, b | Splits(whole, a, op, b) ensures |left| <= |a| { NoOtherOperator(left, op, right, op, a, b); }
    forall other | IsOperator(other) && Rank(other) < Rank(op) ensures !Occurs(whole, other) {
      if x, y :| Splits(whole, x, other, y) { NoOtherOperator(left, op, right, other, x, y); }
    }
    ConditionMeans(data, whole, op, left, right);
  }

  lemma BlankIsSpace()
    ensures IsSpace(' ') && Spaces("") && Spaces(" ")
  {
  }
}
