/** packages/shared/src/helpers/template.ts: three rewriting passes over template text. */
module TemplateEngine {
  import opened JsText

  const MAX_LOOP_ITERATIONS := 50

  // ---------------------------------------------------------------- data

  /** A JSON value. Numbers carry their printed form and objects their JSON text; undefined is Null. */
  datatype Value =
    | Null
    | Bool(b: bool)
    | Number(text: string)
    | Str(s: string)
    | List(items: seq<Value>)
    | Record(fields: map<string, Value>, json: string)

  /** The data object, with parseFloat as a parameter. */
  datatype Data = Data(vars: map<string, Value>, parseFloat: string -> Option<real>)

  predicate IsDigit(c: char) { '0' <= c <= '9' }
  predicate IsNameStart(c: char) { 'a' <= c <= 'z' || 'A' <= c <= 'Z' || c == '_' }
  predicate IsWord(c: char) { IsNameStart(c) || IsDigit(c) }

  /** parseInt of a string of digits. */
  function Decimal(s: string): nat {
    if s == "" then 0
    else 10 * Decimal(s[..|s| - 1]) + (if IsDigit(s[|s| - 1]) then s[|s| - 1] as nat - '0' as nat else 0)
  }

  function Get(fields: map<string, Value>, name: string): Value {
    if name in fields then fields[name] else Null
  }

  /** One step of a path: a field name and possibly an index. */
  datatype PathStep = Malformed | PathStep(field: string, index: Option<nat>)

  /** The pattern ^(\w+)(?:\[(\d+)\])?$ . */
  function ParseStep(part: string): PathStep {
    var n := Span(part, IsWord);
    var rest := part[n..];
    if n == 0 then Malformed
    else if rest == "" then PathStep(part, None)
    else if rest[0] != '[' then Malformed
    else
      var d := Span(rest[1..], IsDigit);
      if d > 0 && rest[1 + d..] == "]" then PathStep(part[..n], Some(Decimal(rest[1..1 + d]))) else Malformed
  }

  /** A property name that is an array index: digits without a leading zero. */
  predicate IsIndex(field: string) {
    field != "" && Span(field, IsDigit) == |field| && (field == "0" || field[0] != '0')
  }

  /** current[field]: the fields of an object, the elements and the length of an array or a string. */
  function Property(current: Value, field: string): Value {
    match current
    case Record(fields, _) => Get(fields, field)
    case List(items) =>
      if field == "length" then Number(Digits(|items|))
      else if IsIndex(field) && Decimal(field) < |items| then items[Decimal(field)] else Null
    case Str(s) =>
      if field == "length" then Number(Digits(|s|))
      else if IsIndex(field) && Decimal(field) < |s| then Str([s[Decimal(field)]]) else Null
    case _ => Null
  }

  function Follow(current: Value, step: PathStep): Value {
    match step
    case Malformed => Null
    case PathStep(field, index) =>
      var inside := Property(current, field);
      match index
      case None => inside
      case Some(i) => if inside.List? && i < |inside.items| then inside.items[i] else Null
  }

  function FollowAll(current: Value, parts: seq<string>): Value
    decreases |parts|
  {
    if parts == [] then current
    else if current == Null then Null
    else FollowAll(Follow(current, ParseStep(parts[0])), parts[1..])
  }

  /** The non-empty pieces between dots. */
  function PathParts(path: string, current: string): seq<string> {
    var done := if current == "" then [] else [current];
    if path == "" then done
    else if path[0] == '.' then done + PathParts(path[1..], "")
    else PathParts(path[1..], current + [path[0]])
  }

  function NestedValue(data: Data, path: string): Value {
    if path == "" then Null else FollowAll(Record(data.vars, ""), PathParts(path, ""))
  }

  method SplitPath(path: string) returns (parts: seq<string>)
    ensures parts == PathParts(path, "")
  {
    parts := [];
    var currentPart := "";
    for i := 0 to |path|
      invariant parts + PathParts(path[i..], currentPart) == PathParts(path, "")
    {
      var ch := path[i];
      assert path[i..][1..] == path[i + 1..];
      if ch == '.' {
        if currentPart != "" { parts := parts + [currentPart]; }
        currentPart := "";
      } else {
        currentPart := currentPart + [ch];
      }
    }
    if currentPart != "" { parts := parts + [currentPart]; }
  }

  method GetNestedValue(data: Data, path: string) returns (v: Value)
    ensures v == NestedValue(data, path)
  {
    hide PathParts, Follow, ParseStep;
    if path == "" { return Null; }
    var parts := SplitPath(path);
    v := Record(data.vars, "");
    for i := 0 to |parts|
      invariant FollowAll(v, parts[i..]) == FollowAll(Record(data.vars, ""), parts)
    {
      assert parts[i..][1..] == parts[i + 1..];
      if v == Null { return Null; }
      v := Follow(v, ParseStep(parts[i]));
    }
    assert parts[|parts|..] == [];
  }

  // ---------------------------------------------------------------- values as text

  function FormatValue(v: Value): string {
    match v
    case Null => ""
    case Bool(b) => if b then "true" else "false"
    case Number(text) => text
    case Str(s) => s
    case List(items) => Join(FormatAll(items), ", ")
    case Record(_, json) => json
  }

  function FormatAll(items: seq<Value>): seq<string> {
    if items == [] then [] else [FormatValue(items[0])] + FormatAll(items[1..])
  }

  /** String(value), for values that are not null. */
  function Display(v: Value): string {
    match v
    case List(items) => Join(DisplayAll(items), ",")
    case Record(_, _) => "[object Object]"
    case _ => FormatValue(v)
  }

  function DisplayAll(items: seq<Value>): seq<string> {
    if items == [] then [] else [Display(items[0])] + DisplayAll(items[1..])
  }

  predicate Truthy(v: Value) {
    match v
    case Null => false
    case Bool(b) => b
    case Number(text) => text != "0" && text != "NaN"
    case Str(s) => s != ""
    case _ => true
  }

  predicate CompareEqual(v: Value, compare: string) {
    if v == Null then compare == "" || compare == "null" else Display(v) == compare
  }

  function CompareNumeric(data: Data, v: Value, compare: string): int {
    match (data.parseFloat(if v == Null then "null" else Display(v)), data.parseFloat(compare))
    case (Some(a), Some(b)) => if a < b then -1 else if a > b then 1 else 0
    case _ => 0
  }

  // ---------------------------------------------------------------- conditions

  const OPERATORS: seq<string> := ["==", "!=", ">=", "<=", ">", "<"]

  function Unquote(s: string): string {
    if (StartsWith(s, "'") && EndsWith(s, "'")) || (StartsWith(s, "\"") && EndsWith(s, "\""))
    then (if |s| >= 2 then s[1..|s| - 1] else "") else s
  }

  predicate Compare(data: Data, left: Value, op: string, right: string) {
    if op == "==" then CompareEqual(left, right)
    else if op == "!=" then !CompareEqual(left, right)
    else if op == ">" then CompareNumeric(data, left, right) > 0
    else if op == "<" then CompareNumeric(data, left, right) < 0
    else if op == ">=" then CompareNumeric(data, left, right) >= 0
    else CompareNumeric(data, left, right) <= 0
  }

  /** The first operator of the list that occurs anywhere splits the condition. */
  predicate FirstOperator(data: Data, condition: string, operators: seq<string>) {
    if operators == [] then false
    else match Find(condition, operators[0])
      case None => FirstOperator(data, condition, operators[1..])
      case Some(i) =>
        Compare(data, NestedValue(data, Trim(condition[..i])), operators[0],
                Unquote(Trim(condition[i + |operators[0]|..])))
  }

  predicate HasOperator(condition: string) {
    || Find(condition, "==").Some? || Find(condition, "!=").Some?
    || Find(condition, ">").Some? || Find(condition, "<").Some?
  }

  predicate Condition(data: Data, condition: string) {
    var trimmed := Trim(condition);
    if HasOperator(trimmed) then FirstOperator(data, trimmed, OPERATORS) else Truthy(NestedValue(data, trimmed))
  }

  method EvaluateCondition(condition: string, data: Data) returns (holds: bool)
    ensures holds == Condition(data, condition)
  {
    hide NestedValue, Compare, Trim, Unquote, Find, HasOperator;
    var trimmed := Trim(condition);
    if !HasOperator(trimmed) {
      var v := GetNestedValue(data, trimmed);
      return Truthy(v);
    }
    for k := 0 to |OPERATORS|
      invariant FirstOperator(data, trimmed, OPERATORS[k..]) == FirstOperator(data, trimmed, OPERATORS)
    {
      var op := OPERATORS[k];
      assert OPERATORS[k..][1..] == OPERATORS[k + 1..];
      match Find(trimmed, op)
      case None =>
      case Some(idx) =>
        var left := GetNestedValue(data, Trim(trimmed[..idx]));
        return Compare(data, left, op, Unquote(Trim(trimmed[idx + |op|..])));
    }
    holds := false;
  }

  // ---------------------------------------------------------------- the three patterns

  /** A match is replaced by `text`; `rest` is what follows it. */
  datatype Hit = Miss | Hit(text: string, rest: string)

  /** String.replace with a global pattern: leftmost matches, going on behind each one. */
  function ReplaceAll(s: string, m: string -> Hit): string
    decreases |s|
  {
    if s == "" then ""
    else match m(s)
      case Hit(text, rest) =>
        if |rest| < |s| then text + ReplaceAll(rest, m) else [s[0]] + ReplaceAll(s[1..], m)
      case Miss => [s[0]] + ReplaceAll(s[1..], m)
  }

  /** What follows the prefix p. */
  function Strip(s: string, p: string): Option<string> {
    if StartsWith(s, p) then Some(s[|p|..]) else None
  }

  /** What follows the longest run of characters satisfying p. */
  function Past(s: string, p: char -> bool): (r: string)
    ensures |r| <= |s|
  {
    s[Span(s, p)..]
  }

  /** \w+(?:\.\w+)* : the length of the longest match, 0 if there is none. */
  function DottedLength(s: string): (n: nat)
    ensures n <= |s|
  {
    var n := Span(s, IsWord);
    if n == 0 || n == |s| || s[n] != '.' then n
    else
      var more := DottedLength(s[n + 1..]);
      if more == 0 then n else n + 1 + more
  }

  /** \.name|\[\d+\] : the length of one match at the start, 0 if there is none. */
  function SuffixPiece(s: string): (n: nat)
    ensures n <= |s|
  {
    if |s| > 1 && s[0] == '.' && IsNameStart(s[1]) then 1 + Span(s[1..], IsWord)
    else if |s| > 1 && s[0] == '[' then
      var d := Span(s[1..], IsDigit);
      if d > 0 && 1 + d < |s| && s[1 + d] == ']' then 2 + d else 0
    else 0
  }

  /** (?:\.name|\[\d+\])* : the length of the longest match. */
  function SuffixLength(s: string): (n: nat)
    ensures n <= |s|
  {
    var piece := SuffixPiece(s);
    if piece == 0 then 0 else piece + SuffixLength(s[piece..])
  }

  function VariableLength(s: string): (n: nat)
    ensures n <= |s|
  {
    if s == "" || !IsNameStart(s[0]) then 0
    else var n := Span(s, IsWord); n + SuffixLength(s[n..])
  }

  datatype ForMatch = NoFor | ForMatch(item: string, path: string, body: string, rest: string)

  function MatchFor(s: string): ForMatch {
    match Strip(s, "{{for")
    case None => NoFor
    case Some(s1) =>
      var s2 := Past(s1, IsSpace);
      var s3 := Past(s2, IsWord);
      var s4 := Past(s3, IsSpace);
      if s2 == s1 || s3 == s2 || s4 == s3 then NoFor
      else match Strip(s4, "in")
        case None => NoFor
        case Some(s5) => var s6 := Past(s5, IsSpace); if s6 == s5 then NoFor else MatchForList(s2[..|s2| - |s3|], s6)
  }

  function MatchForList(item: string, s6: string): ForMatch {
    var n := DottedLength(s6);
    if n == 0 then NoFor
    else match Strip(s6[n..], "}}")
      case None => NoFor
      case Some(s7) =>
        match Find(s7, "{{endfor}}")
        case None => NoFor
        case Some(i) => ForMatch(item, s6[..n], s7[..i], s7[i + 10..])
  }

  datatype IfMatch = NoIf | IfMatch(condition: string, body: string, rest: string)

  predicate NotClosing(c: char) { c != '}' }

  function MatchIf(s: string): IfMatch {
    match Strip(s, "{{if")
    case None => NoIf
    case Some(s1) =>
      var n := Span(s1, NotClosing);
      if n < 2 || !IsSpace(s1[0]) then NoIf
      else match Strip(s1[n..], "}}")
        case None => NoIf
        case Some(s2) =>
          match Find(s2, "{{endif}}")
          case None => NoIf
          case Some(i) => IfMatch(s1[..n], s2[..i], s2[i + 9..])
  }

  datatype VarMatch = NoVar | VarMatch(path: string, rest: string)

  function MatchVar(s: string): VarMatch {
    match Strip(s, "{{")
    case None => NoVar
    case Some(s1) =>
      var s2 := Past(s1, IsSpace);
      var n := VariableLength(s2);
      if n == 0 then NoVar
      else match Strip(Past(s2[n..], IsSpace), "}}")
        case None => NoVar
        case Some(s3) => VarMatch(s2[..n], s3)
  }

  // ---------------------------------------------------------------- the passes

  function VarHit(data: Data): string -> Hit {
    s => match MatchVar(s)
      case NoVar => Miss
      case VarMatch(path, rest) => Hit(FormatValue(NestedValue(data, path)), rest)
  }

  function ProcessVariables(s: string, data: Data): string { ReplaceAll(s, VarHit(data)) }

  function Branch(body: string, holds: bool): string {
    match Find(body, "{{else}}")
    case None => if holds then body else ""
    case Some(i) => if holds then body[..i] else body[i + 8..]
  }

  function IfHit(data: Data): string -> Hit {
    s => match MatchIf(s)
      case NoIf => Miss
      case IfMatch(condition, body, rest) =>
        Hit(ProcessVariables(Branch(body, Condition(data, condition)), data), rest)
  }

  function ProcessConditionals(s: string, data: Data): string { ReplaceAll(s, IfHit(data)) }

  function Bind(data: Data, item: string, v: Value, i: nat): Data {
    data.(vars := data.vars[item := v][item + "_index" := Number(Digits(i))])
  }

  function Digits(n: nat): string {
    (if n < 10 then "" else Digits(n / 10)) + [(n % 10) as char + '0']
  }

  function LoopItems(data: Data, path: string): seq<Value> {
    match NestedValue(data, path)
    case List(items) => if |items| < MAX_LOOP_ITERATIONS then items else items[..MAX_LOOP_ITERATIONS]
    case _ => []
  }

  function LoopText(body: string, item: string, items: seq<Value>, i: nat, data: Data): string
    decreases |items| - i
  {
    if i >= |items| then ""
    else
      var loopData := Bind(data, item, items[i], i);
      ProcessVariables(ProcessConditionals(body, loopData), loopData) + LoopText(body, item, items, i + 1, data)
  }

  function ForHit(data: Data): string -> Hit {
    s => match MatchFor(s)
      case NoFor => Miss
      case ForMatch(item, path, body, rest) => Hit(LoopText(body, item, LoopItems(data, path), 0, data), rest)
  }

  function ProcessForLoops(s: string, data: Data): string { ReplaceAll(s, ForHit(data)) }

  /** The body of the for callback. */
  method ExpandLoop(item: string, path: string, body: string, data: Data) returns (output: string)
    ensures output == LoopText(body, item, LoopItems(data, path), 0, data)
  {
    hide ProcessConditionals, ProcessVariables, Bind, NestedValue;
    var arrayValue := GetNestedValue(data, path);
    if !arrayValue.List? { return ""; }
    var iterations := if |arrayValue.items| < MAX_LOOP_ITERATIONS then |arrayValue.items| else MAX_LOOP_ITERATIONS;
    ghost var items := LoopItems(data, path);
    assert items == arrayValue.items[..iterations];
    hide LoopItems;
    output := "";
    for i := 0 to iterations
      invariant output + LoopText(body, item, items, i, data) == LoopText(body, item, items, 0, data)
    {
      var loopData := Bind(data, item, arrayValue.items[i], i);
      var processedBody := ProcessConditionals(body, loopData);
      processedBody := ProcessVariables(processedBody, loopData);
      output := output + processedBody;
    }
  }

  function ProcessTemplate(template: string, data: Data): string {
    ProcessVariables(ProcessConditionals(ProcessForLoops(template, data), data), data)
  }
}
