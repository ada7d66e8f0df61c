/** What paths, values and conditions in templates mean, said without the engine's own helper functions. */
module TemplateValues {
  import opened JsText
  import opened TemplateEngine

  // ---------------------------------------------------------------- numbers as text

  /** parseInt reads digits with the usual weights. */
  lemma DecimalIs(s: string, c: char)
    requires '0' <= c <= '9'
    ensures Decimal("") == 0 && Decimal(s + [c]) == 10 * Decimal(s) + (c as int - '0' as int)
  {
    assert (s + [c])[..|s|] == s;
  }

  lemma DigitsStep(n: nat)
    ensures var c := '0' + (n % 10) as char;
      '0' <= c <= '9' && c as int == 48 + n % 10 && Digits(n) == if n < 10 then [c] else Digits(n / 10) + [c]
  {
  }

  /** Numbers are written without leading zeros, and read back. */
  lemma {:induction false} DigitsIs(n: nat)
    ensures Digits(n) != "" && (forall c :: c in Digits(n) ==> '0' <= c <= '9')
    ensures Digits(n)[0] == '0' <==> n == 0
    ensures Decimal(Digits(n)) == n
  {
    hide Digits, Decimal;
    var c := '0' + (n % 10) as char;
    DigitsStep(n);
    if n < 10 {
      DecimalIs("", c);
      assert "" + [c] == [c];
    } else {
      DigitsIs(n / 10);
      DecimalIs(Digits(n / 10), c);
    }
  }

  /** Every text of digits without a leading zero is the text of its number. */
  lemma {:induction false} IndexIs(field: string)
    requires field != "" && (forall c :: c in field ==> '0' <= c <= '9') && (field[0] == '0' ==> field == "0")
    ensures field == Digits(Decimal(field))
    ensures field[0] != '0' ==> Decimal(field) > 0
  {
    hide Digits, Decimal;
    var n := |field| - 1;
    var s, c := field[..n], field[n];
    assert field == s + [c] && c in field;
    DecimalIs(s, c);
    DigitsStep(Decimal(field));
    if n == 0 {
      assert s == "";
    } else {
      assert forall d :: d in s ==> d in field;
      assert s[0] == field[0];
      IndexIs(s);
      LastDigit(Decimal(s), c as int - '0' as int);
    }
  }

  lemma LastDigit(k: nat, d: nat)
    requires d < 10
    ensures (10 * k + d) / 10 == k && (10 * k + d) % 10 == d
  {
  }

  // ---------------------------------------------------------------- values as text

  /** How a value is printed: nothing for null, and lists joined by comma and blank. */
  lemma PrintedAs(v: Value)
    ensures match v
      case Null => FormatValue(v) == ""
      case Bool(b) => FormatValue(v) == if b then "true" else "false"
      case Number(text) => FormatValue(v) == text
      case Str(s) => FormatValue(v) == s
      case Record(_, json) => FormatValue(v) == json
      case List(items) =>
        && (items == [] ==> FormatValue(v) == "")
        && (|items| == 1 ==> FormatValue(v) == FormatValue(items[0]))
        && (|items| > 1 ==> FormatValue(v) == FormatValue(items[0]) + ", " + FormatValue(List(items[1..])))
  {
    if v.List? && v.items != [] { FormatEach(v.items); }
  }

  lemma FormatEach(items: seq<Value>)
    requires items != []
    ensures FormatAll(items) == [FormatValue(items[0])] + FormatAll(items[1..])
    ensures |items| == 1 ==> |FormatAll(items)| == 1
    ensures |items| > 1 ==> |FormatAll(items)| > 1 && FormatAll(items)[1..] == FormatAll(items[1..])
  {
    if |items| > 1 { assert FormatAll(items[1..]) == [FormatValue(items[1])] + FormatAll(items[1..][1..]); }
  }

  /** How a value is compared: as JavaScript's String shows it. */
  lemma ComparedAs(v: Value)
    ensures match v
      case Null => Display(v) == ""
      case Bool(b) => Display(v) == if b then "true" else "false"
      case Number(text) => Display(v) == text
      case Str(s) => Display(v) == s
      case Record(_, _) => Display(v) == "[object Object]"
      case List(items) =>
        && (items == [] ==> Display(v) == "")
        && (|items| == 1 ==> Display(v) == Display(items[0]))
        && (|items| > 1 ==> Display(v) == Display(items[0]) + "," + Display(List(items[1..])))
  {
    if v.List? && v.items != [] { DisplayEach(v.items); }
  }

  lemma DisplayEach(items: seq<Value>)
    requires items != []
    ensures DisplayAll(items) == [Display(items[0])] + DisplayAll(items[1..])
    ensures |items| == 1 ==> |DisplayAll(items)| == 1
    ensures |items| > 1 ==> |DisplayAll(items)| > 1 && DisplayAll(items)[1..] == DisplayAll(items[1..])
  {
    if |items| > 1 { assert DisplayAll(items[1..]) == [Display(items[1])] + DisplayAll(items[1..][1..]); }
  }

  // ---------------------------------------------------------------- paths

  /** A name: letters, digits and underscores. */
  predicate IsName(name: string) {
    name != "" && forall i :: 0 <= i < |name| ==>
      var c := name[i]; 'a' <= c <= 'z' || 'A' <= c <= 'Z' || '0' <= c <= '9' || c == '_'
  }

  predicate AllDigits(s: string) { s != "" && forall i :: 0 <= i < |s| ==> '0' <= s[i] <= '9' }

  /** A property of a value: fields of objects, elements and length of arrays and strings, and nothing else. */
  lemma PropertyIs(v: Value, f: string)
    ensures match v
      case Record(fields, _) => Property(v, f) == if f in fields then fields[f] else Null
      case List(items) =>
        && (f == "length" ==> Property(v, f) == Number(Digits(|items|)))
        && (forall i: nat :: i < |items| && f == Digits(i) ==> Property(v, f) == items[i])
        && (f != "length" && (forall i: nat :: i < |items| ==> f != Digits(i)) ==> Property(v, f) == Null)
      case Str(s) =>
        && (f == "length" ==> Property(v, f) == Number(Digits(|s|)))
        && (forall i: nat :: i < |s| && f == Digits(i) ==> Property(v, f) == Str([s[i]]))
        && (f != "length" && (forall i: nat :: i < |s| ==> f != Digits(i)) ==> Property(v, f) == Null)
      case _ => Property(v, f) == Null
  {
    hide Decimal, Digits, Span;
    forall i: nat | f == Digits(i) ensures f != "length" && IsIndex(f) && Decimal(f) == i {
      DigitsIs(i);
      DigitsStep(i);
      OnlyDigits(f);
      assert f[0] in f;
    }
    if IsIndex(f) {
      OnlyDigits(f);
      IndexIs(f);
    }
  }

  lemma OnlyDigits(f: string)
    requires f != ""
    ensures Span(f, IsDigit) == |f| <==> forall c :: c in f ==> '0' <= c <= '9'
    ensures f == "length" ==> Span(f, IsDigit) == 0
    ensures (forall c :: c in f ==> '0' <= c <= '9') && (f[0] == '0' ==> f == "0") <==> IsIndex(f)
  {
    var n := Span(f, IsDigit);
    if n < |f| { assert f[n] in f; }
    forall c | c in f && n == |f| ensures '0' <= c <= '9' {
      var i :| 0 <= i < |f| && f[i] == c;
      assert IsDigit(f[i]);
    }
  }

  /** One piece of a path: a name, or a name with an index in brackets; anything else is malformed. */
  lemma PieceIs(part: string, name: string, digits: string)
    ensures IsName(part) ==> ParseStep(part) == PathStep(part, None)
    ensures IsName(name) && AllDigits(digits) && part == name + "[" + digits + "]" ==>
      ParseStep(part) == PathStep(name, Some(Decimal(digits)))
  {
    hide Decimal;
    if IsName(part) {
      NameSpan(part, "");
      assert part + "" == part;
    }
    if IsName(name) && AllDigits(digits) && part == name + "[" + digits + "]" {
      assert part == name + ("[" + digits + "]") && part[|name|..] == "[" + digits + "]";
      NameSpan(name, "[" + digits + "]");
      assert part[|name|..][1..] == digits + "]";
      DigitSpan(digits, "]");
      var rest := part[|name|..];
      assert rest[1 + |digits|..] == "]" && rest[1..1 + |digits|] == digits && part[..|name|] == name;
    }
  }

  lemma PieceIsNothingElse(part: string) returns (digits: string)
    requires ParseStep(part).PathStep?
    ensures var step := ParseStep(part);
      && IsName(step.field)
      && (step.index.None? ==> part == step.field)
      && (step.index.Some? ==>
            AllDigits(digits) && part == step.field + "[" + digits + "]" && step.index == Some(Decimal(digits)))
  {
    hide Decimal, Span;
    var n := Span(part, IsWord);
    var rest := part[n..];
    assert part == part[..n] + rest;
    digits := "";
    if rest != "" {
      var more := rest[1..];
      var d := Span(more, IsDigit);
      digits := more[..d];
      assert rest[1 + d..] == more[d..] && rest[1..1 + d] == digits;
      BracketsRound(part, n, digits);
    }
  }

  lemma BracketsRound(part: string, n: nat, digits: string)
    requires n < |part| && part[n] == '[' && part[n + 1..] == digits + "]"
    ensures part == part[..n] + "[" + digits + "]"
  {
    assert part == part[..n] + [part[n]] + part[n + 1..];
  }

  lemma NameSpan(name: string, rest: string)
    requires IsName(name) && (rest == "" || !IsWord(rest[0]))
    ensures Span(name + rest, IsWord) == |name|
  {
    SpanIs(name, rest, IsWord);
  }

  lemma DigitSpan(digits: string, rest: string)
    requires AllDigits(digits) && (rest == "" || !IsDigit(rest[0]))
    ensures Span(digits + rest, IsDigit) == |digits|
  {
    SpanIs(digits, rest, IsDigit);
  }

  lemma PieceStep(path: string, current: string)
    requires path != ""
    ensures PathParts(path, current) ==
      if path[0] != '.' then PathParts(path[1..], current + [path[0]])
      else (if current == "" then [] else [current]) + PathParts(path[1..], "")
  {
  }

  lemma {:induction false} PiecesAppend(a: string, b: string, current: string)
    requires a != "" && a[|a| - 1] == '.'
    ensures PathParts(a + b, current) == PathParts(a, current) + PathParts(b, "")
  {
    assert PathParts("", "") == [];
    hide PathParts;
    assert (a + b)[1..] == a[1..] + b && (a + b)[0] == a[0];
    PieceStep(a, current);
    PieceStep(a + b, current);
    if |a| == 1 {
      assert a[1..] + b == b && a[1..] == "";
    } else {
      PiecesAppend(a[1..], b, if a[0] == '.' then "" else current + [a[0]]);
      GroupedPieces(if current == "" then [] else [current], PathParts(a[1..], ""), PathParts(b, ""));
    }
  }

  lemma GroupedPieces(a: seq<string>, b: seq<string>, c: seq<string>)
    ensures a + (b + c) == (a + b) + c
  {
  }

  lemma {:induction false} OnePiece(piece: string, current: string)
    requires '.' !in piece && current + piece != ""
    ensures PathParts(piece, current) == [current + piece]
  {
    if piece == "" {
      assert current + piece == current;
    } else {
      assert piece[0] in piece && piece == [piece[0]] + piece[1..];
      OnePiece(piece[1..], current + [piece[0]]);
      assert current + [piece[0]] + piece[1..] == current + piece;
    }
  }

  lemma {:induction false} FollowOneMore(current: Value, parts: seq<string>, part: string)
    ensures var before := FollowAll(current, parts);
      FollowAll(current, parts + [part]) == if before == Null then Null else Follow(before, ParseStep(part))
    decreases |parts|
  {
    hide Follow, ParseStep;
    if parts == [] {
      assert [] + [part] == [part] && [part][1..] == [];
    } else {
      assert (parts + [part])[0] == parts[0] && (parts + [part])[1..] == parts[1..] + [part];
      if current != Null { FollowOneMore(Follow(current, ParseStep(parts[0])), parts[1..], part); }
    }
  }

  /** What the part of a path before its last piece stands for: the data itself, or the value of that path. */
  function Before(data: Data, prefix: string): Value {
    if prefix == "" then Record(data.vars, "") else NestedValue(data, prefix)
  }

  /** The empty path is null; a path of dots alone is the data itself; and a dot at the end changes nothing. */
  lemma DotsDropOut(data: Data, path: string)
    ensures NestedValue(data, "") == Null
    ensures path != "" && (forall c :: c in path ==> c == '.') ==> NestedValue(data, path) == Record(data.vars, "")
    ensures path != "" ==> NestedValue(data, path + ".") == NestedValue(data, path)
  {
    hide FollowAll;
    if path != "" { LastDot(path, ""); }
    if forall c :: c in path ==> c == '.' { OnlyDots(path); }
    assert FollowAll(Record(data.vars, ""), []) == Record(data.vars, "") by { NothingFollowed(Record(data.vars, "")); }
  }

  lemma NothingFollowed(current: Value)
    ensures FollowAll(current, []) == current
  {
  }

  lemma {:induction false} OnlyDots(path: string)
    requires forall c :: c in path ==> c == '.'
    ensures PathParts(path, "") == []
  {
    if path != "" {
      assert path[0] in path && forall c :: c in path[1..] ==> c in path;
      OnlyDots(path[1..]);
    }
  }

  lemma {:induction false} LastDot(path: string, current: string)
    ensures PathParts(path + ".", current) == PathParts(path, current)
  {
    hide PathParts;
    PieceStep(path + ".", current);
    if path == "" {
      assert path + "." == "." && "."[1..] == "";
      NoMorePieces(current);
      NoMorePieces("");
    } else {
      assert (path + ".")[1..] == path[1..] + ".";
      PieceStep(path, current);
      LastDot(path[1..], if path[0] == '.' then "" else current + [path[0]]);
    }
  }

  lemma NoMorePieces(current: string)
    ensures PathParts("", current) == if current == "" then [] else [current]
  {
  }

  /** A path's last piece is looked up in the value of what stands before it. */
  lemma LastPiece(data: Data, prefix: string, piece: string)
    requires (prefix == "" || prefix[|prefix| - 1] == '.') && piece != "" && '.' !in piece
    ensures var before := Before(data, prefix);
      NestedValue(data, prefix + piece) == if before == Null then Null else Follow(before, ParseStep(piece))
  {
    hide Follow, ParseStep;
    OnePiece(piece, "");
    assert "" + piece == piece;
    if prefix == "" {
      assert prefix + piece == piece;
      FollowOneMore(Record(data.vars, ""), [], piece);
      assert [] + [piece] == [piece];
    } else {
      PiecesAppend(prefix, piece, "");
      FollowOneMore(Record(data.vars, ""), PathParts(prefix, ""), piece);
    }
  }

  /** A name at the end of a path is a property of the value before it. */
  lemma NameIsProperty(data: Data, prefix: string, name: string)
    requires (prefix == "" || prefix[|prefix| - 1] == '.') && IsName(name)
    ensures NestedValue(data, prefix + name) == Property(Before(data, prefix), name)
  {
    hide NestedValue, ParseStep;
    LastPiece(data, prefix, name);
    PieceIs(name, name, "");
  }

  /** A plain name is a variable of the data. */
  lemma NameIsVariable(data: Data, name: string)
    requires IsName(name)
    ensures NestedValue(data, name) == if name in data.vars then data.vars[name] else Null
  {
    hide NestedValue;
    assert "" + name == name;
    NameIsProperty(data, "", name);
  }

  /** An index in brackets takes an element of an array, and nothing of anything else. */
  lemma IndexIsElement(data: Data, prefix: string, name: string, digits: string)
    requires (prefix == "" || prefix[|prefix| - 1] == '.') && IsName(name) && AllDigits(digits)
    ensures var value := NestedValue(data, prefix + name);
      NestedValue(data, prefix + (name + "[" + digits + "]")) ==
        if value.List? && Decimal(digits) < |value.items| then value.items[Decimal(digits)] else Null
  {
    hide NestedValue, ParseStep, Decimal, Property;
    var piece := name + "[" + digits + "]";
    NoDotIn(name, digits);
    NameIsProperty(data, prefix, name);
    LastPiece(data, prefix, piece);
    PieceIs(piece, name, digits);
    PropertyIs(Null, name);
  }

  lemma NoDotIn(name: string, digits: string)
    requires IsName(name) && AllDigits(digits)
    ensures '.' !in name + "[" + digits + "]"
  {
  }

  /** A malformed piece makes the whole path null. */
  lemma MalformedIsNull(data: Data, prefix: string, piece: string)
    requires (prefix == "" || prefix[|prefix| - 1] == '.') && piece != "" && '.' !in piece
    requires ParseStep(piece) == Malformed
    ensures NestedValue(data, prefix + piece) == Null
  {
    hide NestedValue, ParseStep;
    LastPiece(data, prefix, piece);
  }

  // ---------------------------------------------------------------- loops

  /** At most the first fifty elements of an array, and nothing of anything else. */
  lemma LoopItemsAre(data: Data, path: string)
    ensures var value := NestedValue(data, path);
      LoopItems(data, path) ==
        if !value.List? then [] else if |value.items| <= 50 then value.items else value.items[..50]
  {
    hide NestedValue;
    var value := NestedValue(data, path);
    if value.List? && |value.items| == 50 { assert value.items[..50] == value.items; }
  }

  /** Inside a round the item and its index are variables; every other variable is what it was outside. */
  lemma RoundVariables(data: Data, item: string, v: Value, i: nat, name: string)
    requires IsName(item) && IsName(name)
    ensures var inside := Bind(data, item, v, i);
      && NestedValue(inside, item) == v
      && NestedValue(inside, item + "_index") == Number(Digits(i))
      && (name != item && name != item + "_index" ==> NestedValue(inside, name) == NestedValue(data, name))
      && inside.parseFloat == data.parseFloat
  {
    hide NestedValue, Digits;
    var inside := Bind(data, item, v, i);
    IndexName(item);
    NameIsVariable(inside, item);
    NameIsVariable(inside, item + "_index");
    NameIsVariable(inside, name);
    NameIsVariable(data, name);
    assert |item| != |item + "_index"|;
  }

  lemma IndexName(item: string)
    requires IsName(item)
    ensures IsName(item + "_index")
  {
  }
}
