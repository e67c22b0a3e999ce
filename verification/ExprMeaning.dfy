/** What expression texts resolve to, in terms of the values of their parts and of the JavaScript operations alone. */
module ExprMeaning {
  import opened Basics
  import opened Text
  import opened Expr
  import opened ExprTree
  import opened ExprRoundTrip

  /** The value the evaluator returns for a text. */
  function Value<V>(js: Js<V>, vals: V, src: string): V {
    Eval(js, vals, Parse(src))
  }

  // ---- equality operators ----

  /** Each of the four operators compares the values of the texts on its two sides. */
  lemma {:induction false} EqualityValues<V>(js: Js<V>, vals: V, left: string, right: string, pad: string)
    requires Operand(left) && Tight(right) && right[0] != '=' && AllSpace(pad)
    ensures var l, r := Value(js, vals, left), Value(js, vals, right);
      && Value(js, vals, left + pad + "===" + pad + right) == js.boolean(js.strictEq(l, r))
      && Value(js, vals, left + pad + "!==" + pad + right) == js.boolean(!js.strictEq(l, r))
      && Value(js, vals, left + pad + "==" + pad + right) == js.boolean(js.looseEq(l, r))
      && Value(js, vals, left + pad + "!=" + pad + right) == js.boolean(!js.looseEq(l, r))
  {
    forall op: Op ensures Parse(left + pad + OpText(op) + pad + right) == Eq(op, Parse(left), Parse(right)) {
      OperandsRead(left, op, right, pad);
    }
    assert OpText(StrictEq) == "===" && OpText(StrictNe) == "!==" && OpText(LooseEq) == "==" && OpText(LooseNe) == "!=";
    hide Parse, Operand, OpText;
  }

  lemma {:induction false} OperandsRead(left: string, op: Op, right: string, pad: string)
    requires Operand(left) && Tight(right) && right[0] != '=' && AllSpace(pad)
    ensures Parse(left + pad + OpText(op) + pad + right) == Eq(op, Parse(left), Parse(right))
  {
    hide Parse, OpText, Comparison, Operand, Tight, AllSpace;
    TightOperand(left);
    ParseComparison("", left, op, right, pad, "");
    ParsePadded("", left, pad);
    ParsePadded(pad, right, "");
    ParseTight(left);
    ParseTight(right);
    ComparisonText(left, op, right, pad);
    NoPadding(left, pad, right);
  }

  lemma TightOperand(left: string)
    requires Operand(left)
    ensures Tight(left) && AllSpace("")
  {
  }

  lemma {:induction false} ComparisonText(left: string, op: Op, right: string, pad: string)
    ensures "" + Comparison(left, op, right, pad) + "" == left + pad + OpText(op) + pad + right
  {
    hide OpText;
    var tail := pad + right;
    assert left + (pad + (OpText(op) + tail)) == left + pad + OpText(op) + tail;
    assert left + pad + OpText(op) + (pad + right) == left + pad + OpText(op) + pad + right;
  }

  lemma {:induction false} NoPadding(left: string, pad: string, right: string)
    ensures "" + left + pad == left + pad && pad + right + "" == pad + right
  {
  }

  /** An operator at the end of a text compares with undefined. */
  lemma {:induction false} MissingOperand<V>(js: Js<V>, vals: V, left: string)
    requires Operand(left)
    ensures var l := Value(js, vals, left);
      && Value(js, vals, left + "===") == js.boolean(js.strictEq(l, js.undefined))
      && Value(js, vals, left + "!==") == js.boolean(!js.strictEq(l, js.undefined))
      && Value(js, vals, left + "==") == js.boolean(js.looseEq(l, js.undefined))
      && Value(js, vals, left + "!=") == js.boolean(!js.looseEq(l, js.undefined))
  {
    hide Operand, Value;
    MissingValue(js, vals, left, StrictEq, "===");
    MissingValue(js, vals, left, StrictNe, "!==");
    MissingValue(js, vals, left, LooseEq, "==");
    MissingValue(js, vals, left, LooseNe, "!=");
  }

  lemma {:induction false} MissingValue<V>(js: Js<V>, vals: V, left: string, op: Op, text: string)
    requires Operand(left) && text == OpText(op)
    ensures Value(js, vals, left + text) == Apply(js, op, Value(js, vals, left), js.undefined)
  {
    MissingRead(left, op);
    hide Operand, OpText, Parse, Apply;
    var e := Eq(op, Parse(left), Undefined);
    assert Eval(js, vals, e) == Apply(js, op, Eval(js, vals, e.left), Eval(js, vals, e.right));
    assert Eval(js, vals, Undefined) == js.undefined;
  }

  lemma {:induction false} MissingRead(left: string, op: Op)
    requires Operand(left)
    ensures Parse(left + OpText(op)) == Eq(op, Parse(left), Undefined)
  {
    MissingSplits(left, op);
    hide Operand, OpText, Splits;
    ParseTight(left + OpText(op));
    ParseSplit(left + OpText(op), left, op, "");
    NothingRead();
    hide Parse;
  }

  lemma NothingRead()
    ensures Parse("") == Undefined
  {
  }

  lemma {:induction false} MissingSplits(left: string, op: Op)
    requires Operand(left)
    ensures var m := left + OpText(op); Tight(m) && Splits(m, left, op, "")
  {
    hide FindFrom, WrapsWhole, Balanced, Sheltered;
    var m := left + OpText(op);
    NoRightText(left, op);
    hide Comparison;
    if m[0] == '(' {
      NotWrapped(left, op, "", "");
    }
    FirstEquality(left, op, "", "", 0);
  }

  lemma {:induction false} NoRightText(left: string, op: Op)
    requires left != ""
    ensures var m := left + OpText(op);
      && Comparison(left, op, "", "") == m && m[0] == left[0] && m[|m| - 1] == '='
      && m[..|left|] == left && m[|left| + |OpText(op)|..] == ""
  {
    assert OpText(op)[|OpText(op)| - 1] == '=';
    hide OpText;
  }

  /** So an operator and its negation always answer the opposite. */
  lemma OppositeAnswers<V>(js: Js<V>, vals: V, left: string, right: string, pad: string, strict: bool, answer: bool)
    requires Operand(left) && Tight(right) && right[0] != '=' && AllSpace(pad)
    requires js.boolean(true) != js.boolean(false)
    ensures var same, other := if strict then "===" else "==", if strict then "!==" else "!=";
      Value(js, vals, left + pad + same + pad + right) == js.boolean(answer)
      <==> Value(js, vals, left + pad + other + pad + right) == js.boolean(!answer)
  {
    hide Value, Operand;
    EqualityValues(js, vals, left, right, pad);
  }

  /** Signs at the very start of a text are no operator, nor are signs behind them. */
  lemma {:induction false} NoLeadingOperator(signs: string, right: string, i: nat)
    requires (forall j :: 0 <= j < |signs| ==> EqSign(signs[j])) && Sheltered(right) && right != "" && right[0] != '='
    requires i <= |signs + right|
    ensures FindFrom(signs + right, i) == NoEquality
    decreases |signs + right| - i
  {
    var t := signs + right;
    if i < |t| {
      if i + 1 < |t| && EqSign(t[i]) && t[i + 1] == '=' {
        DepthAtConcat(Both, signs, right, i + 1);
        FlatDepth(Both, signs, |signs|);
        if i + 1 >= |signs| {
          assert right[i + 1 - |signs|] == '=';
          assert DepthAt(Both, right, i + 1 - |signs|) > 0;
        }
      }
      NoLeadingOperator(signs, right, i + 1);
    }
  }

  /** An operator without a left operand is not read as one: what begins with an equality sign is undefined. */
  lemma {:induction false} LeadingEquality<V>(js: Js<V>, vals: V, right: string)
    requires Tight(right) && Sheltered(right) && right[0] != '='
    ensures Value(js, vals, "=" + right) == js.undefined
    ensures Value(js, vals, "==" + right) == js.undefined && Value(js, vals, "===" + right) == js.undefined
    ensures Value(js, vals, "!==" + right) == Value(js, vals, "!=" + right) == js.boolean(!js.truthy(js.undefined))
  {
    EqualitySignFirst(js, vals, "", right);
    EqualitySignFirst(js, vals, "=", right);
    EqualitySignFirst(js, vals, "==", right);
    NegatedEqualitySign(js, vals, "", right);
    NegatedEqualitySign(js, vals, "=", right);
    assert "=" + "" == "=" && "=" + "=" == "==" && "=" + "==" == "===" && "!=" + "" == "!=" && "!=" + "=" == "!==";
    hide Value, Sheltered;
  }

  lemma {:induction false} EqualitySignFirst<V>(js: Js<V>, vals: V, signs: string, right: string)
    requires Tight(right) && Sheltered(right) && right[0] != '=' && forall j :: 0 <= j < |signs| ==> signs[j] == '='
    ensures Value(js, vals, "=" + signs + right) == js.undefined
  {
    var t := "=" + signs + right;
    NoLeadingOperator("=" + signs, right, 0);
    ParseTight(t);
    ParseNoEquality(t);
  }

  lemma {:induction false} NegatedEqualitySign<V>(js: Js<V>, vals: V, signs: string, right: string)
    requires Tight(right) && Sheltered(right) && right[0] != '=' && forall j :: 0 <= j < |signs| ==> signs[j] == '='
    ensures Value(js, vals, "!=" + signs + right) == js.boolean(!js.truthy(js.undefined))
  {
    var arg := "=" + signs + right;
    EqualitySignFirst(js, vals, signs, right);
    NoLeadingOperator("!=" + signs, right, 0);
    assert "!" + arg == "!=" + signs + right;
    NotValue(js, vals, arg);
  }

  // ---- negation and parentheses ----

  /** Without an equality operator outside its brackets, a text behind an exclamation mark is negated as a whole. */
  lemma {:induction false} NotValue<V>(js: Js<V>, vals: V, arg: string)
    requires Tight(arg) && FindFrom("!" + arg, 0) == NoEquality
    ensures Value(js, vals, "!" + arg) == js.boolean(!js.truthy(Value(js, vals, arg)))
  {
    var t := "!" + arg;
    assert t[1..] == arg;
    ParseTight(t);
    ParseNoEquality(t);
  }

  /** Parentheses around a text with balanced brackets change nothing. */
  lemma {:induction false} ParenthesesValue<V>(js: Js<V>, vals: V, inner: string)
    requires Balanced(inner)
    ensures Value(js, vals, "(" + inner + ")") == Value(js, vals, inner)
  {
    ParseTight("(" + inner + ")");
    ParseParenthesised(inner);
  }

  // ---- literals ----

  predicate Digits(s: string) {
    s != "" && forall i :: 0 <= i < |s| ==> '0' <= s[i] <= '9'
  }

  lemma {:induction false} DigitsRun(s: string, i: nat, n: nat)
    requires i <= n <= |s| && forall j :: i <= j < n ==> '0' <= s[j] <= '9'
    requires n < |s| ==> !('0' <= s[n] <= '9')
    ensures DigitRunEnd(s, i) == n
    decreases n - i
  {
    if i < n {
      DigitsRun(s, i + 1, n);
    }
  }

  /** A minus sign or none, digits, and a fraction or none. */
  function NumberText(negative: bool, whole: string, fraction: Option<string>): string {
    (if negative then "-" else "") + whole + (if fraction.Some? then "." + fraction.value else "")
  }

  /** A number is exactly that. */
  lemma {:induction false} NumberExactly(s: string)
    ensures IsNumber(s) <==> exists negative, whole, fraction: Option<string> ::
      s == NumberText(negative, whole, fraction) && Digits(whole) && (fraction.Some? ==> Digits(fraction.value))
  {
    if IsNumber(s) {
      var negative, whole, fraction := NumberParts(s);
    }
    forall negative, whole, fraction: Option<string>
      | s == NumberText(negative, whole, fraction) && Digits(whole) && (fraction.Some? ==> Digits(fraction.value))
      ensures IsNumber(s)
    {
      NumberReads(negative, whole, fraction);
    }
    hide IsNumber, NumberText;
  }

  lemma {:induction false} NumberParts(s: string) returns (negative: bool, whole: string, fraction: Option<string>)
    requires IsNumber(s)
    ensures s == NumberText(negative, whole, fraction) && Digits(whole) && (fraction.Some? ==> Digits(fraction.value))
  {
    negative := s[0] == '-';
    var first := if negative then 1 else 0;
    var n := DigitRunEnd(s, first);
    DigitRunChars(s, first);
    whole := s[first..n];
    if n == |s| {
      fraction := None;
      assert s == (if negative then "-" else "") + whole;
    } else {
      DigitRunChars(s, n + 1);
      fraction := Some(s[n + 1..]);
      assert s == (if negative then "-" else "") + whole + ("." + s[n + 1..]);
    }
  }

  lemma {:induction false} NumberReads(negative: bool, whole: string, fraction: Option<string>)
    requires Digits(whole) && (fraction.Some? ==> Digits(fraction.value))
    ensures IsNumber(NumberText(negative, whole, fraction))
  {
    var s, first := NumberText(negative, whole, fraction), if negative then 1 else 0;
    assert forall j :: first <= j < first + |whole| ==> s[j] == whole[j - first];
    DigitsRun(s, first, first + |whole|);
    if fraction.Some? {
      var n := first + |whole| + 1;
      assert s[n - 1] == '.' && |s| == n + |fraction.value|;
      assert forall j :: n <= j < |s| ==> s[j] == fraction.value[j - n];
      DigitsRun(s, n, |s|);
    }
  }

  /** The four keywords, the empty text, numbers, and strings without brackets or equality signs. */
  lemma {:induction false} LiteralValues<V>(js: Js<V>, vals: V, negative: bool, whole: string, fraction: Option<string>,
                                            quote: char, body: string)
    requires Digits(whole) && (fraction.Some? ==> Digits(fraction.value))
    requires quote in {'\'', '"'} && forall i :: 0 <= i < |body| ==> body[i] !in {'(', ')', '[', ']', '='}
    ensures Value(js, vals, "true") == js.boolean(true) && Value(js, vals, "false") == js.boolean(false)
    ensures Value(js, vals, "null") == js.nil && Value(js, vals, "undefined") == js.undefined
    ensures Value(js, vals, "") == js.undefined
    ensures var n := NumberText(negative, whole, fraction); Value(js, vals, n) == js.number(n)
    ensures Value(js, vals, [quote] + body + [quote]) == js.text(body)
  {
    NumberReads(negative, whole, fraction);
    TreeValue(js, vals, True, "true");
    TreeValue(js, vals, False, "false");
    TreeValue(js, vals, Null, "null");
    TreeValue(js, vals, Undefined, "undefined");
    TreeValue(js, vals, Num(NumberText(negative, whole, fraction)), NumberText(negative, whole, fraction));
    TreeValue(js, vals, Str(quote, body), [quote] + body + [quote]);
    hide IsNumber, NumberText;
  }

  lemma {:induction false} TreeValue<V>(js: Js<V>, vals: V, e: Tree, text: string)
    requires WellFormed(e) && Print(e, "") == text
    ensures Value(js, vals, text) == Eval(js, vals, e)
  {
    PrintThenParse(e, "", "", "");
    assert "" + text + "" == text;
  }

  /** What begins neither a name, a number, a string, a negation nor a parenthesis is undefined; quotes must match. */
  lemma {:induction false} UnreadableStart<V>(js: Js<V>, vals: V, t: string)
    requires Tight(t) && FindFrom(t, 0) == NoEquality && !IsNumber(t)
    requires t[0] !in {'!', '(', '_', '$'} && !('A' <= t[0] <= 'Z') && !('a' <= t[0] <= 'z')
    requires t[0] in {'\'', '"'} ==> |t| == 1 || t[|t| - 1] != t[0]
    ensures Value(js, vals, t) == js.undefined
  {
    ParseTight(t);
    ParseNoEquality(t);
  }

  lemma {:induction false} NeverCloses(expr: string, j: nat, depth: nat)
    requires j <= |expr| && depth > 0 && forall i :: j <= i < |expr| ==> expr[i] != ']'
    ensures CloseFrom(expr, j, depth) == |expr|
    decreases |expr| - j
  {
    if j < |expr| {
      NeverCloses(expr, j + 1, if expr[j] == '[' then depth + 1 else depth);
    }
  }

  predicate NameCharacter(c: char) {
    'A' <= c <= 'Z' || 'a' <= c <= 'z' || '0' <= c <= '9' || c in {'_', '$'}
  }

  /** Behind the path that ends at i stands nothing that can go on with it. */
  predicate CannotGoOn(t: string, i: nat)
    requires i < |t|
  {
    match t[i]
    case '.' => i + 1 == |t| || !NameCharacter(t[i + 1])
    case '[' => forall j :: i < j < |t| ==> t[j] != ']'
    case _ => !NameCharacter(t[i])
  }

  /** A path followed by something that cannot go on with it is undefined as a whole. */
  lemma {:induction false} UnreadablePath<V>(js: Js<V>, vals: V, path: Tree, t: string)
    requires IsPath(path) && Tight(t) && FindFrom(t, 0) == NoEquality
    requires var p := Print(path, ""); |p| < |t| && t[..|p|] == p && CannotGoOn(t, |p|)
    ensures Value(js, vals, t) == js.undefined
  {
    ReadsNothing(path, t);
    NoLiteral(path, t);
    hide CannotGoOn, FindFrom, Print, IsPath, ParsePath;
    ParseTight(t);
    ParseNoEquality(t);
  }

  lemma {:induction false} ReadsNothing(path: Tree, t: string)
    requires IsPath(path)
    requires var p := Print(path, ""); |p| < |t| && t[..|p|] == p && CannotGoOn(t, |p|)
    ensures ParsePath(t) == Undefined
  {
    hide Print, IsPath, ParsePath;
    var p := Print(path, "");
    ReadPath(path, "", t);
    if t[|p|] == '[' {
      NeverCloses(t, |p| + 1, 1);
    }
    ReadUnreadable(t, |p|, path);
  }

  lemma {:induction false} NoLiteral(path: Tree, t: string)
    requires IsPath(path)
    requires var p := Print(path, ""); |p| < |t| && t[..|p|] == p && CannotGoOn(t, |p|)
    ensures t != "" && t[0] !in {'!', '('} && !IsLiteral(t)
  {
    var p := Print(path, "");
    PrintShape(path, "");
    hide Print, IsPath, Balanced, Sheltered;
    assert t[0] == p[0] && IdentStart(t[0]);
    KeywordLetters(t);
  }

  // ---- paths ----

  predicate IdentifierText(s: string) {
    && s != "" && !('0' <= s[0] <= '9')
    && forall i :: 0 <= i < |s| ==>
         'A' <= s[i] <= 'Z' || 'a' <= s[i] <= 'z' || '0' <= s[i] <= '9' || s[i] == '_' || s[i] == '$'
  }

  lemma {:induction false} IdentifierRun(s: string, i: nat)
    requires i <= |s| && forall j :: i <= j < |s| ==>
      'A' <= s[j] <= 'Z' || 'a' <= s[j] <= 'z' || '0' <= s[j] <= '9' || s[j] == '_' || s[j] == '$'
    ensures IdentRunEnd(s, i) == |s|
    decreases |s| - i
  {
    if i < |s| {
      IdentifierRun(s, i + 1);
    }
  }

  lemma {:induction false} IdentifierRunChars(s: string, i: nat)
    requires i <= |s| && IdentRunEnd(s, i) == |s|
    ensures forall j :: i <= j < |s| ==>
      'A' <= s[j] <= 'Z' || 'a' <= s[j] <= 'z' || '0' <= s[j] <= '9' || s[j] == '_' || s[j] == '$'
    decreases |s| - i
  {
    if i < |s| {
      IdentifierRunChars(s, i + 1);
    }
  }

  /** Identifiers are letters, digits, underscores and dollar signs, and do not begin with a digit. */
  lemma IdentifierExactly(s: string)
    ensures IsIdent(s) <==> IdentifierText(s)
  {
    if IsIdent(s) {
      IdentifierRunChars(s, 1);
    }
    if IdentifierText(s) {
      IdentifierRun(s, 1);
    }
  }

  /** What may follow a dot: an identifier, or digits. */
  lemma {:induction false} NameExactly(s: string)
    ensures IsName(s) <==> IdentifierText(s) || Digits(s)
  {
    IdentifierExactly(s);
    if Digits(s) {
      DigitsRun(s, 0, |s|);
    }
    if IsName(s) && IdentEnd(s, 0) == 0 {
      DigitRunChars(s, 0);
    }
  }

  /** A bare name is looked up in the scope. */
  lemma {:induction false} NameValue<V>(js: Js<V>, vals: V, name: string)
    requires IdentifierText(name) && name !in {"true", "false", "null", "undefined"}
    ensures Value(js, vals, name) == if js.nullish(vals) then js.undefined else js.property(vals, js.text(name))
  {
    IdentifierExactly(name);
    TreeValue(js, vals, Root(name), name);
  }

  /** A name behind a dot is looked up in the value of what stands before it. */
  lemma {:induction false} MemberValue<V>(js: Js<V>, vals: V, base: Tree, name: string)
    requires IsPath(base) && (base.Root? ==> base.name !in {"true", "false", "null", "undefined"})
    requires IdentifierText(name) || Digits(name)
    ensures var text := Print(base, ""); var v := Value(js, vals, text);
      Value(js, vals, text + "." + name) == if js.nullish(v) then js.undefined else js.property(v, js.text(name))
  {
    NameExactly(name);
    TreeValue(js, vals, base, Print(base, ""));
    TreeValue(js, vals, Member(base, name), Print(base, "") + "." + name);
  }

  /** A text in brackets is resolved in the scope, and its value looked up in that of what stands before it. */
  lemma {:induction false} IndexValue<V>(js: Js<V>, vals: V, base: Tree, key: Tree, pad: string)
    requires IsPath(base) && (base.Root? ==> base.name !in {"true", "false", "null", "undefined"})
    requires WellFormed(key) && AllSpace(pad)
    ensures var text, inner := Print(base, pad), Print(key, pad);
      var v, k := Value(js, vals, text), Value(js, vals, inner);
      Value(js, vals, text + ("[" + (pad + inner + pad) + "]"))
        == if js.nullish(v) then js.undefined else js.property(v, k)
  {
    PrintThenParse(base, pad, "", "");
    PrintThenParse(key, pad, "", "");
    PrintThenParse(Index(base, key), pad, "", "");
    hide Parse, IsPath, WellFormed;
    assert forall s: string :: "" + s + "" == s;
  }
}
