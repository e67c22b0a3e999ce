/** The printed form of expression trees and the bracket structure of printed text. */
module ExprTree {
  import opened Basics
  import opened Text
  import opened Expr

  predicate IsBracket(c: char) {
    c == '(' || c == ')' || c == '[' || c == ']'
  }

  predicate Flat(t: string) {
    forall i :: 0 <= i < |t| ==> !IsBracket(t[i])
  }

  predicate IsIdent(s: string) {
    s != "" && IdentEnd(s, 0) == |s|
  }

  predicate IsName(s: string) {
    s != "" && NameEnd(s, 0) == |s|
  }

  /** A property path: an identifier followed by names and bracketed keys. */
  predicate IsPath(e: Tree)
    decreases e, 0
  {
    match e
    case Root(name) => IsIdent(name)
    case Member(base, name) => IsPath(base) && IsName(name)
    case Index(base, key) => IsPath(base) && WellFormed(key)
    case _ => false
  }

  /** The trees the notation can express: string bodies hold no brackets and no '='. */
  predicate WellFormed(e: Tree)
    decreases e, 1
  {
    match e
    case True | False | Null | Undefined => true
    case Num(digits) => IsNumber(digits)
    case Str(quote, body) => IsQuote(quote) && Flat(body) && forall i :: 0 <= i < |body| ==> body[i] != '='
    case Root(name) => IsPath(e) && !IsKeyword(name)
    case Member(_, _) => IsPath(e)
    case Index(_, _) => IsPath(e)
    case Not(arg) => WellFormed(arg)
    case Eq(_, left, right) => WellFormed(left) && WellFormed(right)
  }

  /** The text of a tree: equalities in parentheses, pad wherever the notation allows white space. */
  function Print(e: Tree, pad: string): string {
    match e
    case True => "true"
    case False => "false"
    case Null => "null"
    case Undefined => "undefined"
    case Num(digits) => digits
    case Str(quote, body) => [quote] + body + [quote]
    case Root(name) => name
    case Member(base, name) => Print(base, pad) + "." + name
    case Index(base, key) => Print(base, pad) + ("[" + (pad + Print(key, pad) + pad) + "]")
    case Not(arg) => "!" + (pad + Print(arg, pad))
    case Eq(op, left, right) => "(" + (pad + Comparison(Print(left, pad), op, Print(right, pad), pad) + pad) + ")"
  }

  /** Two operand texts around an operator. */
  function Comparison(left: string, op: Op, right: string, pad: string): string {
    left + (pad + (OpText(op) + (pad + right)))
  }

  // ---- bracket structure of printed text ----

  ghost predicate BalancedIn(k: Brackets, t: string) {
    DepthAt(k, t, |t|) == 0 && forall i {:trigger DepthAt(k, t, i)} :: 0 <= i <= |t| ==> DepthAt(k, t, i) >= 0
  }

  ghost predicate Balanced(t: string) {
    BalancedIn(Round, t) && BalancedIn(Square, t) && BalancedIn(Both, t)
  }

  /** Every '=' is inside some bracket. */
  ghost predicate Sheltered(t: string) {
    forall i {:trigger DepthAt(Both, t, i)} :: 0 <= i < |t| && t[i] == '=' ==> DepthAt(Both, t, i) > 0
  }

  lemma {:induction false} DepthAtConcat(k: Brackets, a: string, b: string, i: nat)
    requires i <= |a + b|
    ensures DepthAt(k, a + b, i) == if i <= |a| then DepthAt(k, a, i) else DepthAt(k, a, |a|) + DepthAt(k, b, i - |a|)
  {
    if i > 0 {
      DepthAtConcat(k, a, b, i - 1);
    }
  }

  lemma BalancedInConcat(k: Brackets, a: string, b: string)
    requires BalancedIn(k, a) && BalancedIn(k, b)
    ensures BalancedIn(k, a + b)
  {
    DepthAtConcat(k, a, b, |a + b|);
    forall i | 0 <= i <= |a + b| ensures DepthAt(k, a + b, i) >= 0 {
      DepthAtConcat(k, a, b, i);
    }
  }

  lemma BalancedConcat(a: string, b: string)
    requires Balanced(a) && Balanced(b)
    ensures Balanced(a + b)
  {
    BalancedInConcat(Round, a, b);
    BalancedInConcat(Square, a, b);
    BalancedInConcat(Both, a, b);
  }

  lemma ShelteredConcat(a: string, b: string)
    requires Balanced(a) && Sheltered(a) && Sheltered(b)
    ensures Sheltered(a + b)
  {
    forall i | 0 <= i < |a + b| && (a + b)[i] == '=' ensures DepthAt(Both, a + b, i) > 0 {
      DepthAtConcat(Both, a, b, i);
      if i >= |a| {
        assert DepthAt(Both, b, 0) == 0;
        assert DepthAt(Both, b, i - |a|) > 0;
      }
    }
  }

  lemma {:induction false} FlatDepth(k: Brackets, t: string, i: nat)
    requires Flat(t) && i <= |t|
    ensures DepthAt(k, t, i) == 0
  {
    if i > 0 {
      FlatDepth(k, t, i - 1);
    }
  }

  lemma FlatBalanced(t: string)
    requires Flat(t)
    ensures Balanced(t)
    ensures (forall i :: 0 <= i < |t| ==> t[i] != '=') ==> Sheltered(t)
  {
    forall k: Brackets, i: nat | i <= |t| ensures DepthAt(k, t, i) == 0 {
      FlatDepth(k, t, i);
    }
  }

  predicate Pair(open: char, close: char) {
    (open == '(' && close == ')') || (open == '[' && close == ']')
  }

  lemma {:induction false} WrapDepthShift(k: Brackets, open: char, t: string, close: char, i: nat)
    requires 1 <= i <= |t| + 1
    ensures DepthAt(k, [open] + t + [close], i) == Step(k, open) + DepthAt(k, t, i - 1)
  {
    var w := [open] + t + [close];
    if i == 1 {
      assert DepthAt(k, w, 0) == 0;
    } else {
      WrapDepthShift(k, open, t, close, i - 1);
      assert w[i - 1] == t[i - 2];
    }
  }

  /** Inside a wrapped text the depth never falls below that of the opening bracket. */
  lemma WrapDepth(k: Brackets, open: char, t: string, close: char, i: nat)
    requires Pair(open, close) && BalancedIn(k, t)
    requires i <= |t| + 2
    ensures DepthAt(k, [open] + t + [close], i) >= if i == 0 || i == |t| + 2 then 0 else Step(k, open)
    ensures i == |t| + 2 ==> DepthAt(k, [open] + t + [close], i) == 0
  {
    if 1 <= i <= |t| + 1 {
      WrapDepthShift(k, open, t, close, i);
      assert DepthAt(k, t, i - 1) >= 0;
    } else if i == |t| + 2 {
      WrapDepthShift(k, open, t, close, |t| + 1);
      assert DepthAt(k, t, |t|) == 0;
      assert ([open] + t + [close])[|t| + 1] == close;
    }
  }

  lemma {:induction false} BalancedEach(k: Brackets, t: string)
    requires Balanced(t)
    ensures BalancedIn(k, t)
  {
    match k
    case Round =>
    case Square =>
    case Both =>
  }

  lemma WrapBalanced(open: char, t: string, close: char)
    requires Pair(open, close) && Balanced(t)
    ensures Balanced([open] + t + [close])
    ensures Sheltered([open] + t + [close])
  {
    var w := [open] + t + [close];
    forall k: Brackets ensures BalancedIn(k, w) {
      BalancedEach(k, t);
      forall i | 0 <= i <= |w| ensures DepthAt(k, w, i) >= 0 && (i == |w| ==> DepthAt(k, w, i) == 0) {
        WrapDepth(k, open, t, close, i);
      }
    }
    forall i | 0 <= i < |w| && w[i] == '=' ensures DepthAt(Both, w, i) > 0 {
      WrapDepth(Both, open, t, close, i);
    }
  }

  // ---- lexical facts ----

  /** The text w holds part at position i. */
  ghost predicate Holds(w: string, i: nat, part: string) {
    i + |part| <= |w| && w[i..i + |part|] == part
  }

  /** Where a name in a path ends. */
  ghost predicate StopsAt(w: string, i: nat) {
    i == |w| || (i < |w| && !IdentPart(w[i]))
  }

  lemma {:induction false} IdentRunIn(w: string, i: nat, s: string, j: nat)
    requires Holds(w, i, s) && StopsAt(w, i + |s|)
    requires j <= |s| && IdentRunEnd(s, j) == |s|
    ensures IdentRunEnd(w, i + j) == i + |s|
    ensures forall m :: j <= m < |s| ==> IdentPart(s[m])
    decreases |s| - j
  {
    if j < |s| {
      assert w[i + j] == s[j];
      IdentRunIn(w, i, s, j + 1);
    }
  }

  lemma {:induction false} DigitRunIn(w: string, i: nat, s: string, j: nat)
    requires Holds(w, i, s) && StopsAt(w, i + |s|)
    requires j <= |s| && DigitRunEnd(s, j) == |s|
    ensures DigitRunEnd(w, i + j) == i + |s|
    ensures forall m :: j <= m < |s| ==> IsDigit(s[m])
    decreases |s| - j
  {
    if j < |s| {
      assert w[i + j] == s[j];
      DigitRunIn(w, i, s, j + 1);
    }
  }

  /** A name ends where a dot, a bracket or the text ends. */
  lemma NameIn(w: string, i: nat, s: string)
    requires Holds(w, i, s) && StopsAt(w, i + |s|)
    requires IsName(s)
    ensures NameEnd(w, i) == i + |s|
    ensures IsIdent(s) ==> IdentEnd(w, i) == i + |s|
    ensures forall m :: 0 <= m < |s| ==> IdentPart(s[m])
  {
    assert w[i] == s[0];
    if IdentEnd(s, 0) > 0 {
      IdentRunIn(w, i, s, 1);
    } else {
      DigitRunIn(w, i, s, 0);
    }
  }

  lemma {:induction false} DigitRunChars(s: string, i: nat)
    requires i <= |s|
    ensures forall m :: i <= m < DigitRunEnd(s, i) ==> IsDigit(s[m])
    decreases |s| - i
  {
    if i < |s| && IsDigit(s[i]) {
      DigitRunChars(s, i + 1);
    }
  }

  lemma NumberChars(s: string)
    requires IsNumber(s)
    ensures s != "" && (IsDigit(s[0]) || s[0] == '-') && IsDigit(s[|s| - 1])
    ensures forall i :: 0 <= i < |s| ==> IsDigit(s[i]) || s[i] == '-' || s[i] == '.'
  {
    var first := if s != "" && s[0] == '-' then 1 else 0;
    DigitRunChars(s, first);
    var n := DigitRunEnd(s, first);
    if n < |s| {
      DigitRunChars(s, n + 1);
    }
  }

  /** What the scanners rely on in the text of a tree. */
  ghost predicate Shape(e: Tree, t: string) {
    && Tight(t) && Balanced(t) && Sheltered(t)
    && t[0] != '=' && !EqSign(t[|t| - 1])
    && (t[0] == '(' <==> e.Eq?) && (t[0] == '!' <==> e.Not?)
    && (IsPath(e) ==> IdentStart(t[0]))
  }

  lemma MemberShape(base: Tree, name: string, pad: string)
    requires IsPath(base) && IsName(name) && Shape(base, Print(base, pad))
    ensures Shape(Member(base, name), Print(Member(base, name), pad))
  {
    var t := Print(base, pad);
    NameIn(name, 0, name);
    FlatBalanced("." + name);
    assert t + "." + name == t + ("." + name);
    BalancedConcat(t, "." + name);
    ShelteredConcat(t, "." + name);
  }

  lemma IndexShape(base: Tree, key: Tree, pad: string)
    requires IsPath(base) && AllSpace(pad)
    requires Shape(base, Print(base, pad)) && Shape(key, Print(key, pad))
    ensures Shape(Index(base, key), Print(Index(base, key), pad))
  {
    var t, u := Print(base, pad), pad + Print(key, pad) + pad;
    FlatBalanced(pad);
    BalancedConcat(pad, Print(key, pad));
    BalancedConcat(pad + Print(key, pad), pad);
    WrapBalanced('[', u, ']');
    BalancedConcat(t, "[" + u + "]");
    ShelteredConcat(t, "[" + u + "]");
  }

  lemma NotShape(arg: Tree, pad: string)
    requires AllSpace(pad) && Shape(arg, Print(arg, pad))
    ensures Shape(Not(arg), Print(Not(arg), pad))
  {
    var t := Print(arg, pad);
    FlatBalanced("!" + pad);
    hide Balanced, Sheltered, IsPath;
    assert "!" + (pad + t) == ("!" + pad) + t;
    BalancedConcat("!" + pad, t);
    ShelteredConcat("!" + pad, t);
  }

  lemma ComparisonBalanced(left: string, op: Op, right: string, pad: string)
    requires AllSpace(pad)
    requires Balanced(left) && Balanced(right)
    ensures Balanced(Comparison(left, op, right, pad))
  {
    FlatBalanced(pad);
    FlatBalanced(OpText(op));
    BalancedConcat(pad, right);
    BalancedConcat(OpText(op), pad + right);
    BalancedConcat(pad, OpText(op) + (pad + right));
    BalancedConcat(left, pad + (OpText(op) + (pad + right)));
  }

  lemma EqShape(op: Op, left: Tree, right: Tree, pad: string)
    requires AllSpace(pad)
    requires Shape(left, Print(left, pad)) && Shape(right, Print(right, pad))
    ensures Shape(Eq(op, left, right), Print(Eq(op, left, right), pad))
  {
    var inner := Comparison(Print(left, pad), op, Print(right, pad), pad);
    ComparisonBalanced(Print(left, pad), op, Print(right, pad), pad);
    FlatBalanced(pad);
    BalancedConcat(pad, inner);
    BalancedConcat(pad + inner, pad);
    WrapBalanced('(', pad + inner + pad, ')');
  }

  lemma RootShape(name: string, pad: string)
    requires IsIdent(name)
    ensures Shape(Root(name), Print(Root(name), pad))
  {
    NameIn(name, 0, name);
    FlatBalanced(name);
  }

  lemma NumShape(digits: string, pad: string)
    requires IsNumber(digits)
    ensures Shape(Num(digits), Print(Num(digits), pad))
  {
    NumberChars(digits);
    FlatBalanced(digits);
  }

  lemma LiteralShape(e: Tree, pad: string)
    requires WellFormed(e)
    requires e.True? || e.False? || e.Null? || e.Undefined? || e.Str?
    ensures Shape(e, Print(e, pad))
  {
    FlatBalanced(Print(e, pad));
  }

  lemma {:induction false} PrintShape(e: Tree, pad: string)
    requires WellFormed(e) || IsPath(e)
    requires AllSpace(pad)
    ensures Shape(e, Print(e, pad))
    decreases e
  {
    match e
    case Member(base, name) =>
      PrintShape(base, pad);
      MemberShape(base, name, pad);
    case Index(base, key) =>
      PrintShape(base, pad);
      PrintShape(key, pad);
      IndexShape(base, key, pad);
    case Not(arg) =>
      PrintShape(arg, pad);
      NotShape(arg, pad);
    case Eq(op, left, right) =>
      PrintShape(left, pad);
      PrintShape(right, pad);
      EqShape(op, left, right, pad);
    case Root(name) =>
      RootShape(name, pad);
    case Num(digits) =>
      NumShape(digits, pad);
    case _ =>
      LiteralShape(e, pad);
  }
}
