/** Parsing a printed expression gives its tree back, so resolving the text is evaluating the tree. */
module ExprRoundTrip {
  import opened Basics
  import opened Text
  import opened Expr
  import opened ExprTree

  /** A sheltered text has no equality operator outside its brackets. */
  lemma {:induction false} NoEqualityIn(t: string, i: nat)
    requires Sheltered(t) && i <= |t|
    ensures FindFrom(t, i) == NoEquality
    decreases |t| - i
  {
    if i < |t| {
      if i + 1 < |t| && EqSign(t[i]) && t[i + 1] == '=' {
        assert DepthAt(Both, t, i + 1) > 0;
      }
      NoEqualityIn(t, i + 1);
    }
  }

  /** What an operand's text offers the text to its right. */
  ghost predicate Operand(left: string) {
    && Tight(left) && Balanced(left) && Sheltered(left)
    && !EqSign(left[|left| - 1])
    && (left[0] == '(' ==> left[|left| - 1] == ')')
  }

  lemma OperatorDepth(left: string, tail: string, pad: string)
    requires Operand(left) && AllSpace(pad)
    ensures DepthAt(Both, left + (pad + tail), |left| + |pad|) == 0
  {
    DepthAtConcat(Both, left, pad + tail, |left| + |pad|);
    DepthAtConcat(Both, pad, tail, |pad|);
    FlatDepth(Both, pad, |pad|);
  }

  lemma OperatorHere(left: string, op: Op, right: string, pad: string)
    requires Operand(left) && AllSpace(pad)
    requires right == "" || right[0] != '='
    ensures var m, i := Comparison(left, op, right, pad), |left| + |pad|;
      EqualityAt(m, i) && OpAt(m, i) == op
  {
    var m, i := Comparison(left, op, right, pad), |left| + |pad|;
    OperatorDepth(left, OpText(op) + (pad + right), pad);
    assert !IsSpace(m[..i][0]);
    TrimNonempty(m[..i], 0);
    assert m[i] == OpText(op)[0] && m[i + 1] == OpText(op)[1];
  }

  lemma NoOperatorBefore(left: string, op: Op, right: string, pad: string, i: nat)
    requires Operand(left) && AllSpace(pad)
    requires i < |left| + |pad|
    ensures !EqualityAt(Comparison(left, op, right, pad), i)
  {
    var m := Comparison(left, op, right, pad);
    if i < |left| {
      DepthAtConcat(Both, left, pad + (OpText(op) + (pad + right)), i);
      if i + 1 < |left| && EqSign(left[i]) && left[i + 1] == '=' {
        assert DepthAt(Both, left, i + 1) > 0;
      }
    } else {
      assert m[i] == pad[i - |left|];
    }
  }

  lemma {:induction false} FirstEquality(left: string, op: Op, right: string, pad: string, i: nat)
    requires Operand(left) && AllSpace(pad)
    requires right == "" || right[0] != '='
    requires i <= |left| + |pad|
    ensures FindFrom(Comparison(left, op, right, pad), i) == Equality(|left| + |pad|, op)
    decreases |left| + |pad| - i
  {
    if i == |left| + |pad| {
      OperatorHere(left, op, right, pad);
    } else {
      NoOperatorBefore(left, op, right, pad, i);
      FirstEquality(left, op, right, pad, i + 1);
    }
  }

  /** The opening parenthesis of an operand does not enclose the whole comparison. */
  lemma NotWrapped(left: string, op: Op, right: string, pad: string)
    requires Operand(left) && left[0] == '('
    ensures !WrapsWhole(Comparison(left, op, right, pad))
  {
    var m := Comparison(left, op, right, pad);
    DepthAtConcat(Round, left, pad + (OpText(op) + (pad + right)), |left|);
    assert ClosesAt(m, |left| - 1);
  }

  lemma ParsePadded(before: string, t: string, after: string)
    requires AllSpace(before) && AllSpace(after) && Tight(t)
    ensures Parse(before + t + after) == ParseTrimmed(t)
  {
    TrimPadded(before, t, after);
  }

  lemma {:induction false} ParseTight(t: string)
    requires Tight(t)
    ensures Parse(t) == ParseTrimmed(t)
  {
    assert "" + t + "" == t;
    ParsePadded("", t, "");
  }

  lemma ComparisonSplits(left: string, op: Op, right: string, pad: string)
    requires Operand(left) && AllSpace(pad)
    requires Tight(right) && right[0] != '='
    ensures Tight(Comparison(left, op, right, pad))
    ensures Splits(Comparison(left, op, right, pad), left + pad, op, pad + right)
  {
    var m := Comparison(left, op, right, pad);
    assert m[|m| - 1] == right[|right| - 1];
    if m[0] == '(' {
      NotWrapped(left, op, right, pad);
    }
    FirstEquality(left, op, right, pad, 0);
    assert m[..|left + pad|] == left + pad;
    assert m[|left + pad| + |OpText(op)|..] == pad + right;
  }

  /** A comparison is read at its first operator: everything to the right of it is the second operand. */
  lemma ParseComparison(before: string, left: string, op: Op, right: string, pad: string, after: string)
    requires Operand(left) && AllSpace(pad) && AllSpace(before) && AllSpace(after)
    requires Tight(right) && right[0] != '='
    ensures Parse(before + Comparison(left, op, right, pad) + after)
         == Eq(op, Parse(left + pad), Parse(pad + right))
  {
    ComparisonSplits(left, op, right, pad);
    ParsePadded(before, Comparison(left, op, right, pad), after);
    ParseSplit(Comparison(left, op, right, pad), left + pad, op, pad + right);
  }

  // ---- paths ----

  lemma {:induction false} CloseBalanced(expr: string, a: nat, u: string, i: nat)
    requires BalancedIn(Square, u)
    requires a + |u| < |expr| && expr[a..a + |u|] == u && expr[a + |u|] == ']'
    requires i <= |u|
    ensures DepthAt(Square, u, i) >= 0
    ensures CloseFrom(expr, a + i, (1 + DepthAt(Square, u, i))) == a + |u|
    decreases |u| - i
  {
    assert DepthAt(Square, u, i) >= 0;
    if i < |u| {
      CloseBalanced(expr, a, u, i + 1);
      assert expr[a + i] == u[i];
    }
  }

  lemma NextIsName(w: string, i: nat, name: string)
    requires i < |w| && w[i] == '.' && Holds(w, i + 1, name) && StopsAt(w, i + 1 + |name|)
    requires IsName(name)
    ensures NextSegment(w, i) == Name(name, i + 1 + |name|)
  {
    NameIn(w, i + 1, name);
  }

  lemma NextIsComputed(w: string, i: nat, key: string)
    requires i < |w| && w[i] == '[' && Holds(w, i + 1, key)
    requires i + 1 + |key| < |w| && w[i + 1 + |key|] == ']'
    requires BalancedIn(Square, key)
    ensures NextSegment(w, i) == Computed(key, i + |key| + 2)
  {
    assert DepthAt(Square, key, 0) == 0;
    CloseBalanced(w, i + 1, key, 0);
  }

  lemma {:induction false} ReadRoot(w: string, name: string)
    requires IsIdent(name) && Holds(w, 0, name) && StopsAt(w, |name|)
    ensures ParsePath(w) == PathFrom(w, |name|, Root(name))
  {
    NameIn(w, 0, name);
  }

  lemma KeyBalanced(key: Tree, pad: string)
    requires WellFormed(key) && AllSpace(pad)
    ensures Balanced(pad + Print(key, pad) + pad)
  {
    PrintShape(key, pad);
    FlatBalanced(pad);
    BalancedConcat(pad, Print(key, pad));
    BalancedConcat(pad + Print(key, pad), pad);
  }

  lemma Parts(b: string, open: char, u: string, close: string)
    ensures var t := b + ([open] + u + close);
      t[..|b|] == b && t[|b|] == open && t[|b| + 1..|b| + 1 + |u|] == u && t[|b| + 1 + |u|..] == close
  {
  }

  lemma {:induction false} HoldsParts(w: string, t: string, b: string, open: char, u: string, close: string)
    requires t == b + ([open] + u + close)
    requires Holds(w, 0, t)
    ensures Holds(w, 0, b) && |t| == |b| + 1 + |u| + |close|
    ensures w[|b|] == open && Holds(w, |b| + 1, u) && Holds(w, |b| + 1 + |u|, close)
  {
    Parts(b, open, u, close);
    assert w[..|t|] == t;
    assert w[..|b|] == t[..|b|];
    assert w[|b| + 1..|b| + 1 + |u|] == t[|b| + 1..|b| + 1 + |u|];
    assert w[|b| + 1 + |u|..|t|] == t[|b| + 1 + |u|..];
  }

  lemma MemberInText(w: string, base: Tree, name: string, pad: string)
    requires var t := Print(Member(base, name), pad); Holds(w, 0, t) && StopsAt(w, |t|)
    requires IsName(name)
    ensures var i := |Print(base, pad)|;
      && Holds(w, 0, Print(base, pad)) && i < |w| && StopsAt(w, i)
      && NextSegment(w, i) == Name(name, |Print(Member(base, name), pad)|)
  {
    var t, b := Print(Member(base, name), pad), Print(base, pad);
    assert t == b + (['.'] + name + "");
    HoldsParts(w, t, b, '.', name, "");
    NextIsName(w, |b|, name);
  }

  lemma IndexInText(w: string, base: Tree, key: Tree, pad: string)
    requires var t := Print(Index(base, key), pad); Holds(w, 0, t) && StopsAt(w, |t|)
    requires WellFormed(key) && AllSpace(pad)
    ensures var i, u := |Print(base, pad)|, pad + Print(key, pad) + pad;
      && Holds(w, 0, Print(base, pad)) && i < |w| && StopsAt(w, i)
      && NextSegment(w, i) == Computed(u, |Print(Index(base, key), pad)|)
  {
    var t, b, u := Print(Index(base, key), pad), Print(base, pad), pad + Print(key, pad) + pad;
    HoldsParts(w, t, b, '[', u, "]");
    KeyBalanced(key, pad);
    assert w[|b| + 1 + |u|] == w[|b| + 1 + |u|..|b| + 2 + |u|][0] == ']';
    NextIsComputed(w, |b|, u);
  }

  lemma ReadMemberPath(w: string, base: Tree, name: string, pad: string)
    requires var t := Print(Member(base, name), pad); Holds(w, 0, t) && StopsAt(w, |t|)
    requires IsName(name)
    ensures |Print(base, pad)| < |w| && StopsAt(w, |Print(base, pad)|) && Holds(w, 0, Print(base, pad))
    ensures PathFrom(w, |Print(base, pad)|, base) == PathFrom(w, |Print(Member(base, name), pad)|, Member(base, name))
  {
    MemberInText(w, base, name, pad);
    ReadMember(w, |Print(base, pad)|, name, |Print(Member(base, name), pad)|, base);
  }

  lemma {:induction false} ReadIndexPath(w: string, base: Tree, key: Tree, pad: string)
    requires var t := Print(Index(base, key), pad); Holds(w, 0, t) && StopsAt(w, |t|)
    requires WellFormed(key) && AllSpace(pad)
    requires Parse(pad + Print(key, pad) + pad) == key
    ensures |Print(base, pad)| < |w| && StopsAt(w, |Print(base, pad)|) && Holds(w, 0, Print(base, pad))
    ensures PathFrom(w, |Print(base, pad)|, base) == PathFrom(w, |Print(Index(base, key), pad)|, Index(base, key))
  {
    IndexInText(w, base, key, pad);
    ReadIndex(w, |Print(base, pad)|, pad + Print(key, pad) + pad, |Print(Index(base, key), pad)|, base);
  }

  /** After reading a printed path the reader stands at its end with the path's tree. */
  lemma {:induction false} ReadPath(e: Tree, pad: string, w: string)
    requires IsPath(e) && AllSpace(pad)
    requires Holds(w, 0, Print(e, pad)) && StopsAt(w, |Print(e, pad)|)
    ensures ParsePath(w) == PathFrom(w, |Print(e, pad)|, e)
    decreases e, 0
  {
    match e
    case Root(name) =>
      ReadRoot(w, name);
    case Member(base, name) =>
      ReadMemberPath(w, base, name, pad);
      ReadPath(base, pad, w);
    case Index(base, key) =>
      PrintThenParse(key, pad, pad, pad);
      ReadIndexPath(w, base, key, pad);
      ReadPath(base, pad, w);
  }

  // ---- the main theorem ----

  lemma PrintedOperand(e: Tree, pad: string)
    requires WellFormed(e) && AllSpace(pad)
    ensures Operand(Print(e, pad)) && Print(e, pad)[0] != '='
  {
    PrintShape(e, pad);
    if e.Eq? {
      var t := Print(e, pad);
      assert t[|t| - 1] == ')';
    }
  }

  /** A sheltered text that opens no parenthesis is a negation, a literal or a path. */
  lemma ReadUnary(t: string)
    requires t != "" && Sheltered(t) && t[0] != '('
    ensures ParseTrimmed(t) == ParseUnary(t)
  {
    NoEqualityIn(t, 0);
    ParseNoEquality(t);
  }

  lemma KeywordLetters(t: string)
    ensures IsKeyword(t) ==> forall i :: 0 <= i < |t| ==> 'a' <= t[i] <= 'z'
  {
  }

  lemma PathIsNoLiteral(e: Tree, pad: string)
    requires IsPath(e) && WellFormed(e) && AllSpace(pad)
    ensures !IsLiteral(Print(e, pad))
  {
    var t := Print(e, pad);
    PrintShape(e, pad);
    assert !IsNumber(t);
    assert !IsQuoted(t);
    if !e.Root? {
      var b := |Print(e.base, pad)|;
      assert t[b] == '.' || t[b] == '[';
      KeywordLetters(t);
    }
  }

  lemma {:induction false} ReadLiteral(e: Tree, pad: string)
    requires WellFormed(e)
    requires e.True? || e.False? || e.Null? || e.Undefined? || e.Num? || e.Str?
    ensures IsLiteral(Print(e, pad)) && Print(e, pad)[0] != '!'
    ensures Literal(Print(e, pad)) == e
  {
    var t := Print(e, pad);
    if e.Num? {
      NumberChars(t);
    } else if e.Str? {
      assert !IsNumber(t);
      assert t[1..|t| - 1] == e.body;
    }
  }

  lemma WrapsWholeText(inner: string)
    requires Balanced(inner)
    ensures WrapsWhole("(" + inner + ")")
  {
    var t := "(" + inner + ")";
    forall i | 0 <= i < |t| - 1 ensures !ClosesAt(t, i) {
      WrapDepth(Round, '(', inner, ')', i + 1);
      assert DepthAt(Round, t, i + 1) >= 1;
    }
  }

  lemma ParseParenthesised(inner: string)
    requires Balanced(inner)
    ensures ParseTrimmed("(" + inner + ")") == Parse(inner)
  {
    WrapsWholeText(inner);
    assert ("(" + inner + ")")[1..|inner| + 1] == inner;
    ParseWrapped("(" + inner + ")", inner);
  }

  lemma ComparisonPadBalanced(l: string, op: Op, r: string, pad: string)
    requires Balanced(l) && Balanced(r) && AllSpace(pad)
    ensures Balanced(pad + Comparison(l, op, r, pad) + pad)
  {
    ComparisonBalanced(l, op, r, pad);
    FlatBalanced(pad);
    BalancedConcat(pad, Comparison(l, op, r, pad));
    BalancedConcat(pad + Comparison(l, op, r, pad), pad);
  }

  lemma EqCase(op: Op, left: Tree, right: Tree, pad: string)
    requires WellFormed(left) && WellFormed(right) && AllSpace(pad)
    requires Parse("" + Print(left, pad) + pad) == left && Parse(pad + Print(right, pad) + "") == right
    ensures ParseTrimmed(Print(Eq(op, left, right), pad)) == Eq(op, left, right)
  {
    var l, r := Print(left, pad), Print(right, pad);
    assert "" + l + pad == l + pad && pad + r + "" == pad + r;
    PrintedOperand(left, pad);
    PrintedOperand(right, pad);
    ComparisonPadBalanced(l, op, r, pad);
    ParseParenthesised(pad + Comparison(l, op, r, pad) + pad);
    ParseComparison(pad, l, op, r, pad, pad);
  }

  lemma NotCase(arg: Tree, pad: string)
    requires WellFormed(arg) && AllSpace(pad)
    requires Parse(pad + Print(arg, pad) + "") == arg
    ensures ParseTrimmed(Print(Not(arg), pad)) == Not(arg)
  {
    var t, u := Print(Not(arg), pad), pad + Print(arg, pad);
    assert u + "" == u && t[1..] == u;
    PrintShape(Not(arg), pad);
    ReadUnary(t);
  }

  lemma AtomCase(e: Tree, pad: string)
    requires WellFormed(e) && AllSpace(pad)
    requires e.True? || e.False? || e.Null? || e.Undefined? || e.Num? || e.Str?
    ensures ParseTrimmed(Print(e, pad)) == e
  {
    PrintShape(e, pad);
    ReadUnary(Print(e, pad));
    ReadLiteral(e, pad);
  }

  lemma {:induction false} PathCase(e: Tree, pad: string)
    requires WellFormed(e) && IsPath(e) && AllSpace(pad)
    requires ParsePath(Print(e, pad)) == PathFrom(Print(e, pad), |Print(e, pad)|, e)
    ensures ParseTrimmed(Print(e, pad)) == e
  {
    PathIsNoLiteral(e, pad);
    PrintShape(e, pad);
    ReadUnary(Print(e, pad));
  }

  /** Parsing undoes printing, whatever white space the printer uses. */
  lemma {:induction false} PrintThenParse(e: Tree, pad: string, before: string, after: string)
    requires WellFormed(e)
    requires AllSpace(pad) && AllSpace(before) && AllSpace(after)
    ensures Parse(before + Print(e, pad) + after) == e
    decreases e, 1
  {
    if e.Eq? {
      PrintThenParse(e.left, pad, "", pad);
      PrintThenParse(e.right, pad, pad, "");
      EqCase(e.op, e.left, e.right, pad);
    } else if e.Not? {
      PrintThenParse(e.arg, pad, pad, "");
      NotCase(e.arg, pad);
    } else if IsPath(e) {
      ReadPath(e, pad, Print(e, pad));
      PathCase(e, pad);
    } else {
      AtomCase(e, pad);
    }
    PrintShape(e, pad);
    ParsePadded(before, Print(e, pad), after);
  }

  // ---- chains without parentheses ----

  datatype Link = Link(op: Op, operand: Tree)

  /** Operands joined by equality operators with no parentheses around the joins. */
  function ChainText(first: Tree, rest: seq<Link>, pad: string): string
    decreases |rest|
  {
    if rest == [] then Print(first, pad)
    else Comparison(Print(first, pad), rest[0].op, ChainText(rest[0].operand, rest[1..], pad), pad)
  }

  /** The chain grouped to the right. */
  function ChainTree(first: Tree, rest: seq<Link>): Tree
    decreases |rest|
  {
    if rest == [] then first else Eq(rest[0].op, first, ChainTree(rest[0].operand, rest[1..]))
  }

  ghost predicate WellFormedChain(first: Tree, rest: seq<Link>) {
    WellFormed(first) && forall i :: 0 <= i < |rest| ==> WellFormed(rest[i].operand)
  }

  lemma {:induction false} ChainTight(first: Tree, rest: seq<Link>, pad: string)
    requires WellFormedChain(first, rest) && AllSpace(pad)
    ensures Tight(ChainText(first, rest, pad)) && ChainText(first, rest, pad)[0] != '='
    decreases |rest|
  {
    PrintedOperand(first, pad);
    if rest != [] {
      ChainTight(rest[0].operand, rest[1..], pad);
      ComparisonSplits(Print(first, pad), rest[0].op, ChainText(rest[0].operand, rest[1..], pad), pad);
    }
  }

  lemma {:induction false} ChainStep(first: Tree, op: Op, r: string, tree: Tree, pad: string,
                                     before: string, after: string)
    requires WellFormed(first) && AllSpace(pad) && AllSpace(before) && AllSpace(after)
    requires Tight(r) && r[0] != '=' && Parse(pad + r + "") == tree
    ensures Parse(before + Comparison(Print(first, pad), op, r, pad) + after) == Eq(op, first, tree)
  {
    var l := Print(first, pad);
    assert "" + l + pad == l + pad && pad + r + "" == pad + r;
    PrintedOperand(first, pad);
    ParseComparison(before, l, op, r, pad, after);
    PrintThenParse(first, pad, "", pad);
  }

  /** An unparenthesised chain of equalities is read grouped to the right, not to the left. */
  lemma {:induction false} ChainReadsRight(first: Tree, rest: seq<Link>, pad: string, before: string, after: string)
    requires WellFormedChain(first, rest)
    requires AllSpace(pad) && AllSpace(before) && AllSpace(after)
    ensures Parse(before + ChainText(first, rest, pad) + after) == ChainTree(first, rest)
    decreases |rest|
  {
    if rest == [] {
      PrintThenParse(first, pad, before, after);
    } else {
      ChainTight(rest[0].operand, rest[1..], pad);
      ChainReadsRight(rest[0].operand, rest[1..], pad, pad, "");
      ChainStep(first, rest[0].op, ChainText(rest[0].operand, rest[1..], pad), ChainTree(rest[0].operand, rest[1..]),
                pad, before, after);
    }
  }

  // ---- string literals that look like comparisons ----

  /** A quoted text is read as a string exactly when the scanner sees no top-level equality inside it. */
  lemma StringLiteralExact(quote: char, body: string)
    requires IsQuote(quote)
    ensures var t := [quote] + body + [quote];
      Parse(t) == Str(quote, body) <==> FindFrom(t, 0) == NoEquality
  {
    var t := [quote] + body + [quote];
    ParseTight(t);
    if FindFrom(t, 0) == NoEquality {
      ParseNoEquality(t);
      assert t[1..|t| - 1] == body;
    }
  }

  /** Such texts exist: quotes do not shield an equality operator from the scanner. */
  lemma {:induction false} StringReadAsComparison()
    ensures Parse("'a==b'").Eq?
  {
    var t := "'a==b'";
    assert Trim(t[..2]) != "" by { TrimNonempty(t[..2], 0); }
    assert EqualityAt(t, 2);
    assert FindFrom(t, 0) == FindFrom(t, 1) == FindFrom(t, 2);
    ParseTight(t);
  }

  /** Resolving the printed text of a tree is evaluating the tree. */
  method ResolvePrinted<V>(js: Js<V>, vals: V, e: Tree, pad: string) returns (v: V)
    requires WellFormed(e) && AllSpace(pad)
    ensures v == Eval(js, vals, e)
  {
    v := Resolve(js, vals, Print(e, pad));
    PrintThenParse(e, pad, "", "");
    assert "" + Print(e, pad) + "" == Print(e, pad);
  }
}
