/**
 The `{{ ... }}` expression evaluator of the design runtime: trimming, an enclosing pair of
 parentheses, the first top-level equality operator, negation, literals and property paths with
 computed keys. The scanners are loops; each is proved against a function on the text, and the
 functions against a printer and a direct evaluator of expression trees.
 */
module Expr {
  import opened Basics
  import opened Text

  /** The parts of JavaScript the evaluator calls and this model does not interpret. */
  datatype Js<!V> = Js(
    undefined: V,
    nil: V,
    boolean: bool -> V,
    number: string -> V,
    text: string -> V,
    nullish: V -> bool,
    truthy: V -> bool,
    property: (V, V) -> V,
    strictEq: (V, V) -> bool,
    looseEq: (V, V) -> bool)

  datatype Op = StrictEq | StrictNe | LooseEq | LooseNe

  datatype Hit = NoEquality | Equality(index: nat, op: Op)

  /** The characters an equality operator can start with. */
  predicate EqSign(c: char) {
    c == '=' || c == '!'
  }

  function OpText(op: Op): (s: string)
    ensures 2 <= |s| <= 3 && EqSign(s[0]) && s[1] == '='
  {
    match op
    case StrictEq => "==="
    case StrictNe => "!=="
    case LooseEq => "=="
    case LooseNe => "!="
  }

  function Apply<V>(js: Js<V>, op: Op, l: V, r: V): V {
    match op
    case StrictEq => js.boolean(js.strictEq(l, r))
    case StrictNe => js.boolean(!js.strictEq(l, r))
    case LooseEq => js.boolean(js.looseEq(l, r))
    case LooseNe => js.boolean(!js.looseEq(l, r))
  }

  /** `v == null ? undefined : v[key]` */
  function Get<V>(js: Js<V>, v: V, key: V): V {
    if js.nullish(v) then js.undefined else js.property(v, key)
  }

  // ---- expression trees ----

  datatype Tree =
    | True | False | Null | Undefined
    | Num(digits: string)
    | Str(quote: char, body: string)
    | Root(name: string)
    | Member(base: Tree, name: string)
    | Index(base: Tree, key: Tree)
    | Not(arg: Tree)
    | Eq(op: Op, left: Tree, right: Tree)

  /** What the tree means, with the scope object vals. */
  function Eval<V>(js: Js<V>, vals: V, e: Tree): V {
    match e
    case True => js.boolean(true)
    case False => js.boolean(false)
    case Null => js.nil
    case Undefined => js.undefined
    case Num(digits) => js.number(digits)
    case Str(_, body) => js.text(body)
    case Root(name) => Get(js, vals, js.text(name))
    case Member(base, name) => Get(js, Eval(js, vals, base), js.text(name))
    case Index(base, key) => Get(js, Eval(js, vals, base), Eval(js, vals, key))
    case Not(arg) => js.boolean(!js.truthy(Eval(js, vals, arg)))
    case Eq(op, left, right) => Apply(js, op, Eval(js, vals, left), Eval(js, vals, right))
  }

  // ---- lexical classes ----

  predicate IdentStart(c: char) {
    'A' <= c <= 'Z' || 'a' <= c <= 'z' || c == '_' || c == '$'
  }

  predicate IdentPart(c: char) {
    IdentStart(c) || IsDigit(c)
  }

  /** Where a run of identifier characters from position i ends. */
  function IdentRunEnd(s: string, i: nat): (r: nat)
    requires i <= |s|
    ensures i <= r <= |s|
    decreases |s| - i
  {
    if i < |s| && IdentPart(s[i]) then IdentRunEnd(s, i + 1) else i
  }

  function DigitRunEnd(s: string, i: nat): (r: nat)
    requires i <= |s|
    ensures i <= r <= |s|
    decreases |s| - i
  {
    if i < |s| && IsDigit(s[i]) then DigitRunEnd(s, i + 1) else i
  }

  /** Where the identifier at position i ends: at i itself when there is none. */
  function IdentEnd(s: string, i: nat): (r: nat)
    requires i <= |s|
    ensures i <= r <= |s|
  {
    if i < |s| && IdentStart(s[i]) then IdentRunEnd(s, i + 1) else i
  }

  /** The end of what may follow a dot in a path: an identifier, or else a run of digits. */
  function NameEnd(s: string, i: nat): (r: nat)
    requires i <= |s|
    ensures i <= r <= |s|
  {
    if IdentEnd(s, i) > i then IdentEnd(s, i) else DigitRunEnd(s, i)
  }

  /** An optional minus sign, digits, and an optional fraction. */
  predicate IsNumber(s: string) {
    var first := if s != "" && s[0] == '-' then 1 else 0;
    var n := DigitRunEnd(s, first);
    n > first && (n == |s| || (s[n] == '.' && n + 1 < |s| && DigitRunEnd(s, n + 1) == |s|))
  }

  // ---- bracket depth ----

  /** Which brackets a scanner counts. */
  datatype Brackets = Round | Square | Both

  function Step(k: Brackets, c: char): int {
    if (c == '(' && k != Square) || (c == '[' && k != Round) then 1
    else if (c == ')' && k != Square) || (c == ']' && k != Round) then -1
    else 0
  }

  /** Brackets opened minus brackets closed in the first i characters. */
  function DepthAt(k: Brackets, s: string, i: nat): int
    requires i <= |s|
  {
    if i == 0 then 0 else DepthAt(k, s, i - 1) + Step(k, s[i - 1])
  }

  // ---- the scanners' specifications ----

  /** The closing parenthesis at position i brings the parenthesis depth back to zero. */
  predicate ClosesAt(expr: string, i: nat)
    requires i < |expr|
  {
    expr[i] == ')' && DepthAt(Round, expr, i + 1) == 0
  }

  /** No parenthesis before the last character closes the first one. */
  predicate WrapsWhole(expr: string) {
    forall i {:trigger ClosesAt(expr, i)} :: 0 <= i < |expr| - 1 ==> !ClosesAt(expr, i)
  }

  /** Position i starts an equality operator outside every bracket, with an operand to its left. */
  predicate EqualityAt(expr: string, i: nat)
    requires i < |expr|
  {
    && EqSign(expr[i])
    && i + 1 < |expr| && expr[i + 1] == '='
    && DepthAt(Both, expr, i) == 0
    && (i == 0 || !EqSign(expr[i - 1]))
    && Trim(expr[..i]) != ""
  }

  function OpAt(expr: string, i: nat): Op
    requires i < |expr|
  {
    if i + 2 < |expr| && expr[i + 2] == '=' then
      if expr[i] == '=' then StrictEq else StrictNe
    else
      if expr[i] == '=' then LooseEq else LooseNe
  }

  /** The first equality at or after a position. */
  function FindFrom(expr: string, i: nat): (h: Hit)
    requires i <= |expr|
    ensures h.Equality? ==> i <= h.index < |expr| - 1 && EqualityAt(expr, h.index) && h.op == OpAt(expr, h.index)
    ensures h.Equality? ==> 0 < h.index && h.index + |OpText(h.op)| <= |expr|
    decreases |expr| - i
  {
    if i == |expr| then NoEquality
    else if EqualityAt(expr, i) then Equality(i, OpAt(expr, i))
    else FindFrom(expr, i + 1)
  }

  /** From inside a bracketed key at position j, the position of the bracket that closes it, or the end. */
  function CloseFrom(expr: string, j: nat, depth: nat): (r: nat)
    requires j <= |expr|
    requires depth > 0
    ensures j <= r <= |expr|
    decreases |expr| - j
  {
    if j == |expr| then j
    else if expr[j] == '[' then CloseFrom(expr, j + 1, depth + 1)
    else if expr[j] == ']' then
      if depth == 1 then j else CloseFrom(expr, j + 1, depth - 1)
    else CloseFrom(expr, j + 1, depth)
  }

  // ---- the evaluator ----

  /** The tree an expression text stands for; unreadable text stands for undefined. */
  function Parse(src: string): Tree
    decreases |src|, 3, 0
  {
    ParseTrimmed(Trim(src))
  }

  /** Parentheses around the whole text, then the first top-level equality, then the rest. */
  function ParseTrimmed(e: string): Tree
    decreases |e|, 2, 0
  {
    if e == "" then Undefined
    else if e[0] == '(' && e[|e| - 1] == ')' && WrapsWhole(e) then Parse(e[1..|e| - 1])
    else
      match FindFrom(e, 0)
      case Equality(i, op) => Eq(op, Parse(e[..i]), Parse(e[i + |OpText(op)|..]))
      case NoEquality => ParseUnary(e)
  }

  function ParseUnary(e: string): Tree
    requires e != ""
    decreases |e|, 1, 0
  {
    if e[0] == '!' then Not(Parse(e[1..]))
    else if IsLiteral(e) then Literal(e)
    else ParsePath(e)
  }

  predicate IsQuoted(e: string) {
    |e| >= 2 && IsQuote(e[0]) && e[|e| - 1] == e[0]
  }

  predicate IsKeyword(e: string) {
    e == "true" || e == "false" || e == "null" || e == "undefined"
  }

  predicate IsLiteral(e: string) {
    IsKeyword(e) || IsNumber(e) || IsQuoted(e)
  }

  function Literal(e: string): Tree
    requires IsLiteral(e)
  {
    if e == "true" then True
    else if e == "false" then False
    else if e == "null" then Null
    else if e == "undefined" then Undefined
    else if IsNumber(e) then Num(e)
    else Str(e[0], e[1..|e| - 1])
  }

  function ParsePath(expr: string): Tree
    decreases |expr|, 0, |expr| + 1
  {
    var n := IdentEnd(expr, 0);
    if n == 0 then Undefined else PathFrom(expr, n, Root(expr[..n]))
  }

  /** One step of a path: nothing readable, a name after a dot, or the text of a computed key. */
  datatype Segment = Unreadable | Name(key: string, next: nat) | Computed(key: string, next: nat)

  function NextSegment(expr: string, i: nat): (g: Segment)
    requires i < |expr|
    ensures !g.Unreadable? ==> i < g.next <= |expr| && |g.key| < |expr|
  {
    if expr[i] == '.' then
      var n := NameEnd(expr, i + 1);
      if n == i + 1 then Unreadable else Name(expr[i + 1..n], n)
    else if expr[i] == '[' then
      var j := CloseFrom(expr, i + 1, 1);
      if j == |expr| then Unreadable else Computed(expr[i + 1..j], j + 1)
    else Unreadable
  }

  /** The path that starts with base, of which the first i characters have been read. */
  function PathFrom(expr: string, i: nat, base: Tree): Tree
    requires i <= |expr|
    decreases |expr|, 0, |expr| - i
  {
    if i == |expr| then base
    else
      match NextSegment(expr, i)
      case Unreadable => Undefined
      case Name(key, next) => PathFrom(expr, next, Member(base, key))
      case Computed(key, next) => PathFrom(expr, next, Index(base, Parse(key)))
  }

  // ---- single steps of the parser ----

  lemma ParseWrapped(t: string, inner: string)
    requires |t| >= 2 && t[0] == '(' && t[|t| - 1] == ')' && WrapsWhole(t) && t[1..|t| - 1] == inner
    ensures ParseTrimmed(t) == Parse(inner)
  {
  }

  /** The parser splits m at its first equality, into l and r. */
  ghost predicate Splits(m: string, l: string, op: Op, r: string) {
    && l != "" && |m| == |l| + |OpText(op)| + |r|
    && m[..|l|] == l && m[|l| + |OpText(op)|..] == r
    && (m[0] == '(' && m[|m| - 1] == ')' ==> !WrapsWhole(m))
    && FindFrom(m, 0) == Equality(|l|, op)
  }

  lemma ParseSplit(m: string, l: string, op: Op, r: string)
    requires Splits(m, l, op, r)
    ensures ParseTrimmed(m) == Eq(op, Parse(l), Parse(r))
  {
  }

  lemma ParseNoEquality(t: string)
    requires t != "" && FindFrom(t, 0) == NoEquality
    requires t[0] == '(' && t[|t| - 1] == ')' ==> !WrapsWhole(t)
    ensures ParseTrimmed(t) == ParseUnary(t)
  {
  }

  lemma ReadMember(w: string, i: nat, name: string, next: nat, base: Tree)
    requires i < |w| && NextSegment(w, i) == Name(name, next)
    ensures PathFrom(w, i, base) == PathFrom(w, next, Member(base, name))
  {
  }

  lemma ReadIndex(w: string, i: nat, key: string, next: nat, base: Tree)
    requires i < |w| && NextSegment(w, i) == Computed(key, next)
    ensures PathFrom(w, i, base) == PathFrom(w, next, Index(base, Parse(key)))
  {
  }

  lemma ReadUnreadable(w: string, i: nat, base: Tree)
    requires i < |w| && NextSegment(w, i) == Unreadable
    ensures PathFrom(w, i, base) == Undefined
  {
  }

  // ---- the loops ----

  method ParensWrapWhole(expr: string) returns (r: bool)
    ensures r == WrapsWhole(expr)
  {
    var depth, i := 0, 0;
    while i < |expr| - 1
      invariant 0 <= i <= |expr|
      invariant depth == DepthAt(Round, expr, i)
      invariant forall j {:trigger ClosesAt(expr, j)} :: 0 <= j < i && j < |expr| ==> !ClosesAt(expr, j)
    {
      if expr[i] == '(' {
        depth := depth + 1;
      } else if expr[i] == ')' {
        depth := depth - 1;
        if depth == 0 {
          assert ClosesAt(expr, i);
          return false;
        }
      }
      i := i + 1;
    }
    return true;
  }

  method FindTopLevelEquality(expr: string) returns (h: Hit)
    ensures h == FindFrom(expr, 0)
  {
    var depth, i := 0, 0;
    while i < |expr|
      invariant 0 <= i <= |expr|
      invariant depth == DepthAt(Both, expr, i)
      invariant FindFrom(expr, 0) == FindFrom(expr, i)
    {
      var c := expr[i];
      if c == '[' || c == '(' {
        depth := depth + 1;
      } else if c == ']' || c == ')' {
        depth := depth - 1;
      } else if depth == 0 && (c == '=' || c == '!') && i + 1 < |expr| && expr[i + 1] == '=' {
        if i > 0 && (expr[i - 1] == '=' || expr[i - 1] == '!') {
        } else if Trim(expr[..i]) == "" {
        } else {
          return Equality(i, OpAt(expr, i));
        }
      }
      i := i + 1;
    }
    return NoEquality;
  }

  /** The evaluator: it works on the text directly, recursing on ever shorter pieces of it. */
  method Resolve<V>(js: Js<V>, vals: V, src: string) returns (v: V)
    ensures v == Eval(js, vals, Parse(src))
    decreases |src|, 2
  {
    var expr := Trim(src);
    if expr == "" {
      return js.undefined;
    }
    var whole := false;
    if expr[0] == '(' && expr[|expr| - 1] == ')' {
      whole := ParensWrapWhole(expr);
    }
    if whole {
      var inner := expr[1..|expr| - 1];
      ParseWrapped(expr, inner);
      v := Resolve(js, vals, inner);
      return;
    }
    var eq := FindTopLevelEquality(expr);
    if eq.Equality? {
      v := ResolveEquality(js, vals, expr, eq.index, eq.op);
      return;
    }
    ParseNoEquality(expr);
    v := ResolveUnary(js, vals, expr);
  }

  /** The two sides of the first top-level equality, left before right. */
  method ResolveEquality<V>(js: Js<V>, vals: V, expr: string, index: nat, op: Op) returns (v: V)
    requires expr != "" && FindFrom(expr, 0) == Equality(index, op)
    requires expr[0] == '(' && expr[|expr| - 1] == ')' ==> !WrapsWhole(expr)
    ensures v == Eval(js, vals, ParseTrimmed(expr))
    decreases |expr|, 1
  {
    var left, right := expr[..index], expr[index + |OpText(op)|..];
    var lv := Resolve(js, vals, left);
    var rv := Resolve(js, vals, right);
    ParseSplit(expr, left, op, right);
    return Apply(js, op, lv, rv);
  }

  /** What is left once there is no enclosing parenthesis and no equality: a negation, a literal or a path. */
  method ResolveUnary<V>(js: Js<V>, vals: V, expr: string) returns (v: V)
    requires expr != ""
    ensures v == Eval(js, vals, ParseUnary(expr))
    decreases |expr|, 1
  {
    if expr[0] == '!' {
      var w := Resolve(js, vals, expr[1..]);
      return js.boolean(!js.truthy(w));
    }
    if IsLiteral(expr) {
      return Eval(js, vals, Literal(expr));
    }
    v := ResolvePath(js, vals, expr);
  }

  /** The inner loop of the path reader: the bracket closing the one at position i, or the end. */
  method ClosingBracket(expr: string, i: nat) returns (j: nat)
    requires i < |expr|
    ensures j == CloseFrom(expr, i + 1, 1)
  {
    var depth := 1;
    j := i + 1;
    while j < |expr|
      invariant i < j <= |expr| && depth > 0
      invariant CloseFrom(expr, j, depth) == CloseFrom(expr, i + 1, 1)
    {
      if expr[j] == '[' {
        depth := depth + 1;
      } else if expr[j] == ']' {
        depth := depth - 1;
        if depth == 0 {
          break;
        }
      }
      j := j + 1;
    }
  }

  /** Reads the dotted name or the bracketed key at position i. */
  method ReadSegment(expr: string, i: nat) returns (g: Segment)
    requires i < |expr|
    ensures g == NextSegment(expr, i)
  {
    if expr[i] == '.' {
      var n := NameEnd(expr, i + 1);
      if n == i + 1 {
        return Unreadable;
      }
      return Name(expr[i + 1..n], n);
    } else if expr[i] == '[' {
      var j := ClosingBracket(expr, i);
      if j == |expr| {
        return Unreadable;
      }
      return Computed(expr[i + 1..j], j + 1);
    } else {
      return Unreadable;
    }
  }

  method ResolvePath<V>(js: Js<V>, vals: V, expr: string) returns (cur: V)
    ensures cur == Eval(js, vals, ParsePath(expr))
    decreases |expr|, 0
  {
    var i := IdentEnd(expr, 0);
    if i == 0 {
      return js.undefined;
    }
    cur := Get(js, vals, js.text(expr[..i]));
    ghost var read := Root(expr[..i]);
    while i < |expr|
      invariant 0 < i && PathReadTo(js, vals, expr, i, cur, read)
    {
      var g := ReadSegment(expr, i);
      match g {
        case Unreadable =>
          ReadUnreadable(expr, i, read);
          return js.undefined;
        case Name(name, next) =>
          MemberRead(js, vals, expr, i, cur, read, name, next);
          cur, i, read := Get(js, cur, js.text(name)), next, Member(read, name);
        case Computed(text, next) =>
          var key := Resolve(js, vals, text);
          IndexRead(js, vals, expr, i, cur, read, text, next, key);
          cur, i, read := Get(js, cur, key), next, Index(read, Parse(text));
      }
    }
  }

  /** Up to position i the path has been read as a tree with this value, and the rest completes it. */
  ghost predicate PathReadTo<V>(js: Js<V>, vals: V, expr: string, i: nat, cur: V, read: Tree) {
    i <= |expr| && cur == Eval(js, vals, read) && PathFrom(expr, i, read) == ParsePath(expr)
  }

  lemma MemberRead<V>(js: Js<V>, vals: V, expr: string, i: nat, cur: V, read: Tree, name: string, next: nat)
    requires i < |expr| && PathReadTo(js, vals, expr, i, cur, read) && NextSegment(expr, i) == Name(name, next)
    ensures PathReadTo(js, vals, expr, next, Get(js, cur, js.text(name)), Member(read, name))
  {
    ReadMember(expr, i, name, next, read);
  }

  lemma IndexRead<V>(js: Js<V>, vals: V, expr: string, i: nat, cur: V, read: Tree, text: string, next: nat, key: V)
    requires i < |expr| && PathReadTo(js, vals, expr, i, cur, read) && NextSegment(expr, i) == Computed(text, next)
    requires key == Eval(js, vals, Parse(text))
    ensures PathReadTo(js, vals, expr, next, Get(js, cur, key), Index(read, Parse(text)))
  {
    ReadIndex(expr, i, text, next, read);
  }
}
