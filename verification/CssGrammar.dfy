/**
 Declarations as they are written: plain text, strings, parentheses, quoted and unquoted urls, and comments. The scanner
 takes each for what it is, and marking writes each declaration out once, marked.
 */
module CssGrammar {
  import opened Basics
  import opened Text
  import opened CssScan
  import opened CssFacts
  import opened CssMark

  // ---- the grammar ----

  datatype Item =
    | Chars(text: string)
    | Quotation(quote: char, body: string)
    | Group(items: Items)
    | Address(word: string, space: string, body: string)
    | Link(word: string, space: string, quote: char, body: string, rest: Items)
    | Note(body: string)

  datatype Items = Nothing | Then(item: Item, rest: Items)

  /** A declaration as it is written. */
  function Written(items: Items): string {
    match items
    case Nothing => ""
    case Then(item, rest) => WrittenItem(item) + Written(rest)
  }

  function WrittenItem(item: Item): string {
    match item
    case Chars(text) => text
    case Quotation(quote, body) => [quote] + (body + [quote])
    case Group(items) => "(" + (Written(items) + ")")
    case Address(word, space, body) => word + ("(" + (space + (body + ")")))
    case Link(word, space, quote, body, rest) =>
      word + ("(" + (space + (([quote] + (body + [quote])) + (Written(rest) + ")"))))
    case Note(body) => "/*" + (body + "*/")
  }

  /** The same with every comment replaced by a space. */
  function Uncommented(items: Items): string {
    match items
    case Nothing => ""
    case Then(item, rest) => UncommentedItem(item) + Uncommented(rest)
  }

  function UncommentedItem(item: Item): string {
    match item
    case Chars(text) => text
    case Quotation(quote, body) => [quote] + (body + [quote])
    case Group(items) => "(" + (Uncommented(items) + ")")
    case Address(word, space, body) => word + ("(" + (space + (body + ")")))
    case Link(word, space, quote, body, rest) =>
      word + ("(" + (space + (([quote] + (body + [quote])) + (Uncommented(rest) + ")"))))
    case Note(_) => " "
  }

  /** Up to the closing character, which may be inside when a backslash stands before it. */
  predicate Escaped(body: string, close: char) {
    || body == ""
    || (body[0] == '\\' && |body| >= 2 && Escaped(body[2..], close))
    || (body[0] != '\\' && body[0] != close && Escaped(body[1..], close))
  }

  predicate NameChar(c: char) {
    'a' <= c <= 'z' || 'A' <= c <= 'Z' || '0' <= c <= '9' || c in {'_', '-'}
  }

  /** The text ends in the letters of "url". */
  predicate EndsUrl(text: string) {
    && |text| >= 3 && text[|text| - 3] in {'u', 'U'}
    && text[|text| - 2] in {'r', 'R'} && text[|text| - 1] in {'l', 'L'}
  }

  /** Semicolons are plain text inside parentheses only; a slash is, unless it opens a comment or may do so. */
  predicate PlainText(text: string, top: bool) {
    && (forall i :: 0 <= i < |text| ==> text[i] !in {'\'', '"', '(', ')'})
    && (forall i :: 0 <= i < |text| - 1 ==> !(text[i] == '/' && text[i + 1] == '*'))
    && (text != "" ==> text[|text| - 1] != '/')
    && (top ==> forall i :: 0 <= i < |text| ==> text[i] != ';')
  }

  predicate GoodItem(item: Item, top: bool)
    decreases item
  {
    match item
    case Chars(text) => text != "" && PlainText(text, top)
    case Quotation(quote, body) => quote in {'\'', '"'} && Escaped(body, quote)
    case Group(items) => Good(None, items, false)
    case Address(word, space, body) =>
      && |word| == 3 && EndsUrl(word) && AllSpace(space) && Escaped(body, ')')
      && (body != "" ==> !IsSpace(body[0]) && body[0] !in {'\'', '"'})
    case Link(word, space, quote, body, rest) =>
      && |word| == 3 && EndsUrl(word) && AllSpace(space)
      && quote in {'\'', '"'} && Escaped(body, quote) && Good(None, rest, false)
    case Note(body) => forall i :: 0 <= i < |body| - 1 ==> !(body[i] == '*' && body[i + 1] == '/')
  }

  /** Plain text is taken in one piece, and what it ends in does not change what comes next. */
  predicate Fits(prev: Option<Item>, item: Item) {
    prev.Some? && prev.value.Chars? && prev.value.text != "" ==>
      && !item.Chars?
      && (item.Group? ==> !EndsUrl(prev.value.text))
      && (item.Address? || item.Link? ==> !NameChar(prev.value.text[|prev.value.text| - 1]))
  }

  /** A declaration that may follow prev; top says whether it is outside all parentheses. */
  predicate Good(prev: Option<Item>, items: Items, top: bool)
    decreases items
  {
    match items
    case Nothing => true
    case Then(item, rest) => GoodItem(item, top) && Fits(prev, item) && Good(Some(item), rest, top)
  }

  // ---- reading ----

  /** The output of comment removal after reading the first k characters of s from state st. */
  function StripRun(out: string, st: State, s: string, k: nat): string
    requires k <= |s|
  {
    if k == 0 then out else StripChar(StripRun(out, st, s, k - 1), Run(true, st, s, k - 1), s[k - 1])
  }

  /** Reading x leads from st to end and writes y. */
  ghost predicate Takes(st: State, x: string, end: State, y: string) {
    Run(true, st, x, |x|) == end && forall out :: StripRun(out, st, x, |x|) == out + y
  }

  /** Position i of y, read from st, is outside comments and no separator. */
  ghost predicate SilentAt(st: State, y: string, i: nat)
    requires i <= |y|
  {
    var here := Run(true, st, y, i);
    !InComment(here) && (i < |y| && y[i] == ';' ==> !AtCut(here))
  }

  /** Reading y leads from st to end without a comment or a separator. */
  ghost predicate Silent(st: State, y: string, end: State) {
    && Run(true, st, y, |y|) == end
    && forall i {:trigger SilentAt(st, y, i)} :: 0 <= i <= |y| ==> SilentAt(st, y, i)
  }

  lemma {:induction false} RunConcat(st: State, a: string, b: string, k: nat)
    requires k <= |b|
    ensures Run(true, st, a + b, |a| + k) == Run(true, Run(true, st, a, |a|), b, k)
  {
    if k == 0 {
      RunAgree(true, st, a + b, a, |a|);
    } else {
      RunConcat(st, a, b, k - 1);
      assert (a + b)[|a| + k - 1] == b[k - 1];
    }
  }

  lemma {:induction false} StripRunAgree(out: string, st: State, s: string, t: string, i: nat)
    requires i <= |s| && i <= |t| && s[..i] == t[..i]
    ensures StripRun(out, st, s, i) == StripRun(out, st, t, i)
  {
    hide StripChar, Run;
    if i > 0 {
      assert s[i - 1] == s[..i][i - 1] == t[..i][i - 1] == t[i - 1];
      assert s[..i - 1] == s[..i][..i - 1] == t[..i][..i - 1] == t[..i - 1];
      StripRunAgree(out, st, s, t, i - 1);
      RunAgree(true, st, s, t, i - 1);
    }
  }

  lemma {:induction false} StripRunConcat(out: string, st: State, a: string, b: string, k: nat)
    requires k <= |b|
    ensures StripRun(out, st, a + b, |a| + k)
         == StripRun(StripRun(out, st, a, |a|), Run(true, st, a, |a|), b, k)
  {
    hide StripChar, Run;
    if k == 0 {
      assert (a + b)[..|a|] == a == a[..|a|];
      StripRunAgree(out, st, a + b, a, |a|);
    } else {
      StripRunConcat(out, st, a, b, k - 1);
      RunConcat(st, a, b, k - 1);
      var ab, n := a + b, |a| + k;
      assert ab[n - 1] == b[k - 1];
      assert StripRun(out, st, ab, n) == StripChar(StripRun(out, st, ab, n - 1), Run(true, st, ab, n - 1), ab[n - 1]);
    }
  }

  lemma TakesConcat(st: State, a: string, mid: State, x: string, b: string, end: State, y: string)
    requires Takes(st, a, mid, x) && Takes(mid, b, end, y)
    ensures Takes(st, a + b, end, x + y)
  {
    hide Run, StripRun;
    RunConcat(st, a, b, |b|);
    assert |a + b| == |a| + |b|;
    forall out ensures StripRun(out, st, a + b, |a + b|) == out + (x + y) {
      StripRunConcat(out, st, a, b, |b|);
      assert StripRun(out + x, mid, b, |b|) == (out + x) + y;
      assert (out + x) + y == out + (x + y);
    }
  }

  lemma SilentConcat(st: State, a: string, mid: State, b: string, end: State)
    requires Silent(st, a, mid) && Silent(mid, b, end)
    ensures Silent(st, a + b, end)
  {
    hide Run, AtCut, InComment;
    RunConcat(st, a, b, |b|);
    assert |a + b| == |a| + |b|;
    forall i | 0 <= i <= |a + b| ensures SilentAt(st, a + b, i) {
      if i < |a| {
        assert SilentAt(st, a, i);
        assert (a + b)[..i] == a[..i] && (a + b)[i] == a[i];
        RunAgree(true, st, a + b, a, i);
      } else {
        assert SilentAt(mid, b, i - |a|);
        assert i < |a + b| ==> (a + b)[i] == b[i - |a|];
        RunConcat(st, a, b, i - |a|);
      }
    }
  }

  /** Both at once, for a text that is written as it is. */
  ghost predicate Reads(st: State, x: string, end: State) {
    Takes(st, x, end, x) && Silent(st, x, end)
  }

  /** A character that neither enters nor is in a comment is written. */
  lemma {:induction false} OneChar(st: State, c: char)
    requires !InComment(st) && !InComment(Next(true, st, c)) && (c == ';' ==> !AtCut(st))
    ensures Reads(st, [c], Next(true, st, c))
  {
    var s := [c];
    assert Run(true, st, s, 0) == st && Run(true, st, s, 1) == Next(true, st, c);
    forall out ensures StripRun(out, st, s, 1) == out + s {
      assert StripRun(out, st, s, 0) == out;
    }
    forall i | 0 <= i <= 1 ensures SilentAt(st, s, i) {
    }
  }

  lemma {:induction false} NoChars(st: State)
    requires !InComment(st)
    ensures Reads(st, "", st)
  {
    forall i | 0 <= i <= 0 ensures SilentAt(st, "", i) {
    }
    forall out ensures StripRun(out, st, "", 0) == out + "" {
    }
  }

  lemma ReadsConcat(st: State, a: string, mid: State, b: string, end: State)
    requires Reads(st, a, mid) && Reads(mid, b, end)
    ensures Reads(st, a + b, end)
  {
    TakesConcat(st, a, mid, a, b, end, b);
    SilentConcat(st, a, mid, b, end);
  }

  // ---- the items ----

  lemma {:induction false} EscapedReads(st: State, body: string, q: QuoteChar)
    requires st == Plain(Quoted(q), st.depth) && Escaped(body, q)
    ensures Reads(st, body, st)
    decreases |body|
  {
    if body == "" {
      NoChars(st);
    } else if body[0] == '\\' {
      var escape := Plain(QuotedEscape(q), st.depth);
      OneChar(st, body[0]);
      OneChar(escape, body[1]);
      ReadsConcat(st, [body[0]], escape, [body[1]], st);
      EscapedReads(st, body[2..], q);
      ReadsConcat(st, [body[0]] + [body[1]], st, body[2..], st);
      assert [body[0]] + [body[1]] + body[2..] == body;
    } else {
      OneChar(st, body[0]);
      EscapedReads(st, body[1..], q);
      ReadsConcat(st, [body[0]], st, body[1..], st);
      assert [body[0]] + body[1..] == body;
    }
  }

  lemma {:induction false} UrlReads(st: State, body: string)
    requires st == Plain(Url, st.depth) && Escaped(body, ')')
    ensures Reads(st, body, st)
    decreases |body|
  {
    if body == "" {
      NoChars(st);
    } else if body[0] == '\\' {
      var escape := Plain(UrlEscape, st.depth);
      OneChar(st, body[0]);
      OneChar(escape, body[1]);
      ReadsConcat(st, [body[0]], escape, [body[1]], st);
      UrlReads(st, body[2..]);
      ReadsConcat(st, [body[0]] + [body[1]], st, body[2..], st);
      assert [body[0]] + [body[1]] + body[2..] == body;
    } else {
      OneChar(st, body[0]);
      UrlReads(st, body[1..]);
      ReadsConcat(st, [body[0]], st, body[1..], st);
      assert [body[0]] + body[1..] == body;
    }
  }

  /** Outside strings, urls and comments, at this depth, and no comment about to open. */
  predicate Plainly(st: State, depth: nat) {
    st.mode.Top? && st.depth == depth && !st.slash
  }

  /** What the text before a state has left in it. */
  predicate Follows(prev: Option<Item>, st: State) {
    && st.mode.Top? && !st.slash
    && (if prev.Some? && prev.value.Chars? && prev.value.text != "" then
          && (st.word == 3 ==> EndsUrl(prev.value.text))
          && (st.ident ==> NameChar(prev.value.text[|prev.value.text| - 1]))
        else st.word == 0 && !st.ident)
  }

  lemma {:induction false} QuotationReads(st: State, quote: char, body: string)
    requires st.mode.Top? && quote in {'\'', '"'} && Escaped(body, quote)
    ensures Reads(st, [quote] + (body + [quote]), Plain(Top, st.depth))
  {
    var inside, end := Plain(Quoted(quote), st.depth), Plain(Top, st.depth);
    OneChar(st, quote);
    EscapedReads(inside, body, quote);
    OneChar(inside, quote);
    ReadsConcat(inside, body, inside, [quote], end);
    ReadsConcat(st, [quote], inside, body + [quote], end);
  }

  lemma {:induction false} SpaceReads(st: State, space: string)
    requires st == Plain(UrlOpen, st.depth) && AllSpace(space)
    ensures Reads(st, space, st)
    decreases |space|
  {
    if space == "" {
      NoChars(st);
    } else {
      OneChar(st, space[0]);
      SpaceReads(st, space[1..]);
      ReadsConcat(st, [space[0]], st, space[1..], st);
      assert [space[0]] + space[1..] == space;
    }
  }

  lemma {:induction false} UrlWordReads(st: State, word: string)
    requires Plainly(st, st.depth) && !st.ident && |word| == 3 && EndsUrl(word)
    ensures Reads(st, word + "(", Plain(UrlOpen, st.depth))
  {
    hide Reads;
    var u := Next(true, st, word[0]);
    var r := Next(true, u, word[1]);
    var l := Next(true, r, word[2]);
    OneChar(st, word[0]);
    OneChar(u, word[1]);
    OneChar(r, word[2]);
    OneChar(l, '(');
    ReadsConcat(st, [word[0]], u, [word[1]], r);
    ReadsConcat(st, [word[0]] + [word[1]], r, [word[2]], l);
    ReadsConcat(st, [word[0]] + [word[1]] + [word[2]], l, ['('], Plain(UrlOpen, st.depth));
    assert [word[0]] + [word[1]] + [word[2]] == word;
  }

  /** From just behind the opening parenthesis and white space to the closing parenthesis. */
  lemma {:induction false} UrlBodyReads(st: State, body: string)
    requires st == Plain(UrlOpen, st.depth) && Escaped(body, ')')
    requires body != "" ==> !IsSpace(body[0]) && body[0] !in {'\'', '"'}
    ensures Reads(st, body + ")", Plain(Top, st.depth))
  {
    var url, end := Plain(Url, st.depth), Plain(Top, st.depth);
    if body == "" {
      OneChar(st, ')');
      assert body + ")" == [')'];
    } else {
      OneChar(st, body[0]);
      var first := Next(true, st, body[0]);
      OneChar(url, ')');
      if body[0] == '\\' {
        OneChar(first, body[1]);
        UrlReads(url, body[2..]);
        ReadsConcat(st, [body[0]], first, [body[1]], url);
        ReadsConcat(st, [body[0]] + [body[1]], url, body[2..], url);
        assert [body[0]] + [body[1]] + body[2..] == body;
      } else {
        UrlReads(url, body[1..]);
        ReadsConcat(st, [body[0]], url, body[1..], url);
        assert [body[0]] + body[1..] == body;
      }
      ReadsConcat(st, body, url, [')'], end);
    }
  }

  lemma {:induction false} AddressReads(st: State, word: string, space: string, body: string)
    requires Plainly(st, st.depth) && !st.ident && |word| == 3 && EndsUrl(word) && AllSpace(space) && Escaped(body, ')')
    requires body != "" ==> !IsSpace(body[0]) && body[0] !in {'\'', '"'}
    ensures Reads(st, word + ("(" + (space + (body + ")"))), Plain(Top, st.depth))
  {
    var open, end := Plain(UrlOpen, st.depth), Plain(Top, st.depth);
    UrlWordReads(st, word);
    SpaceReads(open, space);
    UrlBodyReads(open, body);
    ReadsConcat(open, space, open, body + ")", end);
    ReadsConcat(st, word + "(", open, space + (body + ")"), end);
    assert word + "(" + (space + (body + ")")) == word + ("(" + (space + (body + ")")));
  }

  /** The last n letters of the text are the first n of "url". */
  predicate EndsLetters(text: string, n: nat) {
    && n <= |text| && n <= 3
    && (n == 1 ==> UrlLetter(0, text[|text| - 1]))
    && (n == 2 ==> UrlLetter(0, text[|text| - 2]) && UrlLetter(1, text[|text| - 1]))
    && (n == 3 ==> UrlLetter(0, text[|text| - 3]) && UrlLetter(1, text[|text| - 2]) && UrlLetter(2, text[|text| - 1]))
  }

  lemma {:induction false} CharsRead(st: State, text: string, k: nat, top: bool)
    requires Plainly(st, st.depth) && st.word == 0 && !st.ident && k <= |text| && PlainText(text, top)
    requires st.depth == 0 ==> top
    ensures var end := Run(true, st, text[..k], k);
      && end.mode.Top? && end.depth == st.depth && Reads(st, text[..k], end) && EndsLetters(text[..k], end.word)
      && (end.ident <==> k > 0 && NameChar(text[k - 1])) && (end.slash <==> k > 0 && text[k - 1] == '/')
  {
    if k == 0 {
      NoChars(st);
      assert text[..0] == "";
    } else {
      CharsRead(st, text, k - 1, top);
      var before := Run(true, st, text[..k - 1], k - 1);
      OneChar(before, text[k - 1]);
      ReadsConcat(st, text[..k - 1], before, [text[k - 1]], Next(true, before, text[k - 1]));
      assert text[..k] == text[..k - 1] + [text[k - 1]];
      LettersGrow(before, text[..k - 1], text[k - 1]);
    }
  }

  lemma {:induction false} LettersGrow(st: State, text: string, c: char)
    requires EndsLetters(text, st.word)
    ensures EndsLetters(text + [c], NextWord(st, c))
  {
    assert (text + [c])[..|text|] == text;
  }

  lemma LettersAreUrl(text: string)
    requires EndsLetters(text, 3)
    ensures EndsUrl(text)
  {
  }

  /** Inside a comment nothing is written. */
  lemma {:induction false} NoteRead(st: State, body: string, k: nat)
    requires st == Plain(Comment, st.depth) && k <= |body|
    requires forall i :: 0 <= i < |body| - 1 ==> !(body[i] == '*' && body[i + 1] == '/')
    ensures var end := Run(true, st, body, k);
      && (end == st || end == Plain(CommentStar, st.depth))
      && (end == Plain(CommentStar, st.depth) <==> k > 0 && body[k - 1] == '*')
      && forall out :: StripRun(out, st, body, k) == out
  {
    if k > 0 {
      NoteRead(st, body, k - 1);
    }
  }

  lemma {:induction false} NoteTakes(st: State, body: string)
    requires Plainly(st, st.depth) && GoodItem(Note(body), true)
    ensures Takes(st, "/*" + (body + "*/"), Plain(Top, st.depth), " ")
  {
    var open, end := Plain(Comment, st.depth), Plain(Top, st.depth);
    NoteOpens(st);
    NoteRead(open, body, |body|);
    var inside := Run(true, open, body, |body|);
    assert Takes(open, body, inside, "");
    NoteCloses(inside);
    TakesConcat(open, body, inside, "", "*/", end, "");
    TakesConcat(st, "/*", open, " ", body + "*/", end, "");
  }

  lemma {:induction false} NoteOpens(st: State)
    requires Plainly(st, st.depth)
    ensures Takes(st, "/*", Plain(Comment, st.depth), " ")
  {
    var s, slash := "/*", Next(true, st, '/');
    assert Run(true, st, s, 0) == st && Run(true, st, s, 1) == slash;
    forall out ensures StripRun(out, st, s, 2) == out + " " {
      assert StripRun(out, st, s, 0) == out && StripRun(out, st, s, 1) == out + ['/'];
      assert (out + ['/'])[..|out|] == out;
    }
  }

  lemma {:induction false} NoteCloses(st: State)
    requires st == Plain(Comment, st.depth) || st == Plain(CommentStar, st.depth)
    ensures Takes(st, "*/", Plain(Top, st.depth), "")
  {
    var s, star := "*/", Plain(CommentStar, st.depth);
    assert Run(true, st, s, 0) == st && Run(true, st, s, 1) == star;
    forall out ensures StripRun(out, st, s, 2) == out + "" {
      assert StripRun(out, st, s, 0) == out && StripRun(out, st, s, 1) == out;
    }
  }

  // ---- declarations ----

  /** From st through x, writing y; y reads silently to the same state. */
  ghost predicate Through(st: State, x: string, y: string, end: State) {
    Takes(st, x, end, y) && Silent(st, y, end)
  }

  lemma ThroughConcat(st: State, a: string, x: string, mid: State, b: string, y: string, end: State)
    requires Through(st, a, x, mid) && Through(mid, b, y, end)
    ensures Through(st, a + b, x + y, end)
  {
    TakesConcat(st, a, mid, x, b, end, y);
    SilentConcat(st, x, mid, y, end);
  }

  lemma {:induction false} ItemThrough(prev: Option<Item>, st: State, item: Item, top: bool) returns (end: State)
    requires Follows(prev, st) && GoodItem(item, top) && Fits(prev, item) && (st.depth == 0 ==> top)
    ensures Through(st, WrittenItem(item), UncommentedItem(item), end)
    ensures Follows(Some(item), end) && end.depth == st.depth
    decreases item, 0
  {
    end := Plain(Top, st.depth);
    match item {
      case Chars(text) =>
        CharsRead(st, text, |text|, top);
        assert text[..|text|] == text;
        end := Run(true, st, text, |text|);
        if end.word == 3 {
          LettersAreUrl(text);
        }
      case Quotation(quote, body) => QuotationReads(st, quote, body);
      case Group(items) => GroupThrough(st, items);
      case Address(word, space, body) => AddressReads(st, word, space, body);
      case Link(word, space, quote, body, rest) => LinkThrough(st, word, space, quote, body, rest);
      case Note(body) =>
        NoteTakes(st, body);
        OneChar(st, ' ');
        assert [' '] == " ";
    }
  }

  /** A quoted url is a string in parentheses. */
  lemma {:induction false} LinkThrough(st: State, word: string, space: string, quote: char, body: string,
                                       rest: Items)
    requires Plainly(st, st.depth) && !st.ident && |word| == 3 && EndsUrl(word)
    requires AllSpace(space) && quote in {'\'', '"'} && Escaped(body, quote)
    requires Good(None, rest, false)
    ensures var x, y := Written(rest) + ")", Uncommented(rest) + ")"; var q := [quote] + (body + [quote]);
      Through(st, word + ("(" + (space + (q + x))), word + ("(" + (space + (q + y))), Plain(Top, st.depth))
    decreases rest, 1
  {
    var open, inside, end := Plain(UrlOpen, st.depth), Plain(Top, st.depth + 1), Plain(Top, st.depth);
    UrlWordReads(st, word);
    SpaceReads(open, space);
    QuotedUrlReads(open, quote, body);
    var last := ItemsThrough(None, inside, rest, false);
    OneChar(last, ')');
    hide Reads, Takes, Silent;
    var q, x, y := [quote] + (body + [quote]), Written(rest) + [')'], Uncommented(rest) + [')'];
    ReadsThrough(st, word + "(", open);
    ReadsThrough(open, space, open);
    ReadsThrough(open, q, inside);
    ReadsThrough(last, [')'], end);
    ThroughConcat(inside, Written(rest), Uncommented(rest), last, [')'], [')'], end);
    ThroughConcat(open, q, q, inside, x, y, end);
    ThroughConcat(open, space, space, open, q + x, q + y, end);
    ThroughConcat(st, word + "(", word + "(", open, space + (q + x), space + (q + y), end);
    Regroup(word, "(", space + (q + x));
    Regroup(word, "(", space + (q + y));
  }

  lemma Regroup(a: string, b: string, c: string)
    ensures a + b + c == a + (b + c)
  {
  }

  lemma ReadsThrough(st: State, x: string, end: State)
    requires Reads(st, x, end)
    ensures Through(st, x, x, end)
  {
  }

  lemma {:induction false} QuotedUrlReads(st: State, quote: char, body: string)
    requires st == Plain(UrlOpen, st.depth) && quote in {'\'', '"'} && Escaped(body, quote)
    ensures Reads(st, [quote] + (body + [quote]), Plain(Top, st.depth + 1))
  {
    hide Reads, Escaped;
    var inside, end := Plain(Quoted(quote), st.depth + 1), Plain(Top, st.depth + 1);
    OneChar(st, quote);
    EscapedReads(inside, body, quote);
    OneChar(inside, quote);
    ReadsConcat(inside, body, inside, [quote], end);
    ReadsConcat(st, [quote], inside, body + [quote], end);
  }

  lemma {:induction false} GroupThrough(st: State, items: Items)
    requires Plainly(st, st.depth) && st.word != 3 && Good(None, items, false)
    ensures Through(st, "(" + (Written(items) + ")"), "(" + (Uncommented(items) + ")"), Plain(Top, st.depth))
    decreases items, 1
  {
    var open, end := Plain(Top, st.depth + 1), Plain(Top, st.depth);
    OneChar(st, '(');
    var last := ItemsThrough(None, open, items, false);
    OneChar(last, ')');
    ThroughConcat(open, Written(items), Uncommented(items), last, [')'], [')'], end);
    ThroughConcat(st, ['('], ['('], open, Written(items) + [')'], Uncommented(items) + [')'], end);
  }

  lemma {:induction false} ItemsThrough(prev: Option<Item>, st: State, items: Items, top: bool) returns (end: State)
    requires Follows(prev, st) && Good(prev, items, top) && (st.depth == 0 ==> top)
    ensures Through(st, Written(items), Uncommented(items), end) && Plainly(end, st.depth)
    decreases items, 0
  {
    if items == Nothing {
      NoChars(st);
      end := st;
    } else {
      var mid := ItemThrough(prev, st, items.item, top);
      end := ItemsThrough(Some(items.item), mid, items.rest, top);
      ThroughConcat(st, WrittenItem(items.item), UncommentedItem(items.item), mid,
                    Written(items.rest), Uncommented(items.rest), end);
    }
  }

  // ---- whole texts ----

  function AllWritten(ds: seq<Items>): (r: seq<string>)
    ensures |r| == |ds| && forall i :: 0 <= i < |ds| ==> r[i] == Written(ds[i])
  {
    seq(|ds|, i requires 0 <= i < |ds| => Written(ds[i]))
  }

  function AllUncommented(ds: seq<Items>): (r: seq<string>)
    ensures |r| == |ds| && forall i :: 0 <= i < |ds| ==> r[i] == Uncommented(ds[i])
  {
    seq(|ds|, i requires 0 <= i < |ds| => Uncommented(ds[i]))
  }

  ghost predicate GoodAll(ds: seq<Items>) {
    forall i :: 0 <= i < |ds| ==> Good(None, ds[i], true)
  }

  lemma JoinMore(ps: seq<string>)
    requires |ps| > 1
    ensures Join(ps) == Join(ps[..|ps| - 1]) + (";" + ps[|ps| - 1])
  {
  }

  lemma {:induction false} JoinTakes(ds: seq<Items>) returns (end: State)
    requires ds != [] && GoodAll(ds)
    ensures Takes(START, Join(AllWritten(ds)), end, Join(AllUncommented(ds))) && Plainly(end, 0)
    decreases |ds|
  {
    hide Takes, Join, Good, Written, Uncommented;
    var n := |ds| - 1;
    var xs, ys := AllWritten(ds), AllUncommented(ds);
    end := ItemsThrough(None, START, ds[n], true);
    if n == 0 {
      JoinOne(xs);
      JoinOne(ys);
    } else {
      assert GoodAll(ds[..n]);
      var before := JoinTakes(ds[..n]);
      assert xs[..n] == AllWritten(ds[..n]) && ys[..n] == AllUncommented(ds[..n]);
      Separator(before);
      TakesConcat(START, ";", START, ";", "", START, "") by { Separator(START); NoChars(START); }
      TakesConcat(before, ";", START, ";", xs[n], end, ys[n]);
      TakesConcat(START, Join(xs[..n]), before, Join(ys[..n]), ";" + xs[n], end, ";" + ys[n]);
      JoinMore(xs);
      JoinMore(ys);
    }
  }

  lemma JoinOne(ps: seq<string>)
    requires |ps| == 1
    ensures Join(ps) == ps[0]
  {
  }

  lemma {:induction false} Separator(st: State)
    requires Plainly(st, 0)
    ensures Takes(st, ";", START, ";")
  {
    var s := ";";
    assert Run(true, st, s, 0) == st && Run(true, st, s, 1) == START;
    forall out ensures StripRun(out, st, s, 1) == out + s {
      assert StripRun(out, st, s, 0) == out;
    }
  }

  lemma {:induction false} StripRunIsStripped(css: string, i: nat)
    requires i <= |css|
    ensures StripRun("", START, css, i) == Stripped(css, i)
  {
    if i > 0 {
      StripRunIsStripped(css, i - 1);
    }
  }

  /** Comments, and they alone, are replaced by spaces. */
  lemma {:induction false} CommentsStripped(ds: seq<Items>)
    requires ds != [] && GoodAll(ds)
    ensures Strip(Join(AllWritten(ds))) == Join(AllUncommented(ds))
  {
    var end := JoinTakes(ds);
    hide Takes, Join, Strip, AllWritten, AllUncommented;
    TakesStrips(Join(AllWritten(ds)), end, Join(AllUncommented(ds)));
  }

  lemma {:induction false} TakesStrips(css: string, end: State, y: string)
    requires Takes(START, css, end, y)
    ensures Strip(css) == y
  {
    hide Run;
    StripRunIsStripped(css, |css|);
    assert StripRun("", START, css, |css|) == "" + y;
  }

  lemma {:induction false} UncommentedApart(items: Items)
    requires Good(None, items, true)
    ensures Quiet(Uncommented(items)) && Closed(Uncommented(items))
  {
    var end := ItemsThrough(None, START, items, true);
    var y := Uncommented(items);
    forall i | 0 <= i <= |y| ensures QuietAt(y, i) {
      assert SilentAt(START, y, i);
    }
  }

  /**
   The text of declarations is split into exactly these declarations, with their comments replaced by
   spaces: semicolons in strings, parentheses, urls and comments, and escaped closing characters, do not count.
   */
  lemma {:induction false} DeclarationsSplit(ds: seq<Items>)
    requires ds != [] && GoodAll(ds)
    ensures Split(Strip(Join(AllWritten(ds)))) == AllUncommented(ds)
  {
    var ys := AllUncommented(ds);
    var done, last := ys[..|ys| - 1], ys[|ys| - 1];
    CommentsStripped(ds);
    forall i | 0 <= i < |ds| ensures Quiet(ys[i]) && Closed(ys[i]) {
      UncommentedApart(ds[i]);
    }
    JoinThenSplit(done, last);
    assert done + [last] == ys;
  }

  /**
   Marking the text of declarations writes out those that are not blank, in order, each without its comments
   and the white space around it, and with the marker unless it has one.
   */
  lemma {:induction false} DeclarationsMarked(ds: seq<Items>) returns (from: seq<nat>, out: seq<string>)
    requires ds != [] && GoodAll(ds)
    ensures Importantified(Join(AllWritten(ds))) == Join(out) && |out| == |from|
    ensures forall j, k :: 0 <= j < k < |from| ==> from[j] < from[k]
    ensures forall k :: 0 <= k < |from| ==> from[k] < |ds| && WrittenOut(Uncommented(ds[from[k]]), out[k])
    ensures forall i: nat :: i < |ds| ==> (i in from <==> !AllSpace(Uncommented(ds[i])))
  {
    DeclarationsSplit(ds);
    from, out := ImportantifyExactly(Join(AllWritten(ds)));
  }
}
