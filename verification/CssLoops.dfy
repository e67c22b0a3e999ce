/**
 The hand-written scanners of style declarations: loops that look ahead for urls and comments and
 jump over them. Each is proved to compute what the character-by-character scanner defines.
 */
module CssLoops {
  import opened Basics
  import opened Text
  import opened CssScan
  import opened CssFacts

  // ---- lookahead ----

  /** "url(" in either case, not continuing an identifier. */
  predicate UrlWordAt(css: string, i: nat) {
    && i + 4 <= |css|
    && UrlLetter(0, css[i]) && UrlLetter(1, css[i + 1]) && UrlLetter(2, css[i + 2]) && css[i + 3] == '('
    && (i == 0 || !IsIdentChar(css[i - 1]))
  }

  function SpaceEnd(css: string, j: nat): (r: nat)
    requires j <= |css|
    ensures j <= r <= |css|
    ensures r < |css| ==> !IsSpace(css[r])
    decreases |css| - j
  {
    if j < |css| && IsSpace(css[j]) then SpaceEnd(css, j + 1) else j
  }

  predicate QuoteAhead(css: string, j: nat)
    requires j <= |css|
  {
    SpaceEnd(css, j) < |css| && IsQuote(css[SpaceEnd(css, j)])
  }

  /** Just past the parenthesis closing an unquoted url, or the end of the text. */
  function UrlClose(css: string, j: nat): (r: nat)
    requires j <= |css|
    ensures j <= r <= |css|
    decreases |css| - j
  {
    if j == |css| then j
    else if css[j] == ')' then j + 1
    else if css[j] == '\\' then
      if j + 1 < |css| then UrlClose(css, j + 2) else |css|
    else UrlClose(css, j + 1)
  }

  /** The end of the unquoted url that starts at position i, or -1. */
  function UrlEnd(css: string, i: nat): (end: int)
    ensures end == -1 || i + 4 <= end <= |css|
  {
    if !UrlWordAt(css, i) || QuoteAhead(css, i + 4) then -1 else UrlClose(css, SpaceEnd(css, i + 4))
  }

  method ScanUnquotedUrl(css: string, i: nat) returns (end: int)
    requires i < |css|
    ensures end == UrlEnd(css, i)
  {
    if !UrlWordAt(css, i) {
      return -1;
    }
    var j: nat := i + 4;
    while j < |css| && IsSpace(css[j])
      invariant j <= |css|
      invariant SpaceEnd(css, j) == SpaceEnd(css, i + 4)
    {
      j := j + 1;
    }
    if j < |css| && IsQuote(css[j]) {
      return -1;
    }
    ghost var first := j;
    while j < |css| && css[j] != ')'
      invariant j <= |css| + 1
      invariant UrlClose(css, first) == if j <= |css| then UrlClose(css, j) else |css|
      decreases |css| + 1 - j
    {
      if css[j] == '\\' {
        j := j + 1;
      }
      j := j + 1;
    }
    return if j < |css| then j + 1 else |css|;
  }

  // ---- what the state remembers about the text ----

  lemma {:induction false} IdentAt(comments: bool, css: string, i: nat)
    requires i <= |css|
    ensures var st := StateAt(comments, css, i);
      st.mode.Top? ==> (st.ident <==> i > 0 && IsIdentChar(css[i - 1]))
  {
    if i > 0 {
      IdentAt(comments, css, i - 1);
      NonTopPlain(comments, css, i - 1);
    }
  }

  /** The w characters before position i start an identifier and spell the beginning of "url". */
  predicate WordBefore(css: string, i: nat, w: nat) {
    && w <= 3 && w <= i <= |css|
    && (w > 0 ==> UrlLetter(0, css[i - w]) && (i == w || !IsIdentChar(css[i - w - 1])))
    && (w > 1 ==> UrlLetter(1, css[i - w + 1]))
    && (w > 2 ==> UrlLetter(2, css[i - w + 2]))
  }

  lemma WordStep(comments: bool, css: string, i: nat, st: State)
    requires i < |css| && WordBefore(css, i, st.word)
    requires st.mode.Top? ==> (st.ident <==> i > 0 && IsIdentChar(css[i - 1]))
    requires !st.mode.Top? ==> st == Plain(st.mode, st.depth)
    ensures var next := Next(comments, st, css[i]);
      WordBefore(css, i + 1, next.word) && (next.word > 0 ==> next.mode.Top?)
  {
  }

  /** A partial "url" in the state is a partial "url" in the text. */
  lemma {:induction false} WordAt(comments: bool, css: string, i: nat)
    requires i <= |css|
    ensures var st := StateAt(comments, css, i);
      WordBefore(css, i, st.word) && (st.word > 0 ==> st.mode.Top?)
  {
    if i > 0 {
      WordAt(comments, css, i - 1);
      NonTopPlain(comments, css, i - 1);
      IdentAt(comments, css, i - 1);
      WordStep(comments, css, i - 1, StateAt(comments, css, i - 1));
    }
  }

  predicate UrlMode(st: State) {
    st.mode.UrlOpen? || st.mode.Url? || st.mode.UrlEscape?
  }

  /** Reading "url(" from the top leads to the state that waits for a quote. */
  lemma {:induction false} UrlWordRun(comments: bool, css: string, i: nat)
    requires i <= |css| && UrlWordAt(css, i)
    requires StateAt(comments, css, i).mode.Top?
    ensures var d := StateAt(comments, css, i).depth;
      && StateAt(comments, css, i + 1) == State(Top, d, 1, true, false)
      && StateAt(comments, css, i + 2) == State(Top, d, 2, true, false)
      && StateAt(comments, css, i + 3) == State(Top, d, 3, true, false)
      && StateAt(comments, css, i + 4) == Plain(UrlOpen, d)
  {
    IdentAt(comments, css, i);
    var d := StateAt(comments, css, i).depth;
    assert StateAt(comments, css, i + 1) == State(Top, d, 1, true, false);
    assert StateAt(comments, css, i + 2) == State(Top, d, 2, true, false);
    assert StateAt(comments, css, i + 3) == State(Top, d, 3, true, false);
  }

  lemma {:induction false} SpaceRun(comments: bool, css: string, j: nat)
    requires j <= |css| && StateAt(comments, css, j).mode.UrlOpen?
    ensures forall k :: j <= k <= SpaceEnd(css, j) ==> StateAt(comments, css, k) == StateAt(comments, css, j)
    decreases |css| - j
  {
    if j < |css| && IsSpace(css[j]) {
      assert StateAt(comments, css, j + 1) == StateAt(comments, css, j);
      SpaceRun(comments, css, j + 1);
    }
  }

  /** How the scanner stands where an unquoted url ends. */
  ghost predicate UrlDone(css: string, end: nat, st: State, d: nat) {
    st == Plain(Top, d) || (end == |css| && UrlMode(st))
  }

  lemma {:induction false} UrlCloseRun(comments: bool, css: string, j: nat, d: nat)
    requires j <= |css|
    requires var st := StateAt(comments, css, j);
      st == Plain(Url, d) || (st == Plain(UrlOpen, d) && (j < |css| ==> !IsSpace(css[j]) && !IsQuote(css[j])))
    ensures forall k :: j <= k < UrlClose(css, j) ==> UrlMode(StateAt(comments, css, k))
    ensures UrlDone(css, UrlClose(css, j), StateAt(comments, css, UrlClose(css, j)), d)
    decreases |css| - j
  {
    if j < |css| && css[j] != ')' {
      if css[j] != '\\' {
        assert StateAt(comments, css, j + 1) == Plain(Url, d);
        UrlCloseRun(comments, css, j + 1, d);
      } else {
        assert StateAt(comments, css, j + 1) == Plain(UrlEscape, d);
        if j + 1 < |css| {
          assert StateAt(comments, css, j + 2) == Plain(Url, d);
          UrlCloseRun(comments, css, j + 2, d);
        }
      }
    }
  }

  /** An unquoted url is read as one region without separators or comments. */
  lemma UrlRun(comments: bool, css: string, i: nat)
    requires i < |css| && UrlEnd(css, i) != -1
    requires StateAt(comments, css, i).mode.Top?
    ensures UrlDone(css, UrlEnd(css, i), StateAt(comments, css, UrlEnd(css, i)), StateAt(comments, css, i).depth)
    ensures forall k :: i + 4 <= k < UrlEnd(css, i) ==> UrlMode(StateAt(comments, css, k))
  {
    var d := StateAt(comments, css, i).depth;
    UrlWordRun(comments, css, i);
    SpaceRun(comments, css, i + 4);
    UrlCloseRun(comments, css, SpaceEnd(css, i + 4), d);
  }

  // ---- regions that are copied whole ----

  lemma {:induction false} UncutRegion(css: string, a: nat, b: nat)
    requires a <= b <= |css|
    requires forall k :: a <= k < b ==> !CutAt(css, k)
    ensures var ps := PiecesAt(css, a); PiecesAt(css, b) == ps.(last := ps.last + css[a..b])
  {
    if a < b {
      UncutRegion(css, a, b - 1);
      assert css[a..b] == css[a..b - 1] + [css[b - 1]];
      assert !CutAt(css, b - 1);
    } else {
      assert css[a..b] == "";
    }
  }

  /** A character between two positions outside comments is kept. */
  lemma CharKept(css: string, i: nat)
    requires Outside(css, i) && Outside(css, i + 1)
    ensures Stripped(css, i + 1) == Stripped(css, i) + [css[i]]
  {
  }

  /** Everything between positions a and b is kept. */
  ghost predicate Kept(css: string, a: nat, b: nat) {
    a <= b <= |css| && Stripped(css, b) == Stripped(css, a) + css[a..b]
  }

  lemma {:induction false} KeptOneMore(css: string, a: nat, b: nat)
    requires Kept(css, a, b) && Outside(css, b) && Outside(css, b + 1)
    ensures Kept(css, a, b + 1)
  {
    CharKept(css, b);
    assert css[a..b + 1] == css[a..b] + [css[b]];
  }

  lemma {:induction false} KeptNothing(css: string, a: nat)
    requires a <= |css|
    ensures Kept(css, a, a)
  {
    assert css[a..a] == "";
  }

  lemma {:induction false} KeptRegion(css: string, a: nat, b: nat)
    requires a <= b <= |css|
    requires forall k {:trigger Outside(css, k)} :: a <= k <= b ==> Outside(css, k)
    ensures Kept(css, a, b)
  {
    hide Outside, Kept;
    if a < b {
      assert Outside(css, b - 1) && Outside(css, b);
      KeptRegion(css, a, b - 1);
      KeptOneMore(css, a, b - 1);
    } else {
      KeptNothing(css, a);
    }
  }

  // ---- how a loop's variables stand to the scanner's state ----

  /** Outside strings, with no url or comment begun but not taken. */
  ghost predicate TopTracks(comments: bool, css: string, i: nat, depth: nat)
    requires i < |css|
  {
    var st := StateAt(comments, css, i);
    && st.mode.Top? && st.depth == depth
    && (st.word > 0 ==> st.word <= i && UrlEnd(css, i - st.word) == -1)
    && (comments && st.slash ==> css[i] != '*')
  }

  /** After "url(" and before the quote that makes it an ordinary function call. */
  ghost predicate OpenTracks(comments: bool, css: string, i: nat, depth: nat)
    requires i < |css|
  {
    depth > 0 && StateAt(comments, css, i) == Plain(UrlOpen, depth - 1) && QuoteAhead(css, i)
  }

  ghost predicate Tracks(comments: bool, css: string, i: nat, quote: string, depth: nat) {
    i < |css| ==>
      if quote == "" then TopTracks(comments, css, i, depth) || OpenTracks(comments, css, i, depth)
      else |quote| == 1 && IsQuote(quote[0]) && StateAt(comments, css, i) == Plain(Quoted(quote[0]), depth)
  }

  lemma {:induction false} TracksStart(comments: bool, css: string)
    ensures Tracks(comments, css, 0, "", 0)
  {
    if css != "" {
      assert StateAt(comments, css, 0) == START;
    }
  }

  /** While a call's quote is awaited only white space and that quote can come. */
  lemma OpenNext(css: string, i: nat)
    requires i < |css| && QuoteAhead(css, i)
    ensures IsSpace(css[i]) ==> i + 1 < |css| && QuoteAhead(css, i + 1)
    ensures !IsSpace(css[i]) ==> IsQuote(css[i])
  {
  }

  lemma StepQuote(comments: bool, css: string, i: nat, depth: nat)
    requires i < |css| && Tracks(comments, css, i, "", depth) && IsQuote(css[i])
    ensures Tracks(comments, css, i + 1, [css[i]], depth)
    ensures !CutAt(css, i)
  {
  }

  lemma StepOpen(comments: bool, css: string, i: nat, depth: nat)
    requires i < |css| && Tracks(comments, css, i, "", depth) && css[i] == '('
    ensures Tracks(comments, css, i + 1, "", depth + 1)
    ensures !CutAt(css, i)
  {
    if OpenTracks(comments, css, i, depth) {
      OpenNext(css, i);
    } else {
      WordAt(comments, css, i);
      if StateAt(comments, css, i).word == 3 {
        assert UrlWordAt(css, i - 3);
      }
    }
  }

  lemma {:induction false} StepClose(comments: bool, css: string, i: nat, depth: nat)
    requires i < |css| && Tracks(comments, css, i, "", depth) && css[i] == ')'
    ensures Tracks(comments, css, i + 1, "", if depth == 0 then 0 else depth - 1)
    ensures !CutAt(css, i)
  {
    if OpenTracks(comments, css, i, depth) {
      OpenNext(css, i);
    }
  }

  /** A character that is neither quote nor parenthesis, and starts no url and no comment. */
  lemma {:induction false} StepOther(comments: bool, css: string, i: nat, depth: nat)
    requires i < |css| && Tracks(comments, css, i, "", depth)
    requires !IsQuote(css[i]) && css[i] != '(' && css[i] != ')' && UrlEnd(css, i) == -1
    requires comments && css[i] == '/' && i + 1 < |css| ==> css[i + 1] != '*'
    ensures Tracks(comments, css, i + 1, "", depth)
  {
    if OpenTracks(comments, css, i, depth) {
      OpenNext(css, i);
    } else {
      WordAt(comments, css, i);
    }
  }

  /** Where a semicolon separates, as the loop sees it. */
  lemma {:induction false} StepCut(css: string, i: nat, depth: nat)
    requires i < |css| && Tracks(false, css, i, "", depth)
    ensures CutAt(css, i) <==> css[i] == ';' && depth == 0
  {
    if OpenTracks(false, css, i, depth) {
      OpenNext(css, i);
    }
  }

  lemma StepUrl(comments: bool, css: string, i: nat, depth: nat)
    requires i < |css| && Tracks(comments, css, i, "", depth) && UrlEnd(css, i) != -1
    ensures TopTracks(comments, css, i, depth)
    ensures Tracks(comments, css, UrlEnd(css, i), "", depth)
  {
    if OpenTracks(comments, css, i, depth) {
      OpenNext(css, i);
    }
    UrlRun(comments, css, i);
  }

  lemma StepInQuote(comments: bool, css: string, i: nat, quote: string, depth: nat)
    requires i < |css| && Tracks(comments, css, i, quote, depth) && quote != ""
    ensures css[i] == '\\' ==> Tracks(comments, css, i + 2, quote, depth)
    ensures css[i] != '\\' && [css[i]] == quote ==> Tracks(comments, css, i + 1, "", depth)
    ensures css[i] != '\\' && [css[i]] != quote ==> Tracks(comments, css, i + 1, quote, depth)
    ensures !StateAt(comments, css, i).mode.Top?
    ensures css[i] == '\\' && i + 1 < |css| ==> !StateAt(comments, css, i + 1).mode.Top?
  {
    if css[i] == '\\' && i + 1 < |css| {
      assert StateAt(comments, css, i + 1) == Plain(QuotedEscape(quote[0]), depth);
    }
  }

  // ---- splitting into declarations ----

  /** The region from a to b, at most the end, holds no separator. */
  ghost predicate Uncut(css: string, a: nat, b: nat) {
    a <= |css| && forall k :: a <= k < b && k < |css| ==> !CutAt(css, k)
  }

  lemma SliceConcat(s: string, a: nat, b: nat, c: nat)
    requires a <= b <= c <= |s|
    ensures s[a..c] == s[a..b] + s[b..c]
  {
  }

  lemma GrowLast(css: string, start: nat, a: nat, b: nat)
    requires start <= a <= b && a <= |css|
    requires css[start..a] == PiecesAt(css, a).last && Uncut(css, a, b)
    ensures PiecesAt(css, Min(b, |css|)) == Pieces(PiecesAt(css, a).done, css[start..Min(b, |css|)])
  {
    var e := Min(b, |css|);
    UncutRegion(css, a, e);
    SliceConcat(css, start, a, e);
  }

  lemma UrlUncut(css: string, i: nat, depth: nat)
    requires i < |css| && TopTracks(false, css, i, depth) && UrlEnd(css, i) != -1
    ensures Uncut(css, i, UrlEnd(css, i))
  {
    UrlRun(false, css, i);
  }

  /** One step of the splitting loop that is not a cut: how far it reads and what it remembers. */
  method SplitStep(css: string, i: nat, quote: string, depth: nat) returns (next: nat, quote': string, depth': nat)
    requires i < |css| && Tracks(false, css, i, quote, depth)
    requires quote == "" ==> !(css[i] == ';' && depth == 0)
    ensures i < next && Uncut(css, i, next)
    ensures Tracks(false, css, next, quote', depth')
  {
    var c := css[i];
    next, quote', depth' := i + 1, quote, depth;
    if quote != "" {
      StepInQuote(false, css, i, quote, depth);
      if c == '\\' {
        next := i + 2;
      } else if [c] == quote {
        quote' := "";
      }
    } else if IsQuote(c) {
      StepQuote(false, css, i, depth);
      quote' := [c];
    } else if c == '(' {
      StepOpen(false, css, i, depth);
      depth' := depth + 1;
    } else if c == ')' {
      StepClose(false, css, i, depth);
      depth' := if depth == 0 then 0 else depth - 1;
    } else {
      StepCut(css, i, depth);
      var end := ScanUnquotedUrl(css, i);
      if end != -1 {
        StepUrl(false, css, i, depth);
        UrlUncut(css, i, depth);
        next := end;
      } else {
        StepOther(false, css, i, depth);
      }
    }
  }

  /** The splitting loop: positions start and i delimit the declaration being read. */
  method SplitDeclarations(css: string) returns (decls: seq<string>)
    ensures decls == Split(css)
  {
    decls := [];
    var start: nat, depth: nat, quote, i: nat := 0, 0, "", 0;
    TracksStart(false, css);
    while i < |css|
      invariant start <= i && start <= |css|
      invariant Tracks(false, css, i, quote, depth)
      invariant PiecesAt(css, Min(i, |css|)) == Pieces(decls, css[start..Min(i, |css|)])
      decreases |css| - i
    {
      if quote == "" && css[i] == ';' && depth == 0 {
        StepCut(css, i, depth);
        StepOther(false, css, i, depth);
        decls := decls + [css[start..i]];
        start := i + 1;
        i := i + 1;
        assert css[start..i] == "";
      } else {
        var next, quote', depth' := SplitStep(css, i, quote, depth);
        GrowLast(css, start, i, next);
        i, quote, depth := next, quote', depth';
      }
    }
    assert css[start..|css|] == css[start..];
    decls := decls + [css[start..]];
  }

  /** Comments out, declarations apart, each trimmed and marked, blank ones dropped. */
  method Importantify(css: string) returns (r: string)
    ensures r == Importantified(css)
  {
    var plain := StripComments(css);
    var decls := SplitDeclarations(plain);
    return Join(Marked(decls));
  }

  // ---- removing comments ----

  /** Position of the first end of comment at or after j, or the end of the text. */
  function CommentEnd(css: string, j: nat): (r: nat)
    requires j <= |css|
    ensures j <= r <= |css|
    ensures r < |css| ==> r + 1 < |css| && css[r] == '*' && css[r + 1] == '/'
    decreases |css| - j
  {
    if j == |css| then j
    else if j + 1 < |css| && css[j] == '*' && css[j + 1] == '/' then j
    else CommentEnd(css, j + 1)
  }

  /** Where scanning goes on after a comment whose end was looked for and found at e. */
  function AfterComment(css: string, e: nat): (r: nat)
    requires e <= |css|
    ensures e <= r
  {
    if e < |css| then e + 2 else |css|
  }

  lemma ReadOne(css: string, i: nat, st: State)
    requires i < |css| && StateAt(true, css, i) == st
    ensures StateAt(true, css, i + 1) == Next(true, st, css[i])
    ensures Stripped(css, i + 1) == StripChar(Stripped(css, i), st, css[i])
  {
  }

  lemma CommentChar(out: string, st: State, c: char)
    requires InComment(st)
    ensures StripChar(out, st, c) == out
  {
  }

  /** Inside a comment, not about to leave it, with out written. */
  ghost predicate Commenting(css: string, j: nat, d: nat, out: string) {
    && j <= |css| && out == Stripped(css, j)
    && var st := StateAt(true, css, j);
       st == Plain(Comment, d) || (st == Plain(CommentStar, d) && (j < |css| ==> css[j] != '/'))
  }

  /** Past a comment, with out written. */
  ghost predicate Commented(css: string, j: nat, d: nat, out: string) {
    && j <= |css| && out == Stripped(css, j)
    && (j < |css| ==> StateAt(true, css, j) == Plain(Top, d))
  }

  lemma {:induction false} CommentGoesOn(css: string, j: nat, d: nat, out: string)
    requires Commenting(css, j, d, out) && j < |css| && CommentEnd(css, j) != j
    ensures Commenting(css, j + 1, d, out)
  {
    ReadOne(css, j, StateAt(true, css, j));
    CommentChar(out, StateAt(true, css, j), css[j]);
  }

  lemma {:induction false} CommentStops(css: string, j: nat, d: nat, out: string)
    requires Commenting(css, j, d, out) && j < |css| && CommentEnd(css, j) == j
    ensures Commented(css, j + 2, d, out)
  {
    ReadOne(css, j, StateAt(true, css, j));
    CommentChar(out, StateAt(true, css, j), css[j]);
    ReadOne(css, j + 1, Plain(CommentStar, d));
    CommentChar(out, Plain(CommentStar, d), css[j + 1]);
  }

  /** Inside a comment nothing is kept until its end. */
  lemma {:induction false} CommentRun(css: string, j: nat, e: nat, d: nat, out: string)
    requires Commenting(css, j, d, out) && CommentEnd(css, j) == e
    ensures Commented(css, AfterComment(css, e), d, out)
    decreases |css| - j
  {
    if j < |css| {
      hide StateAt, Stripped, Commenting, Commented;
      if e == j {
        CommentStops(css, j, d, out);
      } else {
        CommentGoesOn(css, j, d, out);
        CommentRun(css, j + 1, e, d, out);
      }
    }
  }

  /** The two characters that open a comment leave one space behind. */
  lemma OpensComment(out: string, st: State)
    requires st.mode.Top?
    ensures var slash := Next(true, st, '/');
      && Next(true, slash, '*') == Plain(Comment, st.depth)
      && StripChar(StripChar(out, st, '/'), slash, '*') == out + [' ']
  {
  }

  lemma {:induction false} StepCommentOpen(css: string, i: nat, st: State)
    requires i + 1 < |css| && css[i] == '/' && css[i + 1] == '*'
    requires StateAt(true, css, i) == st && st.mode.Top?
    ensures Commenting(css, i + 2, st.depth, Stripped(css, i) + [' '])
  {
    ReadOne(css, i, st);
    ReadOne(css, i + 1, Next(true, st, '/'));
    OpensComment(Stripped(css, i), st);
  }

  lemma {:induction false} TracksTop(css: string, i: nat, depth: nat)
    requires i < |css| && Tracks(true, css, i, "", depth) && css[i] == '/'
    ensures StateAt(true, css, i).mode.Top? && StateAt(true, css, i).depth == depth
  {
    if OpenTracks(true, css, i, depth) {
      OpenNext(css, i);
    }
  }

  lemma {:induction false} UrlKept(css: string, i: nat, depth: nat)
    requires i < |css| && TopTracks(true, css, i, depth) && UrlEnd(css, i) != -1
    ensures Stripped(css, UrlEnd(css, i)) == Stripped(css, i) + css[i..UrlEnd(css, i)]
  {
    UrlRun(true, css, i);
    UrlWordRun(true, css, i);
    forall k | i <= k <= UrlEnd(css, i) ensures Outside(css, k) {
    }
    KeptRegion(css, i, UrlEnd(css, i));
  }

  lemma {:induction false} TracksOutside(css: string, i: nat, quote: string, depth: nat)
    requires i < |css| && Tracks(true, css, i, quote, depth)
    ensures Outside(css, i) && (css[i] != '/' || quote != "" ==> Outside(css, i + 1))
    ensures css[i] == '/' && (i + 1 < |css| ==> css[i + 1] != '*') ==> Outside(css, i + 1)
    ensures quote != "" && css[i] == '\\' && i + 1 < |css| ==> Outside(css, i + 2)
  {
    if quote != "" && css[i] == '\\' && i + 1 < |css| {
      assert StateAt(true, css, i + 1) == Plain(QuotedEscape(quote[0]), depth);
    }
  }

  method IndexOfCommentEnd(css: string, from: nat) returns (end: nat)
    requires from <= |css|
    ensures end == CommentEnd(css, from)
  {
    end := from;
    while end < |css| && !(end + 1 < |css| && css[end] == '*' && css[end + 1] == '/')
      invariant end <= |css|
      invariant CommentEnd(css, end) == CommentEnd(css, from)
    {
      end := end + 1;
    }
  }

  /** The comment loop's invariant: where it stands and what it has written. */
  ghost predicate Stripping(css: string, i: nat, quote: string, depth: nat, out: string) {
    Tracks(true, css, i, quote, depth) && out == Stripped(css, Min(i, |css|))
  }

  lemma StrippedAt(css: string, i: nat, quote: string, depth: nat, out: string)
    requires i <= |css| && Stripping(css, i, quote, depth, out)
    ensures Tracks(true, css, i, quote, depth) && out == Stripped(css, i)
  {
  }

  lemma StrippingAt(css: string, i: nat, quote: string, depth: nat, out: string)
    requires i <= |css| && Tracks(true, css, i, quote, depth) && out == Stripped(css, i)
    ensures Stripping(css, i, quote, depth, out)
  {
  }

  lemma StrippingAfterComment(css: string, i: nat, depth: nat, out: string)
    requires Commented(css, i, depth, out)
    ensures Stripping(css, i, "", depth, out)
  {
  }

  lemma {:induction false} StepComment(css: string, i: nat, depth: nat, out: string)
    requires i + 1 < |css| && Stripping(css, i, "", depth, out) && css[i] == '/' && css[i + 1] == '*'
    ensures Stripping(css, AfterComment(css, CommentEnd(css, i + 2)), "", depth, out + [' '])
  {
    StrippedAt(css, i, "", depth, out);
    TracksTop(css, i, depth);
    StepCommentOpen(css, i, StateAt(true, css, i));
    var e := CommentEnd(css, i + 2);
    CommentRun(css, i + 2, e, depth, out + [' ']);
    StrippingAfterComment(css, AfterComment(css, e), depth, out + [' ']);
  }

  method StripQuoted(css: string, i: nat, quote: string, ghost depth: nat, out: string)
    returns (next: nat, out': string, quote': string)
    requires i < |css| && Stripping(css, i, quote, depth, out) && quote != ""
    ensures i < next && Stripping(css, next, quote', depth, out')
  {
    var c := css[i];
    next, out', quote' := i + 1, out + [c], quote;
    TracksOutside(css, i, quote, depth);
    CharKept(css, i);
    StepInQuote(true, css, i, quote, depth);
    if c == '\\' {
      next := i + 2;
      if i + 1 < |css| {
        CharKept(css, i + 1);
        out' := out' + [css[i + 1]];
      }
    } else if [c] == quote {
      quote' := "";
    }
  }

  method StripComment(css: string, i: nat, ghost depth: nat, out: string) returns (next: nat, out': string)
    requires i + 1 < |css| && Stripping(css, i, "", depth, out) && css[i] == '/' && css[i + 1] == '*'
    ensures i < next && Stripping(css, next, "", depth, out')
  {
    StepComment(css, i, depth, out);
    var end := IndexOfCommentEnd(css, i + 2);
    next := if end < |css| then end + 2 else |css|;
    out' := out + [' '];
  }

  method StripUrl(css: string, i: nat, end: nat, ghost depth: nat, out: string) returns (out': string)
    requires i < |css| && Stripping(css, i, "", depth, out) && UrlEnd(css, i) == end
    ensures Stripping(css, end, "", depth, out')
  {
    StrippedAt(css, i, "", depth, out);
    StepUrl(true, css, i, depth);
    UrlKept(css, i, depth);
    out' := out + css[i..end];
    StrippingAt(css, end, "", depth, out');
  }

  /** A character outside strings, comments and urls. */
  method StripPlain(css: string, i: nat, ghost depth: nat, out: string)
    returns (out': string, quote': string, ghost depth': nat)
    requires i < |css| && Stripping(css, i, "", depth, out) && UrlEnd(css, i) == -1
    requires css[i] == '/' && i + 1 < |css| ==> css[i + 1] != '*'
    ensures Stripping(css, i + 1, quote', depth', out')
  {
    var c := css[i];
    out', quote', depth' := out + [c], "", depth;
    TracksOutside(css, i, "", depth);
    CharKept(css, i);
    if IsQuote(c) {
      StepQuote(true, css, i, depth);
      quote' := [c];
    } else if c == '(' {
      StepOpen(true, css, i, depth);
      depth' := depth + 1;
    } else if c == ')' {
      StepClose(true, css, i, depth);
      depth' := if depth == 0 then 0 else depth - 1;
    } else {
      StepOther(true, css, i, depth);
    }
  }

  method StripComments(css: string) returns (out: string)
    ensures out == Strip(css)
  {
    out := "";
    var quote, i: nat := "", 0;
    ghost var depth: nat := 0;
    TracksStart(true, css);
    while i < |css|
      invariant Stripping(css, i, quote, depth, out)
      decreases |css| - i
    {
      if quote != "" {
        i, out, quote := StripQuoted(css, i, quote, depth, out);
      } else if css[i] == '/' && i + 1 < |css| && css[i + 1] == '*' {
        i, out := StripComment(css, i, depth, out);
      } else {
        var end := ScanUnquotedUrl(css, i);
        if end != -1 {
          out := StripUrl(css, i, end, depth, out);
          i := end;
        } else {
          out, quote, depth := StripPlain(css, i, depth, out);
          i := i + 1;
        }
      }
    }
  }
}
