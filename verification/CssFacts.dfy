/** Splitting loses nothing, and marking declarations important twice is marking them once. */
module CssFacts {
  import opened Text
  import opened CssScan

  // ---- runs of the scanner ----

  lemma {:induction false} RunAgree(comments: bool, st: State, s: string, t: string, i: nat)
    requires i <= |s| && i <= |t| && s[..i] == t[..i]
    ensures Run(comments, st, s, i) == Run(comments, st, t, i)
  {
    if i > 0 {
      assert s[i - 1] == s[..i][i - 1] == t[..i][i - 1] == t[i - 1];
      assert s[..i - 1] == s[..i][..i - 1] == t[..i][..i - 1] == t[..i - 1];
      RunAgree(comments, st, s, t, i - 1);
    }
  }

  lemma StateAgree(comments: bool, s: string, t: string, i: nat)
    requires i <= |s| && i <= |t| && s[..i] == t[..i]
    ensures StateAt(comments, s, i) == StateAt(comments, t, i)
  {
    RunAgree(comments, START, s, t, i);
  }

  /** Reading p at position a of y continues from the state there. */
  lemma {:induction false} RunFrom(comments: bool, y: string, a: nat, p: string, k: nat)
    requires a + |p| <= |y| && y[a..a + |p|] == p && k <= |p|
    ensures StateAt(comments, y, a + k) == Run(comments, StateAt(comments, y, a), p, k)
  {
    if k > 0 {
      RunFrom(comments, y, a, p, k - 1);
      assert StateAt(comments, y, a + k) == CssScan.Next(comments, StateAt(comments, y, a + k - 1), y[a + k - 1]);
      assert y[a + k - 1] == p[k - 1];
    }
  }

  /** Inside strings, urls and comments nothing but the depth is remembered. */
  lemma {:induction false} NonTopPlain(comments: bool, s: string, i: nat)
    requires i <= |s|
    ensures var st := StateAt(comments, s, i); !st.mode.Top? ==> st == Plain(st.mode, st.depth)
  {
    if i > 0 {
      NonTopPlain(comments, s, i - 1);
    }
  }

  // ---- comment removal ----

  /** What the state becomes once a comment is seen as white space. */
  function Settled(st: State): State {
    if InComment(st) then Plain(Top, st.depth) else st
  }

  lemma StateAppend(s: string, c: char)
    ensures StateAt(true, s + [c], |s|) == StateAt(true, s, |s|)
    ensures StateAt(true, s + [c], |s| + 1) == Next(true, StateAt(true, s, |s|), c)
  {
    StateAgree(true, s, s + [c], |s|);
  }

  lemma NoCommentAppend(s: string, c: char)
    requires NoComment(s) && !InComment(Next(true, StateAt(true, s, |s|), c))
    ensures NoComment(s + [c])
  {
    StateAppend(s, c);
    forall i | 0 <= i <= |s + [c]| ensures Outside(s + [c], i) {
      if i <= |s| {
        assert Outside(s, i);
        StateAgree(true, s, s + [c], i);
      }
    }
  }

  lemma NoCommentPrefix(s: string, k: nat)
    requires NoComment(s) && k <= |s|
    ensures NoComment(s[..k])
  {
    forall i | 0 <= i <= k ensures Outside(s[..k], i) {
      assert Outside(s, i);
      StateAgree(true, s, s[..k], i);
    }
  }

  /** A pending slash is the last character written, read outside every string and url. */
  lemma SlashBefore(s: string)
    requires var st := StateAt(true, s, |s|); st.mode.Top? && st.slash
    ensures s != "" && var b := StateAt(true, s[..|s| - 1], |s| - 1);
      b.mode.Top? && b.depth == StateAt(true, s, |s|).depth
  {
    NonTopPlain(true, s, |s| - 1);
    StateAgree(true, s, s[..|s| - 1], |s| - 1);
  }

  /** What has been written so far holds no comment and reads to state st. */
  ghost predicate Clean(o: string, st: State) {
    NoComment(o) && StateAt(true, o, |o|) == st
  }

  lemma CleanChar(o: string, st: State, c: char)
    requires Clean(o, st) && !InComment(Next(true, st, c))
    ensures Clean(o + [c], Next(true, st, c))
  {
    StateAppend(o, c);
    NoCommentAppend(o, c);
  }

  /** The slash that opens a comment gives way to a space. */
  lemma CleanComment(o: string, st: State)
    requires Clean(o, st) && st.mode.Top? && st.slash
    ensures o != "" && Clean(o[..|o| - 1] + [' '], Plain(Top, st.depth))
  {
    SlashBefore(o);
    var kept := o[..|o| - 1];
    NoCommentPrefix(o, |o| - 1);
    CleanChar(kept, StateAt(true, kept, |kept|), ' ');
  }

  lemma EntersComment(st: State, c: char)
    requires !InComment(st) && InComment(Next(true, st, c))
    ensures st.mode.Top? && st.slash && Next(true, st, c) == Plain(Comment, st.depth)
  {
  }

  lemma CleanStripChar(o: string, st: State, c: char)
    requires Clean(o, Settled(st))
    requires !st.mode.Top? ==> st == Plain(st.mode, st.depth)
    ensures Clean(StripChar(o, st, c), Settled(Next(true, st, c)))
  {
    if InComment(st) {
    } else if InComment(Next(true, st, c)) {
      EntersComment(st, c);
      CleanComment(o, st);
    } else {
      CleanChar(o, st, c);
    }
  }

  lemma {:induction false} StrippedClean(css: string, i: nat)
    requires i <= |css|
    ensures Clean(Stripped(css, i), Settled(StateAt(true, css, i)))
  {
    if i > 0 {
      StrippedClean(css, i - 1);
      NonTopPlain(true, css, i - 1);
      CleanStripChar(Stripped(css, i - 1), StateAt(true, css, i - 1), css[i - 1]);
    }
  }

  /** Comment removal leaves a text without comments. */
  lemma StripClean(css: string)
    ensures NoComment(Strip(css))
  {
    StrippedClean(css, |css|);
  }

  /** Where no comment is read, every character is kept. */
  lemma StripCharPlain(out: string, s: string, i: nat)
    requires NoComment(s) && i < |s|
    ensures StripChar(out, StateAt(true, s, i), s[i]) == out + [s[i]]
  {
    assert Outside(s, i) && Outside(s, i + 1);
  }

  lemma {:induction false} StrippedFixed(s: string, i: nat)
    requires NoComment(s) && i <= |s|
    ensures Stripped(s, i) == s[..i]
  {
    if i > 0 {
      StrippedFixed(s, i - 1);
      StripCharPlain(s[..i - 1], s, i - 1);
      assert s[..i] == s[..i - 1] + [s[i - 1]];
    }
  }

  /** ... and changes nothing when there is none. */
  lemma StripFixed(s: string)
    requires NoComment(s)
    ensures Strip(s) == s
  {
    StrippedFixed(s, |s|);
    assert s[..|s|] == s;
  }

  lemma {:induction false} CommentFreeRun(s: string, i: nat)
    requires NoComment(s) && i <= |s|
    ensures StateAt(false, s, i) == StateAt(true, s, i)
  {
    if i > 0 {
      CommentFreeRun(s, i - 1);
      assert Outside(s, i - 1) && Outside(s, i);
    }
  }

  // ---- the pieces ----

  lemma {:induction false} JoinWithSnoc(done: seq<string>, p: string, last: string)
    ensures JoinWith(done + [p], last) == JoinWith(done, p) + (";" + last)
  {
    assert (done + [p])[..|done|] == done;
  }

  lemma {:induction false} JoinAll(ps: Pieces)
    ensures Join(ps.All()) == JoinWith(ps.done, ps.last)
  {
    assert ps.All()[..|ps.done|] == ps.done;
  }

  lemma {:induction false} JoinWithGrow(done: seq<string>, last: string, c: char)
    ensures JoinWith(done, last + [c]) == JoinWith(done, last) + [c]
  {
    if done != [] {
      var s := JoinWith(done[..|done| - 1], done[|done| - 1]);
      assert s + (";" + (last + [c])) == s + (";" + last) + [c];
    }
  }

  lemma {:induction false} PiecesJoin(css: string, i: nat)
    requires i <= |css|
    ensures JoinWith(PiecesAt(css, i).done, PiecesAt(css, i).last) == css[..i]
  {
    if i > 0 {
      PiecesJoin(css, i - 1);
      var ps, c := PiecesAt(css, i - 1), css[i - 1];
      assert css[..i] == css[..i - 1] + [c];
      if CutAt(css, i - 1) {
        JoinWithSnoc(ps.done, ps.last, "");
        assert css[..i - 1] + (";" + "") == css[..i];
      } else {
        JoinWithGrow(ps.done, ps.last, c);
      }
    }
  }

  /** Joining the declarations with semicolons gives the whole text back. */
  lemma SplitLossless(css: string)
    ensures Join(Split(css)) == css
  {
    PiecesJoin(css, |css|);
    JoinAll(PiecesAt(css, |css|));
    assert css[..|css|] == css;
  }

  predicate AtCut(st: State) {
    st.mode.Top? && st.depth == 0
  }

  /** Position i is outside comments and no separator stands there. */
  ghost predicate QuietAt(p: string, i: nat) {
    Outside(p, i) && (i < |p| && p[i] == ';' ==> !AtCut(StateAt(true, p, i)))
  }

  /** No comment and no separator inside. */
  ghost predicate Quiet(p: string) {
    forall i {:trigger QuietAt(p, i)} :: 0 <= i <= |p| ==> QuietAt(p, i)
  }

  /** Every string, url and parenthesis is closed at the end. */
  ghost predicate Closed(p: string) {
    AtCut(StateAt(true, p, |p|))
  }

  /** Declarations that stay apart when they are joined. */
  ghost predicate Separable(done: seq<string>, last: string) {
    Quiet(last) && forall p :: p in done ==> Quiet(p) && Closed(p)
  }

  lemma QuietAppend(p: string, c: char)
    requires Quiet(p) && !InComment(Next(true, StateAt(true, p, |p|), c))
    requires c == ';' ==> !Closed(p)
    ensures Quiet(p + [c])
  {
    StateAppend(p, c);
    forall i | 0 <= i <= |p + [c]| ensures QuietAt(p + [c], i) {
      if i <= |p| {
        assert QuietAt(p, i);
        StateAgree(true, p, p + [c], i);
      }
    }
  }

  lemma EmptyQuiet()
    ensures Quiet("")
  {
  }

  lemma PiecesShapeStep(s: string, i: nat)
    requires NoComment(s) && i < |s|
    requires var ps := PiecesAt(s, i);
      Separable(ps.done, ps.last) && StateAt(true, s, i) == StateAt(true, ps.last, |ps.last|)
    ensures var ps := PiecesAt(s, i + 1);
      Separable(ps.done, ps.last) && StateAt(true, s, i + 1) == StateAt(true, ps.last, |ps.last|)
  {
    var last := PiecesAt(s, i).last;
    CommentFreeRun(s, i);
    assert Outside(s, i + 1);
    if CutAt(s, i) {
      EmptyQuiet();
    } else {
      QuietAppend(last, s[i]);
      StateAppend(last, s[i]);
    }
  }

  lemma {:induction false} PiecesShape(s: string, i: nat)
    requires NoComment(s) && i <= |s|
    ensures var ps := PiecesAt(s, i);
      Separable(ps.done, ps.last) && StateAt(true, s, i) == StateAt(true, ps.last, |ps.last|)
  {
    if i == 0 {
      EmptyQuiet();
    } else {
      PiecesShape(s, i - 1);
      PiecesShapeStep(s, i - 1);
    }
  }

  // ---- joining declarations that stay apart ----

  lemma {:induction false} PiecesAgree(s: string, t: string, i: nat)
    requires i <= |s| && i <= |t| && s[..i] == t[..i]
    ensures PiecesAt(s, i) == PiecesAt(t, i)
  {
    if i > 0 {
      assert s[i - 1] == s[..i][i - 1] == t[..i][i - 1] == t[i - 1];
      assert s[..i - 1] == s[..i][..i - 1] == t[..i][..i - 1] == t[..i - 1];
      PiecesAgree(s, t, i - 1);
      StateAgree(false, s, t, i - 1);
    }
  }

  /** How y reads: no comment, these pieces, and the state at its end. */
  ghost predicate Reads(y: string, ps: Pieces, st: State) {
    NoComment(y) && PiecesAt(y, |y|) == ps && StateAt(true, y, |y|) == st
  }

  lemma ReadsSeparator(y: string, ps: Pieces, st: State)
    requires Reads(y, ps, st) && AtCut(st)
    ensures Reads(y + [';'], Pieces(ps.done + [ps.last], ""), START)
  {
    NoCommentAppend(y, ';');
    StateAppend(y, ';');
    PiecesAgree(y, y + [';'], |y|);
    CommentFreeRun(y + [';'], |y|);
  }

  lemma ReadsChar(y: string, ps: Pieces, st: State, c: char)
    requires Reads(y, ps, st) && !InComment(Next(true, st, c))
    requires c == ';' ==> !AtCut(st)
    ensures Reads(y + [c], ps.(last := ps.last + [c]), Next(true, st, c))
  {
    NoCommentAppend(y, c);
    StateAppend(y, c);
    PiecesAgree(y, y + [c], |y|);
    CommentFreeRun(y + [c], |y|);
  }

  /** While a quiet p is read from the start state, the last piece grows by exactly p. */
  lemma {:induction false} ReadsPiece(y: string, done: seq<string>, p: string, k: nat)
    requires Reads(y, Pieces(done, ""), START) && Quiet(p) && k <= |p|
    ensures Reads(y + p[..k], Pieces(done, p[..k]), StateAt(true, p, k))
  {
    if k == 0 {
      assert y + p[..k] == y;
    } else {
      ReadsPiece(y, done, p, k - 1);
      assert QuietAt(p, k - 1) && QuietAt(p, k);
      ReadsChar(y + p[..k - 1], Pieces(done, p[..k - 1]), StateAt(true, p, k - 1), p[k - 1]);
      assert p[..k] == p[..k - 1] + [p[k - 1]];
      assert y + p[..k] == y + p[..k - 1] + [p[k - 1]];
    }
  }

  lemma ReadsWhole(y: string, done: seq<string>, p: string)
    requires Reads(y, Pieces(done, ""), START) && Quiet(p)
    ensures Reads(y + p, Pieces(done, p), StateAt(true, p, |p|))
  {
    ReadsPiece(y, done, p, |p|);
    assert p[..|p|] == p;
  }

  lemma ReadsSeparated(y: string, done: seq<string>, p: string, last: string)
    requires Reads(y, Pieces(done, p), StateAt(true, p, |p|)) && Closed(p) && Quiet(last)
    ensures Reads(y + (";" + last), Pieces(done + [p], last), StateAt(true, last, |last|))
  {
    ReadsSeparator(y, Pieces(done, p), StateAt(true, p, |p|));
    ReadsWhole(y + [';'], done + [p], last);
    assert y + [';'] + last == y + (";" + last);
  }

  lemma {:induction false} ReadsOneMore(init: seq<string>, p: string, last: string)
    requires Reads(JoinWith(init, p), Pieces(init, p), StateAt(true, p, |p|))
    requires Closed(p) && Quiet(last)
    ensures Reads(JoinWith(init + [p], last), Pieces(init + [p], last), StateAt(true, last, |last|))
  {
    ReadsSeparated(JoinWith(init, p), init, p, last);
    JoinWithSnoc(init, p, last);
  }

  /** Splitting undoes joining for declarations that stay apart. */
  lemma {:induction false} JoinThenSplit(done: seq<string>, last: string)
    requires Separable(done, last)
    ensures Reads(JoinWith(done, last), Pieces(done, last), StateAt(true, last, |last|))
    decreases |done|
  {
    if done == [] {
      ReadsWhole("", [], last);
      assert "" + last == last;
    } else {
      var init, p := done[..|done| - 1], done[|done| - 1];
      assert p in done && forall d :: d in init ==> d in done;
      JoinThenSplit(init, p);
      ReadsOneMore(init, p, last);
      assert init + [p] == done;
    }
  }
}
