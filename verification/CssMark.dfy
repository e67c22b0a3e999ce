/** Marking declarations important: what trimming and marking keep, and idempotence of the whole. */
module CssMark {
  import opened Basics
  import opened Text
  import opened CssScan
  import opened CssFacts

  // ---- trimming ----

  lemma {:induction false} SpacesAtStart(space: string, d: string, i: nat)
    requires AllSpace(space) && i <= |space|
    ensures StateAt(true, space + d, i) == START
  {
    if i > 0 {
      SpacesAtStart(space, d, i - 1);
      assert (space + d)[i - 1] == space[i - 1];
    }
  }

  lemma LeadingSpace(space: string, d: string, k: nat)
    requires AllSpace(space) && k <= |d|
    ensures StateAt(true, space + d, |space| + k) == StateAt(true, d, k)
  {
    SpacesAtStart(space, d, |space|);
    assert (space + d)[|space|..|space| + |d|] == d;
    RunFrom(true, space + d, |space|, d, k);
  }

  lemma DropLeading(space: string, d: string)
    requires AllSpace(space) && Quiet(space + d)
    ensures Quiet(d) && (Closed(space + d) ==> Closed(d))
  {
    forall i | 0 <= i <= |d| ensures QuietAt(d, i) {
      LeadingSpace(space, d, i);
      assert QuietAt(space + d, |space| + i);
    }
    LeadingSpace(space, d, |d|);
  }

  lemma QuietPrefix(p: string, k: nat)
    requires Quiet(p) && k <= |p|
    ensures Quiet(p[..k])
  {
    forall i | 0 <= i <= k ensures QuietAt(p[..k], i) {
      StateAgree(true, p[..k], p, i);
      assert QuietAt(p, i);
    }
  }

  lemma SpaceKeepsCut(st: State, c: char)
    requires IsSpace(c)
    ensures AtCut(Next(true, st, c)) ==> AtCut(st)
  {
  }

  lemma {:induction false} DropTrailing(p: string, k: nat)
    requires Quiet(p) && k <= |p| && forall j :: k <= j < |p| ==> IsSpace(p[j])
    ensures Quiet(p[..k]) && (Closed(p) ==> Closed(p[..k]))
    decreases |p| - k
  {
    QuietPrefix(p, k);
    if k == |p| {
      assert p[..k] == p;
    } else {
      DropTrailing(p, k + 1);
      StateAgree(true, p[..k + 1], p[..k], k);
      SpaceKeepsCut(StateAt(true, p[..k + 1], k), p[k]);
    }
  }

  lemma TrimKeeps(p: string)
    requires Quiet(p)
    ensures Quiet(Trim(p)) && (Closed(p) ==> Closed(Trim(p)))
  {
    var before, after := TrimSplit(p);
    var d := Trim(p);
    assert p == before + (d + after);
    DropLeading(before, d + after);
    assert (d + after)[..|d|] == d;
    forall j | |d| <= j < |d + after| ensures IsSpace((d + after)[j]) {
      assert (d + after)[j] == after[j - |d|];
    }
    DropTrailing(d + after, |d|);
  }

  // ---- the marker ----

  lemma NoCommentEntered(st: State, c: char)
    requires !InComment(st) && c != '*'
    ensures !InComment(Next(true, st, c))
  {
  }

  predicate Neutral(c: char) {
    !IsQuote(c) && c != '(' && c != ')' && c != ';' && c != '*'
  }

  /** Characters with no meaning to the scanner extend a declaration without opening or closing anything. */
  lemma {:induction false} AppendNeutral(d: string, x: string, k: nat)
    requires Quiet(d) && k <= |x| && forall i :: 0 <= i < |x| ==> Neutral(x[i])
    ensures Quiet(d + x[..k]) && (Closed(d) ==> Closed(d + x[..k]))
  {
    if k == 0 {
      assert d + x[..k] == d;
    } else {
      AppendNeutral(d, x, k - 1);
      var e := d + x[..k - 1];
      assert QuietAt(e, |e|);
      NoCommentEntered(StateAt(true, e, |e|), x[k - 1]);
      QuietAppend(e, x[k - 1]);
      StateAppend(e, x[k - 1]);
      assert d + x[..k] == e + [x[k - 1]];
    }
  }

  const MARKER := " !important"

  lemma {:induction false} MarkEnds(d: string)
    requires Tight(d)
    ensures Tight(d + MARKER) && EndsImportant(d + MARKER)
  {
    var e := d + MARKER;
    assert e[|e| - 9..] == "important";
    assert e[..|e| - 9] == d + " !";
    assert TrimEnd(d + " !") == d + " !";
  }

  // ---- what is written out ----

  function Lower(c: char): char {
    if 'A' <= c <= 'Z' then (c as int + 32) as char else c
  }

  /** The word "important" in any case. */
  predicate SaysImportant(word: string) {
    |word| == 9 && forall i :: 0 <= i < 9 ==> Lower(word[i]) == "important"[i]
  }

  /** An exclamation mark, white space, and the word at the end: a declaration that has the marker. */
  ghost predicate HasMarker(d: string) {
    && |d| >= 10 && SaysImportant(d[|d| - 9..])
    && exists i :: 0 <= i < |d| - 9 && d[i] == '!' && AllSpace(d[i + 1..|d| - 9])
  }

  lemma {:induction false} FoldsExactly(word: string)
    ensures EqualFold(word, "important") <==> SaysImportant(word)
  {
    var lower := "important";
    assert forall i :: 0 <= i < 9 ==> 'a' <= lower[i] <= 'z';
    if |word| == 9 {
      forall i | 0 <= i < 9
        ensures word[i] == lower[i] || (word[i] < 'a' && word[i] as int + 32 == lower[i] as int)
                <==> Lower(word[i]) == lower[i]
      {
      }
    }
  }

  lemma {:induction false} BangExactly(head: string)
    ensures (TrimEnd(head) != "" && TrimEnd(head)[|TrimEnd(head)| - 1] == '!')
      <==> exists i :: 0 <= i < |head| && head[i] == '!' && AllSpace(head[i + 1..])
  {
    hide IsSpace;
    var space := TrimEndSplit(head);
    var t := TrimEnd(head);
    assert !IsSpace('!') by {
      BangIsNoSpace();
    }
    if t != "" && t[|t| - 1] == '!' {
      assert head[|t| - 1] == '!' && head[|t|..] == space;
    }
    forall i | 0 <= i < |head| && head[i] == '!' && AllSpace(head[i + 1..]) ensures t == head[..i + 1] {
      TrimEndPadded(head[..i + 1], head[i + 1..]);
      assert head == head[..i + 1] + head[i + 1..];
    }
  }

  lemma BangIsNoSpace()
    ensures !IsSpace('!')
  {
  }

  /** The source's regular expression finds the marker exactly when there is one. */
  lemma {:induction false} MarkerExactly(d: string)
    ensures EndsImportant(d) <==> HasMarker(d)
  {
    if |d| >= 10 {
      FoldsExactly(d[|d| - 9..]);
      var head := d[..|d| - 9];
      BangExactly(head);
      assert forall i :: 0 <= i < |head| ==> head[i] == d[i] && head[i + 1..] == d[i + 1..|d| - 9];
    }
    hide EqualFold, SaysImportant, IsSpace, TrimEnd;
  }

  /** One declaration as it goes out: the white space around it is gone, and the marker there unless it was. */
  ghost predicate WrittenOut(p: string, o: string) {
    exists before: string, d: string, after: string {:trigger AllSpace(before), Tight(d), AllSpace(after)} ::
      && AllSpace(before) && AllSpace(after) && Tight(d) && p == before + d + after
      && o == if HasMarker(d) then d else d + " !important"
  }

  lemma {:induction false} OneWrittenOut(p: string)
    ensures MarkedOne(p) == [] <==> AllSpace(p)
    ensures |MarkedOne(p)| <= 1 && (MarkedOne(p) != [] ==> WrittenOut(p, MarkedOne(p)[0]))
  {
    var before, after := TrimSplit(p);
    var d := Trim(p);
    if d == "" {
      assert p == before + after;
    } else {
      assert p[|before|] == d[0];
      MarkerExactly(d);
      assert AllSpace(before) && Tight(d) && AllSpace(after);
    }
  }

  /** The lines written out for a list of declarations: one for each that is not blank, in order. */
  lemma {:induction false} MarkedExactly(ps: seq<string>) returns (from: seq<nat>)
    ensures |Marked(ps)| == |from|
    ensures forall j, k :: 0 <= j < k < |from| ==> from[j] < from[k]
    ensures forall k :: 0 <= k < |from| ==> from[k] < |ps| && WrittenOut(ps[from[k]], Marked(ps)[k])
    ensures forall i: nat :: i < |ps| ==> (i in from <==> !AllSpace(ps[i]))
  {
    hide WrittenOut, MarkedOne, AllSpace;
    if ps == [] {
      from := [];
    } else {
      var n := |ps| - 1;
      var before := MarkedExactly(ps[..n]);
      OneWrittenOut(ps[n]);
      var marked := Marked(ps[..n]);
      assert Marked(ps) == marked + MarkedOne(ps[n]);
      hide Marked;
      from := if AllSpace(ps[n]) then before else before + [n];
      forall i: nat | i < |ps| ensures i in from <==> !AllSpace(ps[i]) {
        assert i < n ==> ps[..n][i] == ps[i];
        assert i in from <==> i in before || (i == n && !AllSpace(ps[n]));
      }
    }
  }

  /** For every text: what marking makes of the declarations its comment-stripped text is split into. */
  lemma {:induction false} ImportantifyExactly(css: string) returns (from: seq<nat>, out: seq<string>)
    ensures var ps := Split(Strip(css));
      && Importantified(css) == Join(out) && |out| == |from|
      && (forall j, k :: 0 <= j < k < |from| ==> from[j] < from[k])
      && (forall k :: 0 <= k < |from| ==> from[k] < |ps| && WrittenOut(ps[from[k]], out[k]))
      && (forall i: nat :: i < |ps| ==> (i in from <==> !AllSpace(ps[i])))
  {
    from := MarkedExactly(Split(Strip(css)));
    out := Marked(Split(Strip(css)));
  }

  /** A declaration as it is written out: trimmed and marked. */
  ghost predicate Finished(d: string) {
    Tight(d) && EndsImportant(d)
  }

  lemma MarkKeeps(p: string)
    requires Quiet(p)
    ensures forall d :: d in MarkedOne(p) ==> Quiet(d) && Finished(d) && (Closed(p) ==> Closed(d))
  {
    var d := Trim(p);
    TrimKeeps(p);
    var _, _ := TrimSplit(p);
    if d != "" && !EndsImportant(d) {
      AppendNeutral(d, MARKER, |MARKER|);
      assert MARKER[..|MARKER|] == MARKER;
      MarkEnds(d);
    }
  }

  lemma {:induction false} MarkedShape(done: seq<string>)
    requires forall p :: p in done ==> Quiet(p) && Closed(p)
    ensures forall d :: d in Marked(done) ==> Quiet(d) && Closed(d) && Finished(d)
  {
    if done != [] {
      MarkedShape(done[..|done| - 1]);
      MarkKeeps(done[|done| - 1]);
    }
  }

  lemma {:induction false} FinishedFixed(d: string)
    requires Finished(d)
    ensures MarkedOne(d) == [d]
  {
    TrimPadded("", d, "");
    assert "" + d + "" == d;
  }

  lemma {:induction false} MarkedFixed(ks: seq<string>)
    requires forall d :: d in ks ==> Finished(d)
    ensures Marked(ks) == ks
  {
    if ks != [] {
      var init, d := ks[..|ks| - 1], ks[|ks| - 1];
      assert d in ks;
      forall e | e in init ensures Finished(e) {
        assert e in ks;
      }
      MarkedFixed(init);
      FinishedFixed(d);
      assert init + [d] == ks;
    }
  }

  lemma {:induction false} MarkedAll(ps: Pieces)
    ensures Marked(ps.All()) == Marked(ps.done) + MarkedOne(ps.last)
  {
    assert ps.All()[..|ps.done|] == ps.done;
  }

  /** What is written out for declarations that stay apart stays apart. */
  lemma MarkedSeparable(ps: Pieces)
    requires Separable(ps.done, ps.last)
    ensures var ks := Marked(ps.done) + MarkedOne(ps.last);
      && (forall d :: d in ks ==> Finished(d))
      && (ks != [] ==> Separable(ks[..|ks| - 1], ks[|ks| - 1]))
  {
    MarkedShape(ps.done);
    MarkKeeps(ps.last);
    var ks := Marked(ps.done) + MarkedOne(ps.last);
    if ks != [] {
      assert ks[|ks| - 1] in ks;
      forall d | d in ks[..|ks| - 1] ensures d in Marked(ps.done) {
        assert |MarkedOne(ps.last)| <= 1;
      }
    }
  }

  /** Declarations that are finished and stay apart are already their own marked text. */
  lemma MarkedReads(ks: seq<string>)
    requires ks != [] && Separable(ks[..|ks| - 1], ks[|ks| - 1])
    requires forall d :: d in ks ==> Finished(d)
    ensures Importantified(Join(ks)) == Join(ks)
  {
    var done, last := ks[..|ks| - 1], ks[|ks| - 1];
    JoinThenSplit(done, last);
    StripFixed(Join(ks));
    assert done + [last] == ks;
    MarkedFixed(ks);
  }

  lemma MarkedOfText(css: string)
    ensures var ks := Marked(Split(Strip(css)));
      && (forall d :: d in ks ==> Finished(d))
      && (ks != [] ==> Separable(ks[..|ks| - 1], ks[|ks| - 1]))
  {
    var s := Strip(css);
    StripClean(css);
    PiecesShape(s, |s|);
    MarkedSeparable(PiecesAt(s, |s|));
    MarkedAll(PiecesAt(s, |s|));
  }

  lemma {:induction false} NothingToMark()
    ensures Importantified("") == ""
  {
    assert Strip("") == "" && Split("") == [""];
    assert Marked([""]) == [];
  }

  /** Marking twice is marking once, for every text. */
  lemma ImportantifyIdempotent(css: string)
    ensures Importantified(Importantified(css)) == Importantified(css)
  {
    MarkedOfText(css);
    var ks := Marked(Split(Strip(css)));
    if ks == [] {
      NothingToMark();
    } else {
      MarkedReads(ks);
    }
  }
}
