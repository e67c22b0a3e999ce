/**
 The style-declaration scanner of the design runtime, as a state machine reading one character at
 a time. It is the reference for the hand-written scanners, which look ahead and jump: the state
 after i characters says whether position i is inside a string, an unquoted url(...), a comment or
 a parenthesis.
 */
module CssScan {
  import opened Basics
  import opened Text

  type QuoteChar = c: char | IsQuote(c) witness '"'

  datatype Mode =
    | Top
    | Quoted(quote: QuoteChar)
    | QuotedEscape(quote: QuoteChar)
    | UrlOpen
    | Url
    | UrlEscape
    | Comment
    | CommentStar

  /**
   depth counts open parentheses, word how much of an identifier-initial "url" was just read,
   ident whether the last character can continue an identifier, slash whether it is a '/'.
   */
  datatype State = State(mode: Mode, depth: nat, word: nat, ident: bool, slash: bool)

  function Plain(mode: Mode, depth: nat): State {
    State(mode, depth, 0, false, false)
  }

  const START := Plain(Top, 0)

  predicate IsIdentChar(c: char) {
    'a' <= c <= 'z' || 'A' <= c <= 'Z' || '0' <= c <= '9' || c == '_' || c == '-'
  }

  /** The letter of "url" after n of them have been read, in either case. */
  predicate UrlLetter(n: nat, c: char) {
    match n
    case 0 => c == 'u' || c == 'U'
    case 1 => c == 'r' || c == 'R'
    case 2 => c == 'l' || c == 'L'
    case _ => false
  }

  function NextWord(st: State, c: char): nat {
    if UrlLetter(0, c) && !st.ident then 1
    else if st.word > 0 && UrlLetter(st.word, c) then st.word + 1
    else 0
  }

  function NextTop(comments: bool, st: State, c: char): State {
    if comments && st.slash && c == '*' then Plain(Comment, st.depth)
    else if IsQuote(c) then Plain(Quoted(c), st.depth)
    else if c == '(' then
      if st.word == 3 then Plain(UrlOpen, st.depth) else Plain(Top, st.depth + 1)
    else if c == ')' then Plain(Top, if st.depth == 0 then 0 else st.depth - 1)
    else State(Top, st.depth, NextWord(st, c), IsIdentChar(c), c == '/')
  }

  /** The state after one more character; comments says whether comments are recognised. */
  function Next(comments: bool, st: State, c: char): State {
    match st.mode
    case Top => NextTop(comments, st, c)
    case Quoted(q) =>
      if c == '\\' then Plain(QuotedEscape(q), st.depth)
      else if c == q then Plain(Top, st.depth)
      else st
    case QuotedEscape(q) => Plain(Quoted(q), st.depth)
    case UrlOpen =>
      if IsSpace(c) then st
      else if IsQuote(c) then Plain(Quoted(c), st.depth + 1)
      else NextUrl(st, c)
    case Url => NextUrl(st, c)
    case UrlEscape => Plain(Url, st.depth)
    case Comment => if c == '*' then Plain(CommentStar, st.depth) else st
    case CommentStar =>
      if c == '/' then Plain(Top, st.depth)
      else if c == '*' then st
      else Plain(Comment, st.depth)
  }

  function NextUrl(st: State, c: char): State {
    if c == ')' then Plain(Top, st.depth)
    else if c == '\\' then Plain(UrlEscape, st.depth)
    else Plain(Url, st.depth)
  }

  /** The state after the first i characters of s, reading from state st. */
  function Run(comments: bool, st: State, s: string, i: nat): State
    requires i <= |s|
  {
    if i == 0 then st else Next(comments, Run(comments, st, s, i - 1), s[i - 1])
  }

  function StateAt(comments: bool, css: string, i: nat): State
    requires i <= |css|
  {
    Run(comments, START, css, i)
  }

  predicate InComment(st: State) {
    st.mode.Comment? || st.mode.CommentStar?
  }

  // ---- comment removal ----

  /** What is written after one more character: a comment's opening slash turns into a space. */
  function StripChar(out: string, st: State, c: char): string {
    if InComment(st) then out
    else if InComment(Next(true, st, c)) && out != "" then out[..|out| - 1] + [' ']
    else out + [c]
  }

  /** The first i characters with every comment, complete or not, replaced by one space. */
  function Stripped(css: string, i: nat): string
    requires i <= |css|
  {
    if i == 0 then "" else StripChar(Stripped(css, i - 1), StateAt(true, css, i - 1), css[i - 1])
  }

  function Strip(css: string): string {
    Stripped(css, |css|)
  }

  /** Position i is outside comments. */
  ghost predicate Outside(s: string, i: nat) {
    i <= |s| && !InComment(StateAt(true, s, i))
  }

  ghost predicate NoComment(s: string) {
    forall i {:trigger Outside(s, i)} :: 0 <= i <= |s| ==> Outside(s, i)
  }

  // ---- declarations ----

  /** A semicolon outside every string, parenthesis and unquoted url separates declarations. */
  predicate CutAt(css: string, i: nat)
    requires i < |css|
  {
    css[i] == ';' && StateAt(false, css, i).mode.Top? && StateAt(false, css, i).depth == 0
  }

  /** Finished declarations and the one still growing. */
  datatype Pieces = Pieces(done: seq<string>, last: string) {
    function All(): (ps: seq<string>)
      ensures ps != []
    {
      done + [last]
    }
  }

  /** The declarations among the first i characters. */
  function PiecesAt(css: string, i: nat): Pieces
    requires i <= |css|
  {
    if i == 0 then Pieces([], "")
    else
      var ps := PiecesAt(css, i - 1);
      if CutAt(css, i - 1) then Pieces(ps.done + [ps.last], "")
      else ps.(last := ps.last + [css[i - 1]])
  }

  function Split(css: string): (ps: seq<string>)
    ensures ps != []
  {
    PiecesAt(css, |css|).All()
  }

  /** Everything in done, each followed by a semicolon, and then last. */
  function JoinWith(done: seq<string>, last: string): string {
    if done == [] then last
    else JoinWith(done[..|done| - 1], done[|done| - 1]) + (";" + last)
  }

  function Join(ps: seq<string>): string {
    if ps == [] then "" else JoinWith(ps[..|ps| - 1], ps[|ps| - 1])
  }

  // ---- the important marker ----

  predicate EqualFold(s: string, lower: string)
    requires forall i :: 0 <= i < |lower| ==> 'a' <= lower[i] <= 'z'
  {
    |s| == |lower|
    && forall i :: 0 <= i < |s| ==> s[i] == lower[i] || (s[i] < 'a' && s[i] as int + 32 == lower[i] as int)
  }

  /** An exclamation mark, white space, and the word "important" in any case, at the very end. */
  predicate EndsImportant(d: string) {
    && |d| >= 10
    && EqualFold(d[|d| - 9..], "important")
    && var t := TrimEnd(d[..|d| - 9]); t != "" && t[|t| - 1] == '!'
  }

  function MarkImportant(d: string): string {
    if EndsImportant(d) then d else d + " !important"
  }

  /** One declaration trimmed and marked, or nothing when it is blank. */
  function MarkedOne(p: string): seq<string> {
    if Trim(p) == "" then [] else [MarkImportant(Trim(p))]
  }

  /** The declarations as they are written out. */
  function Marked(ps: seq<string>): seq<string> {
    if ps == [] then [] else Marked(ps[..|ps| - 1]) + MarkedOne(ps[|ps| - 1])
  }

  function Importantified(css: string): string {
    Join(Marked(Split(Strip(css))))
  }
}
