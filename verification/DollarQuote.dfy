/** The migration runner's dollar quoting, and how PostgreSQL reads it back. */
module DollarQuote {
  import opened Basics

  // ---- searching ----

  predicate OccursAt(text: string, pattern: string, i: nat) {
    i + |pattern| <= |text| && text[i..i + |pattern|] == pattern
  }

  /** The first position from i on where the pattern occurs, if any. */
  function Find(text: string, pattern: string, i: nat): (r: Option<nat>)
    ensures r.Some? ==> i <= r.value && OccursAt(text, pattern, r.value)
    ensures r.Some? ==> forall j :: i <= j < r.value ==> !OccursAt(text, pattern, j)
    ensures r.None? ==> forall j :: i <= j <= |text| ==> !OccursAt(text, pattern, j)
    decreases |text| - i
  {
    if OccursAt(text, pattern, i) then Some(i)
    else if i >= |text| then None
    else Find(text, pattern, i + 1)
  }

  predicate Contains(text: string, pattern: string) {
    Find(text, pattern, 0).Some?
  }

  // ---- writing ----

  /** The n-th tag tried: gtg, gtgx, gtgxx, ... */
  function Tag(n: nat): (t: string)
    ensures |t| == n + 3 && IsTag(t) && DollarFree(t)
  {
    if n == 0 then "gtg" else Tag(n - 1) + "x"
  }

  function Delimiter(tag: string): string {
    "$" + tag + "$"
  }

  /** The delimiter without its last dollar sign. */
  function Bare(tag: string): string {
    "$" + tag
  }

  /** The number of the first tag from the n-th on whose delimiter does not occur in s. */
  function TagFor(s: string, n: nat): (r: nat)
    ensures n <= r && !Contains(s, Delimiter(Tag(r)))
    ensures forall m: nat :: n <= m < r ==> Contains(s, Delimiter(Tag(m)))
    decreases |s| - n
  {
    if Contains(s, Delimiter(Tag(n))) then TagFor(s, n + 1) else n
  }

  /** The text as the runner writes it into the statement. */
  function Quoted(s: string): string {
    QuotedWith(s, Tag(TagFor(s, 0)))
  }

  function QuotedWith(s: string, tag: string): string {
    Delimiter(tag) + (s + Delimiter(tag))
  }

  /** The letters gtg and n times the letter x. */
  function Letters(n: nat): string {
    "gtg" + seq(n, i => 'x')
  }

  lemma {:induction false} TagLetters(n: nat)
    ensures Tag(n) == Letters(n)
  {
    if n > 0 {
      TagLetters(n - 1);
      assert Letters(n) == Letters(n - 1) + "x";
    }
  }

  ghost predicate Occurs(s: string, pattern: string) {
    exists j :: 0 <= j <= |s| && OccursAt(s, pattern, j)
  }

  /** The text goes between two delimiters with as few times the letter x as do not occur in it. */
  lemma {:induction false} QuotedExactly(s: string) returns (n: nat)
    ensures Quoted(s) == "$" + Letters(n) + "$" + s + "$" + Letters(n) + "$"
    ensures !Occurs(s, "$" + Letters(n) + "$")
    ensures forall m: nat :: m < n ==> Occurs(s, "$" + Letters(m) + "$")
  {
    n := TagFor(s, 0);
    TagLetters(n);
    forall m: nat | m < n ensures Occurs(s, "$" + Letters(m) + "$") {
      TagLetters(m);
      assert Contains(s, Delimiter(Tag(m)));
    }
    hide Find, Letters;
  }

  method DollarQuote(s: string) returns (quoted: string)
    ensures quoted == Quoted(s)
  {
    var tag := "gtg";
    ghost var n := 0;
    while Contains(s, Delimiter(tag))
      invariant tag == Tag(n) && TagFor(s, 0) == TagFor(s, n)
      decreases |s| - n
    {
      tag := tag + "x";
      n := n + 1;
    }
    quoted := "$" + tag + "$" + s + "$" + tag + "$";
    assert quoted == QuotedWith(s, tag);
  }

  // ---- reading, by section 4.1.2.4 of the PostgreSQL manual ----

  predicate IsLetter(c: char) {
    'a' <= c <= 'z' || 'A' <= c <= 'Z' || c == '_' || c >= 128 as char
  }

  predicate IsTagChar(c: char) {
    IsLetter(c) || '0' <= c <= '9'
  }

  /** An identifier without dollar signs, or nothing. */
  predicate IsTag(t: string) {
    t == "" || (IsLetter(t[0]) && forall i :: 0 <= i < |t| ==> IsTagChar(t[i]))
  }

  /**
   What a dollar-quoted constant at the start of the text stands for, and the text behind it: a
   dollar sign, a tag, a dollar sign, then everything up to the first repetition of that delimiter.
   */
  function Read(text: string): Option<(string, string)> {
    if text == "" || text[0] != '$' then None
    else
      var close := Find(text, "$", 1);
      if close.None? || !IsTag(text[1..close.value]) then None
      else
        var delimiter, body := text[..close.value + 1], text[close.value + 1..];
        var end := Find(body, delimiter, 0);
        if end.None? then None else Some((body[..end.value], body[end.value + |delimiter|..]))
  }

  lemma NextDollar(tag: string, text: string)
    requires tag != "" && IsTag(tag) && Delimiter(tag) <= text
    ensures Find(text, "$", 1) == Some(|tag| + 1)
  {
    var d := Delimiter(tag);
    assert text[|tag| + 1..|tag| + 2] == "$" && OccursAt(text, "$", |tag| + 1);
    forall j: nat | 1 <= j <= |tag| ensures !OccursAt(text, "$", j) {
      assert text[j] == d[j] == tag[j - 1] && IsTagChar(tag[j - 1]);
      assert text[j..j + 1][0] == text[j];
    }
  }

  lemma Opening(tag: string, d: string, body: string, text: string)
    requires d == Delimiter(tag) && text == d + body
    ensures var n := |tag| + 1;
      |d| == n + 1 <= |text| && text[0] == '$' && text[1..n] == tag && text[..n + 1] == d && text[n + 1..] == body
  {
  }

  /** The opening delimiter is recognised for what it is. */
  lemma OpensWithDelimiter(tag: string, body: string)
    requires tag != "" && IsTag(tag)
    ensures var d := Delimiter(tag); var end := Find(body, d, 0);
      Read(d + body) == if end.None? then None else Some((body[..end.value], body[end.value + |d|..]))
  {
    hide IsTag, Find, Delimiter;
    var d := Delimiter(tag);
    var text := d + body;
    Opening(tag, d, body, text);
    NextDollar(tag, text);
  }

  predicate DollarFree(tag: string) {
    forall k :: 0 <= k < |tag| ==> tag[k] != '$'
  }

  predicate EndsWith(s: string, suffix: string) {
    |suffix| <= |s| && s[|s| - |suffix|..] == suffix
  }

  /** The delimiter's only border is its dollar sign: it can occur early only by sharing that one character. */
  lemma EarlyOccurrence(s: string, tag: string, i: nat)
    requires DollarFree(tag)
    requires !Contains(s, Delimiter(tag)) && i < |s| && OccursAt(s + Delimiter(tag), Delimiter(tag), i)
    ensures EndsWith(s, Bare(tag)) && i == |s| - |tag| - 1
  {
    var d := Delimiter(tag);
    var text := s + d;
    if i + |d| <= |s| {
      assert OccursAt(s, d, i);
      assert false;
    } else {
      var k := |s| - i;
      assert text[|s|] == '$' && text[i..i + |d|][k] == d[k];
      assert k == |tag| + 1;
      assert s[i..] == text[i..i + |d|][..k] == d[..k];
    }
  }

  /** And it does so when the text ends in a dollar sign and the tag. */
  lemma {:induction false} TailOccurs(s: string, tag: string)
    requires EndsWith(s, Bare(tag))
    ensures |s| > |tag| && OccursAt(s + Delimiter(tag), Delimiter(tag), |s| - |tag| - 1)
  {
    var i := |s| - |tag| - 1;
    assert (s + Delimiter(tag))[i..i + |tag| + 2] == s[i..] + "$";
  }

  lemma FoundAt(text: string, pattern: string, end: nat)
    requires OccursAt(text, pattern, end) && forall j: nat :: j < end ==> !OccursAt(text, pattern, j)
    ensures Find(text, pattern, 0) == Some(end)
  {
  }

  lemma {:induction false} LastOccurs(s: string, pattern: string)
    ensures OccursAt(s + pattern, pattern, |s|)
  {
    assert (s + pattern)[|s|..|s| + |pattern|] == pattern;
  }

  /** Where the reader sees the end. */
  lemma {:induction false} EndFound(s: string, tag: string)
    requires DollarFree(tag)
    requires !Contains(s, Delimiter(tag))
    ensures Find(s + Delimiter(tag), Delimiter(tag), 0) == Some(if EndsWith(s, Bare(tag)) then |s| - |tag| - 1 else |s|)
  {
    hide OccursAt, Find, Contains, EndsWith, Delimiter, Bare;
    var d := Delimiter(tag);
    var text := s + d;
    LastOccurs(s, d);
    forall j: nat | j < |s| && OccursAt(text, d, j) ensures EndsWith(s, Bare(tag)) && j == |s| - |tag| - 1 {
      EarlyOccurrence(s, tag, j);
    }
    if EndsWith(s, Bare(tag)) {
      TailOccurs(s, tag);
      FoundAt(text, d, |s| - |tag| - 1);
    } else {
      FoundAt(text, d, |s|);
    }
  }

  /** With any tag whose delimiter does not occur in s: only an ending in a dollar sign and the tag is lost. */
  lemma ReadsBack(s: string, tag: string)
    requires tag != "" && IsTag(tag) && DollarFree(tag) && !Contains(s, Delimiter(tag))
    ensures Read(QuotedWith(s, tag))
         == if EndsWith(s, Bare(tag)) then Some((s[..|s| - |Bare(tag)|], tag + "$")) else Some((s, ""))
  {
    hide Find, Read, Contains;
    var d := Delimiter(tag);
    var text := s + d;
    OpensWithDelimiter(tag, text);
    EndFound(s, tag);
    if EndsWith(s, Bare(tag)) {
      var cut := |s| - |tag| - 1;
      assert text[..cut] == s[..cut] && text[cut + |d|..] == tag + "$";
    } else {
      assert text[..|s|] == s && text[|s| + |d|..] == "";
    }
  }

  /**
   Reading inverts quoting if and only if the text does not end in a dollar sign and the tag chosen
   for it. When it does, that ending is lost, and the tag and a dollar sign are left behind the constant.
   */
  lemma {:induction false} RoundTrip(s: string)
    ensures var tag := Tag(TagFor(s, 0));
      && (Read(Quoted(s)) == Some((s, "")) <==> !EndsWith(s, Bare(tag)))
      && (EndsWith(s, Bare(tag)) ==> Read(Quoted(s)) == Some((s[..|s| - |tag| - 1], tag + "$")))
  {
    ReadsBack(s, Tag(TagFor(s, 0)));
  }

  lemma NoDelimiter(password: string, s: string)
    requires s == password + "$gtg" && DollarFree(password)
    ensures !Contains(s, "$gtg$")
  {
    forall i: nat | i <= |s| ensures !OccursAt(s, "$gtg$", i) {
      assert i + 5 <= |s| ==> s[i..i + 5][0] == s[i] && s[i..i + 5][4] == s[i + 4];
    }
  }

  /** A password that is read back shortened. */
  lemma EndingLost(password: string)
    requires DollarFree(password)
    ensures Read(Quoted(password + "$gtg")) == Some((password, "gtg$"))
  {
    hide Read, QuotedWith, Contains, DollarFree;
    var s, n := password + "$gtg", |password|;
    assert Tag(0) == "gtg" && Delimiter(Tag(0)) == "$gtg$" && Bare(Tag(0)) == "$gtg";
    NoDelimiter(password, s);
    RoundTrip(s);
    assert s[n..] == "$gtg" && s[..n] == password;
    assert Tag(0) + "$" == "gtg$";
  }
}
