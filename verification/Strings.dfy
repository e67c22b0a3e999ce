/** White space as Go's strings.TrimSpace sees it. */
module Strings {
  import JavaScript = Text

  predicate IsSpace(c: char) {
    || '\t' <= c <= '\r' || c == ' ' || c == '\U{0085}' || c == '\U{00A0}' || c == '\U{1680}'
    || '\U{2000}' <= c <= '\U{200A}' || c == '\U{2028}' || c == '\U{2029}'
    || c == '\U{202F}' || c == '\U{205F}' || c == '\U{3000}'
  }

  /** It differs from JavaScript's in two characters: the next line counts here, and the byte order mark there. */
  lemma SpacesDiffer(c: char)
    ensures IsSpace(c) <==> (JavaScript.IsSpace(c) && c != '\U{FEFF}') || c == '\U{0085}'
    ensures JavaScript.IsSpace(c) <==> (IsSpace(c) && c != '\U{0085}') || c == '\U{FEFF}'
  {
  }

  /** The text between its first and last characters that are not white space. */
  function TrimSpace(s: string): (r: string)
    ensures s != "" && !IsSpace(s[0]) && !IsSpace(s[|s| - 1]) ==> r == s
    ensures s == "" ==> r == ""
    ensures r != "" ==> !IsSpace(r[0]) && !IsSpace(r[|r| - 1])
  {
    if s != "" && IsSpace(s[0]) then TrimSpace(s[1..])
    else if s != "" && IsSpace(s[|s| - 1]) then TrimSpace(s[..|s| - 1])
    else s
  }

  /** Only white space is removed: what is left is the text from i to j, with nothing but white space outside. */
  lemma {:induction false} TrimSpaceCuts(s: string) returns (i: nat, j: nat)
    ensures i <= j <= |s| && TrimSpace(s) == s[i..j]
    ensures forall k :: 0 <= k < |s| && !(i <= k < j) ==> IsSpace(s[k])
  {
    hide IsSpace;
    i, j := 0, |s|;
    if s != "" && IsSpace(s[0]) {
      var a, b := TrimSpaceCuts(s[1..]);
      i, j := a + 1, b + 1;
      assert forall k :: 1 <= k < |s| ==> s[k] == s[1..][k - 1];
    } else if s != "" && IsSpace(s[|s| - 1]) {
      i, j := TrimSpaceCuts(s[..|s| - 1]);
      assert forall k :: 0 <= k < |s| - 1 ==> s[k] == s[..|s| - 1][k];
    }
  }
}
