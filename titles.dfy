/** Default titles of saved prompts: the first line of the improved text,
    cut to 100 characters, or a fixed placeholder when that line is empty. */
module Titles {

  /** The placeholder title used when the first line of the improved text is empty. */
  const Untitled: string := "無題のプロンプト"

  /** Longest default title, in code points. */
  const MaxTitleLength: nat := 100

  /** The characters at which Python's `str.splitlines` ends a line
      (`\r\n` ends the line at its `\r`, which is all the first line needs). */
  predicate IsLineBreak(c: char)
  {
    c == '\n' || c == '\r' || c == '\U{000B}' || c == '\U{000C}'
    || c == '\U{001C}' || c == '\U{001D}' || c == '\U{001E}'
    || c == '\U{0085}' || c == '\U{2028}' || c == '\U{2029}'
  }

  /** The first line of `s`: its longest prefix without a line break.
      For non-empty `s` this is `s.splitlines()[0]`. */
  function FirstLine(s: string): (line: string)
    ensures line <= s
    ensures forall i :: 0 <= i < |line| ==> !IsLineBreak(line[i])
    ensures |line| == |s| || IsLineBreak(s[|line|])
  {
    if s == [] || IsLineBreak(s[0]) then [] else [s[0]] + FirstLine(s[1..])
  }

  /** `s[:n]` */
  function Truncate(s: string, n: nat): string
  {
    if |s| <= n then s else s[..n]
  }

  /** `improved.splitlines()[0][:100] or UNTITLED_PROMPT`. `update_prompt` indexes the
      first line without a check, so the text must not be empty. */
  function DeriveTitle(improved: string): (title: string)
    requires improved != []
    ensures IsLineBreak(improved[0]) ==> title == Untitled
    ensures !IsLineBreak(improved[0]) ==>
              0 < |title| <= MaxTitleLength && title <= improved
              && (forall i :: 0 <= i < |title| ==> !IsLineBreak(title[i]))
              && (|title| == MaxTitleLength || |title| == |improved| || IsLineBreak(improved[|title|]))
  {
    var cut := Truncate(FirstLine(improved), MaxTitleLength);
    if cut == [] then Untitled else cut
  }
}
