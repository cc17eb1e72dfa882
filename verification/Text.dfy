/** Trimming of blanks, and lower-casing of ASCII with the two other letters that lower-case into it. */
module Text {
  /** unicode.IsSpace. */
  predicate IsSpace(c: char) {
    c == ' ' || '\t' <= c <= '\r' || c == '\U{85}' || c == '\U{A0}' || c == '\U{1680}' ||
    '\U{2000}' <= c <= '\U{200A}' || c == '\U{2028}' || c == '\U{2029}' || c == '\U{202F}' || c == '\U{205F}' ||
    c == '\U{3000}'
  }

  function Trim(s: string): string
    decreases |s|
  {
    if s == "" then ""
    else if IsSpace(s[0]) then Trim(s[1..])
    else if IsSpace(s[|s| - 1]) then Trim(s[..|s| - 1])
    else s
  }

  predicate Blank(s: string) {
    forall i :: 0 <= i < |s| ==> IsSpace(s[i])
  }

  lemma BlankAround(c: char, front: string, mid: string, back: string)
    requires IsSpace(c) && Blank(front) && Blank(back)
    ensures Blank([c] + front) && Blank(back + [c])
    ensures [c] + (front + mid + back) == [c] + front + mid + back
    ensures front + mid + back + [c] == front + mid + (back + [c])
  {
    hide IsSpace;
  }

  lemma TrimSteps(s: string)
    ensures s != "" && IsSpace(s[0]) ==> Trim(s) == Trim(s[1..])
    ensures s != "" && !IsSpace(s[0]) && IsSpace(s[|s| - 1]) ==> Trim(s) == Trim(s[..|s| - 1])
    ensures s == "" || (!IsSpace(s[0]) && !IsSpace(s[|s| - 1])) ==> Trim(s) == s
  {
    hide IsSpace;
  }

  /** Trimming takes the blanks at both ends and nothing else. */
  lemma {:induction false} TrimIsTheMiddle(s: string) returns (front: string, back: string)
    ensures s == front + Trim(s) + back && Blank(front) && Blank(back)
    ensures Trim(s) != "" ==> !IsSpace(Trim(s)[0]) && !IsSpace(Trim(s)[|Trim(s)| - 1])
    decreases |s|
  {
    TrimSteps(s);
    hide IsSpace, Trim, Blank;
    if s != "" && IsSpace(s[0]) {
      front, back := TrimIsTheMiddle(s[1..]);
      BlankAround(s[0], front, Trim(s), back);
      front := [s[0]] + front;
      assert s == [s[0]] + s[1..];
    } else if s != "" && IsSpace(s[|s| - 1]) {
      front, back := TrimIsTheMiddle(s[..|s| - 1]);
      BlankAround(s[|s| - 1], front, Trim(s), back);
      back := back + [s[|s| - 1]];
      assert s == s[..|s| - 1] + [s[|s| - 1]];
    } else {
      front, back := NoBlanks();
      assert s == "" + s + "";
    }
  }

  lemma NoBlanks() returns (front: string, back: string)
    ensures front == "" == back && Blank("")
  {
    front, back := "", "";
  }

  function LowerChar(c: char): char {
    if 'A' <= c <= 'Z' then c + 32 as char
    else if c == '\U{212A}' then 'k'   // the Kelvin sign
    else if c == '\U{130}' then 'i'    // I with a dot above
    else c
  }

  function Lower(s: string): string {
    seq(|s|, i requires 0 <= i < |s| => LowerChar(s[i]))
  }
}
