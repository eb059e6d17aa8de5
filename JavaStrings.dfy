/** The behaviour of the java.lang.String and java.lang.Character operations the game
    relies on. Where Java consults the Unicode tables (isLetter, toUpperCase,
    equalsIgnoreCase) this module restricts itself to ASCII. */
module JavaStrings {

  /** Character.isLetter, on the ASCII letters. */
  predicate IsLetter(c: char) {
    ('A' <= c <= 'Z') || ('a' <= c <= 'z')
  }

  /** Character.toUpperCase, on ASCII. */
  function ToUpper(c: char): char {
    if 'a' <= c <= 'z' then (c as int - 32) as char else c
  }

  /** String.toUpperCase, character by character. */
  function ToUpperString(s: string): string {
    seq(|s|, i requires 0 <= i < |s| => ToUpper(s[i]))
  }

  /** `sub` occurs in `s` starting at index `k`. */
  predicate MatchAt(s: string, sub: string, k: int) {
    0 <= k && k + |sub| <= |s| && s[k..k + |sub|] == sub
  }

  /** String.contains. */
  predicate Contains(s: string, sub: string) {
    exists k :: 0 <= k <= |s| - |sub| && MatchAt(s, sub, k)
  }

  /** String.indexOf(sub, from) for a non-empty `sub`: the first match at or after
      `from`, or -1 when there is none. */
  function IndexOf(s: string, sub: string, from: nat): (r: int)
    requires |sub| > 0
    ensures r == -1 || (from <= r && MatchAt(s, sub, r))
    ensures forall k :: from <= k && (r == -1 || k < r) ==> !MatchAt(s, sub, k)
    decreases |s| - from
  {
    if from + |sub| > |s| then -1
    else if MatchAt(s, sub, from) then from
    else IndexOf(s, sub, from + 1)
  }

  /** String.replace(target, replacement): every non-overlapping occurrence of `target`,
      scanning left to right, is replaced. An empty target puts the replacement before
      every character and at the end. */
  function Replace(s: string, target: string, replacement: string): string
    decreases |s|
  {
    if |target| == 0 then Surround(s, replacement)
    else if |s| < |target| then s
    else if s[..|target|] == target then replacement + Replace(s[|target|..], target, replacement)
    else [s[0]] + Replace(s[1..], target, replacement)
  }

  /** The result of replacing the empty string: `r` before every character and at the end. */
  function Surround(s: string, r: string): string {
    if s == [] then r else r + [s[0]] + Surround(s[1..], r)
  }

  /** The characters of the regular-expression class \s. */
  predicate IsWhitespace(c: char) {
    c == ' ' || c == '\t' || c == '\n' || c == '\U{B}' || c == '\U{C}' || c == '\r'
  }

  /** s.replaceAll("\\s+", ""): every whitespace character removed. */
  function StripWhitespace(s: string): string {
    if s == [] then []
    else (if IsWhitespace(s[0]) then [] else [s[0]]) + StripWhitespace(s[1..])
  }

  /** String.equalsIgnoreCase, on ASCII. */
  predicate EqualsIgnoreCase(a: string, b: string) {
    |a| == |b| && forall i :: 0 <= i < |a| ==> ToUpper(a[i]) == ToUpper(b[i])
  }

  /** Replacing a single character by a space rewrites exactly the positions holding it. */
  lemma {:induction false} ReplaceCharAt(s: string, c: char)
    ensures |Replace(s, [c], " ")| == |s|
    ensures forall i :: 0 <= i < |s| ==>
      Replace(s, [c], " ")[i] == (if s[i] == c then ' ' else s[i])
  {
    if |s| > 0 {
      ReplaceCharAt(s[1..], c);
      var head: string := if s[0] == c then " " else [s[0]];
      assert s[..1] == [s[0]];
      assert Replace(s, [c], " ") == head + Replace(s[1..], [c], " ");
    }
  }

  /** A one-character needle is contained exactly when that character occurs. */
  lemma ContainsChar(s: string, c: char)
    ensures Contains(s, [c]) <==> c in s
  {
    if c in s {
      var k :| 0 <= k < |s| && s[k] == c;
      assert s[k..k + 1] == [c];
      assert MatchAt(s, [c], k);
    }
    if Contains(s, [c]) {
      var k :| 0 <= k <= |s| - 1 && MatchAt(s, [c], k);
      assert s[k..k + 1][0] == s[k];
    }
  }

  /** Once every occurrence of a non-space character has been replaced by a space, the
      character is gone, and replacing it again changes nothing. */
  lemma ReplaceCharRemoves(s: string, c: char)
    requires c != ' '
    ensures |Replace(s, [c], " ")| == |s|
    ensures c !in Replace(s, [c], " ")
    ensures !Contains(Replace(s, [c], " "), [c])
    ensures Replace(Replace(s, [c], " "), [c], " ") == Replace(s, [c], " ")
  {
    var once := Replace(s, [c], " ");
    ReplaceCharAt(s, c);
    ReplaceCharAt(once, c);
    ContainsChar(once, c);
  }
}
