/**
 * The string operations the tool applies: removing `[` and `]` from qualified names
 * (`str.replace(r'[\[\]]', '')`), and Python's `str.strip()` and `str.lower()` on the
 * continuation answer.
 */
module Text {

  predicate IsBracket(c: char) {
    c == '[' || c == ']'
  }

  /** No `[` or `]` anywhere in `s`. */
  predicate BracketFree(s: string) {
    forall i :: 0 <= i < |s| ==> !IsBracket(s[i])
  }

  /** `s` with every `[` and `]` removed; all other characters kept, in order. */
  function StripBrackets(s: string): (r: string)
    ensures BracketFree(r)
    ensures |r| <= |s|
  {
    if s == [] then []
    else if IsBracket(s[0]) then StripBrackets(s[1..])
    else [s[0]] + StripBrackets(s[1..])
  }

  /** Removing brackets works piece by piece: the kept characters keep their relative order. */
  lemma {:induction false} StripBracketsAppend(a: string, b: string)
    ensures StripBrackets(a + b) == StripBrackets(a) + StripBrackets(b)
  {
    if a == [] {
      assert a + b == b;
    } else {
      assert (a + b)[0] == a[0];
      assert (a + b)[1..] == a[1..] + b;
      StripBracketsAppend(a[1..], b);
    }
  }

  /** A string without brackets is left exactly as it is. */
  lemma {:induction false} StripBracketsKeeps(s: string)
    requires BracketFree(s)
    ensures StripBrackets(s) == s
  {
    if s != [] {
      StripBracketsKeeps(s[1..]);
    }
  }

  /** A bracketed name loses exactly its enclosing brackets. */
  lemma StripBracketsEnclosed(s: string)
    requires BracketFree(s)
    ensures StripBrackets("[" + s + "]") == s
  {
    StripBracketsAppend("[" + s, "]");
    StripBracketsAppend("[", s);
    StripBracketsKeeps(s);
  }

  /** Stripping twice is stripping once. */
  lemma StripBracketsIdempotent(s: string)
    ensures StripBrackets(StripBrackets(s)) == StripBrackets(s)
  {
    StripBracketsKeeps(StripBrackets(s));
  }

  /** Every character other than a bracket occurs as often after stripping as before. */
  lemma {:induction false} StripBracketsCounts(s: string, c: char)
    requires !IsBracket(c)
    ensures multiset(StripBrackets(s))[c] == multiset(s)[c]
    ensures multiset(StripBrackets(s))['['] == 0 && multiset(StripBrackets(s))[']'] == 0
  {
    if s != [] {
      StripBracketsCounts(s[1..], c);
      assert s == [s[0]] + s[1..];
    }
  }

  /**
   * The characters Python's `str.isspace()` accepts: the C0 whitespace and separator
   * controls, space, NEL, NO-BREAK SPACE, and the Unicode space separators.
   */
  predicate IsSpace(c: char) {
    var n := c as int;
    || (9 <= n <= 13) || (0x1C <= n <= 0x20) || n == 0x85 || n == 0xA0 || n == 0x1680
    || (0x2000 <= n <= 0x200A) || n == 0x2028 || n == 0x2029 || n == 0x202F
    || n == 0x205F || n == 0x3000
  }

  predicate AllSpace(s: string) {
    forall i :: 0 <= i < |s| ==> IsSpace(s[i])
  }

  /** `s.lstrip()`: what is left after the leading whitespace. */
  function LStrip(s: string): string
  {
    if s != [] && IsSpace(s[0]) then LStrip(s[1..]) else s
  }

  /** `lstrip` removes a prefix made only of whitespace, and what is left does not start with whitespace. */
  lemma {:induction false} LStripShape(s: string)
    ensures |LStrip(s)| <= |s| && LStrip(s) == s[|s| - |LStrip(s)|..]
    ensures AllSpace(s[..|s| - |LStrip(s)|])
    ensures LStrip(s) != [] ==> !IsSpace(LStrip(s)[0])
  {
    if s != [] && IsSpace(s[0]) {
      LStripShape(s[1..]);
    }
  }

  /** `s.rstrip()`: what is left after the trailing whitespace. */
  function RStrip(s: string): string
  {
    if s != [] && IsSpace(s[|s| - 1]) then RStrip(s[..|s| - 1]) else s
  }

  /** `rstrip` removes a suffix made only of whitespace, and what is left does not end with whitespace. */
  lemma {:induction false} RStripShape(s: string)
    ensures |RStrip(s)| <= |s| && RStrip(s) == s[..|RStrip(s)|]
    ensures AllSpace(s[|RStrip(s)|..])
    ensures RStrip(s) != [] ==> !IsSpace(RStrip(s)[|RStrip(s)| - 1])
  {
    if s != [] && IsSpace(s[|s| - 1]) {
      var t := s[..|s| - 1];
      RStripShape(t);
      assert RStrip(s) == RStrip(t);
      assert s[|RStrip(t)|..] == t[|RStrip(t)|..] + [s[|s| - 1]];
    }
  }

  /** `s.strip()`. */
  function Strip(s: string): string {
    RStrip(LStrip(s))
  }

  /**
   * The lower-case form of one character. Only the ASCII letters are mapped; no other
   * character's lower-case form is the letter `y`, so the decision that uses it is exact.
   */
  function LowerChar(c: char): (d: char)
    ensures d == 'y' <==> c == 'y' || c == 'Y'
  {
    if 'A' <= c <= 'Z' then (c as int + 32) as char else c
  }

  /** `s.lower()`, character by character. */
  function Lower(s: string): (r: string)
    ensures |r| == |s|
    ensures forall i :: 0 <= i < |s| ==> r[i] == LowerChar(s[i])
  {
    if s == [] then [] else [LowerChar(s[0])] + Lower(s[1..])
  }

  /** Leading whitespace does not matter to `lstrip`. */
  lemma {:induction false} LStripSkipsSpace(p: string, q: string)
    requires AllSpace(p)
    ensures LStrip(p + q) == LStrip(q)
  {
    if p != [] {
      assert (p + q)[1..] == p[1..] + q;
      LStripSkipsSpace(p[1..], q);
    } else {
      assert p + q == q;
    }
  }

  /** Trailing whitespace does not matter to `rstrip`. */
  lemma {:induction false} RStripSkipsSpace(p: string, q: string)
    requires AllSpace(q)
    ensures RStrip(p + q) == RStrip(p)
  {
    if q != [] {
      assert (p + q)[..|p + q| - 1] == p + q[..|q| - 1];
      RStripSkipsSpace(p, q[..|q| - 1]);
    } else {
      assert p + q == p;
    }
  }

  /**
   * The continuation prompt goes on exactly when the answer, lower-cased and stripped,
   * is `"y"`: when the answer is one `y` or `Y` with only whitespace around it.
   */
  predicate SaysYes(answer: string) {
    Lower(Strip(answer)) == "y"
  }

  /** `answer` is one `y` or `Y`, at position `k`, with only whitespace before and after it. */
  predicate YesAt(answer: string, k: int) {
    && 0 <= k < |answer|
    && (answer[k] == 'y' || answer[k] == 'Y')
    && AllSpace(answer[..k]) && AllSpace(answer[k + 1..])
  }

  lemma YesAtSaysYes(answer: string, k: int)
    requires YesAt(answer, k)
    ensures SaysYes(answer)
  {
    assert answer == answer[..k] + ([answer[k]] + answer[k + 1..]);
    LStripSkipsSpace(answer[..k], [answer[k]] + answer[k + 1..]);
    assert LStrip([answer[k]] + answer[k + 1..]) == [answer[k]] + answer[k + 1..];
    RStripSkipsSpace([answer[k]], answer[k + 1..]);
    assert Strip(answer) == [answer[k]];
  }

  lemma SaysYesHasYesAt(answer: string) returns (k: int)
    requires SaysYes(answer)
    ensures YesAt(answer, k)
  {
    var l := LStrip(answer);
    var r := RStrip(l);
    LStripShape(answer);
    RStripShape(l);
    assert |r| == 1;
    k := |answer| - |l|;
    assert answer[k] == r[0];
    assert answer[k + 1..] == l[1..];
    assert l[1..] == l[|r|..];
  }

  lemma SaysYesIff(answer: string)
    ensures SaysYes(answer) <==> exists k :: YesAt(answer, k)
  {
    if SaysYes(answer) {
      var k := SaysYesHasYesAt(answer);
    }
    if exists k :: YesAt(answer, k) {
      var k :| YesAt(answer, k);
      YesAtSaysYes(answer, k);
    }
  }
}
