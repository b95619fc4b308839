/** The Python string primitives the core relies on: `strip()` truthiness,
    `sep.join(parts)`, `str(n)` for a non-negative int and `lower()`. */
module Text {

  /** The characters `str.strip()` removes, i.e. those for which Python's
      `str.isspace()` holds. */
  predicate IsSpace(c: char)
    ensures c == ' ' || c == '\t' || c == '\n' || c == '\r' ==> IsSpace(c)
    ensures IsSpace(c) ==> !('0' <= c <= '9' || 'A' <= c <= 'Z' || 'a' <= c <= 'z')
  {
    c == ' ' || ('\t' <= c <= '\r') || ('\U{1c}' <= c <= '\U{1f}')
    || c == '\U{85}' || c == '\U{a0}' || c == '\U{1680}'
    || ('\U{2000}' <= c <= '\U{200a}') || c == '\U{2028}' || c == '\U{2029}'
    || c == '\U{202f}' || c == '\U{205f}' || c == '\U{3000}'
  }

  /** `not s.strip()`: the string is empty or made of whitespace only. */
  predicate IsBlank(s: string)
    ensures s == "" ==> IsBlank(s)
  {
    forall i :: 0 <= i < |s| ==> IsSpace(s[i])
  }

  predicate StartsWith(s: string, prefix: string) {
    |prefix| <= |s| && s[..|prefix|] == prefix
  }

  predicate EndsWith(s: string, suffix: string) {
    |suffix| <= |s| && s[|s| - |suffix|..] == suffix
  }

  /** `sub` occurs in `s` starting at index `i`. */
  predicate OccursAt(s: string, sub: string, i: int) {
    0 <= i <= |s| - |sub| && s[i..i + |sub|] == sub
  }

  /** `sub in s` */
  ghost predicate Contains(s: string, sub: string) {
    exists i :: OccursAt(s, sub, i)
  }

  lemma {:induction false} ContainsMiddle(a: string, m: string, b: string)
    ensures Contains(a + m + b, m)
  {
    var s := a + m + b;
    assert OccursAt(s, m, |a|);
  }

  lemma {:induction false} ConcatEnds(a: string, b: string)
    ensures StartsWith(a + b, a) && EndsWith(a + b, b)
  {
    assert (a + b)[..|a|] == a;
    assert (a + b)[|a|..] == b;
  }

  lemma {:induction false} ContainsPrefix(m: string, b: string)
    ensures Contains(m + b, m)
  {
    assert OccursAt(m + b, m, 0) by { ConcatEnds(m, b); }
  }

  lemma {:induction false} ContainsExtendLeft(a: string, s: string, m: string)
    requires Contains(s, m)
    ensures Contains(a + s, m)
  {
    var i :| OccursAt(s, m, i);
    assert (a + s)[|a| + i..|a| + i + |m|] == s[i..i + |m|];
    assert OccursAt(a + s, m, |a| + i);
  }

  lemma {:induction false} ContainsExtendRight(s: string, b: string, m: string)
    requires Contains(s, m)
    ensures Contains(s + b, m)
  {
    var i :| OccursAt(s, m, i);
    assert (s + b)[i..i + |m|] == s[i..i + |m|];
    assert OccursAt(s + b, m, i);
  }

  lemma {:induction false} EndsWithExtendLeft(a: string, s: string, suffix: string)
    requires EndsWith(s, suffix)
    ensures EndsWith(a + s, suffix)
  {
    assert (a + s)[|a + s| - |suffix|..] == s[|s| - |suffix|..];
  }

  /** Python's `sep.join(parts)`. */
  function Join(sep: string, parts: seq<string>): (r: string)
    ensures |parts| == 1 ==> r == parts[0]
    ensures |parts| >= 2 ==> |r| >= |parts[0]| + |sep| + |parts[|parts| - 1]|
  {
    if |parts| == 0 then ""
    else if |parts| == 1 then parts[0]
    else Join(sep, parts[..|parts| - 1]) + sep + parts[|parts| - 1]
  }

  /** The joined string ends with the last part. */
  lemma {:induction false} JoinEndsWith(sep: string, parts: seq<string>)
    requires |parts| >= 1
    ensures EndsWith(Join(sep, parts), parts[|parts| - 1])
  {
    if |parts| > 1 {
      ConcatEnds(Join(sep, parts[..|parts| - 1]) + sep, parts[|parts| - 1]);
    }
  }

  lemma {:induction false} JoinAppend(sep: string, parts: seq<string>, x: string)
    ensures Join(sep, parts + [x]) == if parts == [] then x else Join(sep, parts) + sep + x
  {
    assert (parts + [x])[..|parts|] == parts;
  }

  /** The joined string begins with the first part. */
  lemma {:induction false} JoinStartsWith(sep: string, parts: seq<string>)
    requires |parts| >= 1
    ensures StartsWith(Join(sep, parts), parts[0])
  {
    if |parts| > 1 {
      var init := parts[..|parts| - 1];
      JoinStartsWith(sep, init);
      assert init[0] == parts[0];
    }
  }

  /** Joining keeps every part: a part that is not blank makes the join not blank. */
  lemma {:induction false} JoinNotBlank(sep: string, parts: seq<string>, k: nat)
    requires k < |parts| && !IsBlank(parts[k])
    ensures !IsBlank(Join(sep, parts))
  {
    var j :| 0 <= j < |parts[k]| && !IsSpace(parts[k][j]);
    if |parts| == 1 {
    } else if k == |parts| - 1 {
      var s := Join(sep, parts);
      var pre := Join(sep, parts[..|parts| - 1]) + sep;
      assert s[|pre| + j] == parts[k][j];
    } else {
      var init := parts[..|parts| - 1];
      assert init[k] == parts[k];
      JoinNotBlank(sep, init, k);
      var i :| 0 <= i < |Join(sep, init)| && !IsSpace(Join(sep, init)[i]);
      assert Join(sep, parts)[i] == Join(sep, init)[i];
    }
  }

  /** When no part is empty, the join is empty exactly when there are no parts. */
  lemma {:induction false} JoinEmptyIff(sep: string, parts: seq<string>)
    requires forall i :: 0 <= i < |parts| ==> parts[i] != ""
    ensures Join(sep, parts) == "" <==> parts == []
  {
    if |parts| > 1 {
      assert |Join(sep, parts)| >= |parts[|parts| - 1]| > 0;
    }
  }

  function DigitChar(d: nat): char
    requires d < 10
  {
    "0123456789"[d]
  }

  /** `str(n)` for a non-negative int: its decimal digits, no leading zeros. */
  function NatToString(n: nat): (r: string)
    ensures |r| >= 1
    decreases n
  {
    if n < 10 then [DigitChar(n)] else NatToString(n / 10) + [DigitChar(n % 10)]
  }

  function LowerChar(c: char): char {
    if 'A' <= c <= 'Z' then (c as int + 32) as char else c
  }

  /** `s.lower()` restricted to ASCII letters. */
  function Lower(s: string): (r: string)
    ensures |r| == |s|
  {
    seq(|s|, i requires 0 <= i < |s| => LowerChar(s[i]))
  }

  /** `language.lower() == 'english'` */
  predicate IsEnglish(language: string)
    ensures IsEnglish(language) ==> |language| == 7
  {
    Lower(language) == "english"
  }

  /** The comparison ignores the case of ASCII letters only. */
  lemma {:induction false} EnglishAnyCase()
    ensures IsEnglish("english") && IsEnglish("English") && IsEnglish("ENGLISH")
    ensures !IsEnglish(" english") && !IsEnglish("englisch")
  {
    assert Lower("English") == "english";
    assert Lower("ENGLISH") == "english";
    assert |Lower(" english")| == 8;
    assert Lower("englisch")[5] == 's';
    assert Lower("english") == "english";
  }
}
