/**
 * The few Python `str` operations the converter relies on: `isspace`,
 * `strip`, `split` on one character, `join`, `lower`, and the
 * `split('\n')[-1]` idiom used to pick the last diagnostic line.
 */
module Text {

  /** Python's `str.isspace()` for one character (the Unicode whitespace set). */
  predicate IsSpace(c: char) {
    c == ' ' || ('\t' <= c <= '\r') || ('\U{1C}' <= c <= '\U{1F}')
    || c == '\U{85}' || c == '\U{A0}' || c == '\U{1680}'
    || ('\U{2000}' <= c <= '\U{200A}') || c == '\U{2028}' || c == '\U{2029}'
    || c == '\U{202F}' || c == '\U{205F}' || c == '\U{3000}'
  }

  predicate AllSpace(s: string) {
    forall i :: 0 <= i < |s| ==> IsSpace(s[i])
  }

  /** Number of whitespace characters at the start of `s`. */
  function LeadingSpace(s: string): (n: nat)
    ensures n <= |s|
    ensures AllSpace(s[..n])
    ensures n == |s| || !IsSpace(s[n])
  {
    if s != [] && IsSpace(s[0]) then
      var n := 1 + LeadingSpace(s[1..]);
      assert s[..n] == [s[0]] + s[1..][..n - 1];
      n
    else 0
  }

  /** Number of whitespace characters at the end of `s`. */
  function TrailingSpace(s: string): (n: nat)
    ensures n <= |s|
    ensures AllSpace(s[|s| - n..])
    ensures n == |s| || !IsSpace(s[|s| - 1 - n])
  {
    if s != [] && IsSpace(s[|s| - 1]) then
      var init := s[..|s| - 1];
      var n := 1 + TrailingSpace(init);
      DropLast(s, |s| - n);
      n
    else 0
  }

  /** Every character of an all-whitespace suffix of `s` is whitespace in `s`. */
  lemma SpaceSuffix(s: string, n: nat)
    requires n <= |s| && AllSpace(s[|s| - n..])
    ensures forall k :: |s| - n <= k < |s| ==> IsSpace(s[k])
  {
    forall k | |s| - n <= k < |s| ensures IsSpace(s[k]) {
      assert s[k] == s[|s| - n..][k - (|s| - n)];
    }
  }

  /** A string whose leading whitespace is all of it is all whitespace. */
  lemma AllLeading(s: string)
    requires LeadingSpace(s) == |s|
    ensures AllSpace(s)
  {
    assert s[..|s|] == s;
  }

  /**
   * When `s` is not all whitespace, its leading and trailing whitespace do
   * not meet, and what lies between them starts and ends with something else.
   */
  lemma Trimmed(s: string)
    requires LeadingSpace(s) < |s|
    ensures var lead := LeadingSpace(s); var trail := TrailingSpace(s);
      && lead + trail < |s|
      && var r := s[lead..|s| - trail];
      && r != [] && !IsSpace(r[0]) && !IsSpace(r[|r| - 1]) && !AllSpace(s)
      && lead + |r| <= |s| && s[lead..lead + |r|] == r && AllSpace(s[lead + |r|..])
  {
    var lead, trail := LeadingSpace(s), TrailingSpace(s);
    SpaceSuffix(s, trail);
    assert lead < |s| - trail;
    var r := s[lead..|s| - trail];
    assert lead + |r| == |s| - trail;
    assert !IsSpace(r[0]) by {
      assert r[0] == s[lead];
    }
    assert !IsSpace(r[|r| - 1]) by {
      assert r[|r| - 1] == s[|s| - 1 - trail];
    }
    assert !AllSpace(s) by {
      assert !IsSpace(s[lead]);
    }
  }

  /**
   * Python's `str.strip()`: `s` is whitespace, then the result, then
   * whitespace, and the result neither starts nor ends with whitespace.
   */
  function Strip(s: string): (r: string)
    ensures |r| <= |s|
    ensures r == [] || (!IsSpace(r[0]) && !IsSpace(r[|r| - 1]))
    ensures r == [] <==> AllSpace(s)
    ensures var lead := LeadingSpace(s);
      lead + |r| <= |s| && s[lead..lead + |r|] == r && AllSpace(s[lead + |r|..])
  {
    var lead := LeadingSpace(s);
    if lead == |s| then
      AllLeading(s);
      []
    else
      Trimmed(s);
      s[lead..|s| - TrailingSpace(s)]
  }

  /**
   * Python's `s.split(sep)` for a one-character separator: pieces free of
   * the separator, which JoinSplit shows `sep.join` puts back together.
   * It is built from the end of `s`, one character at a time.
   */
  function Split(s: string, sep: char): (parts: seq<string>)
    ensures |parts| >= 1
    ensures forall k :: 0 <= k < |parts| ==> sep !in parts[k]
  {
    if s == [] then [[]]
    else
      var init := Split(s[..|s| - 1], sep);
      var c := s[|s| - 1];
      if c == sep then init + [[]]
      else init[..|init| - 1] + [init[|init| - 1] + [c]]
  }

  /** Python's `sep.join(parts)`. */
  function JoinWith(parts: seq<string>, sep: string): string {
    if |parts| == 0 then []
    else if |parts| == 1 then parts[0]
    else parts[0] + sep + JoinWith(parts[1..], sep)
  }

  /** Joining one more part appends the separator and that part. */
  lemma {:induction false} JoinWithSnoc(parts: seq<string>, x: string, sep: string)
    requires parts != []
    ensures JoinWith(parts + [x], sep) == JoinWith(parts, sep) + sep + x
  {
    if |parts| == 1 {
      assert (parts + [x])[1..] == [x];
    } else {
      assert (parts + [x])[1..] == parts[1..] + [x];
      JoinWithSnoc(parts[1..], x, sep);
      assert JoinWith(parts, sep) == parts[0] + sep + JoinWith(parts[1..], sep);
    }
  }

  /** `sep.join(s.split(sep)) == s`: splitting loses nothing. */
  lemma {:induction false} JoinSplit(s: string, sep: char)
    ensures JoinWith(Split(s, sep), [sep]) == s
  {
    if s != [] {
      var s' := s[..|s| - 1];
      var c := s[|s| - 1];
      var init := Split(s', sep);
      JoinSplit(s', sep);
      assert s == s' + [c];
      if c == sep {
        JoinWithSnoc(init, [], [sep]);
      } else if |init| > 1 {
        var front := init[..|init| - 1];
        var last := init[|init| - 1];
        assert init == front + [last];
        JoinWithSnoc(front, last, [sep]);
        JoinWithSnoc(front, last + [c], [sep]);
      }
    }
  }

  /** `s.rfind(c)`: the index of the last `c` in `s`, or -1. */
  function RFind(s: string, c: char): (i: int)
    ensures -1 <= i < |s|
    ensures 0 <= i ==> s[i] == c
    ensures forall j :: i < j < |s| ==> s[j] != c
  {
    if s == [] then -1
    else if s[|s| - 1] == c then |s| - 1
    else RFind(s[..|s| - 1], c)
  }

  /** No `c` after index `i` means no `c` in the suffix after `i`. */
  lemma AbsentAfter(s: string, c: char, i: int)
    requires -1 <= i < |s|
    requires forall j :: i < j < |s| ==> s[j] != c
    ensures c !in s[i + 1..]
  {
    var r := s[i + 1..];
    forall k | 0 <= k < |r| ensures r[k] != c {
      assert r[k] == s[i + 1 + k];
    }
  }

  /**
   * `r` is a newline-free suffix of `s` that is either all of `s` or
   * preceded by a newline: the text after the last newline.
   */
  predicate IsFinalLine(s: string, r: string) {
    && '\n' !in r
    && |r| <= |s| && r == s[|s| - |r|..]
    && (|r| < |s| ==> s[|s| - |r| - 1] == '\n')
  }

  /**
   * The text after the last newline of `s` (all of `s` when it has none):
   * the last element of `s.split('\n')`, see LastLineIsLastPiece.
   */
  function LastLine(s: string): (r: string)
    ensures IsFinalLine(s, r)
  {
    var i := RFind(s, '\n');
    AbsentAfter(s, '\n', i);
    s[i + 1..]
  }

  /** Every character of a newline-free suffix `t` of `s` is not a newline in `s`. */
  lemma NewlineFreeSuffix(s: string, t: string)
    requires '\n' !in t && |t| <= |s| && t == s[|s| - |t|..]
    ensures forall k :: |s| - |t| <= k < |s| ==> s[k] != '\n'
  {
    forall k | |s| - |t| <= k < |s| ensures s[k] != '\n' {
      assert s[k] == t[k - (|s| - |t|)];
    }
  }

  /** Only one suffix of `s` is its final line. */
  lemma LastLineUnique(s: string, r: string)
    requires IsFinalLine(s, r)
    ensures r == LastLine(s)
  {
    var i := RFind(s, '\n');
    NewlineFreeSuffix(s, r);
    assert |r| < |s| ==> |s| - |r| - 1 <= i;
    assert |r| == |s| - (i + 1);
  }

  /** A suffix of `s` that starts before its last character. */
  lemma DropLast(s: string, i: nat)
    requires i < |s|
    ensures s[i..] == s[..|s| - 1][i..] + [s[|s| - 1]]
  {
  }

  /** A last character other than a newline extends the final line. */
  lemma LastLineSnoc(s: string)
    requires s != [] && s[|s| - 1] != '\n'
    ensures LastLine(s) == LastLine(s[..|s| - 1]) + [s[|s| - 1]]
  {
    var i := RFind(s[..|s| - 1], '\n');
    assert RFind(s, '\n') == i;
    DropLast(s, i + 1);
  }

  /** A last character other than the separator extends the last piece. */
  lemma SplitSnoc(s: string, sep: char)
    requires s != [] && s[|s| - 1] != sep
    ensures var parts := Split(s, sep); var init := Split(s[..|s| - 1], sep);
      parts[|parts| - 1] == init[|init| - 1] + [s[|s| - 1]]
  {
  }

  /** `s.split('\n')[-1]` is LastLine(s). */
  lemma {:induction false} LastLineIsLastPiece(s: string)
    ensures var parts := Split(s, '\n'); parts[|parts| - 1] == LastLine(s)
  {
    if s == [] {
      assert LastLine(s) == s[0..];
    } else if s[|s| - 1] == '\n' {
      assert RFind(s, '\n') == |s| - 1;
    } else {
      LastLineIsLastPiece(s[..|s| - 1]);
      SplitSnoc(s, '\n');
      LastLineSnoc(s);
    }
  }

  /** Python's `str.lower()` on one character, for ASCII letters. */
  function LowerChar(c: char): char {
    if 'A' <= c <= 'Z' then (c as int + 32) as char else c
  }

  /** Python's `str.lower()`, ASCII letters only. */
  function Lower(s: string): (r: string)
    ensures |r| == |s|
    ensures forall i :: 0 <= i < |s| ==> r[i] == LowerChar(s[i])
  {
    seq(|s|, i requires 0 <= i < |s| => LowerChar(s[i]))
  }
}
