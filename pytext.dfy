/**
 * The few Python `str` operations the request handlers rely on: `isspace`, `strip`,
 * `split` (on whitespace and on one separator), `join`, `lower`, `isdigit` and the
 * decimal conversion done by `int`/`str`.
 */
module PyText {

  /** Python's `str.isspace()` for one character (ASCII and Unicode white-space). */
  predicate IsSpace(c: char) {
    || c == ' '
    || ('\U{9}' <= c <= '\U{D}')
    || ('\U{1C}' <= c <= '\U{1F}')
    || c == '\U{85}' || c == '\U{A0}' || c == '\U{1680}'
    || ('\U{2000}' <= c <= '\U{200A}')
    || c == '\U{2028}' || c == '\U{2029}' || c == '\U{202F}' || c == '\U{205F}' || c == '\U{3000}'
  }

  predicate IsDot(c: char) { c == '.' }

  /** The first index from `i` on whose character is kept (`|s|` when there is none). */
  function FirstKept(s: string, drop: char -> bool, i: nat): (r: nat)
    requires i <= |s|
    ensures i <= r <= |s|
    ensures forall k :: i <= k < r ==> drop(s[k])
    ensures r == |s| || !drop(s[r])
    decreases |s| - i
  {
    if i < |s| && drop(s[i]) then FirstKept(s, drop, i + 1) else i
  }

  /** The end of the last kept character below `j`, scanning down no further than `lo`. */
  function LastKeptEnd(s: string, drop: char -> bool, lo: nat, j: nat): (r: nat)
    requires lo <= j <= |s|
    ensures lo <= r <= j
    ensures forall k :: r <= k < j ==> drop(s[k])
    ensures r == lo || !drop(s[r - 1])
    decreases j
  {
    if j > lo && drop(s[j - 1]) then LastKeptEnd(s, drop, lo, j - 1) else j
  }

  /**
   * `s.strip(chars)`: the infix of `s` left when every dropped character at either
   * end is cut away. It neither starts nor ends with a dropped character, and a
   * string with nothing to drop at its ends comes back unchanged.
   */
  function Strip(s: string, drop: char -> bool): (r: string)
    ensures var i := FirstKept(s, drop, 0); var j := LastKeptEnd(s, drop, i, |s|);
      && r == s[i..j]
      && (forall k :: 0 <= k < i ==> drop(s[k]))
      && (forall k :: j <= k < |s| ==> drop(s[k]))
    ensures r == [] || (!drop(r[0]) && !drop(r[|r| - 1]))
    ensures s == [] || (!drop(s[0]) && !drop(s[|s| - 1])) ==> r == s
  {
    var i := FirstKept(s, drop, 0);
    var j := LastKeptEnd(s, drop, i, |s|);
    s[i..j]
  }

  /** Python's `str.lower()` restricted to ASCII letters. */
  function LowerChar(c: char): char {
    if 'A' <= c <= 'Z' then (c as int + 32) as char else c
  }

  predicate NoUpper(s: string) {
    forall k :: 0 <= k < |s| ==> !('A' <= s[k] <= 'Z')
  }

  function Lower(s: string): (r: string)
    ensures |r| == |s| && NoUpper(r)
    ensures forall k :: 0 <= k < |s| ==> r[k] == LowerChar(s[k])
    ensures forall k :: 0 <= k < |s| ==> (IsSpace(r[k]) <==> IsSpace(s[k])) && (r[k] == '.' <==> s[k] == '.')
    ensures NoUpper(s) ==> r == s
  {
    seq(|s|, k requires 0 <= k < |s| => LowerChar(s[k]))
  }

  // ---- split on one separator, and join -------------------------------------

  /** How many times `c` occurs in `s`. */
  function Occurrences(s: string, c: char): nat
    decreases |s|
  {
    if s == [] then 0 else (if s[0] == c then 1 else 0) + Occurrences(s[1..], c)
  }

  /** `s.split(sep)`: always at least one part, one more than the separators in `s`. */
  function SplitOn(s: string, sep: char): (parts: seq<string>)
    ensures |parts| == Occurrences(s, sep) + 1
    ensures forall k :: 0 <= k < |parts| ==> sep !in parts[k]
    decreases |s|
  {
    if s == [] then [""]
    else
      var rest := SplitOn(s[1..], sep);
      assert s == [s[0]] + s[1..];
      if s[0] == sep then [""] + rest
      else [[s[0]] + rest[0]] + rest[1..]
  }

  /** `sep.join(parts)`. */
  function JoinOn(parts: seq<string>, sep: char): string
    decreases |parts|
  {
    if parts == [] then ""
    else if |parts| == 1 then parts[0]
    else parts[0] + [sep] + JoinOn(parts[1..], sep)
  }

  /** A character put in front of the first part is put in front of the join. */
  lemma JoinOnConsFirst(c: char, parts: seq<string>, sep: char)
    requires parts != []
    ensures JoinOn([[c] + parts[0]] + parts[1..], sep) == [c] + JoinOn(parts, sep)
  {
    var q := [[c] + parts[0]] + parts[1..];
    assert q[0] == [c] + parts[0] && q[1..] == parts[1..];
    if |parts| > 1 {
      assert JoinOn(q, sep) == q[0] + [sep] + JoinOn(q[1..], sep);
      assert JoinOn(parts, sep) == parts[0] + [sep] + JoinOn(parts[1..], sep);
    }
  }

  /** An empty first part followed by more parts joins to a leading separator. */
  lemma JoinOnEmptyFirst(parts: seq<string>, sep: char)
    requires parts != []
    ensures JoinOn([""] + parts, sep) == [sep] + JoinOn(parts, sep)
  {
    var q := [""] + parts;
    assert q[0] == "" && q[1..] == parts;
  }

  /** Joining the parts of a split gives back the original string. */
  lemma {:induction false} JoinSplit(s: string, sep: char)
    ensures JoinOn(SplitOn(s, sep), sep) == s
    decreases |s|
  {
    if s != [] {
      JoinSplit(s[1..], sep);
      var rest := SplitOn(s[1..], sep);
      if s[0] == sep {
        JoinOnEmptyFirst(rest, sep);
      } else {
        JoinOnConsFirst(s[0], rest, sep);
      }
      assert s == [s[0]] + s[1..];
    }
  }

  /** A separator-free string is split into itself alone. */
  lemma {:induction false} SplitFree(a: string, sep: char)
    requires sep !in a
    ensures SplitOn(a, sep) == [a]
    decreases |a|
  {
    if a != [] {
      assert a[0] in a;
      assert forall c :: c in a[1..] ==> c in a;
      SplitFree(a[1..], sep);
      assert a == [a[0]] + a[1..];
    }
  }

  /** A character other than the separator joins the first part of the rest. */
  lemma SplitOnCons(c: char, t: string, sep: char)
    requires c != sep
    ensures SplitOn([c] + t, sep) == [[c] + SplitOn(t, sep)[0]] + SplitOn(t, sep)[1..]
  {
    assert ([c] + t)[0] == c && ([c] + t)[1..] == t;
  }

  /** A separator after a separator-free prefix ends the first part. */
  lemma {:induction false} SplitAfterPart(a: string, b: string, sep: char)
    requires sep !in a
    ensures SplitOn(a + [sep] + b, sep) == [a] + SplitOn(b, sep)
    decreases |a|
  {
    if a == [] {
      assert a + [sep] + b == [sep] + b;
      assert ([sep] + b)[1..] == b;
    } else {
      var tail := a[1..];
      assert a == [a[0]] + tail;
      assert sep !in tail;
      SplitAfterPart(tail, b, sep);
      var t := tail + [sep] + b;
      assert a + [sep] + b == [a[0]] + t;
      SplitOnCons(a[0], t, sep);
      var rest := SplitOn(t, sep);
      assert rest[0] == tail && rest[1..] == SplitOn(b, sep);
    }
  }

  /** Splitting a join of separator-free parts gives back the parts. */
  lemma {:induction false} SplitJoin(parts: seq<string>, sep: char)
    requires parts != []
    requires forall k :: 0 <= k < |parts| ==> sep !in parts[k]
    ensures SplitOn(JoinOn(parts, sep), sep) == parts
    decreases |parts|
  {
    if |parts| == 1 {
      SplitFree(parts[0], sep);
    } else {
      assert forall k :: 0 <= k < |parts| - 1 ==> parts[1..][k] == parts[k + 1];
      SplitJoin(parts[1..], sep);
      SplitAfterPart(parts[0], JoinOn(parts[1..], sep), sep);
      assert parts == [parts[0]] + parts[1..];
    }
  }

  // ---- split on white-space -------------------------------------------------

  predicate NoSpace(s: string) {
    forall k :: 0 <= k < |s| ==> !IsSpace(s[k])
  }

  predicate AllSpace(s: string) {
    forall k :: 0 <= k < |s| ==> IsSpace(s[k])
  }

  /** The non-white-space characters of `s`, in order. */
  function Visible(s: string): string
    decreases |s|
  {
    if s == [] then ""
    else (if IsSpace(s[0]) then "" else [s[0]]) + Visible(s[1..])
  }

  function Concat(words: seq<string>): string
    decreases |words|
  {
    if words == [] then "" else words[0] + Concat(words[1..])
  }

  /** The longest prefix of `s` free of white-space. */
  function Word(s: string): (w: string)
    ensures |w| <= |s| && w == s[..|w|] && NoSpace(w)
    ensures |w| < |s| ==> IsSpace(s[|w|])
    decreases |s|
  {
    if s == [] || IsSpace(s[0]) then "" else [s[0]] + Word(s[1..])
  }

  /** A white-space-free string is all visible. */
  lemma {:induction false} VisibleOfWord(w: string)
    requires NoSpace(w)
    ensures Visible(w) == w
    decreases |w|
  {
    if w != [] {
      VisibleOfWord(w[1..]);
      assert w == [w[0]] + w[1..];
    }
  }

  lemma {:induction false} VisibleAppend(a: string, b: string)
    ensures Visible(a + b) == Visible(a) + Visible(b)
    decreases |a|
  {
    if a != [] {
      VisibleAppend(a[1..], b);
      assert (a + b)[1..] == a[1..] + b;
      assert (a + b)[0] == a[0];
    } else {
      assert a + b == b;
    }
  }

  /** The words of `s`, one maximal white-space-free run after the other. */
  function Words(s: string): seq<string>
    decreases |s|
  {
    if s == [] then []
    else if IsSpace(s[0]) then Words(s[1..])
    else [Word(s)] + Words(s[|Word(s)|..])
  }

  /** The words are non-empty and white-space-free, and hold the visible characters. */
  lemma {:induction false} WordsShape(s: string)
    ensures forall k :: 0 <= k < |Words(s)| ==> Words(s)[k] != [] && NoSpace(Words(s)[k])
    ensures Concat(Words(s)) == Visible(s)
    ensures Words(s) == [] <==> AllSpace(s)
    decreases |s|
  {
    if s != [] {
      if IsSpace(s[0]) {
        WordsShape(s[1..]);
        assert forall k :: 0 <= k < |s| - 1 ==> s[1..][k] == s[k + 1];
      } else {
        var w := Word(s);
        var rest := Words(s[|w|..]);
        WordsShape(s[|w|..]);
        assert s == w + s[|w|..];
        VisibleAppend(w, s[|w|..]);
        VisibleOfWord(w);
        assert ([w] + rest)[0] == w && ([w] + rest)[1..] == rest;
      }
    }
  }

  /**
   * `s.split()` with no argument: the maximal white-space-free runs of `s`. Every word
   * is non-empty and free of white-space, together they hold exactly the visible
   * characters of `s`, and there are none exactly when `s` is all white-space.
   * `SplitWhitespaceAt` and `SplitWhitespaceOfWord` fix which words they are.
   */
  function SplitWhitespace(s: string): (words: seq<string>)
    ensures forall k :: 0 <= k < |words| ==> words[k] != [] && NoSpace(words[k])
    ensures Concat(words) == Visible(s)
    ensures words == [] <==> AllSpace(s)
  {
    WordsShape(s);
    Words(s)
  }

  /** White-space ends the first word: what follows it does not change that word. */
  lemma {:induction false} WordAt(a: string, c: char, b: string)
    requires IsSpace(c)
    ensures Word(a + [c] + b) == Word(a)
    decreases |a|
  {
    var s := a + [c] + b;
    if a == [] {
      assert s[0] == c;
    } else {
      assert s[0] == a[0] && s[1..] == a[1..] + [c] + b;
      WordAt(a[1..], c, b);
    }
  }

  lemma {:induction false} WordsAt(a: string, c: char, b: string)
    requires IsSpace(c)
    ensures Words(a + [c] + b) == Words(a) + Words(b)
    decreases |a|
  {
    if a == [] {
      var s := a + [c] + b;
      assert s[0] == c && s[1..] == b;
    } else if IsSpace(a[0]) {
      WordsAt(a[1..], c, b);
      WordsAtSpace(a, c, b);
    } else {
      assert a[..|Word(a)|][0] == a[0];
      WordsAt(a[|Word(a)|..], c, b);
      WordsAtWord(a, c, b);
    }
  }

  /** The step of `WordsAt` for leading white-space. */
  lemma WordsAtSpace(a: string, c: char, b: string)
    requires a != [] && IsSpace(a[0])
    requires Words(a[1..] + [c] + b) == Words(a[1..]) + Words(b)
    ensures Words(a + [c] + b) == Words(a) + Words(b)
  {
    var s := a + [c] + b;
    assert s[0] == a[0] && s[1..] == a[1..] + [c] + b;
  }

  /** The step of `WordsAt` for a leading word. */
  lemma WordsAtWord(a: string, c: char, b: string)
    requires IsSpace(c) && a != [] && !IsSpace(a[0])
    requires Words(a[|Word(a)|..] + [c] + b) == Words(a[|Word(a)|..]) + Words(b)
    ensures Words(a + [c] + b) == Words(a) + Words(b)
  {
    var s := a + [c] + b;
    WordAt(a, c, b);
    var w := Word(a);
    var t := a[|w|..];
    assert s[0] == a[0];
    assert s[|w|..] == t + [c] + b;
    assert Words(s) == [w] + Words(t + [c] + b);
    assert [w] + (Words(t) + Words(b)) == ([w] + Words(t)) + Words(b);
  }

  /**
   * `split()` splits at every white-space character: the words of `a + [c] + b` are
   * the words of `a` followed by the words of `b`. With `SplitWhitespaceOfWord` and the
   * all-white-space case this fixes the words of every string.
   */
  lemma SplitWhitespaceAt(a: string, c: char, b: string)
    requires IsSpace(c)
    ensures SplitWhitespace(a + [c] + b) == SplitWhitespace(a) + SplitWhitespace(b)
  {
    WordsAt(a, c, b);
  }

  /** A non-empty white-space-free string is one word. */
  lemma SplitWhitespaceOfWord(w: string)
    requires w != [] && NoSpace(w)
    ensures SplitWhitespace(w) == [w]
  {
    assert Word(w) == w && !IsSpace(w[0]);
    assert w[|w|..] == [];
    assert Words(w) == [w] + Words([]);
  }

  /** The lines of a form field, separated by `"\r\n"`, are its words. */
  lemma CrLfSeparates()
    ensures SplitWhitespace("a\r\nb") == ["a", "b"]
  {
    assert "a\r\nb" == "a" + ['\r'] + "\nb";
    SplitWhitespaceAt("a", '\r', "\nb");
    assert "\nb" == "" + ['\n'] + "b";
    SplitWhitespaceAt("", '\n', "b");
    SplitWhitespaceOfWord("a");
    SplitWhitespaceOfWord("b");
  }

  /**
   * `split()` undoes a join: non-empty, white-space-free words joined by any white-space
   * character come back as exactly those words, so the number of words is fixed.
   */
  lemma {:induction false} SplitWhitespaceJoin(words: seq<string>, c: char)
    requires IsSpace(c)
    requires forall k :: 0 <= k < |words| ==> words[k] != [] && NoSpace(words[k])
    ensures SplitWhitespace(JoinOn(words, c)) == words
    decreases |words|
  {
    if |words| == 1 {
      SplitWhitespaceOfWord(words[0]);
    } else if |words| > 1 {
      assert forall k :: 0 <= k < |words| - 1 ==> words[1..][k] == words[k + 1];
      SplitWhitespaceJoin(words[1..], c);
      SplitWhitespaceAt(words[0], c, JoinOn(words[1..], c));
      SplitWhitespaceOfWord(words[0]);
      assert words == [words[0]] + words[1..];
    }
  }

  // ---- digits ---------------------------------------------------------------

  /** ASCII decimal digits: the characters `int()` is modelled to accept. */
  predicate IsDecimal(c: char) { '0' <= c <= '9' }

  /**
   * Superscript and subscript digits: Python's `isdigit()` accepts them, `int()`
   * rejects them.
   */
  predicate IsDigitOnly(c: char) {
    || c == '\U{B2}' || c == '\U{B3}' || c == '\U{B9}' || c == '\U{2070}'
    || ('\U{2074}' <= c <= '\U{2079}')
    || ('\U{2080}' <= c <= '\U{2089}')
  }

  /** Python's `str.isdigit()` for one character. */
  predicate IsDigit(c: char) { IsDecimal(c) || IsDigitOnly(c) }

  /** Python's `s.isdigit()`: non-empty and every character a digit. */
  predicate IsDigitString(s: string) {
    |s| > 0 && forall k :: 0 <= k < |s| ==> IsDigit(s[k])
  }

  predicate IsDecimalString(s: string) {
    |s| > 0 && forall k :: 0 <= k < |s| ==> IsDecimal(s[k])
  }

  /** `int(s)` on a string of ASCII digits. */
  function DecimalValue(s: string): nat
    requires forall k :: 0 <= k < |s| ==> IsDecimal(s[k])
    decreases |s|
  {
    if s == [] then 0
    else
      assert IsDecimal(s[|s| - 1]);
      DecimalValue(s[..|s| - 1]) * 10 + (s[|s| - 1] as int - '0' as int)
  }

  /** `str(n)` for a natural number. */
  function DecimalString(n: nat): (s: string)
    ensures IsDecimalString(s)
    decreases n
  {
    var d := ((n % 10) + '0' as int) as char;
    if n < 10 then [d] else DecimalString(n / 10) + [d]
  }

  /** `int(str(n)) == n`. */
  lemma {:induction false} DecimalRoundTrip(n: nat)
    ensures DecimalValue(DecimalString(n)) == n
    decreases n
  {
    var s := DecimalString(n);
    if n >= 10 {
      DecimalRoundTrip(n / 10);
      assert s[..|s| - 1] == DecimalString(n / 10);
    }
  }
}
