/** String helpers shared by the log-file parser and the option parser: splitting on
    a separator, splitting on whitespace, stripping, decimal digits and the
    lexicographic order on strings. */
module Text {
  import opened Wrappers

  /** The ASCII characters Python's `str.split()` and `str.strip()` treat as
      whitespace: tab, line feed, vertical tab, form feed, carriage return, the four
      information separators and space. */
  predicate IsSpace(c: char)
  {
    ('\t' <= c <= '\r') || ('\U{1C}' <= c <= ' ')
  }

  predicate IsDigit(c: char)
  {
    '0' <= c <= '9'
  }

  predicate AllDigits(s: string)
  {
    forall i :: 0 <= i < |s| ==> IsDigit(s[i])
  }

  /** Python's `s.split(sep)`: the pieces between occurrences of `sep`; never empty. */
  function Split(s: string, sep: char): (r: seq<string>)
    ensures |r| >= 1
    ensures forall i :: 0 <= i < |r| ==> sep !in r[i]
    ensures Join(r, sep) == s
  {
    if s == [] then [[]]
    else
      var r' := Split(s[1..], sep);
      if s[0] == sep then
        assert [s[0]] + s[1..] == s;
        [[]] + r'
      else
        var r := [[s[0]] + r'[0]] + r'[1..];
        assert r[1..] == r'[1..];
        assert |r'| > 1 ==> Join(r', sep) == r'[0] + [sep] + Join(r'[1..], sep);
        assert s == [s[0]] + s[1..];
        r
  }

  /** `sep.join(ps)`. */
  function Join(ps: seq<string>, sep: char): string
    requires |ps| >= 1
  {
    if |ps| == 1 then ps[0] else ps[0] + [sep] + Join(ps[1..], sep)
  }

  /** Every character of a join other than the separator comes from one of the pieces. */
  lemma {:induction false} JoinMembers(ps: seq<string>, sep: char, c: char)
    requires |ps| >= 1 && c in Join(ps, sep) && c != sep
    ensures exists i :: 0 <= i < |ps| && c in ps[i]
  {
    if |ps| > 1 && c !in ps[0] {
      JoinMembers(ps[1..], sep, c);
      var i :| 0 <= i < |ps[1..]| && c in ps[1..][i];
      assert c in ps[i + 1];
    }
  }

  /** A string without the separator is a single piece. */
  lemma {:induction false} SplitNoSep(a: string, sep: char)
    requires sep !in a
    ensures Split(a, sep) == [a]
  {
    if a != [] {
      SplitNoSep(a[1..], sep);
    }
  }

  /** The first piece ends at the first separator. */
  lemma {:induction false} SplitFirst(a: string, sep: char, b: string)
    requires sep !in a
    ensures Split(a + [sep] + b, sep) == [a] + Split(b, sep)
  {
    if a == [] {
      assert a + [sep] + b == [sep] + b;
      assert ([sep] + b)[1..] == b;
    } else {
      assert (a + [sep] + b)[1..] == a[1..] + [sep] + b;
      SplitFirst(a[1..], sep, b);
      assert [a[0]] + a[1..] == a;
    }
  }

  /** A separator cuts the string in two: the pieces of each side, one after the
      other. */
  lemma {:induction false} SplitAt(a: string, sep: char, b: string)
    ensures Split(a + [sep] + b, sep) == Split(a, sep) + Split(b, sep)
  {
    if a == [] {
      assert a + [sep] + b == [sep] + b;
      assert ([sep] + b)[1..] == b;
    } else {
      assert (a + [sep] + b)[1..] == a[1..] + [sep] + b;
      SplitAt(a[1..], sep, b);
    }
  }

  /** Splitting undoes joining pieces that do not contain the separator. */
  lemma {:induction false} SplitJoin(ps: seq<string>, sep: char)
    requires |ps| >= 1
    requires forall i :: 0 <= i < |ps| ==> sep !in ps[i]
    ensures Split(Join(ps, sep), sep) == ps
  {
    if |ps| == 1 {
      SplitNoSep(ps[0], sep);
    } else {
      SplitJoin(ps[1..], sep);
      SplitFirst(ps[0], sep, Join(ps[1..], sep));
      assert [ps[0]] + ps[1..] == ps;
    }
  }

  /** The longest prefix of `s` without whitespace. */
  function LeadingWord(s: string): (w: string)
    ensures |w| <= |s| && w == s[..|w|]
    ensures forall i :: 0 <= i < |w| ==> !IsSpace(w[i])
    ensures |w| < |s| ==> IsSpace(s[|w|])
  {
    if s == [] || IsSpace(s[0]) then [] else [s[0]] + LeadingWord(s[1..])
  }

  /** Python's `s.split()`: the maximal runs of non-whitespace characters. */
  function Words(s: string): (r: seq<string>)
    ensures forall i :: 0 <= i < |r| ==> r[i] != [] && forall k :: 0 <= k < |r[i]| ==> !IsSpace(r[i][k])
    ensures r == [] <==> forall k :: 0 <= k < |s| ==> IsSpace(s[k])
    decreases |s|
  {
    if s == [] then []
    else if IsSpace(s[0]) then Words(s[1..])
    else
      var w := LeadingWord(s);
      [w] + Words(s[|w|..])
  }

  /** A non-empty string without whitespace: what `str.split()` yields. */
  predicate IsWord(w: string)
  {
    w != [] && forall k :: 0 <= k < |w| ==> !IsSpace(w[k])
  }

  /** Text after the leading word does not change it, as long as the word ends
      before that text or the text starts with whitespace. */
  lemma {:induction false} LeadingWordExtend(a: string, x: string)
    requires |LeadingWord(a)| < |a| || x == [] || IsSpace(x[0])
    ensures LeadingWord(a + x) == LeadingWord(a)
  {
    if a != [] && !IsSpace(a[0]) {
      assert (a + x)[1..] == a[1..] + x;
      LeadingWordExtend(a[1..], x);
    }
  }

  /** A whitespace character separates words: the words on each side of it, one
      after the other. Runs of whitespace and whitespace at either end yield no
      empty words. */
  lemma {:induction false} WordsAt(a: string, c: char, b: string)
    requires IsSpace(c)
    ensures Words(a + [c] + b) == Words(a) + Words(b)
    decreases |a|
  {
    var s := a + [c] + b;
    if a == [] {
      assert s == [c] + b;
      assert s[1..] == b;
    } else if IsSpace(a[0]) {
      assert s[1..] == a[1..] + [c] + b;
      WordsAt(a[1..], c, b);
    } else {
      var w := LeadingWord(a);
      LeadingWordExtend(a, [c] + b);
      assert s == a + ([c] + b);
      assert s[|w|..] == a[|w|..] + [c] + b;
      WordsAt(a[|w|..], c, b);
    }
  }

  /** Splitting words joined by single spaces gives the words back. */
  lemma {:induction false} WordsJoin(ws: seq<string>)
    requires |ws| >= 1 && forall i :: 0 <= i < |ws| ==> IsWord(ws[i])
    ensures Words(Join(ws, ' ')) == ws
  {
    var w := ws[0];
    var x := if |ws| == 1 then [] else [' '] + Join(ws[1..], ' ');
    assert Join(ws, ' ') == w + x;
    LeadingWordExtend(w, x);
    assert LeadingWord(w) == w;
    assert (w + x)[|w|..] == x;
    if |ws| > 1 {
      assert x[1..] == Join(ws[1..], ' ');
      WordsJoin(ws[1..]);
      assert ws == [w] + ws[1..];
    }
  }

  /** Python's `s.strip()`: no leading or trailing whitespace. */
  function Strip(s: string): (r: string)
    ensures r == [] || (!IsSpace(r[0]) && !IsSpace(r[|r| - 1]))
    ensures forall i :: 0 <= i < |s| && !IsSpace(s[i]) ==> s[i] in r
    decreases |s|
  {
    if s == [] then []
    else if IsSpace(s[0]) then Strip(s[1..])
    else if IsSpace(s[|s| - 1]) then Strip(s[..|s| - 1])
    else s
  }

  /** `s[i..j]` is `s` without whitespace that lies before `i` or from `j` on. */
  predicate Trimmed(s: string, i: int, j: int)
  {
    && 0 <= i <= j <= |s|
    && (forall k :: 0 <= k < i ==> IsSpace(s[k]))
    && (forall k :: j <= k < |s| ==> IsSpace(s[k]))
  }

  /** Stripping only removes whitespace at the two ends: the result is the slice of
      the input between them. */
  lemma {:induction false} StripSlice(s: string)
    ensures exists i, j :: Trimmed(s, i, j) && Strip(s) == s[i..j]
    decreases |s|
  {
    if s == [] {
      assert Trimmed(s, 0, 0) && Strip(s) == s[0..0];
    } else if IsSpace(s[0]) {
      var t := s[1..];
      StripSlice(t);
      var i, j :| Trimmed(t, i, j) && Strip(t) == t[i..j];
      TrimmedFront(s, i, j);
      assert Strip(s) == s[i + 1..j + 1];
    } else if IsSpace(s[|s| - 1]) {
      var t := s[..|s| - 1];
      StripSlice(t);
      var i, j :| Trimmed(t, i, j) && Strip(t) == t[i..j];
      TrimmedBack(s, i, j);
      assert Strip(s) == s[i..j];
    } else {
      assert Trimmed(s, 0, |s|) && Strip(s) == s[0..|s|];
    }
  }

  lemma TrimmedFront(s: string, i: int, j: int)
    requires s != [] && IsSpace(s[0]) && Trimmed(s[1..], i, j)
    ensures Trimmed(s, i + 1, j + 1)
  {
    forall k | 0 < k < |s| ensures s[k] == s[1..][k - 1] {
    }
  }

  lemma TrimmedBack(s: string, i: int, j: int)
    requires s != [] && IsSpace(s[|s| - 1]) && Trimmed(s[..|s| - 1], i, j)
    ensures Trimmed(s, i, j)
  {
    forall k | 0 <= k < |s| - 1 ensures s[k] == s[..|s| - 1][k] {
    }
  }

  /** A string with no whitespace at either end is its own strip. */
  lemma StripClean(s: string)
    requires s == [] || (!IsSpace(s[0]) && !IsSpace(s[|s| - 1]))
    ensures Strip(s) == s
  {
  }

  function DigitValue(c: char): nat
    requires IsDigit(c)
  {
    (c as int) - ('0' as int)
  }

  /** The value of a string of decimal digits, most significant first. */
  function DigitsValue(s: string): nat
    requires AllDigits(s)
  {
    if s == [] then 0 else DigitsValue(s[..|s| - 1]) * 10 + DigitValue(s[|s| - 1])
  }

  /** The decimal representation of `n`, without leading zeros. */
  function ShowNat(n: nat): (s: string)
    ensures s != [] && AllDigits(s)
    ensures DigitsValue(s) == n
    ensures n > 0 ==> s[0] != '0'
  {
    var d := ['0' + (n % 10) as char];
    if n < 10 then d
    else
      var p := ShowNat(n / 10);
      assert (p + d)[..|p + d| - 1] == p;
      p + d
  }

  function Pow10(k: nat): (p: nat)
    ensures p >= 1
  {
    if k == 0 then 1 else 10 * Pow10(k - 1)
  }

  /** Python's `str < str`: code point by code point, a proper prefix first. */
  predicate LexLess(a: string, b: string)
  {
    if a == [] then b != []
    else if b == [] then false
    else if a[0] != b[0] then a[0] < b[0]
    else LexLess(a[1..], b[1..])
  }

  lemma {:induction false} LexLessIrreflexive(a: string)
    ensures !LexLess(a, a)
  {
    if a != [] {
      LexLessIrreflexive(a[1..]);
    }
  }

  lemma {:induction false} LexLessTransitive(a: string, b: string, c: string)
    requires LexLess(a, b) && LexLess(b, c)
    ensures LexLess(a, c)
  {
    if a != [] && b != [] && c != [] && a[0] == b[0] && b[0] == c[0] {
      LexLessTransitive(a[1..], b[1..], c[1..]);
    }
  }

  lemma {:induction false} LexLessTotal(a: string, b: string)
    requires a != b
    ensures LexLess(a, b) || LexLess(b, a)
  {
    if a != [] && b != [] && a[0] == b[0] {
      assert a == [a[0]] + a[1..] && b == [b[0]] + b[1..];
      LexLessTotal(a[1..], b[1..]);
    }
  }
}
