/**
 * The Python `str` operations the scripts rely on, over `seq<char>`:
 * `split(sep)`, `split()`, `strip()`, `sep.join`, `replace`, `int()`, `str(int)`
 * and the code-point ordering behind `<=` on strings.
 */
module Text {
  import opened Wrappers

  /** `c.isspace()`: the characters Python's `split()` and `strip()` treat as whitespace. */
  predicate IsSpace(c: char) {
    var n := c as int;
    (9 <= n <= 13) || (28 <= n <= 32) || n == 0x85 || n == 0xA0 || n == 0x1680
    || (0x2000 <= n <= 0x200A) || n == 0x2028 || n == 0x2029 || n == 0x202F
    || n == 0x205F || n == 0x3000
  }

  predicate IsDigit(c: char) { '0' <= c <= '9' }

  /** `c.isalpha()`, restricted to ASCII letters. */
  predicate IsAlpha(c: char) { ('a' <= c <= 'z') || ('A' <= c <= 'Z') }

  /** `c.isalnum()`, restricted to ASCII letters and digits. */
  predicate IsAlnum(c: char) { IsAlpha(c) || IsDigit(c) }

  predicate NoSpace(s: string) { forall c <- s :: !IsSpace(c) }

  // ---------------------------------------------------------------------------
  // sep.join(parts) and s.split(sep)

  /** `sep.join(parts)`. */
  function Join(parts: seq<string>, sep: string): string
  {
    if |parts| == 0 then []
    else if |parts| == 1 then parts[0]
    else parts[0] + sep + Join(parts[1..], sep)
  }

  /** Appending a piece appends the separator and the piece. */
  lemma {:induction false} JoinSnoc(parts: seq<string>, p: string, sep: string)
    requires parts != []
    ensures Join(parts + [p], sep) == Join(parts, sep) + sep + p
  {
    if |parts| == 1 {
      assert (parts + [p])[1..] == [p];
    } else {
      JoinSnoc(parts[1..], p, sep);
      assert (parts + [p])[1..] == parts[1..] + [p];
    }
  }

  /** `s.split(sep)` for a one-character separator: always at least one piece, none holding `sep`. */
  function Split(s: string, sep: char): (parts: seq<string>)
    ensures |parts| >= 1
    ensures forall p <- parts :: sep !in p
  {
    if s == [] then [[]]
    else
      var rest := Split(s[1..], sep);
      if s[0] == sep then [[]] + rest else [[s[0]] + rest[0]] + rest[1..]
  }

  /** Joining the pieces with the separator gives back the string, and there is one piece more than separators. */
  lemma JoinSplit(s: string, sep: char)
    ensures Join(Split(s, sep), [sep]) == s
    ensures |Split(s, sep)| == multiset(s)[sep] + 1
  {
    JoinOfSplit(s, sep);
    SplitCount(s, sep);
  }

  lemma {:induction false} JoinOfSplit(s: string, sep: char)
    ensures Join(Split(s, sep), [sep]) == s
  {
    if s != [] {
      var rest := Split(s[1..], sep);
      JoinOfSplit(s[1..], sep);
      var parts := Split(s, sep);
      if s[0] == sep {
        assert parts == [[]] + rest;
        assert Join(parts, [sep]) == [] + [sep] + Join(rest, [sep]);
      } else {
        assert parts == [[s[0]] + rest[0]] + rest[1..];
        if |rest| > 1 {
          assert Join(rest, [sep]) == rest[0] + [sep] + Join(rest[1..], [sep]);
          assert Join(parts, [sep]) == [s[0]] + rest[0] + [sep] + Join(rest[1..], [sep]);
        } else {
          assert Join(parts, [sep]) == [s[0]] + rest[0];
        }
      }
    }
  }

  lemma {:induction false} SplitCount(s: string, sep: char)
    ensures |Split(s, sep)| == multiset(s)[sep] + 1
  {
    if s != [] {
      SplitCount(s[1..], sep);
      assert s == [s[0]] + s[1..];
      assert multiset(s) == multiset([s[0]]) + multiset(s[1..]);
    }
  }

  /** Splitting a join recovers the pieces, as long as none of them holds the separator. */
  lemma {:induction false} SplitJoin(parts: seq<string>, sep: char)
    requires |parts| >= 1
    requires forall p <- parts :: sep !in p
    ensures Split(Join(parts, [sep]), sep) == parts
  {
    if |parts| == 1 {
      SplitNoSep(parts[0], sep);
    } else {
      var tail := Join(parts[1..], [sep]);
      SplitJoin(parts[1..], sep);
      SplitAround(parts[0], tail, sep);
      assert parts == [parts[0]] + parts[1..];
    }
  }

  /** A string without the separator splits into itself alone. */
  lemma {:induction false} SplitNoSep(s: string, sep: char)
    requires sep !in s
    ensures Split(s, sep) == [s]
  {
    if s != [] {
      assert forall c <- s[1..] :: c in s;
      SplitNoSep(s[1..], sep);
      assert [s[0]] + s[1..] == s;
    }
  }

  /** The first separator cuts off the first piece. */
  lemma {:induction false} SplitAround(a: string, b: string, sep: char)
    requires sep !in a
    ensures Split(a + [sep] + b, sep) == [a] + Split(b, sep)
  {
    var s := a + [sep] + b;
    if a == [] {
      assert s[1..] == b;
    } else {
      assert s[1..] == a[1..] + [sep] + b;
      SplitAround(a[1..], b, sep);
      var rest := Split(s[1..], sep);
      assert rest == [a[1..]] + Split(b, sep);
      assert [a[0]] + a[1..] == a;
      assert Split(s, sep) == [[a[0]] + rest[0]] + rest[1..];
    }
  }

  // ---------------------------------------------------------------------------
  // s.split() with no argument

  /** The non-whitespace characters of `s`, in order. */
  function NonSpace(s: string): string
  {
    if s == [] then [] else (if IsSpace(s[0]) then [] else [s[0]]) + NonSpace(s[1..])
  }

  function Concat(parts: seq<string>): string
  {
    if parts == [] then [] else parts[0] + Concat(parts[1..])
  }

  /** `s.split()`: the maximal runs of non-whitespace characters. */
  function SplitWs(s: string): (fields: seq<string>)
    ensures |s| > 0 && !IsSpace(s[0]) ==> |fields| > 0
  {
    if s == [] then []
    else
      var rest := SplitWs(s[1..]);
      if IsSpace(s[0]) then rest
      else if |s| > 1 && !IsSpace(s[1]) then [[s[0]] + rest[0]] + rest[1..]
      else [[s[0]]] + rest
  }

  /** The fields are non-empty, hold no whitespace, and together are the non-whitespace characters. */
  lemma {:induction false} SplitWsFields(s: string)
    ensures forall f <- SplitWs(s) :: f != [] && NoSpace(f)
    ensures Concat(SplitWs(s)) == NonSpace(s)
  {
    if s != [] {
      var rest := SplitWs(s[1..]);
      SplitWsFields(s[1..]);
      var fields := SplitWs(s);
      if IsSpace(s[0]) {
      } else if |s| > 1 && !IsSpace(s[1]) {
        assert fields == [[s[0]] + rest[0]] + rest[1..];
        assert Concat(rest) == rest[0] + Concat(rest[1..]);
        assert fields[1..] == rest[1..];
        assert Concat(fields) == [s[0]] + (rest[0] + Concat(rest[1..]));
        assert forall c <- fields[0] :: c == s[0] || c in rest[0];
        assert rest[0] in rest && NoSpace(rest[0]);
        assert forall f <- fields :: f == fields[0] || f in rest;
      } else {
        assert fields == [[s[0]]] + rest;
        assert fields[1..] == rest;
      }
    }
  }

  /** A non-empty word without whitespace is one field. */
  lemma {:induction false} SplitWsWord(w: string)
    requires w != [] && NoSpace(w)
    ensures SplitWs(w) == [w]
  {
    if |w| > 1 {
      assert forall c <- w[1..] :: c in w;
      SplitWsWord(w[1..]);
      assert [w[0]] + w[1..] == w;
      assert !IsSpace(w[1]);
    } else {
      assert SplitWs(w[1..]) == [];
      assert w == [w[0]];
    }
  }

  /** Whitespace between two strings separates their fields. */
  lemma {:induction false} SplitWsAround(a: string, w: char, b: string)
    requires IsSpace(w)
    ensures SplitWs(a + [w] + b) == SplitWs(a) + SplitWs(b)
  {
    var s := a + [w] + b;
    if a == [] {
      assert s[1..] == b;
    } else {
      assert s[1..] == a[1..] + [w] + b;
      SplitWsAround(a[1..], w, b);
      if |a| == 1 {
        assert s[1] == w;
      } else {
        assert s[1] == a[1];
      }
    }
  }

  // ---------------------------------------------------------------------------
  // strip()

  /** `s.lstrip()`: drops the leading whitespace. */
  function LStrip(s: string): string
  {
    if s != [] && IsSpace(s[0]) then LStrip(s[1..]) else s
  }

  /** `s.rstrip()`: drops the trailing whitespace. */
  function RStrip(s: string): string
  {
    if s != [] && IsSpace(s[|s| - 1]) then RStrip(s[..|s| - 1]) else s
  }

  /** `s.strip()`. */
  function Strip(s: string): string
  {
    RStrip(LStrip(s))
  }

  /** `lstrip` removes a prefix of whitespace, and exactly all of it. */
  lemma {:induction false} LStripSpec(s: string)
    ensures var r := LStrip(s);
      && |r| <= |s| && r == s[|s| - |r|..]
      && (forall k :: 0 <= k < |s| - |r| ==> IsSpace(s[k]))
      && (r != [] ==> !IsSpace(r[0]))
  {
    if s != [] && IsSpace(s[0]) {
      var t := s[1..];
      LStripSpec(t);
      var r := LStrip(t);
      assert t[|t| - |r|..] == s[|s| - |r|..];
      forall k | 0 <= k < |s| - |r|
        ensures IsSpace(s[k])
      {
        if k > 0 {
          assert s[k] == t[k - 1];
        }
      }
    }
  }

  /** `rstrip` removes a suffix of whitespace, and exactly all of it. */
  lemma {:induction false} RStripSpec(s: string)
    ensures var r := RStrip(s);
      && |r| <= |s| && r == s[..|r|]
      && (forall k :: |r| <= k < |s| ==> IsSpace(s[k]))
      && (r != [] ==> !IsSpace(r[|r| - 1]))
  {
    if s != [] && IsSpace(s[|s| - 1]) {
      RStripSpec(s[..|s| - 1]);
    }
  }

  /** `strip` leaves no whitespace at either end, and leaves a string without whitespace alone. */
  lemma StripSpec(s: string)
    ensures var r := Strip(s);
      && (r != [] ==> !IsSpace(r[0]) && !IsSpace(r[|r| - 1]))
      && (NoSpace(s) ==> r == s)
  {
    LStripSpec(s);
    RStripSpec(LStrip(s));
    var l := LStrip(s);
    var r := Strip(s);
    if r != [] {
      assert r[0] == l[0];
    }
    if NoSpace(s) && s != [] {
      assert s[0] in s && s[|s| - 1] in s;
    }
  }

  // ---------------------------------------------------------------------------
  // int() and str() on base-10 integers

  /** The digits Python's `int()` accepts after an optional sign: digits, single `_` between digits. */
  predicate IsDigitString(s: string) {
    && |s| > 0 && IsDigit(s[0]) && IsDigit(s[|s| - 1])
    && (forall i :: 0 <= i < |s| ==> IsDigit(s[i]) || s[i] == '_')
    && (forall i :: 0 <= i < |s| - 1 ==> IsDigit(s[i]) || IsDigit(s[i + 1]))
  }

  function DigitValue(c: char): nat { if IsDigit(c) then c as int - '0' as int else 0 }

  /** The number written by a digit string, underscores ignored. */
  function DigitsValue(s: string): nat
  {
    if s == [] then 0
    else if s[|s| - 1] == '_' then DigitsValue(s[..|s| - 1])
    else 10 * DigitsValue(s[..|s| - 1]) + DigitValue(s[|s| - 1])
  }

  /** `int(s)` in base 10: surrounding whitespace, an optional sign, then digits; `None` is the ValueError. */
  function ParseInt(s: string): Option<int>
  {
    var t := Strip(s);
    if |t| > 1 && (t[0] == '-' || t[0] == '+') && IsDigitString(t[1..]) then
      var v: int := DigitsValue(t[1..]);
      Some(if t[0] == '-' then -v else v)
    else if IsDigitString(t) then Some(DigitsValue(t))
    else None
  }

  function DigitChar(d: nat): char
    requires d < 10
  {
    ('0' as int + d) as char
  }

  /** `str(n)` for `n >= 0`. */
  function NatString(n: nat): (s: string)
    ensures IsDigitString(s) && forall c <- s :: IsDigit(c)
    ensures DigitsValue(s) == n
  {
    if n < 10 then [DigitChar(n)]
    else
      var s := NatString(n / 10) + [DigitChar(n % 10)];
      assert s[..|s| - 1] == NatString(n / 10);
      s
  }

  /** `str(n)`. */
  function DecimalString(n: int): (s: string)
    ensures NoSpace(s) && s != []
  {
    if n < 0 then "-" + NatString(-n) else NatString(n)
  }

  /** `int(str(n)) == n`. */
  lemma ParseIntDecimal(n: int)
    ensures ParseInt(DecimalString(n)) == Some(n)
  {
    var s := DecimalString(n);
    StripSpec(s);
    if n < 0 {
      assert s[1..] == NatString(-n);
    }
  }

  // ---------------------------------------------------------------------------
  // s[i:j]

  /** Python's clamping of a slice bound: negative counts from the end, then into `[0, n]`. */
  function SliceBound(x: int, n: nat): (b: nat)
    ensures b <= n
    ensures 0 <= x <= n ==> b == x
  {
    if x < 0 then (if x + n < 0 then 0 else x + n) else if x > n then n else x
  }

  /** `s[i:j]`. */
  function PySlice(s: string, i: int, j: int): (r: string)
    ensures 0 <= i <= j <= |s| ==> r == s[i..j]
  {
    var lo, hi := SliceBound(i, |s|), SliceBound(j, |s|);
    if lo < hi then s[lo..hi] else []
  }

  // ---------------------------------------------------------------------------
  // s.replace(c, rep) for a one-character pattern

  /** `s.replace(c, rep)`: every occurrence of `c` becomes `rep`. */
  function ReplaceChar(s: string, c: char, rep: string): string
  {
    if s == [] then [] else (if s[0] == c then rep else [s[0]]) + ReplaceChar(s[1..], c, rep)
  }

  /** Replacing a character that does not occur changes nothing. */
  lemma {:induction false} ReplaceAbsent(s: string, c: char, rep: string)
    requires c !in s
    ensures ReplaceChar(s, c, rep) == s
  {
    if s != [] {
      assert forall x <- s[1..] :: x in s;
      ReplaceAbsent(s[1..], c, rep);
      assert s == [s[0]] + s[1..];
    }
  }

  /** Replacing in a concatenation replaces in each part. */
  lemma {:induction false} ReplaceCharConcat(a: string, b: string, c: char, rep: string)
    ensures ReplaceChar(a + b, c, rep) == ReplaceChar(a, c, rep) + ReplaceChar(b, c, rep)
  {
    if a == [] {
      assert a + b == b;
    } else {
      ReplaceCharConcat(a[1..], b, c, rep);
      ReplaceCharCons(a, b, c, rep);
    }
  }

  lemma ReplaceCharCons(a: string, b: string, c: char, rep: string)
    requires a != []
    ensures ReplaceChar(a + b, c, rep) == (if a[0] == c then rep else [a[0]]) + ReplaceChar(a[1..] + b, c, rep)
  {
    assert (a + b)[0] == a[0] && (a + b)[1..] == a[1..] + b;
  }

  /** `for c in cs: s = s.replace(c, rep)`: one replacement pass per character, in order. */
  function ReplacePasses(s: string, cs: seq<char>, rep: string): string
  {
    if cs == [] then s else ReplaceChar(ReplacePasses(s, cs[..|cs| - 1], rep), cs[|cs| - 1], rep)
  }

  /** The string with each character of `cs` turned into `rep` and every other character kept. */
  function Translate(s: string, cs: seq<char>, rep: string): string
  {
    if s == [] then [] else (if s[0] in cs then rep else [s[0]]) + Translate(s[1..], cs, rep)
  }

  lemma {:induction false} TranslateNothing(s: string, rep: string)
    ensures Translate(s, [], rep) == s
  {
    if s != [] {
      TranslateNothing(s[1..], rep);
      assert s == [s[0]] + s[1..];
    }
  }

  /** One more replacement pass widens the translated set by that character. */
  lemma {:induction false} ReplaceAfterTranslate(s: string, cs: seq<char>, c: char, rep: string)
    requires c !in rep
    ensures ReplaceChar(Translate(s, cs, rep), c, rep) == Translate(s, cs + [c], rep)
  {
    if s != [] {
      var head := if s[0] in cs then rep else [s[0]];
      ReplaceAfterTranslate(s[1..], cs, c, rep);
      ReplaceCharConcat(head, Translate(s[1..], cs, rep), c, rep);
      if s[0] in cs {
        ReplaceAbsent(rep, c, rep);
      } else {
        assert ReplaceChar(head[1..], c, rep) == [];
      }
    }
  }

  /**
   * Replacement passes whose replacement holds none of the replaced characters
   * amount to a single character-by-character translation.
   */
  lemma {:induction false} ReplacePassesTranslate(s: string, cs: seq<char>, rep: string)
    requires forall c <- cs :: c !in rep
    ensures ReplacePasses(s, cs, rep) == Translate(s, cs, rep)
  {
    if cs == [] {
      TranslateNothing(s, rep);
    } else {
      var front := cs[..|cs| - 1];
      assert cs == front + [cs[|cs| - 1]];
      assert forall c <- front :: c in cs;
      ReplacePassesTranslate(s, front, rep);
      ReplaceAfterTranslate(s, front, cs[|cs| - 1], rep);
    }
  }

  /** A single replacement pass is the translation of that one character. */
  lemma ReplaceCharTranslate(s: string, c: char, rep: string)
    requires c !in rep
    ensures ReplaceChar(s, c, rep) == Translate(s, [c], rep)
  {
    TranslateNothing(s, rep);
    ReplaceAfterTranslate(s, [], c, rep);
  }

  /**
   * A translated string holds the replacement's characters and the characters
   * of `s` outside `cs`, and every one of the latter survives.
   */
  lemma {:induction false} TranslateChars(s: string, cs: seq<char>, rep: string)
    ensures forall x <- Translate(s, cs, rep) :: (x in s && x !in cs) || x in rep
    ensures forall x <- s :: x !in cs ==> x in Translate(s, cs, rep)
  {
    if s != [] {
      TranslateChars(s[1..], cs, rep);
      assert forall x <- s :: x == s[0] || x in s[1..];
      assert forall x <- s[1..] :: x in s;
    }
  }

  // ---------------------------------------------------------------------------
  // Python's `<=` on str

  /** `a <= b` on Python strings: lexicographic by code point, a proper prefix first. */
  predicate LexLe(a: string, b: string) {
    a == [] || (b != [] && (a[0] < b[0] || (a[0] == b[0] && LexLe(a[1..], b[1..]))))
  }

  lemma {:induction false} LexLeRefl(a: string)
    ensures LexLe(a, a)
  {
    if a != [] { LexLeRefl(a[1..]); }
  }

  lemma {:induction false} LexLeAntisym(a: string, b: string)
    requires LexLe(a, b) && LexLe(b, a)
    ensures a == b
  {
    if a != [] && b != [] {
      LexLeAntisym(a[1..], b[1..]);
      assert a == [a[0]] + a[1..] && b == [b[0]] + b[1..];
    }
  }

  lemma {:induction false} LexLeTrans(a: string, b: string, c: string)
    requires LexLe(a, b) && LexLe(b, c)
    ensures LexLe(a, c)
  {
    if a != [] && b != [] && c != [] && a[0] == b[0] == c[0] {
      LexLeTrans(a[1..], b[1..], c[1..]);
    }
  }

  lemma {:induction false} LexLeTotal(a: string, b: string)
    ensures LexLe(a, b) || LexLe(b, a)
  {
    if a != [] && b != [] && a[0] == b[0] {
      LexLeTotal(a[1..], b[1..]);
    }
  }
}
