/** The Python `str` operations and the `float()` conversion that the sampling
    core applies to the text printed by `nvidia-smi` and `wmic`: `strip()`,
    `split(sep)`, the `in` substring test, `lower()`, and `float()` on plain
    decimal text. `Join` is `sep.join(parts)`, the inverse of `Split`. */
module PyStr {
  import opened Wrappers

  /** `c.isspace()`: the characters `str.strip()` discards. `float()` discards
      these too, except the four information separators (see
      `InfoSeparator`). */
  predicate IsSpace(c: char)
  {
    ('\t' <= c <= '\r') || ('\U{1C}' <= c <= ' ') || c == '\U{85}' || c == '\U{A0}'
    || c == '\U{1680}' || ('\U{2000}' <= c <= '\U{200A}') || c == '\U{2028}' || c == '\U{2029}'
    || c == '\U{202F}' || c == '\U{205F}' || c == '\U{3000}'
  }

  predicate NoSpace(s: string)
  {
    forall i :: 0 <= i < |s| ==> !IsSpace(s[i])
  }

  // ---------------------------------------------------------------- strip()

  /** `s.lstrip()`: drops the leading white space, nothing else. */
  function StripLeft(s: string): (r: string)
    ensures |r| <= |s| && r == s[|s| - |r|..]
    ensures r == [] || !IsSpace(r[0])
    ensures forall i :: 0 <= i < |s| - |r| ==> IsSpace(s[i])
    decreases |s|
  {
    if |s| > 0 && IsSpace(s[0]) then StripLeft(s[1..]) else s
  }

  /** `s.rstrip()`: drops the trailing white space, nothing else. */
  function StripRight(s: string): (r: string)
    ensures |r| <= |s| && r == s[..|r|]
    ensures r == [] || !IsSpace(r[|r| - 1])
    ensures forall i :: |r| <= i < |s| ==> IsSpace(s[i])
    decreases |s|
  {
    if |s| > 0 && IsSpace(s[|s| - 1]) then StripRight(s[..|s| - 1]) else s
  }

  /** `s.strip()`. */
  function Strip(s: string): (r: string)
  {
    StripRight(StripLeft(s))
  }

  /** What `strip()` keeps is a slice of its input with white space only
      outside it. */
  lemma StripIsTrimmedSlice(s: string) returns (a: nat)
    ensures a + |Strip(s)| <= |s| && Strip(s) == s[a..a + |Strip(s)|]
    ensures forall i :: 0 <= i < a ==> IsSpace(s[i])
    ensures forall i :: a + |Strip(s)| <= i < |s| ==> IsSpace(s[i])
  {
    var l := StripLeft(s);
    var r := StripRight(l);
    a := |s| - |l|;
    assert r == s[a..a + |r|];
    forall i | a + |r| <= i < |s| ensures IsSpace(s[i]) {
      assert s[i] == l[i - a];
    }
  }

  /** Text that neither starts nor ends with white space, followed only by
      white space (a line break, say), strips to itself. */
  lemma {:induction false} StripTrailingSpace(s: string, t: string)
    requires s != [] && !IsSpace(s[0]) && !IsSpace(s[|s| - 1])
    requires forall i :: 0 <= i < |t| ==> IsSpace(t[i])
    ensures Strip(s + t) == s
    decreases |t|
  {
    assert StripLeft(s + t) == s + t by { assert (s + t)[0] == s[0]; }
    if t == [] {
      assert s + t == s;
    } else {
      var u := s + t;
      assert IsSpace(u[|u| - 1]);
      assert u[..|u| - 1] == s + t[..|t| - 1];
      StripTrailingSpace(s, t[..|t| - 1]);
      assert StripLeft(s + t[..|t| - 1]) == s + t[..|t| - 1] by {
        assert (s + t[..|t| - 1])[0] == s[0];
      }
    }
  }

  /** Text made only of white space strips to nothing. */
  lemma StripAllSpace(s: string)
    requires forall i :: 0 <= i < |s| ==> IsSpace(s[i])
    ensures Strip(s) == ""
  {
  }

  /** Text with no white space at either end is its own `strip()`. */
  lemma StripUnchanged(s: string)
    requires s != [] && !IsSpace(s[0]) && !IsSpace(s[|s| - 1])
    ensures Strip(s) == s
  {
    StripTrailingSpace(s, "");
    assert s + "" == s;
  }

  // ------------------------------------------------------- the `in` test

  predicate StartsWith(s: string, p: string)
  {
    |p| <= |s| && s[..|p|] == p
  }

  /** `p in s` for two strings. */
  predicate Contains(s: string, p: string)
    decreases |s|
  {
    StartsWith(s, p) || (|s| > 0 && Contains(s[1..], p))
  }

  predicate OccursAt(s: string, p: string, i: int)
  {
    0 <= i && i + |p| <= |s| && s[i..i + |p|] == p
  }

  /** `Contains` finds an occurrence exactly when there is one. */
  lemma {:induction false} ContainsIffOccurs(s: string, p: string)
    ensures Contains(s, p) <==> exists i :: OccursAt(s, p, i)
    decreases |s|
  {
    if |s| > 0 {
      if StartsWith(s, p) {
        assert OccursAt(s, p, 0);
      }
      ContainsIffOccurs(s[1..], p);
      if Contains(s[1..], p) {
        var i :| OccursAt(s[1..], p, i);
        assert s[1..][i..i + |p|] == s[i + 1..i + 1 + |p|];
        assert OccursAt(s, p, i + 1);
      }
      if i :| OccursAt(s, p, i) {
        if i == 0 {
          assert StartsWith(s, p);
        } else {
          assert s[1..][i - 1..i - 1 + |p|] == s[i..i + |p|];
          assert OccursAt(s[1..], p, i - 1);
        }
      }
    } else if |p| == 0 {
      assert OccursAt(s, p, 0);
    }
  }

  // ------------------------------------------------------- split and join

  /** `s.split(sep)` for a non-empty separator: cut at every occurrence of
      `sep`, scanning from the left, keeping empty pieces. */
  function Split(s: string, sep: string): (parts: seq<string>)
    requires |sep| > 0
    ensures |parts| >= 1 && parts[0] <= s
    decreases |s|
  {
    if |s| < |sep| then [s]
    else if s[..|sep|] == sep then [""] + Split(s[|sep|..], sep)
    else
      var rest := Split(s[1..], sep);
      [[s[0]] + rest[0]] + rest[1..]
  }

  /** `sep.join(parts)`. */
  function Join(parts: seq<string>, sep: string): string
  {
    if |parts| == 0 then ""
    else if |parts| == 1 then parts[0]
    else parts[0] + sep + Join(parts[1..], sep)
  }

  lemma JoinConsHead(c: char, x: string, rest: seq<string>, sep: string)
    ensures Join([[c] + x] + rest, sep) == [c] + Join([x] + rest, sep)
  {
    if |rest| > 0 {
      assert ([[c] + x] + rest)[1..] == rest;
      assert ([x] + rest)[1..] == rest;
    }
  }

  /** Gluing the last piece of one list to the first of another with `mid`
      in between joins to the two joins with `mid` in between. */
  lemma {:induction false} JoinGlue(xs: seq<string>, mid: string, ys: seq<string>, sep: string)
    requires |xs| >= 1 && |ys| >= 1
    ensures Join(xs[..|xs| - 1] + [xs[|xs| - 1] + mid + ys[0]] + ys[1..], sep)
      == Join(xs, sep) + mid + Join(ys, sep)
    decreases |xs|
  {
    var glued := xs[..|xs| - 1] + [xs[|xs| - 1] + mid + ys[0]] + ys[1..];
    if |xs| == 1 {
      assert glued == [xs[0] + mid + ys[0]] + ys[1..];
      if |ys| > 1 {
        assert glued[1..] == ys[1..];
      }
    } else {
      var tail := xs[1..];
      JoinGlue(tail, mid, ys, sep);
      assert glued[0] == xs[0];
      assert glued[1..] == tail[..|tail| - 1] + [tail[|tail| - 1] + mid + ys[0]] + ys[1..];
    }
  }

  /** Joining the pieces with the separator gives back the text. */
  lemma {:induction false} JoinSplit(s: string, sep: string)
    requires |sep| > 0
    ensures Join(Split(s, sep), sep) == s
    decreases |s|
  {
    if |s| < |sep| {
    } else if s[..|sep|] == sep {
      var rest := Split(s[|sep|..], sep);
      JoinSplit(s[|sep|..], sep);
      assert Split(s, sep) == [""] + rest;
      assert ([""] + rest)[1..] == rest;
      assert Join([""] + rest, sep) == "" + sep + Join(rest, sep);
      assert s == sep + s[|sep|..];
    } else {
      var rest := Split(s[1..], sep);
      JoinSplit(s[1..], sep);
      assert Split(s, sep) == [[s[0]] + rest[0]] + rest[1..];
      assert rest == [rest[0]] + rest[1..];
      JoinConsHead(s[0], rest[0], rest[1..], sep);
      assert Join(Split(s, sep), sep) == [s[0]] + Join(rest, sep);
      assert s == [s[0]] + s[1..];
    }
  }

  /** No piece contains the separator: every occurrence was cut. */
  lemma {:induction false} SplitPiecesAreSeparatorFree(s: string, sep: string)
    requires |sep| > 0
    ensures forall k :: 0 <= k < |Split(s, sep)| ==> !Contains(Split(s, sep)[k], sep)
    decreases |s|
  {
    var parts := Split(s, sep);
    if |s| < |sep| {
      NotContainsShort(s, sep);
    } else if s[..|sep|] == sep {
      var rest := Split(s[|sep|..], sep);
      SplitPiecesAreSeparatorFree(s[|sep|..], sep);
      NotContainsShort("", sep);
      assert parts == [""] + rest;
      forall k | 0 <= k < |parts| ensures !Contains(parts[k], sep) {
        if k > 0 { assert parts[k] == rest[k - 1]; }
      }
    } else {
      var rest := Split(s[1..], sep);
      SplitPiecesAreSeparatorFree(s[1..], sep);
      var head := [s[0]] + rest[0];
      assert head <= s;
      assert !StartsWith(head, sep);
      assert head[1..] == rest[0];
      assert !Contains(head, sep);
      forall k | 0 <= k < |parts| ensures !Contains(parts[k], sep) {
        if k > 0 { assert parts[k] == rest[k]; }
      }
    }
  }

  lemma NotContainsShort(s: string, p: string)
    requires |s| < |p|
    ensures !Contains(s, p)
    decreases |s|
  {
    if |s| > 0 { NotContainsShort(s[1..], p); }
  }

  /** Text without the separator's first character is one piece. */
  lemma {:induction false} SplitWithoutSeparator(x: string, sep: string)
    requires |sep| > 0 && sep[0] !in x
    ensures Split(x, sep) == [x]
    decreases |x|
  {
    if |x| >= |sep| {
      assert x[0] in x;
      SplitWithoutSeparator(x[1..], sep);
      assert [x[0]] + x[1..] == x;
    }
  }

  /** A piece without the separator's first character, then the separator:
      the first cut falls right after the piece. */
  lemma {:induction false} SplitAfterPiece(x: string, sep: string, t: string)
    requires |sep| > 0 && sep[0] !in x
    ensures Split(x + sep + t, sep) == [x] + Split(t, sep)
    decreases |x|
  {
    var s := x + sep + t;
    if x == [] {
      assert s == sep + t;
      assert s[..|sep|] == sep;
      assert s[|sep|..] == t;
    } else {
      assert s[0] == x[0];
      assert x[0] in x;
      assert s[..|sep|] != sep;
      assert s[1..] == x[1..] + sep + t;
      SplitAfterPiece(x[1..], sep, t);
      assert [x[0]] + x[1..] == x;
    }
  }

  /** Splitting undoes joining when no piece holds the separator's first
      character. */
  lemma {:induction false} SplitJoin(parts: seq<string>, sep: string)
    requires |sep| > 0 && |parts| >= 1
    requires forall k :: 0 <= k < |parts| ==> sep[0] !in parts[k]
    ensures Split(Join(parts, sep), sep) == parts
    decreases |parts|
  {
    if |parts| == 1 {
      SplitWithoutSeparator(parts[0], sep);
    } else {
      SplitJoin(parts[1..], sep);
      SplitAfterPiece(parts[0], sep, Join(parts[1..], sep));
      assert [parts[0]] + parts[1..] == parts;
    }
  }

  /** The first and last characters of a join come from the first and last
      pieces. */
  lemma {:induction false} JoinEnds(parts: seq<string>, sep: string)
    requires |parts| >= 1 && forall k :: 0 <= k < |parts| ==> parts[k] != []
    ensures var j := Join(parts, sep);
      j != [] && j[0] == parts[0][0] && j[|j| - 1] == parts[|parts| - 1][|parts[|parts| - 1]| - 1]
    decreases |parts|
  {
    if |parts| > 1 {
      JoinEnds(parts[1..], sep);
    }
  }

  lemma NoSpaceLacks(s: string, c: char)
    requires NoSpace(s) && IsSpace(c)
    ensures c !in s
  {
    assert forall i :: 0 <= i < |s| ==> s[i] != c;
  }

  /** Pieces joined with a separator none of them holds, printed with
      trailing white space, split back into the same pieces after `strip()`
      (provided the joined text has no white space at either end). */
  lemma SplitStrippedJoin(parts: seq<string>, sep: string, tail: string)
    requires |sep| > 0 && |parts| >= 1
    requires forall k :: 0 <= k < |parts| ==> parts[k] != [] && sep[0] !in parts[k]
    requires !IsSpace(parts[0][0]) && !IsSpace(parts[|parts| - 1][|parts[|parts| - 1]| - 1])
    requires forall i :: 0 <= i < |tail| ==> IsSpace(tail[i])
    ensures Split(Strip(Join(parts, sep) + tail), sep) == parts
  {
    var j := Join(parts, sep);
    assert Strip(j + tail) == j by {
      JoinEnds(parts, sep);
      StripTrailingSpace(j, tail);
    }
    SplitJoin(parts, sep);
  }

  // -------------------------------------------------------------- lower()

  /** `c.lower()` for ASCII letters; other characters are kept. */
  function LowerChar(c: char): char
  {
    if 'A' <= c <= 'Z' then (c as int + 32) as char else c
  }

  /** `s.lower()`, character by character. */
  function Lower(s: string): (r: string)
    ensures |r| == |s|
    ensures forall i :: 0 <= i < |s| ==> r[i] == LowerChar(s[i])
  {
    if s == [] then [] else [LowerChar(s[0])] + Lower(s[1..])
  }

  // ---------------------------------------------------- decimal numbers

  predicate IsDigit(c: char)
  {
    '0' <= c <= '9'
  }

  predicate AllDigits(s: string)
  {
    forall i :: 0 <= i < |s| ==> IsDigit(s[i])
  }

  function DigitValue(c: char): nat
    requires IsDigit(c)
  {
    c as int - '0' as int
  }

  function DigitChar(d: nat): char
    requires d < 10
  {
    ('0' as int + d) as char
  }

  /** The number a run of decimal digits denotes. */
  function DigitsValue(s: string): nat
    requires AllDigits(s)
    decreases |s|
  {
    if s == [] then 0 else DigitsValue(s[..|s| - 1]) * 10 + DigitValue(s[|s| - 1])
  }

  /** The value of the digits after a decimal point: `0.d1d2...` is
      `(d1 + 0.d2...) / 10`. */
  function Fraction(s: string): (r: real)
    requires AllDigits(s)
    ensures 0.0 <= r < 1.0
    decreases |s|
  {
    if s == [] then 0.0 else (DigitValue(s[0]) as real + Fraction(s[1..])) / 10.0
  }

  /** Length of the longest run of digits at the start of `s`. */
  function DigitRun(s: string): (n: nat)
    ensures n <= |s| && AllDigits(s[..n])
    ensures n == |s| || !IsDigit(s[n])
    decreases |s|
  {
    if s != [] && IsDigit(s[0]) then
      var n := 1 + DigitRun(s[1..]);
      assert s[..n] == [s[0]] + s[1..][..n - 1];
      n
    else 0
  }

  /** `str(n)` for a natural number: its shortest decimal digits. */
  function Decimal(n: nat): string
  {
    if n < 10 then [DigitChar(n)] else Decimal(n / 10) + [DigitChar(n % 10)]
  }

  lemma {:induction false} DecimalDigits(n: nat)
    ensures |Decimal(n)| >= 1 && AllDigits(Decimal(n)) && DigitsValue(Decimal(n)) == n
  {
    if n >= 10 {
      DecimalDigits(n / 10);
      var s := Decimal(n);
      assert s[..|s| - 1] == Decimal(n / 10);
    }
  }

  /** Digit text holds no character that is not a digit. */
  lemma DigitsLack(s: string, c: char)
    requires AllDigits(s) && !IsDigit(c)
    ensures c !in s
  {
  }

  /** `float()` on unsigned decimal text: digits, optionally a point and more
      digits, at least one digit in all. */
  function ParseUnsigned(t: string): Option<real>
  {
    var n := DigitRun(t);
    var whole := DigitsValue(t[..n]) as real;
    if n == |t| then
      (if n > 0 then Some(whole) else None)
    else if t[n] == '.' && AllDigits(t[n + 1..]) && (n > 0 || n + 1 < |t|) then
      Some(whole + Fraction(t[n + 1..]))
    else None
  }

  /** U+001C..U+001F: white space to `str.isspace()`, but not to `float()`,
      which strips only ASCII white space and turns the other, non-ASCII,
      white space into blanks first. */
  predicate InfoSeparator(c: char)
  {
    '\U{1C}' <= c <= '\U{1F}'
  }

  /** Some information separator occurs in `s`. */
  predicate HasInfoSeparator(s: string)
  {
    exists i :: 0 <= i < |s| && InfoSeparator(s[i])
  }

  /** Stripped decimal text with at most one sign. */
  function ParseSigned(t: string): Option<real>
  {
    if |t| > 0 && (t[0] == '+' || t[0] == '-') then
      match ParseUnsigned(t[1..])
      case None => None
      case Some(v) => Some(if t[0] == '-' then -v else v)
    else ParseUnsigned(t)
  }

  /** `float(s)` on decimal text: surrounding white space is dropped and one
      sign is allowed; anything else fails (`None`, Python's ValueError). An
      information separator anywhere fails: `float()` does not strip it, and
      it is no part of a number. */
  function ParseFloat(s: string): Option<real>
  {
    if HasInfoSeparator(s) then None else ParseSigned(Strip(s))
  }

  /** The decimal digits of `n` read back as `n`. */
  lemma ParseDigits(s: string)
    requires s != [] && AllDigits(s)
    ensures ParseFloat(s) == Some(DigitsValue(s) as real)
  {
    assert forall i :: 0 <= i < |s| ==> !InfoSeparator(s[i]);
    assert !IsSpace(s[0]) && !IsSpace(s[|s| - 1]);
    StripUnchanged(s);
    assert DigitRun(s) == |s|;
    assert s[..|s|] == s;
  }

  /** `float(str(n)) == n`: the decimal digits of `n` read back as `n`. */
  lemma ParseDecimal(n: nat)
    ensures ParseFloat(Decimal(n)) == Some(n as real)
  {
    DecimalDigits(n);
    ParseDigits(Decimal(n));
  }

  predicate NumericChar(c: char)
  {
    IsDigit(c) || c == '.' || c == '+' || c == '-' || (IsSpace(c) && !InfoSeparator(c))
  }

  lemma UnsignedTextIsNumeric(t: string)
    requires ParseUnsigned(t).Some?
    ensures forall i :: 0 <= i < |t| ==> IsDigit(t[i]) || t[i] == '.'
  {
    var n := DigitRun(t);
    forall i | 0 <= i < |t| ensures IsDigit(t[i]) || t[i] == '.' {
      if i < n {
        assert t[i] == t[..n][i];
      } else if i > n {
        assert t[i] == t[n + 1..][i - n - 1];
      }
    }
  }

  /** A digit run stops at the first character that is not a digit. */
  lemma {:induction false} DigitRunStops(a: string, rest: string)
    requires AllDigits(a) && rest != [] && !IsDigit(rest[0])
    ensures DigitRun(a + rest) == |a|
    decreases |a|
  {
    if a == [] {
      assert a + rest == rest;
    } else {
      DigitRunStops(a[1..], rest);
      assert (a + rest)[1..] == a[1..] + rest;
    }
  }

  /** A field ending in an information separator is not a number, although
      `strip()` would drop the separator. */
  lemma InfoSeparatorIsNotStripped()
    ensures Strip("5\U{1C}") == "5"
    ensures ParseFloat("5\U{1C}") == None
  {
    StripTrailingSpace("5", "\U{1C}");
    assert ("5\U{1C}")[1] == '\U{1C}';
  }

  /** Two numbers on two lines are not one number: `float()` rejects digits,
      a line break and more digits. */
  lemma LineBreakIsNotANumber(a: string, b: string)
    requires a != [] && AllDigits(a) && b != [] && AllDigits(b)
    ensures ParseFloat(a + "\n" + b) == None
  {
    var s := a + "\n" + b;
    assert forall i :: 0 <= i < |s| ==> !InfoSeparator(s[i]) by {
      forall i | 0 <= i < |s| ensures !InfoSeparator(s[i]) {
        if i < |a| { assert s[i] == a[i]; } else if i > |a| { assert s[i] == b[i - |a| - 1]; }
      }
    }
    assert s[0] == a[0] && s[|s| - 1] == b[|b| - 1];
    StripUnchanged(s);
    DigitRunStops(a, "\n" + b);
    assert s == a + ("\n" + b);
    assert s[|a|] == '\n';
  }

  /** `float()` accepts only text made of digits, points, signs and white
      space; a field such as `[N/A]` fails. */
  lemma ParsedTextIsNumeric(s: string)
    requires ParseFloat(s).Some?
    ensures forall i :: 0 <= i < |s| ==> NumericChar(s[i])
  {
    var a := StripIsTrimmedSlice(s);
    var t := Strip(s);
    if |t| > 0 && (t[0] == '+' || t[0] == '-') {
      UnsignedTextIsNumeric(t[1..]);
      forall i | 0 <= i < |t| ensures NumericChar(t[i]) {
        if i > 0 { assert t[i] == t[1..][i - 1]; }
      }
    } else {
      UnsignedTextIsNumeric(t);
    }
    forall i | 0 <= i < |s| ensures NumericChar(s[i]) {
      if a <= i < a + |t| { assert s[i] == t[i - a]; }
    }
  }
}
