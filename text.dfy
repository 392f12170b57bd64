/**
 * The string helpers the migration relies on: PHP's `(int)` cast of a
 * string, integer-to-decimal conversion, `explode`, `implode` and
 * `str_contains`.
 */
module Text {

  predicate IsDigit(c: char) { '0' <= c <= '9' }

  predicate AllDigits(s: string) { forall i :: 0 <= i < |s| ==> IsDigit(s[i]) }

  function DigitChar(d: nat): char
    requires d < 10
  {
    "0123456789"[d]
  }

  /** Decimal digits of a natural number, most significant first, no leading zeros. */
  function NatToStr(n: nat): (s: string)
    ensures |s| > 0 && AllDigits(s)
  {
    if n < 10 then [DigitChar(n)] else NatToStr(n / 10) + [DigitChar(n % 10)]
  }

  /** PHP's conversion of an integer to a string (`implode`, string contexts). */
  function IntToStr(n: int): string
  {
    if n < 0 then "-" + NatToStr(-n) else NatToStr(n)
  }

  /** Value of a string made of decimal digits. */
  function DigitsValue(d: string): nat
    requires AllDigits(d)
  {
    if d == [] then 0 else DigitsValue(d[..|d| - 1]) * 10 + (d[|d| - 1] as int - '0' as int)
  }

  /** Longest prefix of `s` made of decimal digits. */
  function DigitPrefix(s: string): (d: string)
    ensures AllDigits(d) && |d| <= |s| && d == s[..|d|]
  {
    if s == [] || !IsDigit(s[0]) then [] else [s[0]] + DigitPrefix(s[1..])
  }

  /** The white space PHP skips before a numeric string: space, tab, newline, carriage return, vertical tab, form feed. */
  predicate IsSpace(c: char) { c == ' ' || c == '\t' || c == '\n' || c == '\r' || c as int == 11 || c as int == 12 }

  /** The number of white-space characters `s` starts with. */
  function LeadingSpaces(s: string): (k: nat)
    ensures k <= |s| && (forall i :: 0 <= i < k ==> IsSpace(s[i])) && (k < |s| ==> !IsSpace(s[k]))
  {
    if |s| > 0 && IsSpace(s[0]) then 1 + LeadingSpaces(s[1..]) else 0
  }

  /**
   * PHP's `(int)` cast of a string, as `ArrayHelper::toInteger` applies it:
   * leading white space is skipped, then an optional sign and the leading
   * digits are read; a string with no leading digits is 0.
   */
  function StrToInt(s: string): (n: int)
    ensures AllDigits(s) ==> n == DigitsValue(s)
    ensures |s| > 0 && !IsSpace(s[0]) && !IsDigit(s[0]) && s[0] != '-' && s[0] != '+' ==> n == 0
  {
    if |s| > 0 && IsSpace(s[0]) then StrToInt(s[1..])
    else if |s| > 0 && s[0] == '-' then 0 - DigitsValue(DigitPrefix(s[1..])) as int
    else if |s| > 0 && s[0] == '+' then DigitsValue(DigitPrefix(s[1..]))
    else DigitPrefixOfDigitsIf(s); DigitsValue(DigitPrefix(s))
  }

  /**
   * What the cast reads: after the leading white space, a `-` negates the
   * digits that follow it, a `+` is skipped, and otherwise the leading
   * digits are read.
   */
  lemma {:induction false} StrToIntReads(s: string)
    ensures var r := s[LeadingSpaces(s)..];
            StrToInt(s) == if |r| > 0 && r[0] == '-' then 0 - DigitsValue(DigitPrefix(r[1..])) as int
                           else if |r| > 0 && r[0] == '+' then DigitsValue(DigitPrefix(r[1..]))
                           else DigitsValue(DigitPrefix(r))
  {
    if |s| > 0 && IsSpace(s[0]) {
      StrToIntReads(s[1..]);
      assert s[1..][LeadingSpaces(s[1..])..] == s[LeadingSpaces(s)..];
    }
  }

  /** The digit prefix of a string of digits is the whole string. */
  lemma DigitPrefixOfDigitsIf(s: string)
    ensures AllDigits(s) ==> DigitPrefix(s) == s
  {
    if AllDigits(s) {
      DigitPrefixOfDigits(s);
    }
  }

  lemma {:induction false} DigitPrefixOfDigits(d: string)
    requires AllDigits(d)
    ensures DigitPrefix(d) == d
  {
    if d != [] {
      DigitPrefixOfDigits(d[1..]);
    }
  }

  lemma {:induction false} DigitsValueOfNatToStr(n: nat)
    ensures DigitsValue(NatToStr(n)) == n
  {
    var s := NatToStr(n);
    if n >= 10 {
      DigitsValueOfNatToStr(n / 10);
      assert s[..|s| - 1] == NatToStr(n / 10);
    }
  }

  /** Reading back the decimal form of any integer gives that integer. */
  lemma StrToIntOfIntToStr(n: int)
    ensures StrToInt(IntToStr(n)) == n
  {
    if n < 0 {
      ReadBackNegative(n);
    } else {
      ReadBackNatural(n);
    }
  }

  lemma ReadBackNatural(n: int)
    requires n >= 0
    ensures StrToInt(IntToStr(n)) == n
  {
    var d := NatToStr(n);
    assert IntToStr(n) == d;
    StrToIntOfDigits(d);
    DigitsValueOfNatToStr(n);
  }

  lemma ReadBackNegative(n: int)
    requires n < 0
    ensures StrToInt(IntToStr(n)) == n
  {
    assert IntToStr(n) == "-" + NatToStr(-n);
    NegatedNat(-n);
  }

  lemma NegatedNat(m: nat)
    ensures StrToInt("-" + NatToStr(m)) == -(m as int)
  {
    var d := NatToStr(m);
    assert DigitsValue(d) == m by {
      DigitsValueOfNatToStr(m);
    }
    StrToIntNegative(d);
  }

  /** A string of digits reads as its decimal value. */
  lemma StrToIntOfDigits(d: string)
    requires AllDigits(d)
    ensures StrToInt(d) == DigitsValue(d)
  {
  }

  /** A minus sign followed by digits reads as the negated digits. */
  lemma StrToIntNegative(d: string)
    requires AllDigits(d)
    ensures StrToInt("-" + d) == 0 - DigitsValue(d) as int
  {
    var s := "-" + d;
    assert s[0] == '-' && !IsSpace(s[0]) && s[1..] == d;
    DigitPrefixOfDigits(d);
  }

  /** PHP's `explode(sep, s)`: the pieces between separators; "" gives [""]. No piece holds the separator. */
  function Split(s: string, sep: char): (parts: seq<string>)
    ensures |parts| >= 1
    ensures forall i :: 0 <= i < |parts| ==> sep !in parts[i]
  {
    if s == [] then [""]
    else
      var rest := Split(s[1..], sep);
      if s[0] == sep then [""] + rest else [[s[0]] + rest[0]] + rest[1..]
  }

  /** `implode` puts the pieces of `explode` back together. */
  lemma {:induction false} JoinSplit(s: string, sep: char)
    ensures Join(Split(s, sep), sep) == s
  {
    if s != [] {
      var rest := Split(s[1..], sep);
      JoinSplit(s[1..], sep);
      if s[0] == sep {
        JoinCons("", rest, sep);
      } else {
        JoinGrowHead(s[0], rest, sep);
      }
      assert [s[0]] + s[1..] == s;
    }
  }

  /** `implode` of two or more pieces: the first piece, the separator, the rest. */
  lemma JoinCons(a: string, t: seq<string>, sep: char)
    requires |t| >= 1
    ensures Join([a] + t, sep) == a + [sep] + Join(t, sep)
  {
    assert ([a] + t)[1..] == t;
  }

  /** Extending the first piece by a character extends the result by it. */
  lemma JoinGrowHead(c: char, t: seq<string>, sep: char)
    requires |t| >= 1
    ensures Join([[c] + t[0]] + t[1..], sep) == [c] + Join(t, sep)
  {
    if |t| > 1 {
      JoinCons([c] + t[0], t[1..], sep);
      JoinCons(t[0], t[1..], sep);
      assert [t[0]] + t[1..] == t;
    }
  }

  /**
   * PHP's `implode(sep, parts)`: the first piece comes first, followed by
   * the separator when there are more.
   */
  function Join(parts: seq<string>, sep: char): (r: string)
    ensures |parts| >= 1 ==> |parts[0]| <= |r| && r[..|parts[0]|] == parts[0]
    ensures |parts| >= 2 ==> |parts[0]| < |r| && r[|parts[0]|] == sep
  {
    if |parts| == 0 then ""
    else if |parts| == 1 then parts[0]
    else parts[0] + [sep] + Join(parts[1..], sep)
  }

  lemma {:induction false} SplitNoSep(a: string, sep: char)
    requires sep !in a
    ensures Split(a, sep) == [a]
  {
    if a != [] {
      SplitNoSep(a[1..], sep);
      assert [a[0]] + a[1..] == a;
    }
  }

  lemma {:induction false} SplitAfterPiece(a: string, sep: char, b: string)
    requires sep !in a
    ensures Split(a + [sep] + b, sep) == [a] + Split(b, sep)
  {
    if a == [] {
      assert a + [sep] + b == [sep] + b;
      assert ([sep] + b)[1..] == b;
    } else {
      assert (a + [sep] + b)[1..] == a[1..] + [sep] + b;
      SplitAfterPiece(a[1..], sep, b);
      assert [a[0]] + a[1..] == a;
    }
  }

  /** `explode` undoes `implode` when no piece contains the separator. */
  lemma {:induction false} SplitJoin(parts: seq<string>, sep: char)
    requires |parts| >= 1
    requires forall i :: 0 <= i < |parts| ==> sep !in parts[i]
    ensures Split(Join(parts, sep), sep) == parts
  {
    if |parts| == 1 {
      SplitNoSep(parts[0], sep);
    } else {
      SplitJoin(parts[1..], sep);
      SplitAfterPiece(parts[0], sep, Join(parts[1..], sep));
      assert [parts[0]] + parts[1..] == parts;
    }
  }

  /** `sub` occurs in `s` at position `i`. */
  predicate OccursAt(s: string, sub: string, i: int)
  {
    0 <= i && i + |sub| <= |s| && s[i..i + |sub|] == sub
  }

  /** PHP's `str_contains(s, sub)`: `sub` occurs somewhere in `s`. */
  predicate Contains(s: string, sub: string): (b: bool)
    ensures b <==> exists i :: OccursAt(s, sub, i)
  {
    if |sub| > |s| then false
    else if s[..|sub|] == sub then
      assert OccursAt(s, sub, 0);
      true
    else
      var b := Contains(s[1..], sub);
      assert b ==> exists i :: OccursAt(s, sub, i) by {
        if b {
          var j :| OccursAt(s[1..], sub, j);
          assert s[1..][j..j + |sub|] == s[j + 1..j + 1 + |sub|];
          assert OccursAt(s, sub, j + 1);
        }
      }
      assert (exists i :: OccursAt(s, sub, i)) ==> b by {
        if exists i :: OccursAt(s, sub, i) {
          var i :| OccursAt(s, sub, i);
          assert i != 0;
          assert s[1..][i - 1..i - 1 + |sub|] == s[i..i + |sub|];
          assert OccursAt(s[1..], sub, i - 1);
        }
      }
      b
  }
}
