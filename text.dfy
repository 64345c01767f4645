/** Python `str`/`bytes` helpers used by several modules: `split`, `join`,
    the `int()` conversion of text, ASCII lower-casing and UTF-8 encoding. */
module Text {
  import opened Wrappers
  import opened Bytes

  /** `s.split(sep)` for a one-element separator: always at least one part. */
  function Split<T(==)>(s: seq<T>, sep: T): (parts: seq<seq<T>>)
    ensures |parts| >= 1
    decreases |s|
  {
    if s == [] then [[]]
    else
      var rest := Split(s[1..], sep);
      if s[0] == sep then [[]] + rest else [[s[0]] + rest[0]] + rest[1..]
  }

  /** `sep.join(parts)` */
  function Join<T>(parts: seq<seq<T>>, sep: T): seq<T>
  {
    if |parts| == 0 then []
    else if |parts| == 1 then parts[0]
    else parts[0] + [sep] + Join(parts[1..], sep)
  }

  /** Number of occurrences of `x` in `s`. */
  function Count<T(==)>(s: seq<T>, x: T): nat
  {
    if s == [] then 0 else (if s[0] == x then 1 else 0) + Count(s[1..], x)
  }

  lemma {:induction false} CountAppend<T>(a: seq<T>, b: seq<T>, x: T)
    ensures Count(a + b, x) == Count(a, x) + Count(b, x)
    decreases |a|
  {
    if a != [] {
      assert (a + b)[1..] == a[1..] + b;
      CountAppend(a[1..], b, x);
    } else {
      assert a + b == b;
    }
  }

  /** Total length of the parts. */
  function SumLengths<T>(parts: seq<seq<T>>): nat
  {
    if parts == [] then 0 else |parts[0]| + SumLengths(parts[1..])
  }

  /** The parts of a split hold every element but the separators. */
  lemma {:induction false} SplitLengths<T>(s: seq<T>, sep: T)
    ensures SumLengths(Split(s, sep)) == |s| - Count(s, sep)
    decreases |s|
  {
    if s != [] {
      var rest := Split(s[1..], sep);
      SplitLengths(s[1..], sep);
      if s[0] == sep {
        assert Split(s, sep)[1..] == rest;
      } else {
        var parts := Split(s, sep);
        assert parts[1..] == rest[1..];
      }
    }
  }

  /** Joining the parts of a split with the same separator gives the input back. */
  lemma {:induction false} JoinSplit<T>(s: seq<T>, sep: T)
    ensures Join(Split(s, sep), sep) == s
    decreases |s|
  {
    if s != [] {
      var rest := Split(s[1..], sep);
      JoinSplit(s[1..], sep);
      if s[0] == sep {
        assert Split(s, sep) == [[]] + rest;
      } else {
        var parts := Split(s, sep);
        assert parts == [[s[0]] + rest[0]] + rest[1..];
        if |rest| == 1 {
          assert Join(parts, sep) == [s[0]] + rest[0];
        } else {
          assert parts[1..] == rest[1..];
          assert Join(rest, sep) == rest[0] + [sep] + Join(rest[1..], sep);
        }
      }
    }
  }

  /** No part of a split contains the separator, and there is one part more
      than there are separators. */
  lemma {:induction false} SplitParts<T>(s: seq<T>, sep: T)
    ensures forall p :: p in Split(s, sep) ==> sep !in p
    ensures |Split(s, sep)| == Count(s, sep) + 1
    decreases |s|
  {
    if s != [] {
      SplitParts(s[1..], sep);
    }
  }

  lemma ConcatAssoc<T>(a: seq<T>, b: seq<T>, c: seq<T>)
    ensures a + b + c == a + (b + c)
  {
  }

  /** Splitting the join of parts that hold no separator gives the parts
      back. */
  lemma {:induction false} SplitJoin<T>(parts: seq<seq<T>>, sep: T)
    requires |parts| >= 1
    requires forall i :: 0 <= i < |parts| ==> sep !in parts[i]
    ensures Split(Join(parts, sep), sep) == parts
    decreases |parts|, |parts[0]|
  {
    var s := Join(parts, sep);
    if parts[0] == [] {
      if |parts| > 1 {
        SplitJoin(parts[1..], sep);
        assert s == [sep] + Join(parts[1..], sep);
        assert s[1..] == Join(parts[1..], sep);
      }
    } else {
      var shorter := parts[0 := parts[0][1..]];
      assert forall i :: 0 <= i < |shorter| ==> sep !in shorter[i];
      SplitJoin(shorter, sep);
      if |parts| > 1 {
        assert shorter[1..] == parts[1..];
      }
      assert s == [parts[0][0]] + Join(shorter, sep);
      assert s[1..] == Join(shorter, sep);
      assert parts[0] == [parts[0][0]] + shorter[0];
    }
  }

  // ---------------------------------------------------------------------------
  // int() of a text value

  predicate IsDigit(c: char) { '0' <= c <= '9' }

  /** The ASCII white space that `int()` skips around a number. */
  predicate IsSpace(c: char)
  {
    c == ' ' || c == '\t' || c == '\n' || c == '\r' || c == '\U{B}' || c == '\U{C}'
  }

  function StripLeft(s: string): (r: string)
    ensures |r| <= |s|
    ensures r == s[|s| - |r|..]
    ensures r == [] || !IsSpace(r[0])
  {
    if s != [] && IsSpace(s[0]) then StripLeft(s[1..]) else s
  }

  function StripRight(s: string): (r: string)
    ensures |r| <= |s|
    ensures r == s[..|r|]
    ensures r == [] || !IsSpace(r[|r| - 1])
  {
    if s != [] && IsSpace(s[|s| - 1]) then StripRight(s[..|s| - 1]) else s
  }

  /** Two underscores in a row start at position `i` of `s`. */
  predicate DoubleUnderscore(s: string, i: int)
    requires 0 <= i < |s| - 1
  {
    s[i] == '_' && s[i + 1] == '_'
  }

  /** Digits with single underscores between them, as `int()` accepts them. */
  predicate DigitGroups(s: string)
  {
    && |s| > 0 && IsDigit(s[0]) && IsDigit(s[|s| - 1])
    && (forall i :: 0 <= i < |s| ==> IsDigit(s[i]) || s[i] == '_')
    && (forall i :: 0 <= i < |s| - 1 ==> !DoubleUnderscore(s, i))
  }

  /** Decimal value of the digits of `s`, underscores skipped. */
  function DecimalValue(s: string): nat
  {
    if s == [] then 0
    else if IsDigit(s[|s| - 1]) then DecimalValue(s[..|s| - 1]) * 10 + (s[|s| - 1] as int - '0' as int)
    else DecimalValue(s[..|s| - 1])
  }

  /** `int()` of a text already stripped of white space: an optional sign,
      then digit groups. */
  function ParseCore(t: string): (r: Option<int>)
    ensures r.Some? ==> exists i :: 0 <= i < |t| && IsDigit(t[i])
  {
    var neg := |t| > 0 && t[0] == '-';
    var body := if |t| > 0 && (t[0] == '-' || t[0] == '+') then t[1..] else t;
    if DigitGroups(body) then
      assert body[0] == t[|t| - |body|];
      var v: int := if neg then -(DecimalValue(body) as int) else DecimalValue(body);
      Some(v)
    else None
  }

  /** Python `int(s)` for a base-10 text: surrounding white space, an optional
      sign, then digit groups; `None` where Python raises ValueError. */
  function ParseInt(s: string): (r: Option<int>)
    ensures r.Some? ==> exists i :: 0 <= i < |s| && IsDigit(s[i])
  {
    StrippedDigit(s);
    ParseCore(StripRight(StripLeft(s)))
  }

  /** A digit left after stripping was a digit of the text. */
  lemma StrippedDigit(s: string)
    ensures var t := StripRight(StripLeft(s));
      (exists k :: 0 <= k < |t| && IsDigit(t[k])) ==> exists i :: 0 <= i < |s| && IsDigit(s[i])
  {
    var l := StripLeft(s);
    var t := StripRight(l);
    if k :| 0 <= k < |t| && IsDigit(t[k]) {
      assert t[k] == l[k] == s[|s| - |l| + k];
    }
  }

  /** White space in front of a text that does not start with white space
      is exactly what `lstrip` removes. */
  lemma {:induction false} StripLeftSpaces(pre: string, x: string)
    requires forall i :: 0 <= i < |pre| ==> IsSpace(pre[i])
    requires x == [] || !IsSpace(x[0])
    ensures StripLeft(pre + x) == x
    decreases |pre|
  {
    if pre == [] {
      assert pre + x == x;
    } else {
      assert (pre + x)[1..] == pre[1..] + x;
      StripLeftSpaces(pre[1..], x);
    }
  }

  /** White space after a text that does not end with white space is exactly
      what `rstrip` removes. */
  lemma {:induction false} StripRightSpaces(x: string, post: string)
    requires forall i :: 0 <= i < |post| ==> IsSpace(post[i])
    requires x == [] || !IsSpace(x[|x| - 1])
    ensures StripRight(x + post) == x
    decreases |post|
  {
    if post == [] {
      assert x + post == x;
    } else {
      assert (x + post)[..|x + post| - 1] == x + post[..|post| - 1];
      StripRightSpaces(x, post[..|post| - 1]);
    }
  }

  /** `strip()` of a text padded with white space on both sides gives the
      text back when its own ends are not white space. */
  lemma StripPadded(pre: string, core: string, post: string)
    requires forall i :: 0 <= i < |pre| ==> IsSpace(pre[i])
    requires forall i :: 0 <= i < |post| ==> IsSpace(post[i])
    requires |core| > 0 && !IsSpace(core[0]) && !IsSpace(core[|core| - 1])
    ensures StripRight(StripLeft(pre + core + post)) == core
  {
    assert pre + core + post == pre + (core + post);
    StripLeftSpaces(pre, core + post);
    StripRightSpaces(core, post);
  }

  /** Plain digits are one digit group. */
  lemma DigitsAreGroups(digits: string)
    requires |digits| > 0 && forall i :: 0 <= i < |digits| ==> IsDigit(digits[i])
    ensures DigitGroups(digits)
  {
  }

  /** A sign `int()` takes: none, `+` or `-`. */
  predicate IsSign(sign: string)
  {
    |sign| == 0 || (|sign| == 1 && (sign[0] == '+' || sign[0] == '-'))
  }

  /** The value of a sign applied to a natural number. */
  function Signed(sign: string, n: nat): int
  {
    if |sign| == 1 && sign[0] == '-' then -(n as int) else n
  }

  /** `int()` of digits with an optional sign and any white space around
      them is the signed decimal value of the digits. */
  lemma ParseIntPadded(pre: string, sign: string, digits: string, post: string)
    requires forall i :: 0 <= i < |pre| ==> IsSpace(pre[i])
    requires forall i :: 0 <= i < |post| ==> IsSpace(post[i])
    requires IsSign(sign)
    requires |digits| > 0 && forall i :: 0 <= i < |digits| ==> IsDigit(digits[i])
    ensures ParseInt(pre + (sign + digits) + post) == Some(Signed(sign, DecimalValue(digits)))
  {
    SignedDigitsEnds(sign, digits);
    ParsePadded(pre, sign + digits, post);
    ParseSigned(sign, digits);
  }

  /** A signed number neither starts nor ends with white space. */
  lemma SignedDigitsEnds(sign: string, digits: string)
    requires IsSign(sign)
    requires |digits| > 0 && IsDigit(digits[0]) && IsDigit(digits[|digits| - 1])
    ensures var core := sign + digits; |core| > 0 && !IsSpace(core[0]) && !IsSpace(core[|core| - 1])
  {
    var core := sign + digits;
    assert core[0] == (if |sign| == 0 then digits[0] else sign[0]);
    assert core[|core| - 1] == digits[|digits| - 1];
  }

  /** White space around a text does not change what `int()` makes of it. */
  lemma ParsePadded(pre: string, core: string, post: string)
    requires forall i :: 0 <= i < |pre| ==> IsSpace(pre[i])
    requires forall i :: 0 <= i < |post| ==> IsSpace(post[i])
    requires |core| > 0 && !IsSpace(core[0]) && !IsSpace(core[|core| - 1])
    ensures ParseInt(pre + core + post) == ParseCore(core)
  {
    StripPadded(pre, core, post);
  }

  /** A sign followed by digits parses to the signed value of the digits. */
  lemma ParseSigned(sign: string, digits: string)
    requires IsSign(sign)
    requires |digits| > 0 && forall i :: 0 <= i < |digits| ==> IsDigit(digits[i])
    ensures ParseCore(sign + digits) == Some(Signed(sign, DecimalValue(digits)))
  {
    DigitsAreGroups(digits);
    if |sign| == 0 {
      assert sign + digits == digits;
      ParseUnsigned(digits);
    } else {
      ParseSignedBody(sign[0], digits);
      assert sign == [sign[0]];
    }
  }

  /** Plain digits parse to their decimal value. */
  lemma ParseUnsigned(digits: string)
    requires DigitGroups(digits)
    ensures ParseCore(digits) == Some(DecimalValue(digits))
  {
    assert IsDigit(digits[0]);
  }

  /** A `+` or `-` before digit groups applies to their decimal value. */
  lemma ParseSignedBody(c: char, digits: string)
    requires c == '+' || c == '-'
    requires DigitGroups(digits)
    ensures ParseCore([c] + digits) == Some(if c == '-' then -(DecimalValue(digits) as int) else DecimalValue(digits))
  {
    var t := [c] + digits;
    assert t[0] == c && t[1..] == digits;
  }

  lemma ParseIntExamples()
    ensures ParseInt("12") == Some(12)
    ensures ParseInt("x") == None
  {
    ParseTwelve();
    ParseLetter();
  }

  lemma ParseTwelve()
    ensures ParseInt("12") == Some(12)
  {
    StripTwelve();
    DecimalTwelve();
  }

  lemma StripTwelve()
    ensures StripLeft("12") == "12" && StripRight("12") == "12" && DigitGroups("12")
  {
  }

  lemma DecimalTwelve()
    ensures DecimalValue("12") == 12
  {
    assert "12"[..1] == "1" && "1"[..0] == "";
    assert DecimalValue("12") == DecimalValue("1") * 10 + 2;
  }

  lemma ParseLetter()
    ensures ParseInt("x") == None
  {
    StripLetter();
  }

  lemma StripLetter()
    ensures StripLeft("x") == "x" && StripRight("x") == "x" && !DigitGroups("x")
  {
    assert "x"[0] == 'x' && !IsSpace('x') && !IsDigit('x');
  }

  /** Bytes read as text, one character per byte (Python compares a `bytes`
      object with ASCII text this way). */
  function Latin1(b: Bytes): (s: string)
    ensures |s| == |b|
    ensures forall i :: 0 <= i < |b| ==> s[i] as int == b[i]
  {
    seq(|b|, i requires 0 <= i < |b| => b[i] as char)
  }

  /** Text as bytes, one byte per character, for ASCII text. */
  function Ascii(s: string): (b: Bytes)
    requires forall i :: 0 <= i < |s| ==> s[i] as int < 128
    ensures |b| == |s|
    ensures forall i :: 0 <= i < |s| ==> b[i] == s[i] as int
  {
    seq(|s|, i requires 0 <= i < |s| => s[i] as int)
  }

  // ---------------------------------------------------------------------------
  // str.lower() and str.encode()

  function LowerChar(c: char): char
  {
    if 'A' <= c <= 'Z' then (c as int + 32) as char else c
  }

  /** `s.lower()`, restricted to the ASCII letters. */
  function Lower(s: string): (r: string)
    ensures |r| == |s|
  {
    seq(|s|, i requires 0 <= i < |s| => LowerChar(s[i]))
  }

  lemma LowerIdempotent(s: string)
    ensures Lower(Lower(s)) == Lower(s)
  {
    forall i | 0 <= i < |s|
      ensures Lower(Lower(s))[i] == Lower(s)[i]
    {
    }
  }

  /** UTF-8 encoding of one Unicode scalar value. */
  function Utf8Char(c: char): (r: Bytes)
    ensures 1 <= |r| <= 4
    ensures |r| == 1 <==> c as int < 0x80
  {
    var n := c as int;
    if n < 0x80 then [n]
    else if n < 0x800 then [0xC0 + n / 64, 0x80 + n % 64]
    else if n < 0x10000 then [0xE0 + n / 4096, 0x80 + (n / 64) % 64, 0x80 + n % 64]
    else [0xF0 + n / 262144, 0x80 + (n / 4096) % 64, 0x80 + (n / 64) % 64, 0x80 + n % 64]
  }

  /** `s.encode()` (UTF-8). */
  function Utf8(s: string): (r: Bytes)
  {
    if s == [] then [] else Utf8Char(s[0]) + Utf8(s[1..])
  }

  predicate IsAscii(s: string)
  {
    forall i :: 0 <= i < |s| ==> s[i] as int < 0x80
  }

  /** The encoded form has at least one byte per character, and exactly one per
      character iff the text is ASCII. */
  lemma {:induction false} Utf8Length(s: string)
    ensures |Utf8(s)| >= |s|
    ensures |Utf8(s)| == |s| <==> IsAscii(s)
  {
    if s != [] {
      Utf8Length(s[1..]);
      assert IsAscii(s) <==> s[0] as int < 0x80 && IsAscii(s[1..]) by {
        if IsAscii(s[1..]) && s[0] as int < 0x80 {
          forall i | 0 <= i < |s| ensures s[i] as int < 0x80 {
            if i > 0 { assert s[i] == s[1..][i - 1]; }
          }
        }
      }
    }
  }
}
