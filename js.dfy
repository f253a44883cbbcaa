/** The JavaScript built-ins the source relies on (`Number`, `split`, `join`,
    `padStart`, `toString`, `%`, `includes`, `trim`, `indexOf` and `<` on
    strings), restated over Dafny strings. Characters are compared by code
    point. */
module Js {

  /** A JavaScript number as the source meets it: an integer or NaN. */
  datatype JsNum = Num(v: int) | NaN

  predicate IsDigit(c: char) { '0' <= c <= '9' }

  predicate AllDigits(s: string) { forall i :: 0 <= i < |s| ==> IsDigit(s[i]) }

  function DigitValue(c: char): nat
    requires IsDigit(c)
  {
    (c as int) - ('0' as int)
  }

  function DigitChar(d: nat): (c: char)
    requires d < 10
    ensures IsDigit(c) && DigitValue(c) == d
  {
    (('0' as int) + d) as char
  }

  /** Value of a decimal digit string, most significant digit first. */
  function DigitsValue(s: string): nat
    requires AllDigits(s)
  {
    if s == [] then 0 else 10 * DigitsValue(s[..|s| - 1]) + DigitValue(s[|s| - 1])
  }

  /** `Number(s)`: the empty string is 0, decimal digits with an optional
      sign are that integer, and every other string is NaN. */
  function Number(s: string): JsNum
  {
    if s == [] then Num(0)
    else if AllDigits(s) then Num(DigitsValue(s))
    else if |s| > 1 && (s[0] == '+' || s[0] == '-') && AllDigits(s[1..]) then
      if s[0] == '-' then Num(0 - DigitsValue(s[1..]) as int) else Num(DigitsValue(s[1..]))
    else NaN
  }

  /** Decimal text of a natural number, without leading zeros. */
  function NatToString(n: nat): (r: string)
    ensures |r| >= 1 && AllDigits(r) && DigitsValue(r) == n
    ensures n < 10 <==> |r| == 1
    ensures n > 0 ==> r[0] != '0'
  {
    if n < 10 then [DigitChar(n)]
    else
      var r := NatToString(n / 10) + [DigitChar(n % 10)];
      assert r[..|r| - 1] == NatToString(n / 10);
      r
  }

  /** `i.toString()` for an integer. */
  function IntToString(i: int): string
  {
    if i < 0 then "-" + NatToString(-i) else NatToString(i)
  }

  /** `Number` reads back what `toString` wrote. */
  lemma NumberOfIntToString(i: int)
    ensures Number(IntToString(i)) == Num(i)
  {
    if i < 0 {
      var s := IntToString(i);
      assert s[1..] == NatToString(-i);
      assert !IsDigit(s[0]);
    }
  }

  /** `s.padStart(2, '0')`. */
  function PadStart2(s: string): (r: string)
    ensures |r| == if |s| >= 2 then |s| else 2
    ensures r[|r| - |s|..] == s
    ensures forall i :: 0 <= i < |r| - |s| ==> r[i] == '0'
  {
    if |s| >= 2 then s else seq(2 - |s|, _ => '0') + s
  }

  /** `a % b` for a positive divisor: the remainder takes the sign of `a`. */
  function JsRem(a: int, b: int): (r: int)
    requires b > 0
    ensures -b < r < b
    ensures a >= 0 ==> 0 <= r
    ensures a < 0 ==> r <= 0
  {
    if a >= 0 then a % b else -((-a) % b)
  }

  /** `s.split(sep)` for a one-character separator. */
  function Split(s: string, sep: char): (parts: seq<string>)
    ensures |parts| >= 1
  {
    if s == [] then [[]]
    else
      var rest := Split(s[1..], sep);
      if s[0] == sep then [[]] + rest else [[s[0]] + rest[0]] + rest[1..]
  }

  /** `parts.join(sep)`. */
  function Join(parts: seq<string>, sep: char): string
  {
    if |parts| == 0 then []
    else if |parts| == 1 then parts[0]
    else parts[0] + [sep] + Join(parts[1..], sep)
  }

  /** Joining the pieces of a split gives the string back, and no piece
      holds the separator. */
  lemma {:induction false} JoinSplit(s: string, sep: char)
    ensures Join(Split(s, sep), sep) == s
    ensures forall i :: 0 <= i < |Split(s, sep)| ==> sep !in Split(s, sep)[i]
  {
    if s != [] {
      JoinSplit(s[1..], sep);
      var rest := Split(s[1..], sep);
      if s[0] == sep {
        assert Join(Split(s, sep), sep) == [] + [sep] + Join(rest, sep);
      } else if |rest| == 1 {
        assert Join(Split(s, sep), sep) == [s[0]] + rest[0];
      } else {
        assert Join(rest, sep) == rest[0] + [sep] + Join(rest[1..], sep);
        assert Split(s, sep)[1..] == rest[1..];
        assert Join(Split(s, sep), sep) == [s[0]] + rest[0] + [sep] + Join(rest[1..], sep);
      }
    }
  }

  lemma {:induction false} SplitPrefix(a: string, t: string, sep: char)
    requires sep !in a
    ensures Split(a + t, sep) == [a + Split(t, sep)[0]] + Split(t, sep)[1..]
  {
    if a != [] {
      assert a[0] in a;
      SplitPrefix(a[1..], t, sep);
      assert (a + t)[1..] == a[1..] + t;
      var rest := Split(a[1..] + t, sep);
      assert Split(a + t, sep) == [[a[0]] + rest[0]] + rest[1..];
      assert [a[0]] + (a[1..] + Split(t, sep)[0]) == a + Split(t, sep)[0];
    } else {
      assert a + t == t;
      var parts := Split(t, sep);
      assert a + parts[0] == parts[0];
      assert [parts[0]] + parts[1..] == parts;
    }
  }

  /** Splitting a join of separator-free pieces gives the pieces back. */
  lemma {:induction false} SplitJoin(parts: seq<string>, sep: char)
    requires |parts| >= 1
    requires forall i :: 0 <= i < |parts| ==> sep !in parts[i]
    ensures Split(Join(parts, sep), sep) == parts
  {
    if |parts| == 1 {
      SplitPrefix(parts[0], [], sep);
      assert parts[0] + [] == parts[0];
    } else {
      var tail := Join(parts[1..], sep);
      SplitJoin(parts[1..], sep);
      assert Split([sep] + tail, sep) == [[]] + Split(tail, sep);
      SplitPrefix(parts[0], [sep] + tail, sep);
      assert parts[0] + [sep] + tail == parts[0] + ([sep] + tail);
      assert parts[0] + [] == parts[0];
    }
  }

  /** JavaScript's `a < b` on strings: lexicographic by character code. */
  predicate StrLt(a: string, b: string)
  {
    if a == [] then b != []
    else if b == [] then false
    else if a[0] != b[0] then a[0] < b[0]
    else StrLt(a[1..], b[1..])
  }

  lemma {:induction false} StrLtIrreflexive(a: string)
    ensures !StrLt(a, a)
  {
    if a != [] { StrLtIrreflexive(a[1..]); }
  }

  lemma {:induction false} StrLtTransitive(a: string, b: string, c: string)
    requires StrLt(a, b) && StrLt(b, c)
    ensures StrLt(a, c)
  {
    if a != [] && b != [] && c != [] && a[0] == b[0] && b[0] == c[0] {
      StrLtTransitive(a[1..], b[1..], c[1..]);
    }
  }

  /** Two different strings are ordered one way or the other. */
  lemma {:induction false} StrLtTotal(a: string, b: string)
    requires a != b
    ensures StrLt(a, b) || StrLt(b, a)
  {
    if a != [] && b != [] && a[0] == b[0] {
      assert a == [a[0]] + a[1..] && b == [b[0]] + b[1..];
      StrLtTotal(a[1..], b[1..]);
    }
  }

  lemma {:induction false} StrLtAsymmetric(a: string, b: string)
    requires StrLt(a, b)
    ensures !StrLt(b, a)
  {
    if a != [] && b != [] && a[0] == b[0] {
      StrLtAsymmetric(a[1..], b[1..]);
    }
  }

  /** `!(b < a)`: `a` sorts no later than `b`. */
  predicate StrLe(a: string, b: string)
  {
    !StrLt(b, a)
  }

  /** `StrLe` is total and transitive, so it can order query results. */
  lemma StrLeTotalPreorder(a: string, b: string, c: string)
    ensures StrLe(a, b) || StrLe(b, a)
    ensures StrLe(a, b) && StrLe(b, c) ==> StrLe(a, c)
  {
    if StrLt(b, a) {
      StrLtAsymmetric(b, a);
    }
    if StrLe(a, b) && StrLe(b, c) && StrLt(c, a) && a != b {
      StrLtTotal(a, b);
      StrLtTransitive(c, a, b);
    }
  }

  /** `s.includes(t)`. */
  predicate Includes(s: string, t: string)
  {
    (|t| <= |s| && s[..|t|] == t) || (s != [] && Includes(s[1..], t))
  }

  /** `t` occurs in `s` starting at position `i`. */
  predicate OccursAt(s: string, t: string, i: int)
  {
    0 <= i && i + |t| <= |s| && s[i..i + |t|] == t
  }

  /** `includes` holds exactly when `t` occurs at some position of `s`. */
  lemma {:induction false} IncludesIff(s: string, t: string)
    ensures Includes(s, t) <==> exists i :: OccursAt(s, t, i)
  {
    if |t| <= |s| && s[..|t|] == t {
      assert OccursAt(s, t, 0);
    } else if s != [] {
      IncludesIff(s[1..], t);
      if exists i :: OccursAt(s, t, i) {
        var i :| OccursAt(s, t, i);
        assert i != 0;
        assert s[1..][i - 1..i - 1 + |t|] == s[i..i + |t|];
        assert OccursAt(s[1..], t, i - 1);
      }
      if Includes(s[1..], t) {
        var j :| OccursAt(s[1..], t, j);
        assert s[1..][j..j + |t|] == s[j + 1..j + 1 + |t|];
        assert OccursAt(s, t, j + 1);
      }
    } else {
      assert |t| > 0;
      assert forall i :: !OccursAt(s, t, i);
    }
  }

  lemma IncludesInfix(a: string, t: string, b: string)
    ensures Includes(a + t + b, t)
  {
    var s := a + t + b;
    assert s[|a|..|a| + |t|] == t;
    assert OccursAt(s, t, |a|);
    IncludesIff(s, t);
  }

  /** The characters `String.prototype.trim` removes: white space and line
      terminators. */
  predicate IsJsSpace(c: char)
  {
    var n := c as int;
    n == 0x09 || n == 0x0A || n == 0x0B || n == 0x0C || n == 0x0D || n == 0x20
    || n == 0xA0 || n == 0x1680 || (0x2000 <= n <= 0x200A) || n == 0x2028
    || n == 0x2029 || n == 0x202F || n == 0x205F || n == 0x3000 || n == 0xFEFF
  }

  function TrimStart(s: string): (r: string)
    ensures r == [] || !IsJsSpace(r[0])
    ensures exists k :: 0 <= k <= |s| && r == s[k..]
  {
    if s != [] && IsJsSpace(s[0]) then
      var r := TrimStart(s[1..]);
      var k :| 0 <= k <= |s[1..]| && r == s[1..][k..];
      assert r == s[k + 1..];
      r
    else
      assert s == s[0..];
      s
  }

  function TrimEnd(s: string): (r: string)
    ensures r == [] || !IsJsSpace(r[|r| - 1])
    ensures |r| <= |s| && r == s[..|r|]
    ensures s != [] && !IsJsSpace(s[|s| - 1]) ==> r == s
    ensures forall i :: |r| <= i < |s| ==> IsJsSpace(s[i])
  {
    if s != [] && IsJsSpace(s[|s| - 1]) then TrimEnd(s[..|s| - 1]) else s
  }

  /** `r` is `s` with some blanks cut from its front and some from its back. */
  predicate BlanksCut(s: string, r: string)
  {
    exists k, l ::
      0 <= k <= l <= |s| && r == s[k..l]
      && (forall i :: 0 <= i < k ==> IsJsSpace(s[i])) && (forall i :: l <= i < |s| ==> IsJsSpace(s[i]))
  }

  /** Cutting a leading blank first keeps `BlanksCut`. */
  lemma BlanksCutShift(s: string, r: string)
    requires s != [] && IsJsSpace(s[0]) && BlanksCut(s[1..], r)
    ensures BlanksCut(s, r)
  {
    var t := s[1..];
    var k, l :| 0 <= k <= l <= |t| && r == t[k..l]
      && (forall i :: 0 <= i < k ==> IsJsSpace(t[i])) && (forall i :: l <= i < |t| ==> IsJsSpace(t[i]));
    assert r == s[k + 1..l + 1];
    forall i | 0 <= i < k + 1 ensures IsJsSpace(s[i]) {
      if i > 0 { assert s[i] == t[i - 1]; }
    }
    forall i | l + 1 <= i < |s| ensures IsJsSpace(s[i]) {
      assert s[i] == t[i - 1];
    }
  }

  /** `s.trim()`: blanks go from the front, then from the back. What is
      left is the middle of `s`, with only blanks cut off either side. */
  function Trim(s: string): (r: string)
    ensures r == [] || (!IsJsSpace(r[0]) && !IsJsSpace(r[|r| - 1]))
    ensures |r| <= |s|
    ensures BlanksCut(s, r)
  {
    if s != [] && IsJsSpace(s[0]) then
      var r := Trim(s[1..]);
      BlanksCutShift(s, r);
      r
    else
      var r := TrimEnd(s);
      assert r == s[0..|r|];
      r
  }

  /** A string that neither starts nor ends with white space trims to itself. */
  lemma TrimFixed(s: string)
    requires s == [] || (!IsJsSpace(s[0]) && !IsJsSpace(s[|s| - 1]))
    ensures Trim(s) == s
  {
  }

  /** `xs.indexOf(x)`: the first position holding `x`, or -1. */
  function IndexOf<T(==)>(xs: seq<T>, x: T): (k: int)
    ensures -1 <= k < |xs|
    ensures k == -1 <==> x !in xs
    ensures 0 <= k ==> xs[k] == x && x !in xs[..k]
  {
    if xs == [] then -1
    else if xs[0] == x then 0
    else
      var k := IndexOf(xs[1..], x);
      if k == -1 then -1
      else
        assert xs[..k + 1] == [xs[0]] + xs[1..][..k];
        k + 1
  }

  /** The longest prefix of `s` made of decimal digits. */
  function DigitPrefix(s: string): (d: string)
    ensures d <= s && AllDigits(d)
    ensures |d| < |s| ==> !IsDigit(s[|d|])
  {
    if s != [] && IsDigit(s[0]) then [s[0]] + DigitPrefix(s[1..]) else []
  }

  predicate IsHexDigit(c: char)
  {
    IsDigit(c) || 'a' <= c <= 'f' || 'A' <= c <= 'F'
  }

  function HexDigitValue(c: char): nat
    requires IsHexDigit(c)
  {
    if IsDigit(c) then DigitValue(c)
    else if 'a' <= c <= 'f' then (c as int) - ('a' as int) + 10
    else (c as int) - ('A' as int) + 10
  }

  /** The longest prefix of `s` made of hexadecimal digits. */
  function HexPrefix(s: string): (d: string)
    ensures d <= s && forall i :: 0 <= i < |d| ==> IsHexDigit(d[i])
    ensures |d| < |s| ==> !IsHexDigit(s[|d|])
  {
    if s != [] && IsHexDigit(s[0]) then [s[0]] + HexPrefix(s[1..]) else []
  }

  function HexDigitsValue(s: string): nat
    requires forall i :: 0 <= i < |s| ==> IsHexDigit(s[i])
  {
    if s == [] then 0 else 16 * HexDigitsValue(s[..|s| - 1]) + HexDigitValue(s[|s| - 1])
  }

  /** The digits `parseInt` reads after the sign: base 16 after "0x" or
      "0X", else base 10; NaN when no digit follows. */
  function UnsignedPrefix(u: string): (n: JsNum)
    ensures n.Num? ==> n.v >= 0
  {
    if |u| >= 2 && u[0] == '0' && (u[1] == 'x' || u[1] == 'X') then
      var h := HexPrefix(u[2..]);
      if h == [] then NaN else Num(HexDigitsValue(h))
    else
      var d := DigitPrefix(u);
      if d == [] then NaN else Num(DigitsValue(d))
  }

  /** `parseInt(s)` without a radix: leading white space is skipped, then
      an optional sign, then the digits `UnsignedPrefix` reads; the rest is
      ignored. */
  function ParseInt(s: string): (n: JsNum)
  {
    var t := TrimStart(s);
    var magnitude := UnsignedPrefix(if t != [] && (t[0] == '-' || t[0] == '+') then t[1..] else t);
    if magnitude.NaN? then NaN
    else if t != [] && t[0] == '-' then Num(-magnitude.v)
    else magnitude
  }

  /** The digit run of a digit string followed by a non-digit is that string. */
  lemma {:induction false} DigitPrefixOf(d: string, t: string)
    requires AllDigits(d)
    requires t == [] || !IsDigit(t[0])
    ensures DigitPrefix(d + t) == d
  {
    if d != [] {
      assert (d + t)[1..] == d[1..] + t;
      DigitPrefixOf(d[1..], t);
    } else {
      assert d + t == t;
    }
  }

  /** A string that does not start with white space is not trimmed. */
  lemma TrimStartNone(s: string)
    requires s != [] && !IsJsSpace(s[0])
    ensures TrimStart(s) == s
  {
  }

  /** The digits of a number without a superfluous leading zero, followed
      by something that cannot extend them, read as that number. */
  lemma UnsignedDigits(m: string, t: string)
    requires |m| >= 1 && AllDigits(m) && (m[0] == '0' ==> |m| == 1)
    requires t == [] || (!IsDigit(t[0]) && t[0] != 'x' && t[0] != 'X')
    ensures UnsignedPrefix(m + t) == Num(DigitsValue(m))
  {
    var u := m + t;
    assert u[0] == m[0];
    DigitPrefixOf(m, t);
    if |m| == 1 && t != [] {
      assert u[1] == t[0];
    }
    if |m| >= 2 {
      assert u[0] == m[0] != '0';
    }
  }

  /** `parseInt` of a string that starts with neither white space nor a sign. */
  lemma ParseIntUnsigned(s: string)
    requires s != [] && !IsJsSpace(s[0]) && s[0] != '-' && s[0] != '+'
    ensures ParseInt(s) == UnsignedPrefix(s)
  {
    TrimStartNone(s);
  }

  /** `parseInt` of a string that starts with a minus sign. */
  lemma ParseIntNegative(s: string)
    requires s != [] && s[0] == '-'
    ensures UnsignedPrefix(s[1..]).Num? ==> ParseInt(s) == Num(0 - UnsignedPrefix(s[1..]).v)
  {
    assert !IsJsSpace(s[0]);
    TrimStartNone(s);
  }

  /** A minus sign before digits `parseInt` reads as `n` gives `-n`. */
  lemma MinusDigits(s: string, n: nat)
    requires UnsignedPrefix(s) == Num(n)
    ensures ParseInt(['-'] + s) == Num(0 - n)
  {
    var s' := ['-'] + s;
    assert s'[1..] == s;
    ParseIntNegative(s');
  }

  /** `parseInt` reads back what `toString` wrote, and ignores what follows
      the digits (so "3abc" reads as 3) unless it could extend the number. */
  lemma ParseIntOfIntToString(i: int, t: string)
    requires t == [] || (!IsDigit(t[0]) && t[0] != 'x' && t[0] != 'X')
    ensures ParseInt(IntToString(i) + t) == Num(i)
  {
    var m := NatToString(if i < 0 then -i else i);
    var s := m + t;
    UnsignedDigits(m, t);
    if i < 0 {
      MinusDigits(s, DigitsValue(m));
      assert IntToString(i) + t == ['-'] + s;
    } else {
      assert s[0] == m[0];
      assert !IsJsSpace(s[0]) && s[0] != '-' && s[0] != '+' by {
        assert IsDigit(m[0]);
      }
      ParseIntUnsigned(s);
    }
  }
}
