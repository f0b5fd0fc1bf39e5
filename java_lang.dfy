/**
 * The parts of java.lang that the crawlers and rankers rely on, stated over unbounded
 * integers, reals and sequences of characters.
 */
module JavaLang {
  import opened Wrappers

  // ---------------------------------------------------------------- integers

  const IntMin: int := -0x8000_0000
  const IntMax: int := 0x7FFF_FFFF

  predicate IsInt(x: int) {
    IntMin <= x <= IntMax
  }

  /** Narrowing to a Java `int`: the low 32 bits read as two's complement. */
  function ToInt(x: int): (r: int)
    ensures IsInt(r)
    ensures IsInt(x) ==> r == x
  {
    (x + 0x8000_0000) % 0x1_0000_0000 - 0x8000_0000
  }

  /** Java's integer `/` for a positive divisor: the quotient truncated toward zero. */
  function Quotient(a: int, b: int): (q: int)
    requires b > 0
    ensures 0 <= a ==> 0 <= q
    ensures a < 0 ==> q <= 0
  {
    if a >= 0 then a / b else -((-a) / b)
  }

  /** The quotient truncated toward zero: `q * b` is the multiple of `b` nearest `a` on the side of 0. */
  lemma QuotientBounds(a: int, b: int)
    requires b > 0
    ensures 0 <= a ==> Quotient(a, b) * b <= a < Quotient(a, b) * b + b
    ensures a < 0 ==> Quotient(a, b) * b - b < a <= Quotient(a, b) * b
  {
  }

  /** A real truncated toward zero, as a Java `(int)` or `(long)` cast of a double does. */
  function Truncate(r: real): (n: int)
    ensures 0.0 <= r ==> 0 <= n && n as real <= r < n as real + 1.0
    ensures r < 0.0 ==> n <= 0 && n as real - 1.0 < r <= n as real
  {
    if r >= 0.0 then r.Floor else -((-r).Floor)
  }

  /** Java's `(int)` cast of a (finite) double: truncation toward zero, saturating at the int range. */
  function DoubleToInt(r: real): (n: int)
    ensures IsInt(n)
    ensures IsInt(Truncate(r)) ==> n == Truncate(r)
    ensures Truncate(r) < IntMin ==> n == IntMin
    ensures Truncate(r) > IntMax ==> n == IntMax
  {
    var t := Truncate(r);
    if t < IntMin then IntMin else if t > IntMax then IntMax else t
  }

  // ---------------------------------------------------------------- strings

  /** The characters `String.trim` removes: everything at or below U+0020. */
  predicate IsTrimmable(c: char) {
    c <= ' '
  }

  function TrimStart(s: string): (r: string)
    ensures |r| <= |s|
    ensures r == [] || !IsTrimmable(r[0])
    ensures forall i :: 0 <= i < |s| - |r| ==> IsTrimmable(s[i])
  {
    if |s| > 0 && IsTrimmable(s[0]) then TrimStart(s[1..]) else s
  }

  function TrimEnd(s: string): (r: string)
    ensures |r| <= |s| && r == s[..|r|]
    ensures r == [] || !IsTrimmable(r[|r| - 1])
    ensures forall i :: |r| <= i < |s| ==> IsTrimmable(s[i])
  {
    if |s| > 0 && IsTrimmable(s[|s| - 1]) then TrimEnd(s[..|s| - 1]) else s
  }

  /** `String.trim`: drops the leading and trailing characters at or below U+0020. */
  function Trim(s: string): (r: string)
    ensures |r| <= |s|
  {
    TrimEnd(TrimStart(s))
  }

  /** Lower-casing of one character (ASCII letters only). */
  function LowerChar(c: char): (d: char)
    ensures IsTrimmable(d) <==> IsTrimmable(c)
    ensures d == ' ' <==> c == ' '
  {
    if 'A' <= c <= 'Z' then (c as int + 32) as char else c
  }

  /** `String.toLowerCase`, restricted to the ASCII letters. */
  function ToLower(s: string): (r: string)
    ensures |r| == |s|
    ensures forall i :: 0 <= i < |s| ==> r[i] == LowerChar(s[i])
  {
    seq(|s|, i requires 0 <= i < |s| => LowerChar(s[i]))
  }

  /** `String.startsWith`. */
  predicate StartsWith(s: string, prefix: string) {
    |prefix| <= |s| && s[..|prefix|] == prefix
  }

  /** `String.contains`: `part` occurs in `s` at some offset. */
  predicate Contains(s: string, part: string)
    decreases |s|
  {
    StartsWith(s, part) || (|s| > 0 && Contains(s[1..], part))
  }

  /** The characters of `s` that satisfy `keep`, in order (a `replaceAll` of the others by ""). */
  function KeepWhere(s: string, keep: char -> bool): (r: string)
    ensures |r| <= |s|
    ensures forall i :: 0 <= i < |r| ==> keep(r[i])
  {
    if |s| == 0 then ""
    else if keep(s[0]) then [s[0]] + KeepWhere(s[1..], keep)
    else KeepWhere(s[1..], keep)
  }

  /** `String.replace(" ", "")` generalised: every occurrence of `c` removed. */
  function RemoveChar(s: string, c: char): (r: string)
    ensures |r| <= |s|
    ensures c !in r
  {
    if |s| == 0 then ""
    else if s[0] == c then RemoveChar(s[1..], c)
    else [s[0]] + RemoveChar(s[1..], c)
  }

  /**
   * Every piece of `s` between occurrences of `sep`, from the first to the last,
   * empty pieces included (so there is always one more piece than separators).
   */
  function Pieces(s: string, sep: char): (r: seq<string>)
    ensures |r| >= 1
    decreases |s|
  {
    if |s| == 0 then [""]
    else
      var rest := Pieces(s[1..], sep);
      if s[0] == sep then [""] + rest else [[s[0]] + rest[0]] + rest[1..]
  }

  /** The pieces joined back together with `sep` between consecutive ones. */
  function Join(ps: seq<string>, sep: char): string
    requires |ps| >= 1
  {
    if |ps| == 1 then ps[0] else ps[0] + [sep] + Join(ps[1..], sep)
  }

  function DropTrailingEmpty(ps: seq<string>): (r: seq<string>)
    ensures |r| <= |ps| && r == ps[..|r|]
    ensures r == [] || r[|r| - 1] != ""
    ensures forall i :: |r| <= i < |ps| ==> ps[i] == ""
  {
    if |ps| > 0 && ps[|ps| - 1] == "" then DropTrailingEmpty(ps[..|ps| - 1]) else ps
  }

  /**
   * `String.split` with a one-character literal pattern: the whole string when the
   * separator does not occur, otherwise the pieces with trailing empty strings removed.
   */
  function Split(s: string, sep: char): (r: seq<string>)
    ensures forall i :: 0 <= i < |r| ==> sep !in r[i]
  {
    PiecesAvoidSeparator(s, sep);
    if sep !in s then [s] else DropTrailingEmpty(Pieces(s, sep))
  }

  lemma {:induction false} PiecesAvoidSeparator(s: string, sep: char)
    ensures forall i :: 0 <= i < |Pieces(s, sep)| ==> sep !in Pieces(s, sep)[i]
    decreases |s|
  {
    if |s| > 0 {
      PiecesAvoidSeparator(s[1..], sep);
    }
  }

  /** Splitting loses nothing: joining the pieces with the separator gives the text back. */
  lemma {:induction false} JoinPieces(s: string, sep: char)
    ensures Join(Pieces(s, sep), sep) == s
    decreases |s|
  {
    if |s| > 0 {
      var rest := Pieces(s[1..], sep);
      JoinPieces(s[1..], sep);
      if s[0] == sep {
        assert Pieces(s, sep) == [""] + rest;
        assert Pieces(s, sep)[1..] == rest;
      } else {
        var ps := Pieces(s, sep);
        assert ps == [[s[0]] + rest[0]] + rest[1..];
        if |rest| == 1 {
          assert ps == [[s[0]] + rest[0]];
          assert s == [s[0]] + s[1..];
        } else {
          assert ps[1..] == rest[1..];
          assert Join(rest, sep) == rest[0] + [sep] + Join(rest[1..], sep);
          assert s == [s[0]] + s[1..];
        }
      }
    }
  }

  function DigitChar(d: int): char
    requires 0 <= d < 10
  {
    ('0' as int + d) as char
  }

  /** Decimal digits of a natural number, without leading zeros. */
  function NatToString(n: nat): (r: string)
    ensures |r| >= 1
    ensures forall i :: 0 <= i < |r| ==> '0' <= r[i] <= '9'
  {
    if n < 10 then [DigitChar(n)] else NatToString(n / 10) + [DigitChar(n % 10)]
  }

  /** `String.valueOf` of an int or long. */
  function IntToString(n: int): (r: string)
    ensures |r| >= 1
    ensures forall i :: 0 <= i < |r| ==> r[i] == '-' || '0' <= r[i] <= '9'
  {
    if n < 0 then "-" + NatToString(-n) else NatToString(n)
  }

  /** `String.valueOf` of a boolean. */
  function BoolToString(b: bool): string {
    if b then "true" else "false"
  }

  /** What `StringBuffer.append(String)` appends: the text, or "null" for a null reference. */
  function RefToString(s: Option<string>): string {
    match s
    case None => "null"
    case Some(x) => x
  }

  // ---------------------------------------------------------------- UTF-16

  /**
   * A Java `String` is a sequence of UTF-16 code units, a Dafny string one of Unicode
   * scalar values. A character of the Basic Multilingual Plane is one code unit; any other
   * is a surrogate pair, a high unit in D800-DBFF followed by a low one in DC00-DFFF.
   */
  predicate IsBmp(c: char) {
    c as int < 0x1_0000
  }

  predicate IsSurrogate(u: int) {
    0xD800 <= u < 0xE000
  }

  /** The code units of one character. */
  function CharUnits(c: char): (r: seq<int>)
    ensures |r| == if IsBmp(c) then 1 else 2
    ensures IsBmp(c) ==> r[0] == c as int && !IsSurrogate(r[0])
    ensures !IsBmp(c) ==> 0xD800 <= r[0] < 0xDC00 && 0xDC00 <= r[1] < 0xE000
  {
    if IsBmp(c) then [c as int]
    else
      var v := c as int - 0x1_0000;
      [0xD800 + v / 0x400, 0xDC00 + v % 0x400]
  }

  /** The code units Java stores for `s`, in order. */
  function Utf16Units(s: string): (r: seq<int>)
    ensures |s| <= |r| <= 2 * |s|
    ensures forall i :: 0 <= i < |r| ==> 0 <= r[i] < 0x1_0000
    decreases |s|
  {
    if |s| == 0 then [] else Utf16Units(s[..|s| - 1]) + CharUnits(s[|s| - 1])
  }

  /** `String.length()`: one for each character of the Basic Multilingual Plane, two for any other. */
  function Length(s: string): (n: nat)
    ensures |s| <= n <= 2 * |s|
    ensures (forall i :: 0 <= i < |s| ==> IsBmp(s[i])) ==> n == |s|
    decreases |s|
  {
    if |s| == 0 then 0 else Length(s[..|s| - 1]) + (if IsBmp(s[|s| - 1]) then 1 else 2)
  }

  /** `length()` counts exactly the code units. */
  lemma {:induction false} LengthIsUnits(s: string)
    ensures Length(s) == |Utf16Units(s)|
    decreases |s|
  {
    if |s| > 0 {
      LengthIsUnits(s[..|s| - 1]);
    }
  }

  /** The fold of `String.hashCode` over code units: u[0]*31^(n-1) + ... + u[n-1], in 32-bit arithmetic. */
  function UnitsHashCode(units: seq<int>): (h: int)
    ensures IsInt(h)
    decreases |units|
  {
    if |units| == 0 then 0 else ToInt(31 * UnitsHashCode(units[..|units| - 1]) + units[|units| - 1])
  }

  /** `String.hashCode`, over the UTF-16 code units of the string. */
  function StringHashCode(s: string): (h: int)
    ensures IsInt(h)
    ensures |s| == 0 ==> h == 0
  {
    UnitsHashCode(Utf16Units(s))
  }

  /** A one-character string of the Basic Multilingual Plane hashes to its character. */
  lemma HashCodeOfBmpChar(c: char)
    requires IsBmp(c)
    ensures StringHashCode([c]) == c as int
  {
    assert [c][..0] == [];
    var u := Utf16Units([c]);
    assert u == [c as int];
    assert u[..0] == [];
    assert UnitsHashCode(u[..0]) == 0;
    assert UnitsHashCode(u) == ToInt(c as int);
  }

  /** A character outside the Basic Multilingual Plane is two code units, and hashes as a pair. */
  lemma SupplementaryIsSurrogatePair()
    ensures Length("\U{1F600}") == 2
    ensures Utf16Units("\U{1F600}") == [0xD83D, 0xDE00]
    ensures StringHashCode("\U{1F600}") == 31 * 0xD83D + 0xDE00
  {
    var s := "\U{1F600}";
    assert s[..0] == "";
    var u := Utf16Units(s);
    assert u == [0xD83D, 0xDE00];
    assert u[..1] == [0xD83D] && u[..1][..0] == [];
    assert UnitsHashCode(u[..1]) == ToInt(0xD83D);
    assert UnitsHashCode(u) == ToInt(31 * 0xD83D + 0xDE00);
  }

  /** `hashCode` of a possibly-null string, 0 for null. */
  function NullableHashCode(s: Option<string>): (h: int)
    ensures IsInt(h)
    ensures s == None ==> h == 0
  {
    match s
    case None => 0
    case Some(x) => StringHashCode(x)
  }

  // ---------------------------------------------------------------- lemmas

  lemma LowerCharIdempotent(c: char)
    ensures LowerChar(LowerChar(c)) == LowerChar(c)
  {
  }

  /** Lower-casing twice is lower-casing once. */
  lemma ToLowerIdempotent(s: string)
    ensures ToLower(ToLower(s)) == ToLower(s)
  {
  }

  lemma {:induction false} TrimStartLower(s: string)
    ensures TrimStart(ToLower(s)) == ToLower(TrimStart(s))
    decreases |s|
  {
    if |s| > 0 && IsTrimmable(s[0]) {
      assert ToLower(s)[1..] == ToLower(s[1..]);
      TrimStartLower(s[1..]);
    }
  }

  lemma {:induction false} TrimEndLower(s: string)
    ensures TrimEnd(ToLower(s)) == ToLower(TrimEnd(s))
    decreases |s|
  {
    if |s| > 0 && IsTrimmable(s[|s| - 1]) {
      assert ToLower(s)[..|s| - 1] == ToLower(s[..|s| - 1]);
      TrimEndLower(s[..|s| - 1]);
    }
  }

  /** Trimming and lower-casing commute, because lower-casing never touches the trimmed characters. */
  lemma TrimLower(s: string)
    ensures Trim(ToLower(s)) == ToLower(Trim(s))
  {
    TrimStartLower(s);
    TrimEndLower(TrimStart(s));
  }

  /** Removing a character commutes with lower-casing when `c` is its own lower case and no other character lower-cases to it. */
  lemma {:induction false} RemoveSpaceLower(s: string)
    ensures RemoveChar(ToLower(s), ' ') == ToLower(RemoveChar(s, ' '))
    decreases |s|
  {
    if |s| > 0 {
      assert ToLower(s)[1..] == ToLower(s[1..]);
      RemoveSpaceLower(s[1..]);
      if s[0] != ' ' {
        assert ToLower([s[0]] + RemoveChar(s[1..], ' ')) == [LowerChar(s[0])] + ToLower(RemoveChar(s[1..], ' '));
      }
    }
  }

  lemma {:induction false} RemoveCharTwice(s: string, c: char)
    ensures RemoveChar(RemoveChar(s, c), c) == RemoveChar(s, c)
    decreases |s|
  {
    if |s| > 0 {
      RemoveCharTwice(s[1..], c);
    }
  }

  /** Distinct natural numbers print differently. */
  lemma {:induction false} NatToStringInjective(m: nat, n: nat)
    requires NatToString(m) == NatToString(n)
    ensures m == n
    decreases m
  {
    var a, b := NatToString(m), NatToString(n);
    if m >= 10 && n >= 10 {
      assert a[..|a| - 1] == NatToString(m / 10);
      assert b[..|b| - 1] == NatToString(n / 10);
      NatToStringInjective(m / 10, n / 10);
      assert DigitChar(m % 10) == a[|a| - 1] == b[|b| - 1] == DigitChar(n % 10);
    }
  }

  lemma IntToStringSign(n: int)
    ensures IntToString(n)[0] == '-' <==> n < 0
  {
    if n >= 0 {
      assert IntToString(n)[0] == NatToString(n)[0];
    }
  }

  /** Where the shorter head of two equal concatenations ends, the longer head goes on. */
  lemma ConcatSplitAt(u: string, x: string, v: string, y: string)
    requires u + x == v + y && |u| < |v| && |x| > 0
    ensures x[0] == v[|u|]
  {
    assert (u + x)[|u|] == (v + y)[|u|];
  }

  /** Distinct ints print differently. */
  lemma IntToStringInjective(m: int, n: int)
    requires IntToString(m) == IntToString(n)
    ensures m == n
  {
    var a, b := IntToString(m), IntToString(n);
    if m < 0 && n < 0 {
      assert a[1..] == NatToString(-m) && b[1..] == NatToString(-n);
      NatToStringInjective(-m, -n);
    } else if m >= 0 && n >= 0 {
      NatToStringInjective(m, n);
    } else {
      IntToStringSign(m);
      IntToStringSign(n);
      assert false;
    }
  }

  /**
   * A printed int followed by text that starts with neither a digit nor '-' can be read
   * back: two such concatenations are equal only when the numbers and the rests are.
   */
  lemma IntToStringPrefix(m: int, x: string, n: int, y: string)
    requires |x| > 0 && |y| > 0
    requires !('0' <= x[0] <= '9') && x[0] != '-' && !('0' <= y[0] <= '9') && y[0] != '-'
    requires IntToString(m) + x == IntToString(n) + y
    ensures m == n && x == y
  {
    var a, b := IntToString(m), IntToString(n);
    var s := a + x;
    if |a| == |b| {
      assert a == s[..|a|] == b;
      IntToStringInjective(m, n);
      assert x == s[|a|..] == y;
    } else if |a| < |b| {
      ConcatSplitAt(a, x, b, y);
      assert false;
    } else {
      ConcatSplitAt(b, y, a, x);
      assert false;
    }
  }

  /** `IntToStringPrefix` behind a common prefix. */
  lemma PrefixedIntToString(p: string, m: int, x: string, n: int, y: string)
    requires |x| > 0 && |y| > 0
    requires !('0' <= x[0] <= '9') && x[0] != '-' && !('0' <= y[0] <= '9') && y[0] != '-'
    requires p + (IntToString(m) + x) == p + (IntToString(n) + y)
    ensures m == n && x == y
  {
    assert IntToString(m) + x == (p + (IntToString(m) + x))[|p|..];
    assert IntToString(n) + y == (p + (IntToString(n) + y))[|p|..];
    IntToStringPrefix(m, x, n, y);
  }

  /** A non-negative quotient is 0 exactly when the dividend is below the divisor. */
  lemma QuotientIsZero(a: int, b: int)
    requires 0 <= a && 0 < b
    ensures Quotient(a, b) == 0 <==> a < b
  {
    QuotientBounds(a, b);
  }

  /** A quotient by a fixed positive divisor never falls as a non-negative dividend grows. */
  lemma QuotientMonotone(a: int, b: int, n: int)
    requires 0 <= a <= b && n > 0
    ensures Quotient(a, n) <= Quotient(b, n)
  {
    var qa, qb := a / n, b / n;
    if qa > qb {
      assert qa * n >= (qb + 1) * n;
    }
  }

  /** The `(int)` cast of a double never reverses the order of its arguments. */
  lemma DoubleToIntMonotone(r: real, s: real)
    requires r <= s
    ensures DoubleToInt(r) <= DoubleToInt(s)
  {
    if 0.0 <= r {
      assert r.Floor <= s.Floor;
    } else if s < 0.0 {
      assert (-s).Floor <= (-r).Floor;
    }
  }
}
