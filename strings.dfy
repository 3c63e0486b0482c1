/**
  * Byte-string helpers the rest of the model is written with: Go's `strings`
  * functions as used by the tool, Go's bytewise string order, and the decimal
  * formatting of `fmt`'s `%d` and `time.Format`'s zero-padded fields.
  * A Go string is a sequence of bytes; here one `char` stands for one byte.
  */
module Strings {

  /** Go's `strings.HasPrefix`. */
  predicate HasPrefix(s: string, prefix: string) {
    prefix <= s
  }

  /** Go's `strings.HasSuffix`. */
  predicate HasSuffix(s: string, suffix: string) {
    |suffix| <= |s| && s[|s| - |suffix|..] == suffix
  }

  /** Go's `strings.TrimPrefix`: drops `prefix` once when `s` starts with it. */
  function TrimPrefix(s: string, prefix: string): (r: string)
    ensures HasPrefix(s, prefix) ==> prefix + r == s
    ensures !HasPrefix(s, prefix) ==> r == s
  {
    if HasPrefix(s, prefix) then s[|prefix|..] else s
  }

  // ---------------------------------------------------------------------------
  // Go's string order: bytewise lexicographic comparison.
  // ---------------------------------------------------------------------------

  /** `a <= b` on Go strings. */
  predicate LessEq(a: string, b: string)
    decreases |a|
  {
    |a| == 0 || (|b| > 0 && (a[0] < b[0] || (a[0] == b[0] && LessEq(a[1..], b[1..]))))
  }

  /** `a < b` on Go strings. */
  predicate Less(a: string, b: string) {
    LessEq(a, b) && a != b
  }

  lemma {:induction false} LessEqReflexive(a: string)
    ensures LessEq(a, a)
  {
    if |a| > 0 {
      LessEqReflexive(a[1..]);
    }
  }

  lemma {:induction false} LessEqTotal(a: string, b: string)
    ensures LessEq(a, b) || LessEq(b, a)
    decreases |a|
  {
    if |a| > 0 && |b| > 0 && a[0] == b[0] {
      LessEqTotal(a[1..], b[1..]);
    }
  }

  lemma {:induction false} LessEqAntisymmetric(a: string, b: string)
    requires LessEq(a, b) && LessEq(b, a)
    ensures a == b
    decreases |a|
  {
    if |a| > 0 {
      LessEqAntisymmetric(a[1..], b[1..]);
      assert a == [a[0]] + a[1..] && b == [b[0]] + b[1..];
    }
  }

  lemma {:induction false} LessEqTransitive(a: string, b: string, c: string)
    requires LessEq(a, b) && LessEq(b, c)
    ensures LessEq(a, c)
    decreases |a|
  {
    if |a| > 0 && a[0] == b[0] && b[0] == c[0] {
      LessEqTransitive(a[1..], b[1..], c[1..]);
    }
  }

  /** Two strings of one length that compare below keep that order whatever follows them. */
  lemma {:induction false} LessExtend(a: string, b: string, x: string, y: string)
    requires |a| == |b| && Less(a, b)
    ensures Less(a + x, b + y)
    decreases |a|
  {
    assert |a| > 0;
    if a[0] == b[0] {
      assert a[1..] != b[1..] by {
        assert a == [a[0]] + a[1..] && b == [b[0]] + b[1..];
      }
      LessExtend(a[1..], b[1..], x, y);
      assert (a + x)[1..] == a[1..] + x && (b + y)[1..] == b[1..] + y;
    }
  }

  /** A common prefix does not change the order of what follows it. */
  lemma {:induction false} LessAfterCommonPrefix(p: string, x: string, y: string)
    requires Less(x, y)
    ensures Less(p + x, p + y)
    decreases |p|
  {
    if |p| > 0 {
      LessAfterCommonPrefix(p[1..], x, y);
      var a, b := p + x, p + y;
      assert a[1..] == p[1..] + x && b[1..] == p[1..] + y;
      assert a[0] == b[0];
      assert LessEq(a, b);
      assert a[|p|..] == x && b[|p|..] == y;
    } else {
      assert p + x == x && p + y == y;
    }
  }

  // ---------------------------------------------------------------------------
  // Decimal formatting.
  // ---------------------------------------------------------------------------

  function Digit(d: nat): (c: char)
    requires d < 10
    ensures '0' <= c <= '9'
  {
    ('0' as int + d) as char
  }

  function Pow10(w: nat): (r: nat)
    ensures r >= 1
  {
    if w == 0 then 1 else 10 * Pow10(w - 1)
  }

  /**
    * The decimal digits of `n`, left-padded with zeros to at least `width`
    * characters: how Go's `time.Format` writes "2006" (width 4) and "01" (width 2),
    * and, with width 1, how `%d` writes a non-negative number.
    */
  function ZeroPad(n: nat, width: nat): (r: string)
    decreases n + width
  {
    if width <= 1 && n < 10 then [Digit(n)]
    else ZeroPad(n / 10, if width == 0 then 0 else width - 1) + [Digit(n % 10)]
  }

  /** `%d` of an integer. */
  function Decimal(n: int): string {
    if n < 0 then "-" + ZeroPad(-n, 1) else ZeroPad(n, 1)
  }

  /** The value of a string of decimal digits: the inverse of `ZeroPad`. */
  function DigitsValue(s: string): int {
    if s == [] then 0 else 10 * DigitsValue(s[..|s| - 1]) + (s[|s| - 1] as int - '0' as int)
  }

  predicate AllDigits(s: string) {
    forall i :: 0 <= i < |s| ==> '0' <= s[i] <= '9'
  }

  /** Formatting then reading back gives the number: `ZeroPad` loses nothing. */
  lemma {:induction false} ZeroPadRoundTrip(n: nat, width: nat)
    ensures AllDigits(ZeroPad(n, width)) && |ZeroPad(n, width)| >= 1
    ensures DigitsValue(ZeroPad(n, width)) == n
    decreases n + width
  {
    if width <= 1 && n < 10 {
    } else {
      var w' := if width == 0 then 0 else width - 1;
      ZeroPadRoundTrip(n / 10, w');
      var s := ZeroPad(n, width);
      assert s[..|s| - 1] == ZeroPad(n / 10, w');
    }
  }

  /** A number below 10^width is written with exactly `width` digits. */
  lemma {:induction false} ZeroPadLength(n: nat, width: nat)
    requires width >= 1 && n < Pow10(width)
    ensures |ZeroPad(n, width)| == width
    decreases width
  {
    if width > 1 {
      ZeroPadLength(n / 10, width - 1);
    }
  }

  /** On fixed-width fields, string order is numeric order. */
  lemma {:induction false} ZeroPadOrder(a: nat, b: nat, width: nat)
    requires width >= 1 && a < b < Pow10(width)
    ensures Less(ZeroPad(a, width), ZeroPad(b, width))
    decreases width
  {
    if width == 1 {
      assert ZeroPad(a, 1) == [Digit(a)] && ZeroPad(b, 1) == [Digit(b)];
    } else {
      ZeroPadLength(a / 10, width - 1);
      ZeroPadLength(b / 10, width - 1);
      if a / 10 < b / 10 {
        ZeroPadOrder(a / 10, b / 10, width - 1);
        LessExtend(ZeroPad(a / 10, width - 1), ZeroPad(b / 10, width - 1), [Digit(a % 10)], [Digit(b % 10)]);
      } else {
        assert a / 10 == b / 10 && a % 10 < b % 10;
        var single: string := [Digit(a % 10)];
        assert Less(single, [Digit(b % 10)]);
        LessAfterCommonPrefix(ZeroPad(a / 10, width - 1), single, [Digit(b % 10)]);
      }
    }
  }

  // ---------------------------------------------------------------------------
  // strings.Split / strings.Join on a one-character separator.
  // ---------------------------------------------------------------------------

  /** Go's `strings.Split(s, string(sep))`: never empty; `Split("", sep) == [""]`. */
  function Split(s: string, sep: char): (parts: seq<string>)
    ensures |parts| >= 1
    ensures forall i :: 0 <= i < |parts| ==> sep !in parts[i]
  {
    if s == [] then [""]
    else
      var rest := Split(s[1..], sep);
      if s[0] == sep then [""] + rest else [[s[0]] + rest[0]] + rest[1..]
  }

  /** Go's `strings.Join(parts, string(sep))`. */
  function Join(parts: seq<string>, sep: char): string {
    if |parts| == 0 then ""
    else if |parts| == 1 then parts[0]
    else parts[0] + [sep] + Join(parts[1..], sep)
  }

  /** Joining the pieces of a split gives back the string. */
  lemma {:induction false} JoinSplit(s: string, sep: char)
    ensures Join(Split(s, sep), sep) == s
  {
    if s != [] {
      var rest := Split(s[1..], sep);
      JoinSplit(s[1..], sep);
      if s[0] == sep {
        assert Split(s, sep)[1..] == rest;
      } else {
        var parts := Split(s, sep);
        if |rest| == 1 {
          assert parts == [[s[0]] + rest[0]];
        } else {
          assert parts[1..] == rest[1..];
          assert Join(rest, sep) == rest[0] + [sep] + Join(rest[1..], sep);
        }
        assert s == [s[0]] + s[1..];
      }
    }
  }

  /** Splitting a join of separator-free pieces gives back the pieces. */
  lemma {:induction false} SplitJoin(parts: seq<string>, sep: char)
    requires |parts| >= 1
    requires forall i :: 0 <= i < |parts| ==> sep !in parts[i]
    ensures Split(Join(parts, sep), sep) == parts
    decreases |parts|, |parts[0]|
  {
    var p := parts[0];
    if p == [] {
      if |parts| > 1 {
        SplitJoin(parts[1..], sep);
        assert Join(parts, sep) == [sep] + Join(parts[1..], sep);
        assert Join(parts, sep)[1..] == Join(parts[1..], sep);
        assert parts == [""] + parts[1..];
      }
    } else {
      var shorter := [p[1..]] + parts[1..];
      SplitJoin(shorter, sep);
      assert Join(parts, sep) == [p[0]] + Join(shorter, sep) by {
        if |parts| > 1 {
          assert shorter[1..] == parts[1..];
        }
      }
      assert Join(parts, sep)[1..] == Join(shorter, sep);
      assert p == [p[0]] + p[1..];
      assert parts == [p] + shorter[1..];
    }
  }

  /** A join splits at any inner piece boundary into the join of each side. */
  lemma {:induction false} JoinAt(parts: seq<string>, k: nat, sep: char)
    requires 0 < k < |parts|
    ensures Join(parts, sep) == Join(parts[..k], sep) + [sep] + Join(parts[k..], sep)
    decreases k
  {
    if k > 1 {
      var tail := parts[1..];
      JoinAt(tail, k - 1, sep);
      assert parts[..k][1..] == tail[..k - 1];
      assert tail[k - 1..] == parts[k..];
      assert Join(parts[..k], sep) == parts[0] + [sep] + Join(tail[..k - 1], sep);
    } else {
      assert Join(parts[..1], sep) == parts[0];
      assert parts[1..] == parts[k..];
    }
  }

  /** The text before the first `sep`: the first piece of a split. */
  lemma {:induction false} SplitFirstIsPrefix(s: string, sep: char)
    ensures Split(s, sep)[0] <= s
    ensures |Split(s, sep)[0]| < |s| ==> s[|Split(s, sep)[0]|] == sep
  {
    if s != [] && s[0] != sep {
      SplitFirstIsPrefix(s[1..], sep);
    }
  }

  // ---------------------------------------------------------------------------
  // strings.TrimSpace on ASCII white space.
  // ---------------------------------------------------------------------------

  predicate IsSpace(c: char) {
    c == ' ' || c == '\t' || c == '\n' || c == '\r' || c == '\U{B}' || c == '\U{C}'
  }

  function TrimLeft(s: string): (r: string)
    ensures |r| <= |s| && r == s[|s| - |r|..]
    ensures r == [] || !IsSpace(r[0])
    ensures forall i :: 0 <= i < |s| - |r| ==> IsSpace(s[i])
  {
    if s != [] && IsSpace(s[0]) then TrimLeft(s[1..]) else s
  }

  function TrimRight(s: string): (r: string)
    ensures |r| <= |s| && r == s[..|r|]
    ensures r == [] || !IsSpace(r[|r| - 1])
    ensures forall i :: |r| <= i < |s| ==> IsSpace(s[i])
  {
    if s != [] && IsSpace(s[|s| - 1]) then TrimRight(s[..|s| - 1]) else s
  }

  /** Go's `strings.TrimSpace`: `s` without its leading and trailing white space. */
  function TrimSpace(s: string): (r: string)
    ensures |r| <= |s| && forall c :: c in r ==> c in s
    ensures r == [] || (!IsSpace(r[0]) && !IsSpace(r[|r| - 1]))
  {
    var left := TrimLeft(s);
    var r := TrimRight(left);
    assert forall c :: c in r ==> c in left;
    r
  }
}
