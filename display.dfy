/**
  * Text helpers of the terminal view (main.go): the size shown next to each
  * file, and the ANSI-aware padding of rendered cells. One `char` is one byte;
  * the tool walks runes, which agrees on ASCII text.
  */
module Display {

  import opened Strings

  // ---------------------------------------------------------------------------
  // formatSize
  // ---------------------------------------------------------------------------

  /** `formatSize`: bytes below 1024 as "<n>B", otherwise whole kilobytes as "<n>KB". */
  function FormatSize(size: int): string {
    if size < 1024 then Decimal(size) + "B" else Decimal(size / 1024) + "KB"
  }

  /**
    * A size reads back from its label: the digits before "B" are the size, the
    * digits before "KB" the size in whole (rounded down) kilobytes.
    */
  lemma FormatSizeReadsBack(size: int)
    requires size >= 0
    ensures var r := FormatSize(size);
      && (size < 1024 ==> |r| >= 2 && r[|r| - 1] == 'B' && AllDigits(r[..|r| - 1])
                          && DigitsValue(r[..|r| - 1]) == size)
      && (size >= 1024 ==> |r| >= 3 && r[|r| - 2..] == "KB" && AllDigits(r[..|r| - 2])
                           && DigitsValue(r[..|r| - 2]) * 1024 <= size < (DigitsValue(r[..|r| - 2]) + 1) * 1024)
  {
    var r := FormatSize(size);
    if size < 1024 {
      ZeroPadRoundTrip(size, 1);
      assert r[..|r| - 1] == ZeroPad(size, 1);
    } else {
      ZeroPadRoundTrip(size / 1024, 1);
      assert r[..|r| - 2] == ZeroPad(size / 1024, 1);
    }
  }

  // ---------------------------------------------------------------------------
  // stripAnsi / padRight
  // ---------------------------------------------------------------------------

  const Esc: char := '\U{1B}'

  predicate IsLetter(c: char) {
    ('a' <= c <= 'z') || ('A' <= c <= 'Z')
  }

  /**
    * The visible text of `s` when reading starts inside an escape sequence or
    * not: an ESC opens a sequence, a letter closes it, and nothing from ESC up
    * to and including that letter is visible.
    */
  function Visible(s: string, inEscape: bool): string {
    if s == [] then []
    else if s[0] == Esc then Visible(s[1..], true)
    else if inEscape then Visible(s[1..], !IsLetter(s[0]))
    else [s[0]] + Visible(s[1..], false)
  }

  /** Whether reading `s` ends inside an unfinished escape sequence. */
  function EndsInEscape(s: string, inEscape: bool): bool {
    if s == [] then inEscape
    else if s[0] == Esc then EndsInEscape(s[1..], true)
    else if inEscape then EndsInEscape(s[1..], !IsLetter(s[0]))
    else EndsInEscape(s[1..], false)
  }

  /** `stripAnsi`: the loop over the characters with its `inEscape` flag. */
  method StripAnsi(s: string) returns (result: string)
    ensures result == Visible(s, false)
  {
    result := "";
    var inEscape := false;
    var i := 0;
    while i < |s|
      invariant 0 <= i <= |s|
      invariant result + Visible(s[i..], inEscape) == Visible(s, false)
    {
      var c := s[i];
      assert s[i..][1..] == s[i + 1..];
      if c == Esc {
        inEscape := true;
      } else if inEscape {
        if IsLetter(c) {
          inEscape := false;
        }
      } else {
        result := result + [c];
      }
      i := i + 1;
    }
  }

  /** The visible text is a subsequence of the input without any ESC. */
  lemma {:induction false} VisibleBounds(s: string, inEscape: bool)
    ensures |Visible(s, inEscape)| <= |s|
    ensures Esc !in Visible(s, inEscape)
    ensures forall c :: c in Visible(s, inEscape) ==> c in s
  {
    if s != [] {
      VisibleBounds(s[1..], s[0] == Esc || (inEscape && !IsLetter(s[0])));
    }
  }

  /** Text without ESC outside an escape sequence is all visible. */
  lemma {:induction false} PlainTextVisible(s: string)
    requires Esc !in s
    ensures Visible(s, false) == s
    ensures !EndsInEscape(s, false)
  {
    if s != [] {
      PlainTextVisible(s[1..]);
      assert s == [s[0]] + s[1..];
    }
  }

  /** Reading a concatenation: the second part starts in the state the first part ends in. */
  lemma {:induction false} VisibleConcat(a: string, b: string, inEscape: bool)
    ensures Visible(a + b, inEscape) == Visible(a, inEscape) + Visible(b, EndsInEscape(a, inEscape))
    ensures EndsInEscape(a + b, inEscape) == EndsInEscape(b, EndsInEscape(a, inEscape))
  {
    if a != [] {
      assert (a + b)[1..] == a[1..] + b;
      VisibleConcat(a[1..], b, a[0] == Esc || (inEscape && !IsLetter(a[0])));
    } else {
      assert a + b == b;
    }
  }

  /** A complete escape sequence, such as a colour code "ESC[31m", shows nothing. */
  lemma {:induction false} EscapeSequenceInvisible(params: string, final: char)
    requires forall c :: c in params ==> c != Esc && !IsLetter(c)
    requires IsLetter(final)
    ensures Visible([Esc] + params + [final], false) == ""
    ensures !EndsInEscape([Esc] + params + [final], false)
  {
    ParamsStayInEscape(params, [final]);
    assert ([Esc] + params + [final])[1..] == params + [final];
  }

  lemma {:induction false} ParamsStayInEscape(params: string, rest: string)
    requires forall c :: c in params ==> c != Esc && !IsLetter(c)
    ensures Visible(params + rest, true) == Visible(rest, true)
    ensures EndsInEscape(params + rest, true) == EndsInEscape(rest, true)
  {
    if params != [] {
      assert (params + rest)[1..] == params[1..] + rest;
      assert forall c :: c in params[1..] ==> c in params;
      ParamsStayInEscape(params[1..], rest);
    } else {
      assert params + rest == rest;
    }
  }

  /** `strings.Repeat(" ", n)`. */
  function Spaces(n: nat): (r: string)
    ensures |r| == n && forall i :: 0 <= i < n ==> r[i] == ' '
  {
    if n == 0 then "" else Spaces(n - 1) + " "
  }

  /** `padRight`: `s` followed by enough spaces for `length` visible characters. */
  function PadRight(s: string, length: int): (r: string)
    ensures s <= r
    ensures forall i :: |s| <= i < |r| ==> r[i] == ' '
  {
    var visible := Visible(s, false);
    if |visible| >= length then s else s + Spaces(length - |visible|)
  }

  /**
    * Padding reaches the requested visible width (or keeps a wider string as
    * it is), unless `s` ends inside an escape sequence, whose unfinished
    * sequence then swallows the padding.
    */
  lemma PadRightWidth(s: string, length: int)
    ensures !EndsInEscape(s, false) ==>
      |Visible(PadRight(s, length), false)| == if |Visible(s, false)| >= length then |Visible(s, false)| else length
    ensures EndsInEscape(s, false) ==> Visible(PadRight(s, length), false) == Visible(s, false)
  {
    var visible := Visible(s, false);
    if |visible| < length {
      var pad := Spaces(length - |visible|);
      VisibleConcat(s, pad, false);
      PlainTextVisible(pad);
      SpacesInEscape(length - |visible|);
    }
  }

  /** Spaces inside an escape sequence are part of it. */
  lemma {:induction false} SpacesInEscape(n: nat)
    ensures Visible(Spaces(n), true) == ""
  {
    if n > 0 {
      VisibleConcat(Spaces(n - 1), " ", true);
      SpacesStayInEscape(n - 1);
      SpacesInEscape(n - 1);
    }
  }

  lemma {:induction false} SpacesStayInEscape(n: nat)
    ensures EndsInEscape(Spaces(n), true)
  {
    if n > 0 {
      VisibleConcat(Spaces(n - 1), " ", true);
      SpacesStayInEscape(n - 1);
    }
  }
}
