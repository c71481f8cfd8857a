/** Printing numbers and reading them back: printnum of lib/printfmt.c and strtol of
    lib/string.c. */
module Numbers {
  import opened Envs

  const NUL := '\0'

  function Digit(d: nat): char
    requires d < 16
  {
    "0123456789abcdef"[d]
  }

  function Pad(n: int, padc: char): string {
    if n <= 0 then "" else seq(n, i => padc)
  }

  /** The digits of num, without a leading zero. */
  function Numeral(num: nat, base: nat): string
    requires 2 <= base <= 16
  {
    if num < base then [Digit(num)] else Numeral(num / base, base) + [Digit(num % base)]
  }

  /** printnum: padding to the width on the left, then the number. */
  method PrintNum(num: nat, base: nat, width: int, padc: char) returns (out: string)
    requires 2 <= base <= 16
    ensures out == Pad(width - |Numeral(num, base)|, padc) + Numeral(num, base)
    decreases num
  {
    hide Pad, Digit;
    if num >= base {
      Smaller(num, base);
      out := PrintNum(num / base, base, width - 1, padc);
      assert |Numeral(num, base)| == |Numeral(num / base, base)| + 1;
    } else {
      out := PutPad(width, padc);
      assert num % base == num && |Numeral(num, base)| == 1;
    }
    out := out + [Digit(num % base)];
  }

  lemma Smaller(num: nat, base: nat)
    requires base >= 2 && num >= base
    ensures num / base < num && num == num / base * base + num % base
  {}

  // while (--width > 0) putch(padc, putdat)
  method PutPad(width: int, padc: char) returns (out: string)
    ensures out == Pad(width - 1, padc)
  {
    out := "";
    var w := width - 1;
    while w > 0
      invariant w <= width - 1 && (w < 0 ==> w == width - 1) && out == Pad(width - 1 - w, padc)
    {
      out := out + [padc];
      w := w - 1;
    }
  }

  // ---------- strtol

  // What a digit stands for; None ends the number.
  function DigitValue(c: char, base: nat): (d: int)
    ensures -1 <= d < base
  {
    var d := if '0' <= c <= '9' then c as int - '0' as int
             else if 'a' <= c <= 'z' then c as int - 'a' as int + 10
             else if 'A' <= c <= 'Z' then c as int - 'A' as int + 10
             else -1;
    if d >= base then -1 else d
  }

  function At(s: string, i: nat): char { if i < |s| then s[i] else NUL }

  function SkipBlanks(s: string, i: nat): (j: nat)
    ensures i <= j && (i <= |s| ==> j <= |s|)
    decreases |s| - i
  {
    if i < |s| && (s[i] == ' ' || s[i] == '\t') then SkipBlanks(s, i + 1) else i
  }

  // The digits from position i on, added to val; `long` is 32 bits wide.
  function Digits(s: string, i: nat, base: nat, val: int): (int, nat)
    decreases |s| - i
  {
    if i < |s| && DigitValue(s[i], base) >= 0 then Digits(s, i + 1, base, Wrap32(val * base + DigitValue(s[i], base)))
    else (val, i)
  }

  // The number at position j, after blanks and sign: a prefix may give the base.
  function Unsigned(s: string, j: nat, base: nat): (int, nat) {
    if (base == 0 || base == 16) && At(s, j) == '0' && At(s, j + 1) == 'x' then Digits(s, j + 2, 16, 0)
    else if base == 0 && At(s, j) == '0' then Digits(s, j + 1, 8, 0)
    else Digits(s, j, if base == 0 then 10 else base, 0)
  }

  /** strtol: the value, and where it stops. */
  function Strtol(s: string, base: nat): (int, nat) {
    var i := SkipBlanks(s, 0);
    if At(s, i) == '-' then
      var (val, end) := Unsigned(s, i + 1, base);
      (Wrap32(-val), end)
    else Unsigned(s, if At(s, i) == '+' then i + 1 else i, base)
  }

  // the digits, from position `from` on
  method ReadDigits(s: string, from: nat, base: nat) returns (val: int, end: nat)
    requires |s| > 0 && s[|s| - 1] == NUL && from < |s|
    ensures (val, end) == Digits(s, from, base, 0)
  {
    hide Wrap32;
    val, end := 0, from;
    while true
      invariant 0 <= end < |s| && Digits(s, end, base, val) == Digits(s, from, base, 0)
      decreases |s| - end
    {
      var dig := 0;
      if '0' <= s[end] <= '9' { dig := s[end] as int - '0' as int; }
      else if 'a' <= s[end] <= 'z' { dig := s[end] as int - 'a' as int + 10; }
      else if 'A' <= s[end] <= 'Z' { dig := s[end] as int - 'A' as int + 10; }
      else { return; }
      if dig >= base { return; }
      end, val := end + 1, Wrap32(val * base + dig);
    }
  }

  method ReadUnsigned(s: string, i: nat, base: nat) returns (val: int, end: nat)
    requires |s| > 0 && s[|s| - 1] == NUL && i < |s|
    ensures (val, end) == Unsigned(s, i, base)
  {
    hide Digits;
    if (base == 0 || base == 16) && s[i] == '0' && s[i + 1] == 'x' {
      val, end := ReadDigits(s, i + 2, 16);
    } else if base == 0 && s[i] == '0' {
      val, end := ReadDigits(s, i + 1, 8);
    } else {
      val, end := ReadDigits(s, i, if base == 0 then 10 else base);
    }
  }

  method ReadNumber(s: string, base: nat) returns (val: int, end: nat)
    requires |s| > 0 && s[|s| - 1] == NUL
    ensures (val, end) == Strtol(s, base)
  {
    var i, neg := 0, false;
    while s[i] == ' ' || s[i] == '\t'
      invariant 0 <= i < |s| && SkipBlanks(s, i) == SkipBlanks(s, 0)
      decreases |s| - i
    {
      i := i + 1;
    }
    hide Unsigned, Wrap32;
    if s[i] == '+' {
      i := i + 1;
    } else if s[i] == '-' {
      i, neg := i + 1, true;
    }
    val, end := ReadUnsigned(s, i, base);
    if neg { val := Wrap32(-val); }
  }

  // ---------- reading back what was printed

  lemma DigitBack(d: nat, base: nat)
    requires d < base <= 16
    ensures DigitValue(Digit(d), base) == d && Plain(Digit(d))
  {
    assert "0123456789abcdef"[d] == if d < 10 then ('0' as int + d) as char else ('a' as int + d - 10) as char;
  }

  // s holds t from position i on.
  predicate Holds(s: string, i: nat, t: string) { i + |t| <= |s| && s[i..i + |t|] == t }

  lemma WholeTurns(x: int, y: int, k: int)
    requires y == x + k * 0x1_0000_0000
    ensures Wrap32(y) == Wrap32(x)
  {}

  lemma WrapStep(val: int, base: nat, d: nat)
    ensures Wrap32(Wrap32(val) * base + d) == Wrap32(val * base + d)
  {
    var k := (val + 0x8000_0000) / 0x1_0000_0000;
    assert Wrap32(val) == val - k * 0x1_0000_0000;
    assert val * base + d == Wrap32(val) * base + d + (k * base) * 0x1_0000_0000;
    WholeTurns(Wrap32(val) * base + d, val * base + d, k * base);
  }

  lemma OneDigit(s: string, i: nat, base: nat, val: nat, d: nat)
    requires d < base <= 16 && i < |s| && s[i] == Digit(d)
    ensures Digits(s, i, base, Wrap32(val)) == Digits(s, i + 1, base, Wrap32(val * base + d))
  {
    DigitBack(d, base);
    WrapStep(val, base, d);
    hide Digit, DigitValue, Wrap32;
  }

  lemma NumeralParts(num: nat, base: nat)
    requires 2 <= base <= 16
    ensures var t := Numeral(num, base);
            && |t| >= 1 && t[|t| - 1] == Digit(num % base)
            && (num >= base ==> t[..|t| - 1] == Numeral(num / base, base))
            && (num < base ==> |t| == 1 && num % base == num)
  {}

  /** Reading through a numeral accumulates its number, as far as 32 bits hold it. */
  lemma {:induction false} ThroughNumeral(s: string, i: nat, num: nat, base: nat)
    requires 2 <= base <= 16 && Holds(s, i, Numeral(num, base))
    ensures Digits(s, i, base, 0) == Digits(s, i + |Numeral(num, base)|, base, Wrap32(num))
    decreases num
  {
    hide Numeral, Digit, Digits, Wrap32, Holds;
    NumeralParts(num, base);
    HeldParts(s, i, Numeral(num, base));
    LastDigit(s, i + |Numeral(num, base)| - 1, num, base);
    if num >= base {
      Smaller(num, base);
      ThroughNumeral(s, i, num / base, base);
    } else {
      Small(0);
    }
  }

  lemma LastDigit(s: string, i: nat, num: nat, base: nat)
    requires 2 <= base <= 16 && i < |s| && s[i] == Digit(num % base)
    ensures Digits(s, i, base, Wrap32(num / base)) == Digits(s, i + 1, base, Wrap32(num))
    ensures num < base ==> num / base == 0
  {
    hide Digit, Digits, Wrap32;
    OneDigit(s, i, base, num / base, num % base);
    assert num == num / base * base + num % base;
  }

  lemma HeldParts(s: string, i: nat, t: string)
    requires Holds(s, i, t) && |t| >= 1
    ensures Holds(s, i, t[..|t| - 1]) && i + |t| <= |s| && s[i + |t| - 1] == t[|t| - 1]
  {
    assert s[i..i + (|t| - 1)] == s[i..i + |t|][..|t| - 1];
    assert s[i..i + |t|][|t| - 1] == s[i + |t| - 1];
  }

  lemma {:induction false} ThroughZeros(s: string, i: nat, n: nat, base: nat)
    requires 2 <= base <= 16 && i + n <= |s| && forall k :: i <= k < i + n ==> s[k] == '0'
    ensures Digits(s, i, base, 0) == Digits(s, i + n, base, 0)
    decreases n
  {
    if n > 0 { ThroughZeros(s, i + 1, n - 1, base); }
  }

  lemma {:induction false} ThroughBlanks(s: string, i: nat, n: nat)
    requires i + n <= |s| && forall k :: i <= k < i + n ==> s[k] == ' '
    ensures SkipBlanks(s, i) == SkipBlanks(s, i + n)
    decreases n
  {
    if n > 0 { ThroughBlanks(s, i + 1, n - 1); }
  }

  // A number laid out after its padding.
  lemma ReadLaid(s: string, n: nat, num: nat, base: nat, padc: char)
    requires (base == 8 || base == 10 || base == 16) && (padc == ' ' || padc == '0')
    requires Holds(s, n, Numeral(num, base)) && n + |Numeral(num, base)| < |s| && s[n + |Numeral(num, base)|] == NUL
    requires forall k :: 0 <= k < n ==> s[k] == padc
    ensures Strtol(s, base) == (Wrap32(num), n + |Numeral(num, base)|)
  {
    hide Numeral, Digits, Strtol, Plain, Holds;
    var t := Numeral(num, base);
    StartChars(s, n, num, base);
    ThroughNumeral(s, n, num, base);
    AfterNumeral(s, n + |t|, base, Wrap32(num));
    ThroughPad(s, n, base, padc);
  }

  /** Round trip: strtol reads back what printnum printed, as far as its 32 bits hold it, in the
      bases that printf uses, whatever the width, padded with blanks or zeros. */
  lemma RoundTrip(num: nat, base: nat, width: int, padc: char)
    requires (base == 8 || base == 10 || base == 16) && (padc == ' ' || padc == '0')
    ensures var t := Pad(width - |Numeral(num, base)|, padc) + Numeral(num, base);
            && Strtol(t + [NUL], base) == (Wrap32(num), |t|)
            && (Strtol(t + [NUL], base).0 == num <==> num < 0x8000_0000)
  {
    hide Numeral, Pad, Strtol, Holds;
    var pad := Pad(width - |Numeral(num, base)|, padc);
    PadChars(width - |Numeral(num, base)|, padc);
    NumeralChars(num, base);
    Laid(pad, Numeral(num, base));
    ReadLaid(pad + Numeral(num, base) + [NUL], |pad|, num, base, padc);
  }

  lemma PadChars(n: int, padc: char)
    ensures |Pad(n, padc)| == (if n <= 0 then 0 else n) && forall k :: 0 <= k < |Pad(n, padc)| ==>
              Pad(n, padc)[k] == padc
  {}

  lemma Laid(pad: string, t: string)
    requires |t| >= 1
    ensures var s := pad + t + [NUL];
            && Holds(s, |pad|, t) && s[|pad|] == t[0] && s[|pad| + 1] == (if |t| > 1 then t[1] else NUL)
            && s[|pad| + |t|] == NUL
            && forall k :: 0 <= k < |pad| ==> s[k] == pad[k]
  {}

  lemma AfterNumeral(s: string, i: nat, base: nat, val: int)
    requires i < |s| && s[i] == NUL && base <= 16
    ensures Digits(s, i, base, val) == (val, i)
  {}

  // Padding with blanks is skipped, padding with zeros adds nothing.
  lemma ThroughPad(s: string, n: nat, base: nat, padc: char)
    requires (base == 8 || base == 10 || base == 16) && (padc == ' ' || padc == '0') && n + 1 < |s|
    requires (forall k :: 0 <= k < n ==> s[k] == padc) && Plain(s[n]) && (Plain(s[n + 1]) || s[n + 1] == NUL)
    ensures Strtol(s, base) == Digits(s, n, base, 0)
  {
    if padc == ' ' {
      ThroughBlanks(s, 0, n);
    } else {
      ThroughZeros(s, 0, n, base);
      assert SkipBlanks(s, 0) == 0 && At(s, 1) != 'x' && At(s, 0) != '-' && At(s, 0) != '+';
    }
    hide Digits, Wrap32;
  }

  // A character that no number parser takes for anything but a digit.
  predicate Plain(c: char) { c != ' ' && c != '\t' && c != '-' && c != '+' && c != 'x' && c != NUL }

  lemma {:induction false} NumeralChars(num: nat, base: nat)
    requires 2 <= base <= 16
    ensures |Numeral(num, base)| >= 1
    ensures forall k :: 0 <= k < |Numeral(num, base)| ==> Plain(Numeral(num, base)[k])
    decreases num
  {
    DigitBack(num % base, base);
    if num >= base {
      Smaller(num, base);
      NumeralChars(num / base, base);
    }
  }

  // The character at which a numeral starts in s, and the one after it.
  lemma StartChars(s: string, n: nat, num: nat, base: nat)
    requires 2 <= base <= 16
    requires Holds(s, n, Numeral(num, base)) && n + |Numeral(num, base)| < |s| && s[n + |Numeral(num, base)|] == NUL
    ensures |Numeral(num, base)| >= 1 && Plain(s[n]) && (Plain(s[n + 1]) || s[n + 1] == NUL)
  {
    NumeralChars(num, base);
    hide Numeral, Plain;
    var t := Numeral(num, base);
    assert s[n] == s[n..n + |t|][0] == t[0];
    assert s[n + 1] == if |t| > 1 then s[n..n + |t|][1] else NUL;
  }

  /** The '-' flag of printf makes printnum pad with dashes on the left, and then the text reads
      back right exactly when there was no room for padding, or the number is 0. */
  lemma DashPadding(num: nat, base: nat, width: int)
    requires (base == 8 || base == 10 || base == 16) && num < 0x8000_0000
    ensures Strtol(Pad(width - |Numeral(num, base)|, '-') + Numeral(num, base) + [NUL], base).0 == num
            <==> width <= |Numeral(num, base)| || num == 0
  {
    hide Numeral, Pad, Strtol, Holds, Wrap32;
    var t, n := Numeral(num, base), width - |Numeral(num, base)|;
    var pad := Pad(n, '-');
    var s := pad + t + [NUL];
    NumeralChars(num, base);
    PadChars(n, '-');
    Laid(pad, t);
    Small(num);
    if n <= 0 {
      ReadLaid(s, 0, num, base, ' ');
    } else {
      DashedValue(s, n, num, base);
    }
  }

  lemma DashedValue(s: string, n: nat, num: nat, base: nat)
    requires (base == 8 || base == 10 || base == 16) && num < 0x8000_0000 && n >= 1
    requires Holds(s, n, Numeral(num, base)) && n + |Numeral(num, base)| < |s| && s[n + |Numeral(num, base)|] == NUL
    requires forall k :: 0 <= k < n ==> s[k] == '-'
    ensures Strtol(s, base).0 == (if n == 1 then 0 - num else 0)
  {
    StartChars(s, n, num, base);
    if n == 1 { OneDash(s, num, base); } else { TwoDashes(s, base); }
  }

  lemma AfterDash(s: string, base: nat)
    requires (base == 8 || base == 10 || base == 16) && |s| > 2 && s[0] == '-' && s[2] != 'x'
    ensures Strtol(s, base).0 == Wrap32(-Digits(s, 1, base, 0).0)
  {
    assert SkipBlanks(s, 0) == 0;
    hide Digits, SkipBlanks, Wrap32;
  }

  lemma Small(num: nat)
    requires num < 0x8000_0000
    ensures Wrap32(num) == num && Wrap32(0 - num) == 0 - num
  {}

  lemma OneDash(s: string, num: nat, base: nat)
    requires (base == 8 || base == 10 || base == 16) && num < 0x8000_0000 && |s| > 2 && s[0] == '-' && s[2] != 'x'
    requires Holds(s, 1, Numeral(num, base)) && 1 + |Numeral(num, base)| < |s| && s[1 + |Numeral(num, base)|] == NUL
    ensures Strtol(s, base).0 == 0 - num
  {
    hide Numeral, Digits, Holds, Strtol, Wrap32;
    AfterDash(s, base);
    ThroughNumeral(s, 1, num, base);
    AfterNumeral(s, 1 + |Numeral(num, base)|, base, Wrap32(num));
    Small(num);
  }

  lemma TwoDashes(s: string, base: nat)
    requires (base == 8 || base == 10 || base == 16) && |s| > 2 && s[0] == '-' && s[1] == '-'
    ensures Strtol(s, base).0 == 0
  {
    assert SkipBlanks(s, 0) == 0;
    hide SkipBlanks;
    assert Digits(s, 1, base, 0) == (0, 1);
  }
}
