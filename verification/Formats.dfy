/** What printf prints, read back: formats and their meaning (lib/printfmt.c) together with
    strtol (lib/string.c). */
module Formats {
  import opened Envs
  import opened Numbers
  import opened Printfmt

  // ---------- text

  function Quote(t: string): string {
    if t == "" then "" else (if t[0] == '%' then "%%" else [t[0]]) + Quote(t[1..])
  }

  /** Text with its percent signs doubled prints as itself, in front of any format. */
  lemma {:induction false} QuotedIsLiteral(t: string, rest: string, args: seq<Arg>)
    requires NUL !in t && Terminated(rest)
    ensures Terminated(Quote(t) + rest) && Format(Quote(t) + rest, args) == t + Format(rest, args)
  {
    hide Format, Terminated;
    if t == "" {
      assert Quote(t) + rest == rest;
    } else {
      QuotedIsLiteral(t[1..], rest, args);
      var s := Quote(t[1..]) + rest;
      if t[0] == '%' { PercentFirst(s, args); } else { CharFirst(t[0], s, args); }
      Grouped(if t[0] == '%' then "%%" else [t[0]], Quote(t[1..]), rest);
      Grouped([t[0]], t[1..], Format(rest, args));
      assert t == [t[0]] + t[1..];
    }
  }

  lemma CharFirst(c: char, s: string, args: seq<Arg>)
    requires c != '%' && c != NUL && Terminated(s)
    ensures Terminated([c] + s) && Format([c] + s, args) == [c] + Format(s, args)
  {
    hide Escaped;
    assert ([c] + s)[1..] == s;
  }

  lemma PercentFirst(s: string, args: seq<Arg>)
    requires Terminated(s)
    ensures Terminated("%%" + s) && Format("%%" + s, args) == "%" + Format(s, args)
  {
    hide Format, Escaped;
    var whole := "%%" + s;
    assert whole[0..] == whole && whole[1..] == "%" + s;
    FormatAt(whole, 0, args);
    PercentEscape(s, args);
  }

  lemma PercentEscape(s: string, args: seq<Arg>)
    requires Terminated(s)
    ensures Escaped("%" + s, args) == ("%", s, args)
  {
    assert ("%" + s)[1..] == s;
  }

  lemma EscapedIs(s: string, tail: string, f: Fields, args: seq<Arg>, left: seq<Arg>)
    requires Terminated(s) && Modifiers(s, Blank, args) == (f, tail, left) && Conversion(tail[0])
    ensures Escaped(s, args) == (Converted(tail[0], f, left), tail[1..], Remaining(tail[0], left))
  {}

  /** A format is read from left to right: one escape, then the rest with the arguments left. */
  lemma EscapeFirst(c: char, m: string, rest: string, f: Fields, args: seq<Arg>, left: seq<Arg>)
    requires Terminated(rest) && Conversion(c) && Modifiers(m + [c] + rest, Blank, args) == (f, [c] + rest, left)
    ensures Terminated("%" + m + [c] + rest)
    ensures Format("%" + m + [c] + rest, args) == Converted(c, f, left) + Format(rest, Remaining(c, left))
  {
    var s := "%" + m + [c] + rest;
    hide Format, Converted, Modifiers, Conversion;
    assert s[0..] == s && s[1..] == m + [c] + rest && ([c] + rest)[1..] == rest;
    EscapedIs(m + [c] + rest, [c] + rest, f, args, left);
    hide Escaped;
    FormatAt(s, 0, args);
  }

  // Flags, digits, dots and stars.
  predicate AllModifiers(m: string) { forall i :: 0 <= i < |m| ==> Modifier(m[i]) }

  // The arguments left when n are taken.
  function Dropped(args: seq<Arg>, n: nat): seq<Arg> { if n <= |args| then args[n..] else [] }

  lemma {:induction false} DigitsStop(s: string, i: nat, k: nat, val: int)
    requires i <= k < |s| && !Modifier(s[k])
    ensures i <= Digits(s, i, 10, val).1 <= k && forall q :: i <= q < Digits(s, i, 10, val).1 ==> s[q] != '*'
    decreases k - i
  {
    if DigitValue(s[i], 10) >= 0 { DigitsStop(s, i + 1, k, Wrap32(val * 10 + DigitValue(s[i], 10))); }
  }

  lemma ModifiersTail(m: string, tail: string)
    requires AllModifiers(m) && m != "" && Terminated(tail)
    ensures var s := m + tail; Terminated(s) && s[0..] == s && s[0] == m[0] && s[|m|] == tail[0] && Modifier(m[0])
    ensures forall k :: 1 <= k <= |m| ==> AllModifiers(m[k..]) && (m + tail)[k..] == m[k..] + tail
  {
    hide Modifier;
  }

  // What is read first, up to k, has a star or none.
  lemma StarsSplit(m: string, tail: string, k: nat)
    requires 1 <= k <= |m| && ((k == 1 && m[0] == '*') || forall q :: 0 <= q < k ==> (m + tail)[q] != '*')
    ensures multiset(m)['*'] == multiset(m[k..])['*'] + (if m[0] == '*' then 1 else 0)
  {
    assert m == m[..k] + m[k..];
    assert (m + tail)[0] == m[0];
    if m[0] == '*' {
      assert m[..k] == ['*'];
    } else {
      assert forall q :: 0 <= q < k ==> m[q] == (m + tail)[q];
    }
  }

  lemma DroppedTwice(args: seq<Arg>, n: nat)
    ensures Dropped(args, 0) == args && Dropped(Later(args), n) == Dropped(args, n + 1)
  {}

  // The first modifier, or number, up to k.
  lemma FirstModifier(m: string, tail: string, f: Fields, args: seq<Arg>) returns (k: nat, f': Fields)
    requires AllModifiers(m) && m != "" && Terminated(tail) && !Modifier(tail[0])
    ensures 1 <= k <= |m| && AllModifiers(m[k..]) && Terminated(m + tail) && Terminated(m[k..] + tail)
    ensures Modifiers(m + tail, f, args) == Modifiers(m[k..] + tail, f', if m[0] == '*' then Later(args) else args)
    ensures multiset(m)['*'] == multiset(m[k..])['*'] + (if m[0] == '*' then 1 else 0)
  {
    hide Modifiers, Modifier, Digits, AllModifiers, Counted, Flagged, Later;
    var s := m + tail;
    ModifiersTail(m, tail);
    ModifierMeans(s, 0, f, args);
    DigitsStop(s, 0, |m|, 0);
    k := if '1' <= m[0] <= '9' then Digits(s, 0, 10, 0).1 else 1;
    f' := if '1' <= m[0] <= '9' then Counted(f, Digits(s, 0, 10, 0).0)
          else if m[0] == '*' then Counted(f, Wrap32(IntArg(args)))
          else Flagged(f, m[0]);
    StarsSplit(m, tail, k);
  }

  lemma {:induction false} ModifiersPassed(m: string, tail: string, f: Fields, args: seq<Arg>)
    requires AllModifiers(m) && Terminated(tail) && !Modifier(tail[0])
    ensures Terminated(m + tail) && Modifiers(m + tail, f, args).1 == tail
    ensures Modifiers(m + tail, f, args).2 == Dropped(args, multiset(m)['*'])
    decreases |m|
  {
    hide Modifier, AllModifiers, Dropped, Later;
    if m == "" {
      assert m + tail == tail;
      DroppedTwice(args, 0);
    } else {
      hide Modifiers, Terminated;
      var k, f' := FirstModifier(m, tail, f, args);
      ModifiersPassed(m[k..], tail, f', if m[0] == '*' then Later(args) else args);
      DroppedTwice(args, multiset(m[k..])['*']);
    }
  }

  lemma {:induction false} ModifiersPrint(m: string, tail: string, args: seq<Arg>)
    requires AllModifiers(m) && Terminated(tail)
    ensures Terminated(m + tail) && Format(m + tail, args) == m + Format(tail, args)
  {
    hide Format, Terminated;
    if m == "" {
      assert m + tail == tail;
    } else {
      ModifiersPrint(m[1..], tail, args);
      CharFirst(m[0], m[1..] + tail, args);
      Grouped([m[0]], m[1..], tail);
      Grouped([m[0]], m[1..], Format(tail, args));
      assert m == [m[0]] + m[1..];
    }
  }

  lemma UnrecognizedEscape(m: string, tail: string, args: seq<Arg>)
    requires AllModifiers(m) && Terminated(tail) && !Modifier(tail[0]) && !Conversion(tail[0])
    ensures Terminated(m + tail) && Escaped(m + tail, args) == ("%", m + tail, Dropped(args, multiset(m)['*']))
  {
    hide Modifiers, Modifier;
    ModifiersPassed(m, tail, Blank, args);
  }

  /** An escape that is not recognized is printed as it is written, although its modifiers have
      been read: nothing is lost or printed twice. Its stars have taken an argument each, so all
      arguments are left exactly if it has none, or there were no arguments. */
  lemma UnrecognizedPrints(m: string, tail: string, args: seq<Arg>)
    requires AllModifiers(m) && Terminated(tail) && !Modifier(tail[0]) && !Conversion(tail[0])
    ensures Terminated("%" + (m + tail))
    ensures Format("%" + (m + tail), args) == "%" + m + Format(tail, Dropped(args, multiset(m)['*']))
    ensures Dropped(args, multiset(m)['*']) == args <==> '*' !in m || args == []
  {
    var s, args' := m + tail, Dropped(args, multiset(m)['*']);
    assert '*' in multiset(m) <==> '*' in m;
    if args != [] && '*' in m { assert |args'| < |args|; }
    hide Format, Escaped, Dropped;
    UnrecognizedEscape(m, tail, args);
    ModifiersPrint(m, tail, args');
    assert ("%" + s)[0..] == "%" + s && ("%" + s)[1..] == s;
    FormatAt("%" + s, 0, args);
    Grouped("%", m, Format(tail, args'));
  }

  // ---------- the width

  lemma {:induction false} NumeralIsDecimal(num: nat)
    ensures |Numeral(num, 10)| >= 1 && forall k :: 0 <= k < |Numeral(num, 10)| ==> '0' <= Numeral(num, 10)[k] <= '9'
    ensures num > 0 ==> Numeral(num, 10)[0] != '0'
    decreases num
  {
    assert "0123456789abcdef"[num % 10] == ('0' as int + num % 10) as char;
    if num >= 10 { NumeralIsDecimal(num / 10); }
  }

  /** The interpreter reads a printed number as that number. */
  lemma CountRead(n: nat, tail: string, f: Fields, args: seq<Arg>)
    requires 1 <= n < 0x8000_0000 && Terminated(tail) && !('0' <= tail[0] <= '9')
    ensures var s := Numeral(n, 10) + tail;
            Terminated(s) && Modifiers(s, f, args) == Modifiers(tail, Counted(f, n), args)
  {
    var t := Numeral(n, 10);
    var s := t + tail;
    NumeralIsDecimal(n);
    hide Numeral, Digits, Modifier;
    assert s[0] == t[0] && s[|t|] == tail[0] && s[|t|..] == tail;
    DigitsRead(n, s, tail[0]);
    FirstDigit(s, f, args);
  }

  // A width.
  lemma WidthRead(width: nat, c: char, rest: string, f: Fields, args: seq<Arg>)
    requires 1 <= width < 0x8000_0000 && Terminated(rest) && !Modifier(c) && f.width < 0
    ensures var s := Numeral(width, 10) + [c] + rest;
            Terminated(s) && Modifiers(s, f, args) == (f.(width := width, precision := -1), [c] + rest, args)
  {
    assert !('0' <= c <= '9') && Numeral(width, 10) + [c] + rest == Numeral(width, 10) + ([c] + rest);
    hide Numeral, Modifier;
    CountRead(width, [c] + rest, f, args);
  }

  lemma DigitsRead(width: nat, s: string, c: char)
    requires width < 0x8000_0000 && |Numeral(width, 10)| < |s| && s[..|Numeral(width, 10)|] == Numeral(width, 10)
    requires s[|Numeral(width, 10)|] == c && !('0' <= c <= '9')
    ensures Digits(s, 0, 10, 0) == (width as int, |Numeral(width, 10)|)
  {
    hide Numeral;
    assert s[0..0 + |Numeral(width, 10)|] == Numeral(width, 10);
    ThroughNumeral(s, 0, width, 10);
    Small(width);
  }

  lemma FirstDigit(s: string, f: Fields, args: seq<Arg>)
    requires Terminated(s) && '1' <= s[0] <= '9'
    ensures Digits(s, 0, 10, 0).1 < |s|
            && Modifiers(s, f, args) == Modifiers(s[Digits(s, 0, 10, 0).1..], Counted(f, Digits(s, 0, 10, 0).0), args)
  {
    hide Digits;
    assert s[0..] == s;
    ModifierMeans(s, 0, f, args);
  }

  // The modifiers for a width, or for none if it is 0.
  function WithWidth(zero: bool, width: nat): string {
    (if zero then "0" else "") + (if width == 0 then "" else Numeral(width, 10))
  }

  function FieldsOf(zero: bool, width: nat): Fields {
    Fields(if zero then '0' else ' ', if width == 0 then -1 else width, -1, false, 0)
  }

  lemma WidthMeans(zero: bool, width: nat, c: char, rest: string, args: seq<Arg>)
    requires width < 0x8000_0000 && Terminated(rest) && !Modifier(c)
    ensures Terminated(WithWidth(zero, width) + [c] + rest)
    ensures Modifiers(WithWidth(zero, width) + [c] + rest, Blank, args)
            == (FieldsOf(zero, width), [c] + rest, args)
  {
    hide Numeral, Modifiers, Modifier;
    var t := WithWidth(false, width) + [c] + rest;
    if zero {
      PlainWidth(width, c, rest, Blank.(padc := '0'), args);
      var s := WithWidth(true, width) + [c] + rest;
      assert s == "0" + t && s[1..] == t;
      ZeroFlag(s, args);
    } else {
      PlainWidth(width, c, rest, Blank, args);
    }
  }

  lemma PlainWidth(width: nat, c: char, rest: string, f: Fields, args: seq<Arg>)
    requires width < 0x8000_0000 && Terminated(rest) && !Modifier(c) && f.width == f.precision == -1
    ensures var s := WithWidth(false, width) + [c] + rest;
            Terminated(s) && Modifiers(s, f, args) == (f.(width := FieldsOf(false, width).width), [c] + rest, args)
  {
    hide Numeral;
    assert WithWidth(false, width) == if width == 0 then "" else Numeral(width, 10);
    if width == 0 {
      assert WithWidth(false, 0) + [c] + rest == [c] + rest;
    } else {
      hide Modifiers, Modifier;
      WidthRead(width, c, rest, f, args);
    }
  }

  lemma ZeroFlag(s: string, args: seq<Arg>)
    requires Terminated(s) && s[0] == '0'
    ensures |s| > 1 && Modifiers(s, Blank, args) == Modifiers(s[1..], Blank.(padc := '0'), args)
  {}

  // ---------- numbers

  function NumberFormat(zero: bool, width: nat, c: char): string { "%" + WithWidth(zero, width) + [c] + [NUL] }

  predicate OneNumber(width: nat, c: char) { width < 0x8000_0000 && (c == 'd' || c == 'u' || c == 'o' || c == 'x') }

  function BaseOf(c: char): nat { if c == 'o' then 8 else if c == 'x' then 16 else 10 }

  lemma NumberPrints(zero: bool, width: nat, c: char, value: int)
    requires OneNumber(width, c)
    ensures Terminated(NumberFormat(zero, width, c))
    ensures Format(NumberFormat(zero, width, c), [Int(value)]) == Converted(c, FieldsOf(zero, width), [Int(value)])
  {
    var args, m := [Int(value)], WithWidth(zero, width);
    assert Conversion(c) && !Modifier(c) && Terminated([NUL]);
    hide WithWidth, Converted, Modifiers, Modifier, Conversion;
    WidthMeans(zero, width, c, [NUL], args);
    EscapeFirst(c, m, [NUL], FieldsOf(zero, width), args, args);
    assert Format([NUL], Remaining(c, args)) == "";
  }

  lemma Low32(value: int)
    ensures Wrap32(value % 0x1_0000_0000) == Wrap32(value)
  {
    WholeTurns(value % 0x1_0000_0000, value, value / 0x1_0000_0000);
  }

  // A missing width pads as a width of 0 does.
  lemma PadOf(zero: bool, width: nat, n: nat, c: char)
    ensures Pad(FieldsOf(zero, width).width - n, c) == Pad(width - n, c)
  {}

  lemma UnsignedField(c: char, f: Fields, value: int)
    requires (c == 'u' || c == 'o' || c == 'x') && f.lflag == 0
    ensures Converted(c, f, [Int(value)]) == NumberField(value % 0x1_0000_0000, BaseOf(c), f)
  {
    hide NumberField;
  }

  /** Whatever 32-bit integer is printed with %u, %o or %x, with any width or none, padded with
      blanks or zeros: strtol reads it back, and the text fills the width. */
  lemma UnsignedReadsBack(zero: bool, width: nat, c: char, value: int)
    requires OneNumber(width, c) && c != 'd'
    ensures Terminated(NumberFormat(zero, width, c))
    ensures var out := Format(NumberFormat(zero, width, c), [Int(value)]);
            && Strtol(out + [NUL], BaseOf(c)) == (Wrap32(value), |out|)
            && |out| >= width && (|out| > width ==> |out| == |Numeral(value % 0x1_0000_0000, BaseOf(c))|)
  {
    hide NumberFormat, Format, Strtol, Numeral, Wrap32, Converted, Pad;
    var f, num, base := FieldsOf(zero, width), value % 0x1_0000_0000, BaseOf(c);
    NumberPrints(zero, width, c, value);
    UnsignedField(c, f, value);
    PadOf(zero, width, |Numeral(num, base)|, f.padc);
    RoundTrip(num, base, width, f.padc);
    Low32(value);
    PadChars(width - |Numeral(num, base)|, f.padc);
  }

  lemma SignedText(f: Fields, value: int)
    requires -0x8000_0000 <= value < 0x8000_0000 && f.lflag == 0
    ensures Wrap32(value) == value && Converted('d', f, [Int(value)]) == SignedField(value, f)
  {
    hide SignedField;
  }

  /** %d puts the sign before the padding. So what it prints reads back exactly when the number
      is not negative, the padding is zeros, or there is none. */
  lemma SignedReadsBack(zero: bool, width: nat, value: int)
    requires width < 0x8000_0000 && -0x8000_0000 <= value < 0x8000_0000
    ensures Terminated(NumberFormat(zero, width, 'd'))
    ensures Strtol(Format(NumberFormat(zero, width, 'd'), [Int(value)]) + [NUL], 10).0 == value
            <==> value >= 0 || zero || width <= |Numeral(-value, 10)|
  {
    hide NumberFormat, Format, Strtol, Numeral, Wrap32, Converted, Pad;
    var f := FieldsOf(zero, width);
    NumberPrints(zero, width, 'd', value);
    SignedText(f, value);
    PadOf(zero, width, |Numeral(if value >= 0 then value else -value, 10)|, f.padc);
    if value >= 0 {
      RoundTrip(value, 10, width, f.padc);
    } else {
      NegativeReads(-value, width, f.padc);
    }
  }

  lemma NegativeReads(num: nat, width: nat, padc: char)
    requires 0 < num <= 0x8000_0000 && (padc == ' ' || padc == '0')
    ensures Strtol("-" + (Pad(width - |Numeral(num, 10)|, padc) + Numeral(num, 10)) + [NUL], 10).0 == 0 - num
            <==> padc == '0' || width <= |Numeral(num, 10)|
  {
    hide Strtol, Numeral, Wrap32, Pad, Digits, Holds;
    var t, pad := Numeral(num, 10), Pad(width - |Numeral(num, 10)|, padc);
    var s := "-" + (pad + t) + [NUL];
    PadChars(width - |t|, padc);
    NumeralIsDecimal(num);
    AfterSign(pad, t);
    AfterDash(s, 10);
    Negated(num);
    if padc == '0' || width <= |t| {
      ThroughZeros(s, 1, |pad|, 10);
      NumeralRead(s, 1 + |pad|, num, 10);
    } else {
      BlankEnds(s, 1);
    }
  }

  lemma AfterSign(pad: string, t: string)
    requires |t| >= 1 && (forall k :: 0 <= k < |t| ==> '0' <= t[k] <= '9')
             && (forall k :: 0 <= k < |pad| ==> pad[k] == ' ' || pad[k] == '0')
    ensures var s := "-" + (pad + t) + [NUL];
            && s[0] == '-' && |s| == |pad| + |t| + 2 > 2 && s[2] != 'x' && s[1 + |pad| + |t|] == NUL
            && (forall k :: 1 <= k < 1 + |pad| ==> s[k] == pad[k - 1]) && Holds(s, 1 + |pad|, t)
  {
    assert |pad + t| > 1 ==> (pad + t)[1] != 'x';
  }

  lemma Negated(num: nat)
    requires num <= 0x8000_0000
    ensures Wrap32(-Wrap32(num)) == 0 - num && Wrap32(0) == 0
  {}

  lemma BlankEnds(s: string, i: nat)
    requires i < |s| && s[i] == ' '
    ensures Digits(s, i, 10, 0) == (0, i)
  {}

  /** %p reads back, in base 16 or with the base left to strtol. */
  lemma PointerReadsBack(value: int, base: nat)
    requires base == 0 || base == 16
    ensures var out := Format("%p" + [NUL], [Int(value)]); Strtol(out + [NUL], base) == (Wrap32(value), |out|)
  {
    hide Numeral, Wrap32, Format, Strtol, Digits, Pad, Holds;
    var num := value % 0x1_0000_0000;
    var t := Numeral(num, 16);
    PointerPrints(value);
    Low32(value);
    PadChars(-1 - |t|, ' ');
    assert NumberField(num, 16, Blank) == t;
    var s := "0x" + t + [NUL];
    Prefixed(t);
    AfterPrefix(s, base);
    NumeralRead(s, 2, num, 16);
  }

  lemma Prefixed(t: string)
    ensures var s := "0x" + t + [NUL];
            |s| == |t| + 3 && s[0] == '0' && s[1] == 'x' && Holds(s, 2, t) && s[2 + |t|] == NUL
  {}

  lemma AfterPrefix(s: string, base: nat)
    requires (base == 0 || base == 16) && |s| > 2 && s[0] == '0' && s[1] == 'x'
    ensures Strtol(s, base) == Digits(s, 2, 16, 0)
  {
    hide Digits;
  }

  lemma NumeralRead(s: string, i: nat, num: nat, base: nat)
    requires 2 <= base <= 16 && Holds(s, i, Numeral(num, base)) && i + |Numeral(num, base)| < |s|
             && s[i + |Numeral(num, base)|] == NUL
    ensures Digits(s, i, base, 0) == (Wrap32(num), i + |Numeral(num, base)|)
  {
    hide Numeral, Wrap32, Digits, Holds;
    ThroughNumeral(s, i, num, base);
    AfterNumeral(s, i + |Numeral(num, base)|, base, Wrap32(num));
  }

  lemma PointerPrints(value: int)
    ensures Format("%p" + [NUL], [Int(value)]) == "0x" + NumberField(value % 0x1_0000_0000, 16, Blank)
  {
    var args := [Int(value)];
    assert "p" + [NUL] == "" + ['p'] + [NUL] && "%p" + [NUL] == "%" + "" + ['p'] + [NUL];
    hide NumberField;
    EscapeFirst('p', "", [NUL], Blank, args, args);
    assert Format([NUL], Remaining('p', args)) == "";
  }
}
