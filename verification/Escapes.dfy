/** The escapes of a format one after the other, each with its own arguments, and what %c, %e and %s
    print (lib/printfmt.c). */
module Escapes {
  import opened Mmu
  import opened Errors
  import opened Envs
  import opened Numbers
  import opened Printfmt
  import opened Formats

  // ---------- one escape after the other

  // How many arguments an escape with these modifiers and this conversion uses up.
  function Uses(m: string, c: char): nat { multiset(m)['*'] + (if c == '%' then 0 else 1) }

  lemma {:induction false} ModifiersSame(m: string, tail: string, tail': string, f: Fields, args: seq<Arg>,
                                         args': seq<Arg>)
    requires AllModifiers(m) && Terminated(tail) && !Modifier(tail[0]) && Terminated(tail') && !Modifier(tail'[0])
    requires multiset(m)['*'] <= |args| && multiset(m)['*'] <= |args'|
    requires args[..multiset(m)['*']] == args'[..multiset(m)['*']]
    ensures Terminated(m + tail) && Terminated(m + tail')
    ensures Modifiers(m + tail, f, args).0 == Modifiers(m + tail', f, args').0
    decreases |m|
  {
    hide Modifier, AllModifiers;
    if m == "" {
      assert m + tail == tail && m + tail' == tail';
    } else {
      hide Modifiers, Terminated, Digits;
      StarFirst(m);
      var k, f' := SameModifier(m, tail, tail', f, args, args');
      var n, rest, rest' := multiset(m)['*'], if m[0] == '*' then args[1..] else args,
        if m[0] == '*' then args'[1..] else args';
      if m[0] == '*' {
        assert args[..n][0] == args'[..n][0];
        assert args[1..][..n - 1] == args[..n][1..] && args'[1..][..n - 1] == args'[..n][1..];
      }
      ModifiersSame(m[k..], tail, tail', f', rest, rest');
    }
  }

  lemma StarFirst(m: string)
    requires m != ""
    ensures m[0] == '*' ==> multiset(m)['*'] >= 1
  {
    assert '*' in multiset(m) <==> '*' in m;
  }

  // The first modifier or number means the same in front of another tail.
  lemma SameModifier(m: string, tail: string, tail': string, f: Fields, args: seq<Arg>, args': seq<Arg>)
      returns (k: nat, f': Fields)
    requires AllModifiers(m) && m != "" && Terminated(tail) && !Modifier(tail[0]) && Terminated(tail')
             && !Modifier(tail'[0])
    requires m[0] == '*' ==> args != [] && args' != [] && args[0] == args'[0]
    ensures 1 <= k <= |m| && AllModifiers(m[k..])
    ensures Terminated(m + tail) && Terminated(m[k..] + tail) && Terminated(m + tail') && Terminated(m[k..] + tail')
    ensures Modifiers(m + tail, f, args) == Modifiers(m[k..] + tail, f', if m[0] == '*' then args[1..] else args)
    ensures Modifiers(m + tail', f, args') == Modifiers(m[k..] + tail', f', if m[0] == '*' then args'[1..] else args')
    ensures multiset(m)['*'] == multiset(m[k..])['*'] + (if m[0] == '*' then 1 else 0)
  {
    hide Modifiers, Modifier, Digits, AllModifiers, Counted, Flagged;
    ModifiersTail(m, tail);
    ModifiersTail(m, tail');
    ModifierMeans(m + tail, 0, f, args);
    ModifierMeans(m + tail', 0, f, args');
    SameDigits(m, tail, tail');
    DigitsStop(m + tail, 0, |m|, 0);
    k := if '1' <= m[0] <= '9' then Digits(m + tail, 0, 10, 0).1 else 1;
    f' := if '1' <= m[0] <= '9' then Counted(f, Digits(m + tail, 0, 10, 0).0)
          else if m[0] == '*' then Counted(f, Wrap32(IntArg(args)))
          else Flagged(f, m[0]);
    StarsSplit(m, tail, k);
  }

  lemma SameDigits(m: string, tail: string, tail': string)
    requires AllModifiers(m) && Terminated(tail) && !Modifier(tail[0]) && Terminated(tail') && !Modifier(tail'[0])
    ensures Digits(m + tail, 0, 10, 0) == Digits(m + tail', 0, 10, 0)
  {
    SameDigitsFrom(m, tail, tail', 0, 0);
  }

  lemma {:induction false} SameDigitsFrom(m: string, tail: string, tail': string, i: nat, val: int)
    requires i <= |m| && Terminated(tail) && !Modifier(tail[0]) && Terminated(tail') && !Modifier(tail'[0])
    ensures Digits(m + tail, i, 10, val) == Digits(m + tail', i, 10, val)
    decreases |m| - i
  {
    var s, s' := m + tail, m + tail';
    if i < |m| {
      assert s[i] == m[i] == s'[i];
      if DigitValue(m[i], 10) >= 0 { SameDigitsFrom(m, tail, tail', i + 1, Wrap32(val * 10 + DigitValue(m[i], 10))); }
    } else {
      assert s[i] == tail[0] && s'[i] == tail'[0];
    }
  }

  /** An escape prints what it prints alone with its own arguments, one for each star and one for its
      conversion, and what follows goes on with the next one: so the conversions of a format take
      their arguments in order, each its own. */
  lemma EscapesTakeTurns(m: string, c: char, rest: string, args: seq<Arg>)
    requires AllModifiers(m) && Conversion(c) && Terminated(rest) && Uses(m, c) <= |args|
    ensures Terminated("%" + m + [c] + rest) && Terminated("%" + m + [c] + [NUL])
    ensures Format("%" + m + [c] + rest, args)
            == Format("%" + m + [c] + [NUL], args[..Uses(m, c)]) + Format(rest, args[Uses(m, c)..])
  {
    var n, stars := Uses(m, c), multiset(m)['*'];
    var own, left := args[..n], args[stars..];
    var left' := own[stars..];
    hide Modifiers, Converted, AllModifiers, Format, Conversion, Terminated;
    OwnArgs(args, stars, n);
    var f := EscapeTwice(m, c, rest, args, own);
    EscapeFirst(c, m, rest, f, args, left);
    EscapeFirst(c, m, [NUL], f, own, left');
    ConvertsFirst(c, f, left, left');
    NothingMore(Remaining(c, left'));
    assert Remaining(c, left) == args[n..];
    hide Uses, Remaining;
    NoTail(Converted(c, f, left'));
  }

  lemma OwnArgs(args: seq<Arg>, stars: nat, n: nat)
    requires stars <= n <= |args| && n <= stars + 1
    ensures var own := args[..n];
            && own[..stars] == args[..stars] && |own| == n
            && (n == stars ==> args[stars..] == args[n..])
            && (n == stars + 1 ==>
                 own[stars..] != [] && own[stars..][0] == args[stars..][0] && args[stars..][1..] == args[n..])
  {}

  // What the modifiers set does not depend on what follows, and on the arguments only by the stars.
  lemma EscapeTwice(m: string, c: char, rest: string, args: seq<Arg>, own: seq<Arg>) returns (f: Fields)
    requires AllModifiers(m) && Conversion(c) && Terminated(rest) && multiset(m)['*'] <= |args|
             && multiset(m)['*'] <= |own|
    requires args[..multiset(m)['*']] == own[..multiset(m)['*']]
    ensures Terminated(m + [c] + rest) && Terminated(m + [c] + [NUL])
    ensures Modifiers(m + [c] + rest, Blank, args) == (f, [c] + rest, args[multiset(m)['*']..])
    ensures Modifiers(m + [c] + [NUL], Blank, own) == (f, [c] + [NUL], own[multiset(m)['*']..])
  {
    assert !Modifier(c) && Terminated([c] + rest) && Terminated([c] + [NUL]);
    hide Modifier, Conversion, Modifiers, AllModifiers, Terminated;
    Grouped(m, [c], rest);
    Grouped(m, [c], [NUL]);
    ModifiersSame(m, [c] + rest, [c] + [NUL], Blank, args, own);
    ModifiersPassed(m, [c] + rest, Blank, args);
    ModifiersPassed(m, [c] + [NUL], Blank, own);
    f := Modifiers(m + [c] + rest, Blank, args).0;
  }

  lemma NoTail(t: string)
    ensures t + "" == t
  {}

  lemma NothingMore(args: seq<Arg>)
    ensures Format([NUL], args) == ""
  {}

  lemma ConvertsFirst(c: char, f: Fields, args: seq<Arg>, args': seq<Arg>)
    requires c != '%' ==> args != [] && args' != [] && args[0] == args'[0]
    ensures Converted(c, f, args) == Converted(c, f, args')
  {}

  // What a format of one escape prints.
  lemma Alone(m: string, c: char, f: Fields, args: seq<Arg>)
    requires Conversion(c) && Modifiers(m + [c] + [NUL], Blank, args) == (f, [c] + [NUL], args)
    ensures Terminated("%" + m + [c] + [NUL]) && Format("%" + m + [c] + [NUL], args) == Converted(c, f, args)
  {
    hide Format, Converted, Modifiers, Conversion;
    EscapeFirst(c, m, [NUL], f, args, args);
    NothingMore(Remaining(c, args));
    NoTail(Converted(c, f, args));
  }

  lemma Plain(c: char, args: seq<Arg>)
    requires Conversion(c)
    ensures Terminated("%" + [c] + [NUL]) && Format("%" + [c] + [NUL], args) == Converted(c, Blank, args)
  {
    assert "" + [c] + [NUL] == [c] + [NUL] && "%" + "" + [c] + [NUL] == "%" + [c] + [NUL] && !Modifier(c);
    hide Format, Converted, Conversion;
    Alone("", c, Blank, args);
  }

  lemma Long(c: char, args: seq<Arg>)
    requires Conversion(c)
    ensures Terminated("%ll" + [c] + [NUL])
            && Format("%ll" + [c] + [NUL], args) == Converted(c, Blank.(lflag := 2), args)
  {
    var one, two := "l" + [c] + [NUL], "ll" + [c] + [NUL];
    assert two[1..] == one && one[1..] == [c] + [NUL] && !Modifier(c) && "%" + "ll" == "%ll";
    assert Modifiers(one, Blank.(lflag := 1), args) == (Blank.(lflag := 2), [c] + [NUL], args);
    assert Modifiers(two, Blank, args) == Modifiers(one, Blank.(lflag := 1), args);
    hide Format, Converted, Conversion, Modifiers;
    Alone("ll", c, Blank.(lflag := 2), args);
  }

  /** %lld and %llu print all 64 bits. */
  lemma LongPrints(c: char, value: int)
    requires (c == 'd' || c == 'u') && -0x8000_0000_0000_0000 <= value < 0x8000_0000_0000_0000
    ensures Terminated("%ll" + [c] + [NUL])
    ensures Format("%ll" + [c] + [NUL], [Int(value)])
            == if value >= 0 then Numeral(value, 10)
               else if c == 'd' then "-" + Numeral(-value, 10)
               else Numeral(value + 0x1_0000_0000_0000_0000, 10)
  {
    hide Format, Numeral;
    Long(c, [Int(value)]);
    NoPadding(value);
    NoPadding(-value);
    NoPadding(value + 0x1_0000_0000_0000_0000);
  }

  lemma NoPadding(num: int)
    ensures num >= 0 ==> NumberField(num, 10, Blank.(lflag := 2)) == Numeral(num, 10)
  {
    hide Numeral;
    if num >= 0 { assert "" + Numeral(num, 10) == Numeral(num, 10); }
  }

  // ---------- characters, error numbers and strings

  /** %c prints one character, of the argument modulo 256. */
  lemma CharPrints(value: int)
    ensures Terminated("%" + ['c'] + [NUL])
    ensures var out := Format("%" + ['c'] + [NUL], [Int(value)]);
            |out| == 1 && (out[0] as int - value) % 256 == 0 && out[0] as int < 256
  {
    hide Format;
    Plain('c', [Int(value)]);
  }

  /** %r takes its argument, a colour, and prints nothing. */
  lemma ColourPrints(value: int)
    ensures Terminated("%" + ['r'] + [NUL]) && Format("%" + ['r'] + [NUL], [Int(value)]) == ""
  {
    hide Format;
    Plain('r', [Int(value)]);
  }

  // The text of an error number, if it has one: E_NO_SYS has none.
  function ErrorName(err: nat): Option<string> {
    if err == E_UNSPECIFIED then Some("unspecified error")
    else if err == E_BAD_ENV then Some("bad environment")
    else if err == E_INVAL then Some("invalid parameter")
    else if err == E_NO_MEM then Some("out of memory")
    else if err == E_NO_FREE_ENV then Some("out of environments")
    else if err == E_FAULT then Some("segmentation fault")
    else if err == E_IPC_NOT_RECV then Some("env is not recving")
    else if err == E_EOF then Some("unexpected end of file")
    else None
  }

  lemma ErrorTexts(value: int)
    ensures var err := if value < 0 then -value else value;
            ErrorText(value) == if ErrorName(err).Some? then ErrorName(err).value else "error " + Numeral(err, 10)
  {
    hide Numeral;
  }

  /** %e prints an error number and its negation alike: its text if it has one, and otherwise "error "
      and a number that reads back. */
  lemma ErrorPrints(value: int)
    requires -0x8000_0000 < value < 0x8000_0000
    ensures Terminated("%" + ['e'] + [NUL])
    ensures var out, err := Format("%" + ['e'] + [NUL], [Int(value)]), if value < 0 then -value else value;
            if ErrorName(err).Some? then out == ErrorName(err).value
            else |out| > 6 && out[..6] == "error " && Strtol(out[6..] + [NUL], 10).0 == err
  {
    hide Format, Strtol, Numeral, ErrorText, ErrorName;
    Plain('e', [Int(value)]);
    ErrorTexts(value);
    ErrorNumber(if value < 0 then -value else value);
  }

  lemma ErrorNumber(err: nat)
    requires err < 0x8000_0000
    ensures var out := "error " + Numeral(err, 10);
            |out| > 6 && out[..6] == "error " && Strtol(out[6..] + [NUL], 10).0 == err
  {
    hide Strtol, Numeral, Pad, Wrap32;
    Small(err);
    NumeralIsDecimal(err);
    RoundTrip(err, 10, 0, ' ');
    PadChars(0 - |Numeral(err, 10)|, ' ');
    NoHead(Numeral(err, 10));
    AfterError("error ", Numeral(err, 10));
  }

  lemma NoHead(t: string)
    ensures "" + t == t
  {}

  lemma AfterError(head: string, t: string)
    ensures (head + t)[|head|..] == t && (head + t)[..|head|] == head
  {}

  // The characters of s, cut to the precision, that %s shows.
  function ShownCount(s: string, precision: int): nat { if 0 <= precision < |s| then precision else |s| }

  /** %s: a field as wide as it must be, filled up on one side. Of the string it shows as many
      characters as the precision allows, each as it is unless '#' replaces an unprintable one; the
      rest of the field is padding, on the left, or blanks on the right for '-'. */
  lemma StringFieldMeans(s: string, f: Fields)
    ensures var out, n := StringField(s, f), ShownCount(s, f.precision);
            && |out| == (if f.width > n then f.width else n)
            && var from := if f.padc == '-' then 0 else |out| - n;
            && (forall k :: 0 <= k < n ==>
                 out[from + k] == if f.alt && (s[k] < ' ' || s[k] > '~') then '?' else s[k])
            && (forall k :: 0 <= k < |out| && !(from <= k < from + n) ==>
                 out[k] == if f.padc == '-' then ' ' else f.padc)
  {
    var n := ShownCount(s, f.precision);
    assert |Cut(s, f.precision)| == n && forall k :: 0 <= k < n ==> Cut(s, f.precision)[k] == s[k];
    PadIs(f.width - n, f.padc);
    PadIs(f.width - n, ' ');
  }

  /** %s with a width, or none: the string, or "(null)" for a null pointer, at the right end of a field
      that is filled up with blanks or zeros. */
  lemma StringPrints(zero: bool, width: nat, text: Option<string>)
    requires width < 0x8000_0000
    ensures Terminated(NumberFormat(zero, width, 's'))
    ensures var out, t := Format(NumberFormat(zero, width, 's'), [Str(text)]), if text.Some? then text.value
              else "(null)";
            && |out| == (if width > |t| then width else |t|)
            && out[|out| - |t|..] == t
            && forall k :: 0 <= k < |out| - |t| ==> out[k] == if zero then '0' else ' '
  {
    hide WithWidth, Modifiers, Modifier, Conversion, StringField, Format;
    var args, f := [Str(text)], FieldsOf(zero, width);
    var t := StrArg(args);
    IsConversion('s');
    WidthMeans(zero, width, 's', [NUL], args);
    Alone(WithWidth(zero, width), 's', f, args);
    StringFieldMeans(t, f);
    AtRightEnd(StringField(t, f), t);
  }

  lemma IsConversion(c: char)
    requires c in "cesduopxr%"
    ensures Conversion(c) && !Modifier(c) && Terminated([NUL])
  {}

  lemma AtRightEnd(out: string, t: string)
    requires |t| <= |out| && forall k :: 0 <= k < |t| ==> out[|out| - |t| + k] == t[k]
    ensures out[|out| - |t|..] == t
  {}

  // '-', '#' and '.' set one field each, or nothing.
  lemma FlagRead(c: char, tail: string, f: Fields, args: seq<Arg>)
    requires c in "-#." && Terminated(tail)
    ensures Terminated([c] + tail)
    ensures Modifiers([c] + tail, f, args)
            == Modifiers(tail, if c == '-' then f.(padc := '-') else if c == '#' then f.(alt := true)
                               else if f.width < 0 then f.(width := 0) else f, args)
  {
    assert ([c] + tail)[1..] == tail;
  }

  // Flags, a width if it is not 0, and a precision if it is not 0.
  function Layout(left: bool, alt: bool, width: nat, precision: nat): string {
    (if left then "-" else "") + ((if alt then "#" else "")
    + ((if width == 0 then "" else Numeral(width, 10)) + (if precision == 0 then "" else "." + Numeral(precision, 10))))
  }

  lemma PrecisionRead(precision: nat, tail: string, f: Fields, args: seq<Arg>)
    requires precision < 0x8000_0000 && Terminated(tail) && !Modifier(tail[0]) && f.precision == -1
    ensures var s := (if precision == 0 then "" else "." + Numeral(precision, 10)) + tail;
            && Terminated(s) && !('0' <= s[0] <= '9')
            && Modifiers(s, f, args)
               == (if precision == 0 then f
                   else f.(width := if f.width < 0 then 0 else f.width, precision := precision), tail, args)
  {
    assert !('0' <= tail[0] <= '9');
    if precision == 0 {
      assert "" + tail == tail;
    } else {
      var rest := Numeral(precision, 10) + tail;
      assert "." + Numeral(precision, 10) + tail == "." + rest && ['.'] == ".";
      hide Numeral, Modifier;
      CountRead(precision, tail, if f.width < 0 then f.(width := 0) else f, args);
      FlagRead('.', rest, f, args);
      hide Modifiers;
      Done(tail, Counted(if f.width < 0 then f.(width := 0) else f, precision), args);
    }
  }

  lemma Done(tail: string, f: Fields, args: seq<Arg>)
    requires Terminated(tail) && !Modifier(tail[0])
    ensures Modifiers(tail, f, args) == (f, tail, args)
  {}

  lemma LayoutRead(left: bool, alt: bool, width: nat, precision: nat, tail: string, args: seq<Arg>)
    requires width < 0x8000_0000 && precision < 0x8000_0000 && Terminated(tail) && !Modifier(tail[0])
    ensures var s := Layout(left, alt, width, precision) + tail;
            && Terminated(s)
            && Modifiers(s, Blank, args)
               == (Fields(if left then '-' else ' ', if width > 0 then width else if precision > 0 then 0 else -1,
                          if precision > 0 then precision else -1, alt, 0), tail, args)
  {
    hide Numeral, Modifiers, Modifier;
    var f0 := if left then Blank.(padc := '-') else Blank;
    var f1 := if alt then f0.(alt := true) else f0;
    var f2 := if width > 0 then f1.(width := width) else f1;
    var p := (if precision == 0 then "" else "." + Numeral(precision, 10)) + tail;
    PrecisionRead(precision, tail, f2, args);
    var w := (if width == 0 then "" else Numeral(width, 10)) + p;
    if width > 0 { CountRead(width, p, f1, args); } else { assert w == p; }
    var a := (if alt then "#" else "") + w;
    if alt { FlagRead('#', w, f0, args); assert ['#'] == "#"; } else { assert a == w; }
    var l := (if left then "-" else "") + a;
    if left { FlagRead('-', a, Blank, args); assert ['-'] == "-"; } else { assert l == a; }
    Joined(if left then "-" else "", if alt then "#" else "", if width == 0 then "" else Numeral(width, 10),
           if precision == 0 then "" else "." + Numeral(precision, 10), tail);
  }

  lemma Joined(a: string, b: string, c: string, d: string, e: string)
    ensures a + (b + (c + d)) + e == a + (b + (c + (d + e)))
  {}

  /** %s with flags, width and precision: the string, cut to the precision, at the left end for '-' and
      at the right otherwise, with '?' for unprintable characters if '#' is given, in a field filled up
      with blanks. */
  lemma StringLaidOut(left: bool, alt: bool, width: nat, precision: nat, text: string)
    requires width < 0x8000_0000 && precision < 0x8000_0000
    ensures Terminated("%" + Layout(left, alt, width, precision) + ['s'] + [NUL])
    ensures var out := Format("%" + Layout(left, alt, width, precision) + ['s'] + [NUL], [Str(Some(text))]);
            var n := if 0 < precision < |text| then precision else |text|;
            && |out| == (if width > n then width else n)
            && var from := if left then 0 else |out| - n;
            && (forall k :: 0 <= k < n ==>
                 out[from + k] == if alt && (text[k] < ' ' || text[k] > '~') then '?' else text[k])
            && (forall k :: 0 <= k < |out| && !(from <= k < from + n) ==> out[k] == ' ')
  {
    hide Layout, Modifiers, Modifier, Conversion, StringField, Format;
    var args, tail := [Str(Some(text))], ['s'] + [NUL];
    IsConversion('s');
    LayoutRead(left, alt, width, precision, tail, args);
    var f := Fields(if left then '-' else ' ', if width > 0 then width else if precision > 0 then 0 else -1,
                    if precision > 0 then precision else -1, alt, 0);
    Grouped(Layout(left, alt, width, precision), ['s'], [NUL]);
    Alone(Layout(left, alt, width, precision), 's', f, args);
    StringFieldMeans(text, f);
  }

  lemma {:induction false} PadIs(n: int, c: char)
    ensures |Pad(n, c)| == (if n > 0 then n else 0) && forall k :: 0 <= k < |Pad(n, c)| ==> Pad(n, c)[k] == c
    decreases n
  {
    if n > 0 { PadIs(n - 1, c); }
  }
}
