/** The printf interpreter with its truncating sink (lib/printfmt.c). */
module Printfmt {
  import opened Mmu
  import opened Errors
  import opened Envs
  import opened Numbers

  /** struct sprintbuf: at most n - 1 characters go into the buffer, all are counted. */
  class Sprintbuf {
    const buf: array<char>
    const ebuf: nat
    var pos: nat
    var cnt: nat
    ghost var out: string

    ghost predicate Valid()
      reads this, buf
    {
      ebuf < buf.Length && cnt == |out| && pos == (if |out| <= ebuf then |out| else ebuf) && buf[..pos] == out[..pos]
    }

    // What lies beyond the buffer's last character.
    ghost function Rest(): seq<char>
      reads this, buf
      requires Valid()
    {
      buf[ebuf..]
    }

    constructor (b: array<char>, n: nat)
      requires 1 <= n <= b.Length
      ensures Valid() && buf == b && ebuf == n - 1 && out == ""
    {
      buf, ebuf, pos, cnt, out := b, n - 1, 0, 0, "";
    }

    // sprintputch
    method Putch(ch: char)
      requires Valid()
      modifies this, buf
      ensures Valid() && out == old(out) + [ch]
      ensures Rest() == old(Rest())
    {
      cnt := cnt + 1;
      if pos < ebuf {
        buf[pos] := ch;
        pos := pos + 1;
      }
      out := out + [ch];
      assert buf[..pos] == out[..pos];
    }

    method PutAll(s: string)
      requires Valid()
      modifies this, buf
      ensures Valid() && out == old(out) + s
      ensures Rest() == old(Rest())
    {
      for i := 0 to |s|
        invariant Valid() && out == old(out) + s[..i]
        invariant Rest() == old(Rest())
      {
        Putch(s[i]);
        assert s[..i + 1] == s[..i] + [s[i]];
      }
      assert s[..|s|] == s;
    }
  }

  // An argument: a machine integer, of any sign and size, or a C string.
  datatype Arg = Int(value: int) | Str(text: Option<string>)

  // What the flags and numbers of an escape have set so far.
  datatype Fields = Fields(padc: char, width: int, precision: int, alt: bool, lflag: nat)

  const Blank := Fields(' ', -1, -1, false, 0)

  // va_arg, for the next argument and for the ones after it
  function IntArg(args: seq<Arg>): int { if args != [] && args[0].Int? then args[0].value else 0 }

  function StrArg(args: seq<Arg>): string {
    if args != [] && args[0].Str? && args[0].text.Some? then args[0].text.value else "(null)"
  }

  function Later(args: seq<Arg>): seq<Arg> { if args == [] then [] else args[1..] }

  function Shown(c: char, alt: bool): char { if alt && (c < ' ' || c > '~') then '?' else c }

  function ShownAll(s: string, alt: bool): string { seq(|s|, i requires 0 <= i < |s| => Shown(s[i], alt)) }

  function Cut(s: string, precision: int): string { if 0 <= precision < |s| then s[..precision] else s }

  /** %s: the text cut to the precision, padded to the width on the left, or on the right for '-'. */
  function StringField(s: string, f: Fields): string {
    var text := ShownAll(Cut(s, f.precision), f.alt);
    if f.padc != '-' then Pad(f.width - |text|, f.padc) + text else text + Pad(f.width - |text|, ' ')
  }

  // for (; width > 0; width--) putch(c)
  method PutPad(b: Sprintbuf, width: int, c: char)
    requires b.Valid()
    modifies b, b.buf
    ensures b.Valid() && b.out == old(b.out) + Pad(width, c)
    ensures b.Rest() == old(b.Rest())
  {
    var w := width;
    while w > 0
      invariant b.Valid() && w <= width && (w < 0 ==> w == width) && b.out == old(b.out) + Pad(width - w, c)
      invariant b.Rest() == old(b.Rest())
    {
      b.Putch(c);
      w := w - 1;
      assert Pad(width - w, c) == Pad(width - w - 1, c) + [c];
    }
  }

  lemma ShownMore(s: string, i: nat, alt: bool)
    requires i < |s|
    ensures ShownAll(s[..i + 1], alt) == ShownAll(s[..i], alt) + [Shown(s[i], alt)]
  {}

  // the characters of %s
  method PutText(b: Sprintbuf, s: string, f: Fields) returns (n: nat)
    requires b.Valid()
    modifies b, b.buf
    ensures b.Valid() && b.out == old(b.out) + ShownAll(Cut(s, f.precision), f.alt) && n == |Cut(s, f.precision)|
    ensures b.Rest() == old(b.Rest())
  {
    var precision := f.precision;
    n := 0;
    assert ShownAll(s[..0], f.alt) == [];
    hide ShownAll, Shown;
    while n < |s| && (precision < 0 || precision - 1 >= 0)
      invariant b.Valid() && 0 <= n <= |Cut(s, f.precision)|
      invariant precision == if f.precision < 0 then f.precision else f.precision - n
      invariant b.out == old(b.out) + ShownAll(s[..n], f.alt)
      invariant b.Rest() == old(b.Rest())
    {
      if precision >= 0 { precision := precision - 1; }
      b.Putch(Shown(s[n], f.alt));
      ShownMore(s, n, f.alt);
      n := n + 1;
    }
    assert s[..n] == Cut(s, f.precision);
  }

  method PutString(b: Sprintbuf, s: string, f: Fields)
    requires b.Valid()
    modifies b, b.buf
    ensures b.Valid() && b.out == old(b.out) + StringField(s, f)
    ensures b.Rest() == old(b.Rest())
  {
    var width := f.width;
    if width > 0 && f.padc != '-' {
      width := width - |Cut(s, f.precision)|;
      PutPad(b, width, f.padc);
      if width > 0 { width := 0; }
    }
    var n := PutText(b, s, f);
    PutPad(b, width - n, ' ');
  }

  // ---------- what a format means

  // A format string, or what is left of one, and its NUL.
  predicate Terminated(s: string) { |s| > 0 && s[|s| - 1] == NUL }

  // The characters that may stand between '%' and the conversion, and the conversions.
  predicate Modifier(c: char) { c in "-*.#l" || '0' <= c <= '9' }
  predicate Conversion(c: char) { c in "cesduopxr%" }

  // error_string; the empty ones are NULL
  const ERRORS := ["", "unspecified error", "bad environment", "invalid parameter", "out of memory",
                   "out of environments", "segmentation fault", "", "env is not recving", "unexpected end of file"]

  function ErrorText(value: int): string {
    var err := if value < 0 then -value else value;
    if err >= MAXERROR || ERRORS[err] == "" then "error " + Numeral(err, 10) else ERRORS[err]
  }

  // getint and getuint: long is as wide as int
  function Signed(value: int, lflag: nat): int {
    if lflag >= 2 then (value + 0x8000_0000_0000_0000) % 0x1_0000_0000_0000_0000 - 0x8000_0000_0000_0000
    else Wrap32(value)
  }

  function Unsigned(value: int, lflag: nat): nat {
    if lflag >= 2 then value % 0x1_0000_0000_0000_0000 else value % 0x1_0000_0000
  }

  /** A number: padding on the left up to the width, then the digits. */
  function NumberField(num: nat, base: nat, f: Fields): string
    requires 2 <= base <= 16
  {
    Pad(f.width - |Numeral(num, base)|, f.padc) + Numeral(num, base)
  }

  /** %d: the sign goes before the padding. */
  function SignedField(num: int, f: Fields): string {
    if num < 0 then "-" + NumberField(-num, 10, f) else NumberField(num, 10, f)
  }

  /** What a conversion prints for the next argument. */
  function Converted(c: char, f: Fields, args: seq<Arg>): string {
    match c
    case 'c' => [(IntArg(args) % 256) as char]
    case 'e' => ErrorText(Wrap32(IntArg(args)))
    case 's' => StringField(StrArg(args), f)
    case 'd' => SignedField(Signed(IntArg(args), f.lflag), f)
    case 'u' => NumberField(Unsigned(IntArg(args), f.lflag), 10, f)
    case 'o' => NumberField(Unsigned(IntArg(args), f.lflag), 8, f)
    case 'p' => "0x" + NumberField(Unsigned(IntArg(args), 0), 16, f)
    case 'x' => NumberField(Unsigned(IntArg(args), f.lflag), 16, f)
    case 'r' => ""
    case _ => [c]
  }

  function Remaining(c: char, args: seq<Arg>): seq<Arg> { if c == '%' then args else Later(args) }

  // process_precision: the first number is the width, later ones are the precision
  function Counted(f: Fields, count: int): Fields {
    if f.width < 0 then f.(width := count, precision := -1) else f.(precision := count)
  }

  lemma {:induction false} DigitsEnd(s: string, i: nat, val: int)
    requires Terminated(s) && i < |s|
    ensures i <= Digits(s, i, 10, val).1 < |s|
    ensures '0' <= s[i] <= '9' ==> i < Digits(s, i, 10, val).1
    decreases |s| - i
  {
    if '0' <= s[i] <= '9' { DigitsEnd(s, i + 1, Wrap32(val * 10 + DigitValue(s[i], 10))); }
  }

  /** What the modifiers of an escape set: fields, the format from the first other character
      on, and the arguments left. */
  function Modifiers(s: string, f: Fields, args: seq<Arg>): (r: (Fields, string, seq<Arg>))
    requires Terminated(s)
    ensures Terminated(r.1) && |r.1| <= |s| && !Modifier(r.1[0]) && (!Modifier(s[0]) ==> r == (f, s, args))
    decreases |s|
  {
    var c := s[0];
    if !Modifier(c) then (f, s, args)
    else if '1' <= c <= '9' then
      DigitsEnd(s, 0, 0);
      var (count, end) := Digits(s, 0, 10, 0);
      Modifiers(s[end..], Counted(f, count), args)
    else if c == '*' then Modifiers(s[1..], Counted(f, Wrap32(IntArg(args))), Later(args))
    else Modifiers(s[1..], Flagged(f, c), args)
  }

  function Flagged(f: Fields, c: char): Fields {
    match c
    case '.' => if f.width < 0 then f.(width := 0) else f
    case '#' => f.(alt := true)
    case 'l' => f.(lflag := f.lflag + 1)
    case _ => f.(padc := c)
  }

  /** One escape, `s` being what follows its '%': the text, the format that comes next and the
      arguments left. An unrecognized escape prints its '%' and takes the rest as text. */
  function Escaped(s: string, args: seq<Arg>): (r: (string, string, seq<Arg>))
    requires Terminated(s)
    ensures Terminated(r.1) && |r.1| <= |s|
  {
    var (f, rest, args') := Modifiers(s, Blank, args);
    if Conversion(rest[0]) then (Converted(rest[0], f, args'), rest[1..], Remaining(rest[0], args'))
    else ("%", s, args')
  }

  /** The output of vprintfmt. */
  function Format(s: string, args: seq<Arg>): string
    requires Terminated(s)
    decreases |s|
  {
    if s[0] == NUL then ""
    else if s[0] != '%' then [s[0]] + Format(s[1..], args)
    else var (text, rest, args') := Escaped(s[1..], args); text + Format(rest, args')
  }

  // ---------- the interpreter

  // The digits at the end of a string are those of its tail.
  lemma {:induction false} DigitsShift(s: string, k: nat, i: nat, base: nat, val: int)
    requires k <= |s|
    ensures Digits(s[k..], i, base, val).0 == Digits(s, k + i, base, val).0
    ensures Digits(s[k..], i, base, val).1 + k == Digits(s, k + i, base, val).1
    decreases |s| - i
  {
    hide Wrap32;
    if k + i < |s| && DigitValue(s[k + i], base) >= 0 {
      DigitsShift(s, k, i + 1, base, Wrap32(val * base + DigitValue(s[k + i], base)));
    }
  }

  // for (precision = 0; ; ++fmt) ..., from the first digit, at fmt[q - 1], on
  method ReadCount(fmt: string, q: nat) returns (count: int, q': nat)
    requires Terminated(fmt) && 1 <= q < |fmt| && '1' <= fmt[q - 1] <= '9'
    ensures q <= q' < |fmt| && (count, q') == Digits(fmt, q - 1, 10, 0)
  {
    var ch := fmt[q - 1];
    count, q' := 0, q;
    hide Wrap32;
    while true
      invariant q <= q' < |fmt| && ch == fmt[q' - 1] && '0' <= ch <= '9'
      invariant Digits(fmt, q' - 1, 10, count) == Digits(fmt, q - 1, 10, 0)
      decreases |fmt| - q'
    {
      count := Wrap32(count * 10 + (ch as int - '0' as int));
      ch := fmt[q'];
      if ch < '0' || ch > '9' { return; }
      q' := q' + 1;
    }
  }

  method PutError(b: Sprintbuf, value: int)
    requires b.Valid()
    modifies b, b.buf
    ensures b.Valid() && b.out == old(b.out) + ErrorText(value)
    ensures b.Rest() == old(b.Rest())
  {
    var err := if value < 0 then -value else value;
    if err >= MAXERROR || ERRORS[err] == "" {
      var number := PrintNum(err, 10, -1, ' ');
      b.PutAll("error " + number);
    } else {
      b.PutAll(ERRORS[err]);
    }
  }

  method PutNumber(b: Sprintbuf, num: nat, base: nat, f: Fields)
    requires b.Valid() && 2 <= base <= 16
    modifies b, b.buf
    ensures b.Valid() && b.out == old(b.out) + NumberField(num, base, f)
    ensures b.Rest() == old(b.Rest())
  {
    var digits := PrintNum(num, base, f.width, f.padc);
    b.PutAll(digits);
  }

  // the conversions that end an escape
  method Convert(b: Sprintbuf, ch: char, f: Fields, args: seq<Arg>)
    requires b.Valid() && Conversion(ch)
    modifies b, b.buf
    ensures b.Valid() && b.out == old(b.out) + Converted(ch, f, args)
    ensures b.Rest() == old(b.Rest())
  {
    hide NumberField, ErrorText, StringField, Conversion;
    match ch
    case 'c' => b.Putch((IntArg(args) % 256) as char);
    case 'e' => PutError(b, Wrap32(IntArg(args)));
    case 's' => PutString(b, StrArg(args), f);
    case 'd' =>
      var num := Signed(IntArg(args), f.lflag);
      if num < 0 {
        b.Putch('-');
        num := -num;
      }
      PutNumber(b, num, 10, f);
    case 'u' => PutNumber(b, Unsigned(IntArg(args), f.lflag), 10, f);
    case 'o' => PutNumber(b, Unsigned(IntArg(args), f.lflag), 8, f);
    case 'p' =>
      b.Putch('0');
      b.Putch('x');
      PutNumber(b, Unsigned(IntArg(args), 0), 16, f);
    case 'x' => PutNumber(b, Unsigned(IntArg(args), f.lflag), 16, f);
    case 'r' =>
    case _ => b.Putch(ch);
  }

  // What the switch does at a modifier, in terms of positions.
  lemma ModifierMeans(s: string, p: nat, f: Fields, args: seq<Arg>)
    requires Terminated(s) && p < |s| && Modifier(s[p])
    ensures p + 1 < |s|
    ensures '1' <= s[p] <= '9' ==>
              var (count, end) := Digits(s, p, 10, 0);
              && p < end < |s| && Modifiers(s[p..], f, args) == Modifiers(s[end..], Counted(f, count), args)
              && forall i :: p <= i < end ==> Modifier(s[i])
    ensures s[p] == '*' ==>
              Modifiers(s[p..], f, args) == Modifiers(s[p + 1..], Counted(f, Wrap32(IntArg(args))), Later(args))
    ensures s[p] != '*' && !('1' <= s[p] <= '9') ==>
              Modifiers(s[p..], f, args) == Modifiers(s[p + 1..], Flagged(f, s[p]), args)
  {
    assert s[p..][1..] == s[p + 1..];
    hide Digits, DigitValue, Wrap32;
    if '1' <= s[p] <= '9' { CountShift(s, p); }
  }

  /** One modifier: the body of the switch up to its `goto reswitch`. */
  method OneModifier(fmt: string, p: nat, f: Fields, args: seq<Arg>) returns (p': nat, f': Fields, args': seq<Arg>)
    requires Terminated(fmt) && p < |fmt| && Modifier(fmt[p])
    ensures p < p' < |fmt| && Modifiers(fmt[p'..], f', args') == Modifiers(fmt[p..], f, args)
    ensures forall i :: p <= i < p' ==> Modifier(fmt[i])
  {
    var ch := fmt[p];
    p', f', args' := p + 1, f, args;
    hide Modifiers, Digits, DigitValue, Wrap32, Modifier;
    ModifierMeans(fmt, p, f, args);
    if '1' <= ch <= '9' || ch == '*' {
      var precision;
      if ch == '*' {
        precision, args' := Wrap32(IntArg(args)), Later(args);
      } else {
        precision, p' := ReadCount(fmt, p');
      }
      f' := if f.width < 0 then f.(width := precision, precision := -1) else f.(precision := precision);
    } else if ch == '.' {
      if f.width < 0 { f' := f.(width := 0); }
    } else if ch == '#' {
      f' := f.(alt := true);
    } else if ch == 'l' {
      f' := f.(lflag := f.lflag + 1);
    } else {
      f' := f.(padc := ch);
    }
  }

  /** One escape in place, from the character after '%' on. An escape that is not recognized is
      printed literally: the cursor goes back to just after its '%'. */
  method Escape(b: Sprintbuf, fmt: string, start: nat, args: seq<Arg>) returns (p: nat, args': seq<Arg>)
    requires b.Valid() && Terminated(fmt) && 1 <= start < |fmt| && fmt[start - 1] == '%'
    modifies b, b.buf
    ensures b.Valid() && start <= p < |fmt|
    ensures var (text, rest, left) := Escaped(fmt[start..], args);
              b.out == old(b.out) + text && fmt[p..] == rest && args' == left
    ensures b.Rest() == old(b.Rest())
  {
    var f := Blank;
    p, args' := start, args;
    hide Converted, Modifier, Conversion;
    while Modifier(fmt[p])
      invariant start <= p < |fmt| && forall i :: start <= i < p ==> Modifier(fmt[i])
      invariant b.Valid() && b.out == old(b.out) && b.Rest() == old(b.Rest())
      invariant Modifiers(fmt[p..], f, args') == Modifiers(fmt[start..], Blank, args)
      decreases |fmt| - p
    {
      p, f, args' := OneModifier(fmt, p, f, args');
    }
    var ch := fmt[p];
    p := p + 1;
    CharClasses(ch);
    if Conversion(ch) {
      Convert(b, ch, f, args');
      args' := Remaining(ch, args');
    } else {
      b.Putch('%');
      p := p - 1;
      while fmt[p - 1] != '%'
        invariant start <= p < |fmt| && forall i :: start <= i < p ==> Modifier(fmt[i])
        invariant b.Valid() && b.out == old(b.out) + "%"
        invariant b.Rest() == old(b.Rest())
        decreases p
      {
        p := p - 1;
      }
      CharClasses(fmt[p - 1]);
    }
  }

  lemma CharClasses(c: char)
    ensures c == '%' ==> !Modifier(c)
    ensures Conversion(c) ==> c != NUL
  {}

  lemma FormatAt(s: string, p: nat, args: seq<Arg>)
    requires Terminated(s) && p < |s|
    ensures s[p] == NUL ==> Format(s[p..], args) == ""
    ensures s[p] != NUL ==> p + 1 < |s|
    ensures s[p] != NUL && s[p] != '%' ==> Format(s[p..], args) == [s[p]] + Format(s[p + 1..], args)
    ensures s[p] == '%' ==> var (text, rest, left) := Escaped(s[p + 1..], args);
              Format(s[p..], args) == text + Format(rest, left)
  {
    hide Escaped;
    if s[p] != NUL { assert s[p..][1..] == s[p + 1..]; }
  }

  lemma Grouped(a: string, b: string, c: string)
    ensures (a + b) + c == a + (b + c)
  {}

  /** vprintfmt: it terminates for every format, although the default case moves the cursor
      back, never looks past the NUL, and prints what the format means. */
  method Vprintfmt(b: Sprintbuf, fmt: string, args: seq<Arg>)
    requires b.Valid() && Terminated(fmt)
    modifies b, b.buf
    ensures b.Valid() && b.out == old(b.out) + Format(fmt, args)
    ensures b.Rest() == old(b.Rest())
  {
    var p, left, done := 0, args, false;
    assert fmt[0..] == fmt;
    hide Format, Terminated;
    while !done
      invariant b.Valid() && 0 <= p < |fmt| && b.Rest() == old(b.Rest())
      invariant b.out + (if done then "" else Format(fmt[p..], left)) == old(b.out) + Format(fmt, args)
      decreases |fmt| - p, !done
    {
      done, p, left := TextAndEscape(b, fmt, p, left);
    }
  }

  // one round of vprintfmt; the flag tells whether the format is at its end
  method TextAndEscape(b: Sprintbuf, fmt: string, from: nat, args: seq<Arg>)
      returns (done: bool, p: nat, left: seq<Arg>)
    requires b.Valid() && Terminated(fmt) && from < |fmt|
    modifies b, b.buf
    ensures b.Valid() && from <= p < |fmt| && (!done ==> from < p) && b.Rest() == old(b.Rest())
    ensures b.out + (if done then "" else Format(fmt[p..], left)) == old(b.out) + Format(fmt[from..], args)
  {
    hide Format, Escaped;
    p := PlainText(b, fmt, from, args);
    FormatAt(fmt, p, args);
    if fmt[p] == NUL { return true, p, args; }
    ghost var (text, rest, after) := Escaped(fmt[p + 1..], args);
    Grouped(b.out, text, Format(rest, after));
    p, left := Escape(b, fmt, p + 1, args);
    done := false;
  }

  // text up to the next '%' or the end
  method PlainText(b: Sprintbuf, fmt: string, from: nat, ghost args: seq<Arg>) returns (p: nat)
    requires b.Valid() && Terminated(fmt) && from < |fmt|
    modifies b, b.buf
    ensures b.Valid() && from <= p < |fmt| && (fmt[p] == '%' || fmt[p] == NUL)
    ensures b.out + Format(fmt[p..], args) == old(b.out) + Format(fmt[from..], args)
    ensures b.Rest() == old(b.Rest())
  {
    p := from;
    hide Format, Escaped;
    while fmt[p] != '%'
      invariant b.Valid() && from <= p < |fmt|
                && b.out + Format(fmt[p..], args) == old(b.out) + Format(fmt[from..], args)
      invariant b.Rest() == old(b.Rest())
      decreases |fmt| - p
    {
      if fmt[p] == NUL { return; }
      b.Putch(fmt[p]);
      FormatAt(fmt, p, args);
      p := p + 1;
    }
  }

  /** vsnprintf: the buffer gets the longest prefix of the output that fits, and a NUL after it;
      the result is the length of the whole output; nothing beyond the n bytes is touched. */
  method Vsnprintf(buf: array<char>, n: int, fmt: string, args: seq<Arg>) returns (r: int)
    requires n <= buf.Length && Terminated(fmt)
    modifies buf
    ensures n < 1 ==> r == -E_INVAL && buf[..] == old(buf[..])
    ensures n >= 1 ==> var out := Format(fmt, args);
                       var m := if |out| < n then |out| else n - 1;
                       r == |out| && buf[..m] == out[..m] && buf[m] == NUL
    ensures forall i :: 0 <= i < buf.Length && i >= n ==> buf[i] == old(buf[i])
  {
    hide Format;
    if n < 1 { return -E_INVAL; }
    var b := new Sprintbuf(buf, n);
    Vprintfmt(b, fmt, args);
    assert b.out == Format(fmt, args);
    ghost var m := b.pos;
    buf[b.pos] := NUL;
    assert buf[..m] == b.out[..m];
    r := b.cnt;
  }

  lemma CountShift(s: string, p: nat)
    requires Terminated(s) && p < |s| && '1' <= s[p] <= '9'
    ensures var (count, end) := Digits(s, p, 10, 0);
            && p < end < |s| && Digits(s[p..], 0, 10, 0) == (count, end - p) && s[p..][end - p..] == s[end..]
            && forall i :: p <= i < end ==> Modifier(s[i])
  {
    DigitsEnd(s, p, 0);
    DigitsShift(s, p, 0, 10, 0);
    DigitsAreModifiers(s, p, 0);
  }

  lemma {:induction false} DigitsAreModifiers(s: string, i: nat, val: int)
    ensures var end := Digits(s, i, 10, val).1;
              i <= end && (end <= |s| || end == i) && forall k :: i <= k < end && k < |s| ==> Modifier(s[k])
    decreases |s| - i
  {
    hide Wrap32;
    if i < |s| && DigitValue(s[i], 10) >= 0 { DigitsAreModifiers(s, i + 1, Wrap32(val * 10 + DigitValue(s[i], 10))); }
  }
}
