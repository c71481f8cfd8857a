/** What strtol of lib/string.c reads: blanks, a sign, a prefix for the base, and digits of either
    case, up to the first character that is none. */
module Scan {
  import opened Mmu
  import opened Envs
  import opened Numbers

  const LOWER := "0123456789abcdefghijklmnopqrstuvwxyz"
  const UPPER := "0123456789ABCDEFGHIJKLMNOPQRSTUVWXYZ"

  // c stands for the digit d.
  predicate Stands(c: char, d: nat) { d < 36 && (c == LOWER[d] || c == UPPER[d]) }

  predicate Spells(t: string, ds: seq<nat>, base: nat) {
    |t| == |ds| && base <= 36 && forall i :: 0 <= i < |ds| ==> ds[i] < base && Stands(t[i], ds[i])
  }

  // The number that digits make, most significant first.
  function Value(ds: seq<nat>, base: nat): nat {
    if ds == [] then 0 else Value(ds[..|ds| - 1], base) * base + ds[|ds| - 1]
  }

  // A character that ends a number in this base.
  predicate Ends(c: char, base: nat) { forall d: nat :: d < base ==> !Stands(c, d) }

  lemma DigitMeans(c: char, d: nat, base: nat)
    requires Stands(c, d) && d < base <= 36
    ensures DigitValue(c, base) == d
  {
    LowerIs(d);
    UpperIs(d);
  }

  lemma LowerIs(d: nat)
    requires d < 36
    ensures LOWER[d] as int == if d < 10 then '0' as int + d else 'a' as int + d - 10
  {
    assert |LOWER| == 36;
  }

  lemma UpperIs(d: nat)
    requires d < 36
    ensures UPPER[d] as int == if d < 10 then '0' as int + d else 'A' as int + d - 10
  {
    assert |UPPER| == 36;
  }

  lemma EndMeans(c: char, base: nat)
    requires Ends(c, base) && base <= 36
    ensures DigitValue(c, base) == -1
  {
    var d := DigitValue(c, base);
    if d >= 0 {
      LowerIs(d);
      UpperIs(d);
      assert Stands(c, d);
    }
  }

  // The digits from position i on are read as they stand, after k of them.
  lemma {:induction false} DigitsRead(s: string, i: nat, t: string, ds: seq<nat>, base: nat, k: nat)
    requires Spells(t, ds, base) && k <= |t| && i + |t| < |s| && s[i..i + |t|] == t && Ends(s[i + |t|], base)
    ensures Digits(s, i + k, base, Wrap32(Value(ds[..k], base))) == (Wrap32(Value(ds, base)), i + |t|)
    decreases |t| - k
  {
    hide Wrap32, DigitValue, Stands;
    if k < |t| {
      assert s[i + k] == s[i..i + |t|][k] == t[k];
      DigitMeans(t[k], ds[k], base);
      assert ds[..k + 1][..k] == ds[..k];
      WrapStep(Value(ds[..k], base), base, ds[k]);
      DigitsRead(s, i, t, ds, base, k + 1);
    } else {
      EndMeans(s[i + |t|], base);
      assert ds[..k] == ds;
    }
  }

  lemma {:induction false} BlanksSkipped(s: string, n: nat, i: nat)
    requires i <= n < |s| && (forall k :: i <= k < n ==> s[k] == ' ' || s[k] == '\t') && s[n] != ' ' && s[n] != '\t'
    ensures SkipBlanks(s, i) == n
    decreases n - i
  {
    if i < n { BlanksSkipped(s, n, i + 1); }
  }

  /** The base that a prefix stands for, when strtol is asked for `base`: hexadecimal after 0x, if it
      may be, octal after a leading zero, and decimal, if the base is left open. */
  predicate Prefix(base: nat, prefix: string, first: char, actual: nat) {
    if prefix == "0x" then (base == 0 || base == 16) && actual == 16
    else if prefix == "0" then base == 0 && actual == 8
    else prefix == "" && (if base == 0 then actual == 10 && first != '0' else actual == base)
  }

  /** strtol: blanks and tabs, at most one sign, a prefix, and digits in either case: the result is the
      number modulo 2^32, negated for a minus, and it stops right after the last digit. */
  lemma StrtolReads(blanks: string, sign: string, prefix: string, t: string, ds: seq<nat>, tail: string, base: nat,
                    actual: nat)
    requires (forall k :: 0 <= k < |blanks| ==> blanks[k] == ' ' || blanks[k] == '\t') && sign in ["", "+", "-"]
    requires t != "" && Spells(t, ds, actual) && actual >= 2 && tail != "" && Ends(tail[0], actual)
    requires Prefix(base, prefix, t[0], actual)
    requires prefix != "0x" && (base == 0 || base == 16) ==>
               !((prefix + t + tail)[0] == '0' && (prefix + t + tail)[1] == 'x')
    ensures Strtol(blanks + sign + prefix + t + tail, base)
            == (Wrap32(if sign == "-" then 0 - Value(ds, actual) else Value(ds, actual)),
                |blanks| + |sign| + |prefix| + |t|)
  {
    var s := blanks + sign + prefix + t + tail;
    var i, j := |blanks|, |blanks| + |sign|;
    var u := prefix + t + tail;
    hide Digits, Wrap32, Value, Ends, Spells;
    FirstDigit(t, ds, actual);
    Laid(blanks, sign, prefix, t, tail);
    BlanksSkipped(s, i, 0);
    hide SkipBlanks;
    DigitsAt(s, j + |prefix|, t, ds, actual);
    Negate(Value(ds, actual));
    assert At(s, j) == u[0] && At(s, j + 1) == u[1];
  }

  lemma FirstDigit(t: string, ds: seq<nat>, base: nat)
    requires t != "" && Spells(t, ds, base)
    ensures t[0] != ' ' && t[0] != '\t' && t[0] != '+' && t[0] != '-'
  {
    LowerIs(ds[0]);
    UpperIs(ds[0]);
  }

  lemma Laid(blanks: string, sign: string, prefix: string, t: string, tail: string)
    requires t != "" && tail != ""
    ensures var s, u := blanks + sign + prefix + t + tail, prefix + t + tail;
            && |s| == |blanks| + |sign| + |u| && |u| >= 2
            && (forall k :: 0 <= k < |blanks| ==> s[k] == blanks[k])
            && (sign != "" ==> s[|blanks|] == sign[0])
            && (forall k :: 0 <= k < |u| ==> s[|blanks| + |sign| + k] == u[k])
            && s[|blanks| + |sign| + |prefix|..|blanks| + |sign| + |prefix| + |t|] == t
            && s[|blanks| + |sign| + |prefix| + |t|] == tail[0]
            && u[0] == (if prefix == "" then t[0] else prefix[0])
            && (|prefix| == 2 ==> u[1] == prefix[1])
  {}

  lemma DigitsAt(s: string, i: nat, t: string, ds: seq<nat>, base: nat)
    requires Spells(t, ds, base) && i + |t| < |s| && s[i..i + |t|] == t && Ends(s[i + |t|], base)
    ensures Digits(s, i, base, 0) == (Wrap32(Value(ds, base)), i + |t|)
  {
    assert ds[..0] == [] && Wrap32(0) == 0;
    DigitsRead(s, i, t, ds, base, 0);
  }

  lemma Negate(a: nat)
    ensures Wrap32(-Wrap32(a)) == Wrap32(0 - a)
  {
    var q := (a + 0x8000_0000) / 0x1_0000_0000;
    WholeTurns(-Wrap32(a), 0 - a, -q);
  }
}
