/** itoa_r: integers written into a caller's buffer of sz bytes, digits in reverse
    order first, then turned around in place. */
module Itoa {
  import opened Arith

  const WORDS: int := 0x1_0000_0000_0000_0000
  const NUL := '\0'
  const DIGITS := "01234567" + "89abcdef"

  /** An intptr_t. */
  type intptr = x: int | -0x8000_0000_0000_0000 <= x < 0x8000_0000_0000_0000

  // ---------- Digits ----------

  function DigitValue(c: char): nat {
    if '0' <= c <= '9' then (c - '0') as int
    else if 'a' <= c <= 'f' then (c - 'a') as int + 10
    else 0
  }

  lemma DigitsHaveValues(v: nat)
    requires v < 16
    ensures |DIGITS| == 16 && DigitValue(DIGITS[v]) == v && DIGITS[v] != NUL && DIGITS[v] != '-'
  {
  }

  /** What a string of digits means, most significant digit first. */
  function Eval(s: string, base: nat): nat {
    if s == "" then 0 else base * Eval(s[..|s| - 1], base) + DigitValue(s[|s| - 1])
  }

  /** Decreasing padding, as the loop does. */
  function Less(padding: nat): nat {
    if padding > 0 then padding - 1 else 0
  }

  lemma QuotientShrinks(j: nat, base: nat)
    requires base >= 2
    ensures j / base <= j && (j > 0 ==> j / base < j) && j == base * (j / base) + j % base
  {
    if j / base > 0 {
      assert base * (j / base) >= 2 * (j / base);
    }
  }

  lemma QuotientLess(j: nat, base: nat)
    requires base >= 2
    ensures 0 <= j / base <= j && (j > 0 ==> j / base < j) && 0 <= j % base < base
  {
    QuotientShrinks(j, base);
  }

  /** The digits of j, least significant first: at least one, at least `padding`. */
  function Digits(j: nat, base: nat, padding: nat): string
    requires 2 <= base <= 16
    decreases j, padding
  {
    QuotientShrinks(j, base);
    [DIGITS[j % base]] + if j / base > 0 || Less(padding) > 0 then Digits(j / base, base, Less(padding)) else ""
  }

  /** The number of significant digits. */
  function Significant(j: nat, base: nat): nat
    requires base >= 2
  {
    QuotientShrinks(j, base);
    if j == 0 then 0 else 1 + Significant(j / base, base)
  }

  function Power(base: nat, n: nat): nat {
    if n == 0 then 1 else base * Power(base, n - 1)
  }

  lemma {:induction false} SignificantIsLeast(j: nat, base: nat)
    requires base >= 2
    ensures j < Power(base, Significant(j, base))
    ensures j > 0 ==> Power(base, Significant(j, base) - 1) <= j
  {
    if j > 0 {
      QuotientShrinks(j, base);
      SignificantIsLeast(j / base, base);
      var q := j / base;
      var n := Significant(q, base);
      MulMonotone(base, q + 1, Power(base, n));
      MulMonotone(base, q, q + 1);
      if q > 0 {
        MulMonotone(base, Power(base, n - 1), q);
      }
    }
  }

  function Max(a: nat, b: nat): nat {
    if a > b then a else b
  }

  lemma {:induction false} DigitsCount(j: nat, base: nat, padding: nat)
    requires 2 <= base <= 16
    ensures |Digits(j, base, padding)| == Max(1, Max(Significant(j, base), padding))
    decreases j, padding
  {
    QuotientShrinks(j, base);
    if j / base > 0 || Less(padding) > 0 {
      DigitsCount(j / base, base, Less(padding));
    }
  }

  function Flip(s: string): (r: string)
    ensures |r| == |s| && forall k | 0 <= k < |s| :: r[k] == s[|s| - 1 - k]
  {
    seq(|s|, k requires 0 <= k < |s| => s[|s| - 1 - k])
  }

  lemma EvalAppends(s: string, c: char, base: nat)
    ensures Eval(s + [c], base) == base * Eval(s, base) + DigitValue(c)
  {
    assert (s + [c])[..|s|] == s;
  }

  lemma FlipPrepends(c: char, s: string)
    ensures Flip([c] + s) == Flip(s) + [c]
  {
  }

  lemma EvalStep(c: char, rest: string, base: nat, q: nat)
    requires Eval(Flip(rest), base) == q
    ensures Eval(Flip([c] + rest), base) == base * q + DigitValue(c)
  {
    FlipPrepends(c, rest);
    EvalAppends(Flip(rest), c, base);
  }

  /** The digits after the lowest one. */
  function Rest(j: nat, base: nat, padding: nat): string
    requires 2 <= base <= 16
  {
    if j / base > 0 || Less(padding) > 0 then Digits(j / base, base, Less(padding)) else ""
  }

  lemma DigitsStep(j: nat, base: nat, padding: nat)
    requires 2 <= base <= 16
    ensures Digits(j, base, padding) == [DIGITS[j % base]] + Rest(j, base, padding)
  {
  }

  /** Turned around, the digits evaluate to the number, whatever the padding. */
  lemma {:induction false} DigitsEvaluate(j: nat, base: nat, padding: nat)
    requires 2 <= base <= 16
    ensures Eval(Flip(Digits(j, base, padding)), base) == j
    decreases j, padding
  {
    assert Flip("") == "" && Eval("", base) == 0;
    hide Eval, Digits, DigitValue;
    QuotientShrinks(j, base);
    DigitsHaveValues(j % base);
    DigitsStep(j, base, padding);
    if j / base > 0 || Less(padding) > 0 {
      DigitsEvaluate(j / base, base, Less(padding));
    }
    hide Rest;
    EvalStep(DIGITS[j % base], Rest(j, base, padding), base, j / base);
  }

  // ---------- The text ----------

  predicate Signed(i: intptr, base: int) {
    i < 0 && base == 10
  }

  /** The number that is printed: other bases print a negative number as unsigned. */
  function Magnitude(i: intptr, base: int): nat {
    if Signed(i, base) then -(i as int) else i as int % WORDS
  }

  function Text(i: intptr, base: int, padding: nat): string
    requires 2 <= base <= 16
  {
    (if Signed(i, base) then "-" else "") + Flip(Digits(Magnitude(i, base), base, padding))
  }

  lemma TextParts(i: intptr, base: int, padding: nat)
    requires 2 <= base <= 16
    ensures var t, sign := Text(i, base, padding), if Signed(i, base) then 1 else 0;
      && |t| == sign + Max(1, Max(Significant(Magnitude(i, base), base), padding))
      && (sign == 1 <==> t[0] == '-')
      && Eval(t[sign..], base) == Magnitude(i, base)
  {
    var j := Magnitude(i, base);
    var t, d := Text(i, base, padding), Digits(j, base, padding);
    DigitsCount(j, base, padding);
    DigitsEvaluate(j, base, padding);
    assert t[|t| - |d|..] == Flip(d);
    DigitsClean(j, base, padding);
  }

  lemma MagnitudeIs(i: intptr, base: int)
    ensures base == 10 && i < 0 ==> Magnitude(i, base) == -(i as int)
    ensures i >= 0 ==> Magnitude(i, base) == i
    ensures base != 10 && i < 0 ==> Magnitude(i, base) == i as int + 0x1_0000_0000_0000_0000
  {
  }

  /** What the text reads back as: in base 10 the number with its sign, in the other
      bases the number below 2^64 congruent to it; and how many digits it has. */
  lemma TextReadsBack(i: intptr, base: int, padding: nat)
    requires 2 <= base <= 16
    ensures var t := Text(i, base, padding);
      var minus := t != "" && t[0] == '-';
      var digits := if minus then t[1..] else t;
      var v: int := Eval(digits, base);
      && (base == 10 ==> i == if minus then -v else v)
      && (base != 10 ==> !minus && v == if i >= 0 then i else i as int + 0x1_0000_0000_0000_0000)
      && (minus ==> v > 0)
      && |digits| == Max(1, Max(Significant(v, base), padding))
  {
    hide Text, Digits, Significant, Eval, Magnitude, Max;
    TextParts(i, base, padding);
    MagnitudeIs(i, base);
  }

  lemma {:induction false} DigitsClean(j: nat, base: nat, padding: nat)
    requires 2 <= base <= 16
    ensures forall k | 0 <= k < |Digits(j, base, padding)| :: Digits(j, base, padding)[k] !in {NUL, '-'}
    decreases j, padding
  {
    QuotientShrinks(j, base);
    DigitsHaveValues(j % base);
    if j / base > 0 || Less(padding) > 0 {
      DigitsClean(j / base, base, Less(padding));
    }
  }

  // ---------- The method ----------

  /** The last loop: the bytes from `start` to `end` turned around in place. */
  method Reverse(buf: array<char>, start: nat, end: nat)
    requires start < end <= buf.Length
    modifies buf
    ensures buf[start..end] == Flip(old(buf[start..end]))
    ensures buf[..start] == old(buf[..start]) && buf[end..] == old(buf[end..])
  {
    var lo, hi := start, end - 1;
    while hi > lo
      invariant start <= lo <= hi + 2 && hi < end && lo + hi == start + end - 1
      invariant Turned(old(buf[..]), buf[..], start, end, lo, hi)
    {
      buf[hi], buf[lo] := buf[lo], buf[hi];
      lo, hi := lo + 1, hi - 1;
    }
    TurnedIsFlip(old(buf[..]), buf[..], start, end, lo, hi);
  }

  /** The outer parts of was[start..end] up to lo and hi have changed places. */
  ghost predicate Turned(was: string, now: string, start: nat, end: nat, lo: int, hi: int)
    requires start < end <= |was|
  {
    && |now| == |was|
    && (forall k | 0 <= k < |was| && (k < start || k >= end || lo <= k <= hi) :: now[k] == was[k])
    && (forall k | start <= k < end && (k < lo || k > hi) :: now[k] == was[start + end - 1 - k])
  }

  lemma TurnedIsFlip(was: string, now: string, start: nat, end: nat, lo: int, hi: int)
    requires start < end <= |was| && Turned(was, now, start, end, lo, hi) && hi <= lo && lo + hi == start + end - 1
    ensures now[start..end] == Flip(was[start..end])
    ensures now[..start] == was[..start] && now[end..] == was[end..]
  {
    forall k | 0 <= k < end - start
      ensures now[start..end][k] == was[start..end][end - start - 1 - k]
    {
      assert now[start + k] == was[start + end - 1 - (start + k)];
    }
  }

  method PutChar(buf: array<char>, start: nat, ptr: nat, sz: nat, c: char)
    requires start <= ptr < sz <= buf.Length
    modifies buf
    ensures buf[start..ptr + 1] == old(buf[start..ptr]) + [c]
    ensures buf[..start] == old(buf[..start]) && buf[sz..] == old(buf[sz..])
  {
    buf[ptr] := c;
  }

  lemma Carry(before: string, c: char, rest: string)
    ensures before + ([c] + rest) == (before + [c]) + rest
  {
  }

  /** The do-while loop: digits from `start` on, as long as they and the final NUL
      fit into sz bytes. */
  method WriteDigits(number: nat, buf: array<char>, start: nat, sz: nat, base: nat, pad: nat) returns (ok: bool, ptr: nat)
    requires start < sz <= buf.Length && 2 <= base <= 16
    modifies buf
    ensures ok <==> start + |Digits(number, base, pad)| + 1 <= sz
    ensures ok ==> ptr == start + |Digits(number, base, pad)| && buf[start..ptr] == Digits(number, base, pad)
    ensures buf[..start] == old(buf[..start]) && buf[sz..] == old(buf[sz..])
  {
    hide Digits, DigitValue;
    ghost var all := Digits(number, base, pad);
    ptr := start;
    var n, more := start + 1, true;
    var j: nat, padding: nat := number, pad;
    while more
      invariant start <= ptr < sz && n == ptr + 1
      invariant buf[start..ptr] + (if more then Digits(j, base, padding) else "") == all
      invariant buf[..start] == old(buf[..start]) && buf[sz..] == old(buf[sz..])
      decreases j, padding, more
    {
      DigitsStep(j, base, padding);
      n := n + 1;
      if n > sz {
        return false, ptr;
      }
      QuotientLess(j, base);
      var c := DIGITS[j % base];
      Carry(buf[start..ptr], c, Rest(j, base, padding));
      PutChar(buf, start, ptr, sz, c);
      ptr := ptr + 1;
      j := j / base;
      padding := Less(padding);
      more := j > 0 || padding > 0;
    }
    ok := true;
  }

  /** The digits in order, and the final NUL. */
  method WriteNumber(j: nat, buf: array<char>, start: nat, sz: nat, base: nat, padding: nat) returns (ok: bool)
    requires start < sz <= buf.Length && 2 <= base <= 16
    modifies buf
    ensures var d := Digits(j, base, padding);
      && (ok <==> start + |d| + 1 <= sz)
      && (ok ==> buf[start..start + |d|] == Flip(d) && buf[start + |d|] == NUL)
    ensures buf[..start] == old(buf[..start]) && buf[sz..] == old(buf[sz..])
  {
    DigitsCount(j, base, padding);
    hide Digits, Flip, Significant;
    var ptr;
    ok, ptr := WriteDigits(j, buf, start, sz, base, padding);
    if ok {
      buf[ptr] := NUL;
      Reverse(buf, start, ptr);
    }
  }

  /** The negation of the least number overflows in base 10. */
  method ItoaR(i: intptr, buf: array<char>, sz: nat, base: int, padding: nat) returns (ok: bool)
    requires sz <= buf.Length
    requires base == 10 ==> i > -0x8000_0000_0000_0000
    modifies buf
    ensures ok <==> sz >= 1 && 2 <= base <= 16 && |Text(i, base, padding)| + 1 <= sz
    ensures ok ==> buf[..|Text(i, base, padding)|] == Text(i, base, padding) && buf[|Text(i, base, padding)|] == NUL
    ensures !ok && sz >= 1 ==> buf[0] == NUL
    ensures buf[sz..] == old(buf[sz..])
  {
    hide Digits;
    var n := 1;
    if n > sz {
      return false;
    }
    if base < 2 || base > 16 {
      buf[0] := NUL;
      return false;
    }
    var start, j := 0, i as int % WORDS;
    if i < 0 && base == 10 {
      j := -(i as int);
      n := n + 1;
      if n > sz {
        buf[0] := NUL;
        return false;
      }
      buf[0] := '-';
      start := 1;
    }
    ghost var sign := buf[..start];
    ghost var text, digits := Text(i, base, padding), Digits(j, base, padding);
    assert text == sign + Flip(digits);
    hide Text;
    ok := WriteNumber(j, buf, start, sz, base, padding);
    if ok {
      assert buf[..start + |digits|] == sign + Flip(digits);
    } else {
      buf[0] := NUL;
    }
  }
}
