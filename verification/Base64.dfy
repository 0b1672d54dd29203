/** Base64 as in section 4 of RFC 4648: a reference encoding of bytes, and the
    strict and the lenient reading of strings. Octets and groups of bits are
    natural numbers; masks and shifts are remainders and quotients. */
module Base64 {
  import opened Arith
  import opened Wrappers

  type byte = x: nat | x < 256
  type sextet = x: nat | x < 64

  datatype Triple = Triple(a: byte, b: byte, c: byte)
  datatype Quad = Quad(a: sextet, b: sextet, c: sextet, d: sextet)

  /** The table of both encoders, in rows of eight. */
  const ALPHABET: string :=
    ("ABCDEFGH" + "IJKLMNOP") + ("QRSTUVWX" + "YZabcdef") +
    (("ghijklmn" + "opqrstuv") + ("wxyz0123" + "456789+/"))

  // ---------- The alphabet ----------

  /** Table 1 of RFC 4648. */
  function Digit(v: sextet): char {
    if v < 26 then 'A' + v as char
    else if v < 52 then 'a' + (v - 26) as char
    else if v < 62 then '0' + (v - 52) as char
    else if v == 62 then '+'
    else '/'
  }

  function Value(c: char): Option<sextet> {
    if 'A' <= c <= 'Z' then Some((c - 'A') as int)
    else if 'a' <= c <= 'z' then Some((c - 'a') as int + 26)
    else if '0' <= c <= '9' then Some((c - '0') as int + 52)
    else if c == '+' then Some(62)
    else if c == '/' then Some(63)
    else None
  }

  lemma DigitsAreValues(v: sextet, c: char)
    ensures Value(Digit(v)) == Some(v) && Digit(v) != '='
    ensures Value(c).Some? ==> Digit(Value(c).value) == c
    ensures Value('=').None?
  {
  }

  lemma TableIsDigits(v: sextet)
    ensures |ALPHABET| == 64 && ALPHABET[v] == Digit(v)
  {
  }

  /** base64_chars[v] and base64[v] */
  function Lookup(v: sextet): (c: char)
    ensures c == Digit(v)
  {
    TableIsDigits(v);
    ALPHABET[v]
  }

  // ---------- Bits ----------

  /** Three octets as four groups of six bits. */
  function ToQuad(t: Triple): Quad {
    Quad(t.a / 4, t.a % 4 * 16 + t.b / 16, t.b % 16 * 4 + t.c / 64, t.c % 64)
  }

  function ToTriple(q: Quad): Triple {
    Triple(q.a * 4 + q.b / 16, q.b % 16 * 16 + q.c / 4, q.c % 4 * 64 + q.d)
  }

  lemma BitsRoundTrip(t: Triple, q: Quad)
    ensures ToTriple(ToQuad(t)) == t && ToQuad(ToTriple(q)) == q
  {
  }

  /** The 24-bit group of three octets, and of four sextets. */
  function Group(t: Triple): (v: nat)
    ensures v < 0x100_0000
  {
    0x1_0000 * t.a + 0x100 * t.b + t.c
  }

  function QuadGroup(q: Quad): (v: nat)
    ensures v < 0x100_0000
  {
    0x4_0000 * q.a + 0x1000 * q.b + 64 * q.c + q.d
  }

  /** (v >> 16) & 0xff, (v >> 8) & 0xff, v & 0xff */
  function Bytes(v: nat): Triple
    requires v < 0x100_0000
  {
    Triple(v / 0x1_0000, v / 0x100 % 0x100, v % 0x100)
  }

  /** v >> 18, (v >> 12) & 0x3f, (v >> 6) & 0x3f, v & 0x3f */
  function Sextets(v: nat): Quad
    requires v < 0x100_0000
  {
    Quad(v / 0x4_0000, v / 0x1000 % 64, v / 64 % 64, v % 64)
  }

  lemma OctetsOfGroup(t: Triple)
    ensures Bytes(Group(t)) == t
  {
    Slice(t.a, 0x100 * t.b + t.c, 0x1_0000);
    Slice(0x100 * t.a + t.b, t.c, 0x100);
    Slice(t.a, t.b, 0x100);
  }

  lemma SextetsOfGroup(q: Quad)
    ensures Sextets(QuadGroup(q)) == q
  {
    Slice(q.a, 0x1000 * q.b + 64 * q.c + q.d, 0x4_0000);
    Slice(64 * q.a + q.b, 64 * q.c + q.d, 0x1000);
    Slice(q.a, q.b, 64);
    Slice(0x1000 * q.a + 64 * q.b + q.c, q.d, 64);
    Slice(64 * q.a + q.b, q.c, 64);
  }

  lemma Slice(high: nat, low: nat, unit: nat)
    requires low < unit
    ensures (unit * high + low) / unit == high && (unit * high + low) % unit == low
  {
    DivModUnique(unit, high, low);
  }

  lemma SameGroup(t: Triple, q: Quad)
    ensures QuadGroup(ToQuad(t)) == Group(t)
    ensures Group(ToTriple(q)) == QuadGroup(q)
  {
  }

  /** Octets and sextets are slices of the same 24-bit number. */
  lemma SextetsAreSlices(t: Triple)
    ensures ToQuad(t) == Sextets(Group(t))
  {
    SameGroup(t, ToQuad(t));
    SextetsOfGroup(ToQuad(t));
    hide ToQuad, ToTriple, Group, QuadGroup, Sextets;
  }

  lemma OctetsAreSlices(q: Quad)
    ensures ToTriple(q) == Bytes(QuadGroup(q))
  {
    SameGroup(ToTriple(q), q);
    OctetsOfGroup(ToTriple(q));
    hide ToQuad, ToTriple, Group, QuadGroup, Bytes;
  }

  // ---------- The reference encoding ----------

  /** Up to three octets, padded with zero bits. */
  function Padded(b: seq<byte>): Triple
    requires 1 <= |b| <= 3
  {
    Triple(b[0], if |b| > 1 then b[1] else 0, if |b| > 2 then b[2] else 0)
  }

  function EncodeQuantum(b: seq<byte>): (q: string)
    requires 1 <= |b| <= 3
    ensures |q| == 4
  {
    var v := ToQuad(Padded(b));
    [Digit(v.a), Digit(v.b), if |b| > 1 then Digit(v.c) else '=', if |b| > 2 then Digit(v.d) else '=']
  }

  function Encode(b: seq<byte>): string {
    if b == [] then ""
    else if |b| < 3 then EncodeQuantum(b)
    else EncodeQuantum(b[..3]) + Encode(b[3..])
  }

  lemma {:induction false} EncodeAppends(a: seq<byte>, b: seq<byte>)
    requires |a| % 3 == 0
    ensures Encode(a + b) == Encode(a) + Encode(b)
  {
    hide EncodeQuantum;
    if a == [] {
      assert a + b == b;
    } else {
      assert (a + b)[..3] == a[..3] && (a + b)[3..] == a[3..] + b;
      EncodeAppends(a[3..], b);
    }
  }

  // ---------- The strict reading ----------

  function Octets(t: Triple): (b: seq<byte>)
    ensures |b| == 3
  {
    [t.a, t.b, t.c]
  }

  /** Four characters: padding only in the last quantum, and only at its end. */
  function DecodeQuantum(q: string, last: bool): (r: Option<seq<byte>>)
    requires |q| == 4
    ensures r.Some? ==> 1 <= |r.value| <= 3 && (|r.value| < 3 ==> last)
  {
    var a, b, c, d := Value(q[0]), Value(q[1]), Value(q[2]), Value(q[3]);
    if a.None? || b.None? then None
    else if c.Some? && d.Some? then Some(Octets(ToTriple(Quad(a.value, b.value, c.value, d.value))))
    else if last && c.Some? && q[3] == '=' then Some(Octets(ToTriple(Quad(a.value, b.value, c.value, 0)))[..2])
    else if last && q[2] == '=' && q[3] == '=' then Some(Octets(ToTriple(Quad(a.value, b.value, 0, 0)))[..1])
    else None
  }

  function Decode(s: string): Option<seq<byte>> {
    if s == "" then Some([])
    else if |s| < 4 then None
    else
      var b := DecodeQuantum(s[..4], |s| == 4);
      var rest := Decode(s[4..]);
      if b.None? || rest.None? then None else Some(b.value + rest.value)
  }

  // ---------- The lenient reading ----------

  predicate InAlphabet(s: string) {
    forall i | 0 <= i < |s| :: Value(s[i]).Some?
  }

  function Sextet(c: char): sextet {
    if Value(c).Some? then Value(c).value else 0
  }

  /** The octets that a quantum of two to four characters completes. */
  function LenientQuantum(p: string): seq<byte>
    requires |p| <= 4
  {
    if |p| <= 1 then [] else
      Octets(ToTriple(Quad(Sextet(p[0]), Sextet(p[1]), if |p| > 2 then Sextet(p[2]) else 0,
                           if |p| > 3 then Sextet(p[3]) else 0)))[..|p| - 1]
  }

  function LenientBytes(p: string): seq<byte> {
    if |p| < 4 then LenientQuantum(p) else LenientQuantum(p[..4]) + LenientBytes(p[4..])
  }

  /** The longest prefix in the alphabet. */
  function Prefix(s: string): (n: nat)
    ensures n <= |s| && InAlphabet(s[..n]) && (n < |s| ==> Value(s[n]).None?)
  {
    if s == "" || Value(s[0]).None? then 0 else 1 + Prefix(s[1..])
  }

  function DecodeLenient(s: string): seq<byte> {
    LenientBytes(s[..Prefix(s)])
  }

  lemma {:induction false} PrefixUnique(s: string, n: nat)
    requires n <= |s| && InAlphabet(s[..n]) && (n < |s| ==> Value(s[n]).None?)
    ensures n == Prefix(s)
  {
    hide Value;
    if n > 0 {
      assert s[..n][0] == s[0];
      assert s[1..][..n - 1] == s[..n][1..];
      PrefixUnique(s[1..], n - 1);
    }
  }

  lemma LenientStep(p: string, q: string)
    requires |p| >= 4
    ensures LenientBytes(p + q) == LenientQuantum(p[..4]) + LenientBytes(p[4..] + q)
    ensures LenientBytes(p) == LenientQuantum(p[..4]) + LenientBytes(p[4..])
  {
    hide LenientQuantum;
    assert (p + q)[..4] == p[..4] && (p + q)[4..] == p[4..] + q;
  }

  lemma {:induction false} LenientAppends(p: string, q: string)
    requires |p| % 4 == 0
    ensures LenientBytes(p + q) == LenientBytes(p) + LenientBytes(q)
  {
    assert LenientBytes("") == [];
    hide LenientQuantum, LenientBytes;
    if p == "" {
      assert p + q == q;
    } else {
      LenientAppends(p[4..], q);
      LenientStep(p, q);
    }
  }

  // ---------- Quanta ----------

  lemma QuantumRoundTrip(b: seq<byte>, last: bool)
    requires 1 <= |b| <= 3 && (|b| < 3 ==> last)
    ensures DecodeQuantum(EncodeQuantum(b), last) == Some(b)
  {
    var t := Padded(b);
    var v := ToQuad(t);
    BitsRoundTrip(t, v);
    DigitsAreValues(v.a, '=');
    DigitsAreValues(v.b, '=');
    DigitsAreValues(v.c, '=');
    DigitsAreValues(v.d, '=');
    assert |b| < 3 ==> v.d == 0;
    assert |b| < 2 ==> v.c == 0;
    hide Value, Digit, ToQuad, ToTriple;
    assert Octets(t)[..|b|] == b;
    var q := EncodeQuantum(b);
    assert Value(q[0]) == Some(v.a) && Value(q[1]) == Some(v.b);
    if |b| == 1 {
      assert Value(q[2]).None? && Octets(ToTriple(Quad(v.a, v.b, 0, 0)))[..1] == b;
    } else if |b| == 2 {
      assert Value(q[2]) == Some(v.c) && Value(q[3]).None?;
      assert Octets(ToTriple(Quad(v.a, v.b, v.c, 0)))[..2] == b;
    } else {
      assert Value(q[2]) == Some(v.c) && Value(q[3]) == Some(v.d);
      assert Octets(ToTriple(Quad(v.a, v.b, v.c, v.d))) == b;
    }
  }

  /** The bits of a padded quantum that belong to no octet are zero (section 3.5). */
  predicate NoDiscardedBits(q: string)
    requires |q| == 4
  {
    && (q[2] == '=' ==> Sextet(q[1]) % 16 == 0)
    && (q[3] == '=' ==> Sextet(q[2]) % 4 == 0)
  }

  /** What padding with zero octets keeps of four sextets. */
  lemma Truncated(q: Quad)
    ensures ToQuad(ToTriple(q)) == q
    ensures ToQuad(Triple(ToTriple(q).a, ToTriple(q).b, 0)) == Quad(q.a, q.b, q.c - q.c % 4, 0)
    ensures ToQuad(Triple(ToTriple(q).a, 0, 0)) == Quad(q.a, q.b - q.b % 16, 0, 0)
  {
    BitsRoundTrip(Triple(0, 0, 0), q);
    TruncatedToTwo(q);
    TruncatedToOne(q);
    hide ToQuad, ToTriple;
  }

  lemma TruncatedToTwo(q: Quad)
    ensures ToQuad(Triple(ToTriple(q).a, ToTriple(q).b, 0)) == Quad(q.a, q.b, q.c - q.c % 4, 0)
  {
    var r := Quad(q.a, q.b, q.c - q.c % 4, 0);
    assert ToTriple(r) == Triple(ToTriple(q).a, ToTriple(q).b, 0);
    BitsRoundTrip(Triple(0, 0, 0), r);
    hide ToQuad;
  }

  lemma TruncatedToOne(q: Quad)
    ensures ToQuad(Triple(ToTriple(q).a, 0, 0)) == Quad(q.a, q.b - q.b % 16, 0, 0)
  {
    var r := Quad(q.a, q.b - q.b % 16, 0, 0);
    assert ToTriple(r) == Triple(ToTriple(q).a, 0, 0);
    BitsRoundTrip(Triple(0, 0, 0), r);
    hide ToQuad;
  }

  lemma DigitsDiffer(v: sextet, w: sextet)
    ensures Digit(v) == Digit(w) ==> v == w
  {
    DigitsAreValues(v, '=');
    DigitsAreValues(w, '=');
  }

  lemma QuantumReencodes(q: string, last: bool)
    requires |q| == 4 && DecodeQuantum(q, last).Some?
    ensures EncodeQuantum(DecodeQuantum(q, last).value) == q <==> NoDiscardedBits(q)
  {
    var v := Quad(Sextet(q[0]), Sextet(q[1]), Sextet(q[2]), Sextet(q[3]));
    DigitsAreValues(0, q[0]);
    DigitsAreValues(0, q[1]);
    DigitsAreValues(0, q[2]);
    DigitsAreValues(0, q[3]);
    Truncated(v);
    DigitsDiffer(v.b - v.b % 16, v.b);
    DigitsDiffer(v.c - v.c % 4, v.c);
    hide Value, Digit, ToQuad, ToTriple;
  }

  lemma LenientOfSextets(q: string, n: nat)
    requires 2 <= n <= |q| == 4
    ensures LenientQuantum(q[..n]) ==
      Octets(ToTriple(Quad(Sextet(q[0]), Sextet(q[1]), if n > 2 then Sextet(q[2]) else 0,
                           if n > 3 then Sextet(q[3]) else 0)))[..n - 1]
  {
    hide Sextet, ToTriple, Octets;
    var p := q[..n];
    assert p[0] == q[0] && p[1] == q[1] && (n > 2 ==> p[2] == q[2]) && (n > 3 ==> p[3] == q[3]);
  }

  /** Both readings of one accepted quantum agree. */
  lemma QuantumLenient(q: string, last: bool)
    requires |q| == 4 && DecodeQuantum(q, last).Some?
    ensures Prefix(q) == |DecodeQuantum(q, last).value| + 1
    ensures LenientQuantum(q[..Prefix(q)]) == DecodeQuantum(q, last).value
  {
    DigitsAreValues(0, '=');
    var n := if Value(q[2]).None? then 2 else if Value(q[3]).None? then 3 else 4;
    hide Value, ToTriple, Prefix, LenientQuantum;
    forall i | 0 <= i < n
      ensures Value(q[i]).Some?
    {
    }
    PrefixUnique(q, n);
    LenientOfSextets(q, n);
    hide InAlphabet;
    if n == 4 {
      assert DecodeQuantum(q, last).value[..3] == DecodeQuantum(q, last).value;
    }
  }

  // ---------- Round trips and agreement ----------

  /** Decoding inverts encoding, for every sequence of octets. */
  lemma {:induction false} DecodeInvertsEncode(b: seq<byte>)
    ensures Decode(Encode(b)) == Some(b)
  {
    hide DecodeQuantum, EncodeQuantum;
    if b == [] {
    } else if |b| < 3 {
      QuantumRoundTrip(b, true);
      assert Encode(b)[..4] == Encode(b) && Encode(b)[4..] == "" && b + [] == b;
    } else {
      DecodeInvertsEncode(b[3..]);
      var s := Encode(b);
      assert s[..4] == EncodeQuantum(b[..3]) && s[4..] == Encode(b[3..]) && b[..3] + b[3..] == b;
      QuantumRoundTrip(b[..3], |s| == 4);
    }
  }

  lemma PrefixAppends(s: string)
    requires |s| >= 4 && Prefix(s[..4]) == 4
    ensures Prefix(s) == 4 + Prefix(s[4..])
  {
    hide Value;
    var n := Prefix(s[4..]);
    forall i | 0 <= i < 4 + n
      ensures Value(s[i]).Some?
    {
      assert i < 4 ==> s[i] == s[..4][..4][i];
      assert i >= 4 ==> s[i] == s[4..][..n][i - 4];
    }
    PrefixUnique(s, 4 + n);
  }

  /** The lenient reading agrees with the strict one on every string that the
      strict one accepts. */
  lemma {:induction false} ReadingsAgree(s: string)
    requires Decode(s).Some?
    ensures DecodeLenient(s) == Decode(s).value
  {
    assert LenientQuantum("") == [];
    hide DecodeQuantum, LenientQuantum;
    if s == "" {
    } else {
      var q := s[..4];
      QuantumLenient(q, |s| == 4);
      if Prefix(q) == 4 {
        PrefixAppends(s);
        ReadingsAgree(s[4..]);
        var p := s[..Prefix(s)];
        assert p[..4] == q[..4] && p[4..] == s[4..][..Prefix(s[4..])];
        assert LenientBytes(p) == LenientQuantum(p[..4]) + LenientBytes(p[4..]);
      } else {
        assert s == q && s[4..] == "";
      }
    }
  }

  lemma LenientInvertsEncode(b: seq<byte>)
    ensures DecodeLenient(Encode(b)) == b
  {
    DecodeInvertsEncode(b);
    ReadingsAgree(Encode(b));
  }

  /** The padding that completes n characters of the alphabet (section 4). */
  function Padding(n: nat): string {
    if n % 4 == 2 then "==" else if n % 4 == 3 then "=" else ""
  }

  /** All of p but a character left over after the last quantum. */
  function Kept(p: string): string {
    if |p| % 4 == 1 then p[..|p| - 1] else p
  }

  lemma QuantumPads(p: string, last: bool)
    requires 2 <= |p| <= 4 && InAlphabet(p) && (|p| < 4 ==> last)
    ensures DecodeQuantum(p + Padding(|p|), last) == Some(LenientQuantum(p))
  {
    var q := p + Padding(|p|);
    DigitsAreValues(0, '=');
    LenientOfSextets(q, |p|);
    assert p == q[..|p|];
    hide Value, ToTriple, LenientQuantum;
    assert forall i | 0 <= i < |p| :: q[i] == p[i];
    assert Octets(ToTriple(Quad(Sextet(q[0]), Sextet(q[1]), if |p| > 2 then Sextet(q[2]) else 0,
                                if |p| > 3 then Sextet(q[3]) else 0)))[..3] ==
           Octets(ToTriple(Quad(Sextet(q[0]), Sextet(q[1]), if |p| > 2 then Sextet(q[2]) else 0,
                                if |p| > 3 then Sextet(q[3]) else 0)));
  }

  /** The first quantum of kept and padded characters, and the others. */
  lemma PadsFirst(p: string)
    requires |p| >= 2
    ensures var q, rest := if |p| < 4 then p else p[..4], if |p| < 4 then "" else p[4..];
      var s := Kept(p) + Padding(|p|);
      && |s| >= 4 && s[..4] == q + Padding(|q|) && s[4..] == Kept(rest) + Padding(|rest|)
      && (|p| < 4 ==> |s| == 4)
  {
  }

  lemma {:induction false} BytesPad(p: string)
    requires InAlphabet(p)
    ensures Decode(Kept(p) + Padding(|p|)) == Some(LenientBytes(p))
    decreases |p|
  {
    LenientOfFew(p);
    LenientOfFew("");
    hide DecodeQuantum, LenientQuantum, Value;
    if |p| <= 1 {
      assert Kept(p) + Padding(|p|) == "";
    } else {
      var q, rest := if |p| < 4 then p else p[..4], if |p| < 4 then "" else p[4..];
      var s := Kept(p) + Padding(|p|);
      PadsFirst(p);
      QuantumPads(q, |s| == 4);
      BytesPad(rest);
      hide Kept, Padding;
      assert LenientBytes(p) == LenientQuantum(q) + LenientBytes(rest);
      assert Decode(s) == Some(LenientQuantum(q) + LenientBytes(rest));
    }
  }

  lemma LenientOfFew(p: string)
    ensures |p| <= 1 ==> LenientBytes(p) == []
  {
  }

  /** What the lenient reading gives on any string: the alphabet characters up to
      the first other one, completed with padding and read strictly; a single
      character left over adds nothing. */
  lemma LenientExact(p: string, t: string)
    requires InAlphabet(p) && (t == "" || Value(t[0]).None?)
    ensures Decode(Kept(p) + Padding(|p|)) == Some(DecodeLenient(p + t))
    ensures DecodeLenient(p + t) == DecodeLenient(p)
  {
    PrefixUnique(p + t, |p|);
    PrefixUnique(p, |p|);
    assert (p + t)[..|p|] == p && p[..|p|] == p;
    BytesPad(p);
    hide Value, LenientBytes, Decode, Prefix;
  }

  predicate NoDiscarded(s: string) {
    |s| >= 4 ==> NoDiscardedBits(s[|s| - 4..])
  }

  /** An accepted string is the encoding of its value exactly when the bits that
      its padding discards are zero. */
  lemma {:induction false} ReencodesExactly(s: string)
    requires Decode(s).Some?
    ensures Encode(Decode(s).value) == s <==> NoDiscarded(s)
  {
    hide DecodeQuantum, EncodeQuantum, NoDiscardedBits;
    if s != "" {
      var q, rest := s[..4], s[4..];
      var b := DecodeQuantum(q, |s| == 4).value;
      QuantumReencodes(q, |s| == 4);
      ReencodesExactly(rest);
      assert s == q + rest;
      if rest == "" {
        assert s == q && s[|s| - 4..] == q && Decode(s).value == b;
        assert |b| == 3 ==> b[..3] == b && b[3..] == [];
      } else {
        assert |b| == 3;
        var all := Decode(s).value;
        assert all[..3] == b && all[3..] == Decode(rest).value;
        assert Encode(all) == EncodeQuantum(b) + Encode(Decode(rest).value);
        UnpaddedQuantum(q);
        AtLeastFour(rest);
        assert s[|s| - 4..] == rest[|rest| - 4..];
        assert s[..4] == q && s[4..] == rest;
      }
    }
  }

  lemma AtLeastFour(s: string)
    requires s != "" && Decode(s).Some?
    ensures |s| >= 4
  {
  }

  lemma UnpaddedQuantum(q: string)
    requires |q| == 4 && DecodeQuantum(q, false).Some?
    ensures NoDiscardedBits(q)
  {
    DigitsAreValues(0, '=');
  }
}
