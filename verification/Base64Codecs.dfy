/** The two base64 codecs of the repository, loop by loop, against the reference
    encoding and the two readings. */
module Base64Codecs {
  import opened Base64
  import opened Wrappers

  // ---------- encoding.cc ----------

  method ToArray4(c3: array<byte>, c4: array<byte>)
    requires c3.Length == 3 && c4.Length == 4 && c3 != c4
    modifies c4
    ensures var q := ToQuad(Triple(c3[0], c3[1], c3[2]));
            c4[0] == q.a && c4[1] == q.b && c4[2] == q.c && c4[3] == q.d
  {
    c4[0] := c3[0] / 4;
    c4[1] := c3[0] % 4 * 16 + c3[1] / 16;
    c4[2] := c3[1] % 16 * 4 + c3[2] / 64;
    c4[3] := c3[2] % 64;
  }

  /** `for (i = 0; i < n; i++) ret += base64_chars[char_array_4[i]]` */
  method AppendDigits(ret: string, c4: array<byte>, n: nat) returns (r: string)
    requires n <= c4.Length && forall j | 0 <= j < n :: c4[j] < 64
    ensures |r| == |ret| + n && r[..|ret|] == ret
    ensures forall j: nat | j < n :: r[|ret| + j] == Digit(c4[j])
  {
    hide Digit, Lookup;
    r := ret;
    for j := 0 to n
      invariant |r| == |ret| + j && r[..|ret|] == ret
      invariant forall k: nat | k < j :: r[|ret| + k] == Digit(c4[k])
    {
      r := r + [Lookup(c4[j])];
    }
  }

  lemma NothingEncoded(b: seq<byte>)
    ensures Encode(b[..0]) == ""
  {
  }

  lemma LastQuantum(b: seq<byte>, done: nat)
    requires done <= |b| && done % 3 == 0 && 1 <= |b| - done <= 3
    ensures Encode(b) == Encode(b[..done]) + EncodeQuantum(b[done..])
  {
    hide EncodeQuantum;
    assert b[..done] + b[done..] == b;
    EncodeAppends(b[..done], b[done..]);
    assert b[done..][..|b| - done] == b[done..];
  }

  lemma NextQuantum(b: seq<byte>, done: nat)
    requires done + 3 <= |b| && done % 3 == 0
    ensures Encode(b[..done + 3]) == Encode(b[..done]) + EncodeQuantum(b[done..done + 3])
  {
    hide Encode, EncodeQuantum;
    var c := b[..done + 3];
    assert c[..done] == b[..done] && c[done..] == b[done..done + 3];
    LastQuantum(c, done);
  }

  method Base64Encoding(bytes: seq<byte>) returns (ret: string)
    ensures ret == Encode(bytes)
  {
    hide Encode, EncodeQuantum, ToQuad;
    NothingEncoded(bytes);
    ret := "";
    var i, pos := 0, 0;
    ghost var done := 0;
    var c3, c4 := new byte[3], new byte[4];
    while pos < |bytes|
      invariant 0 <= i < 3 && 0 <= done && pos == done + i <= |bytes| && done % 3 == 0
      invariant c3[..i] == bytes[done..pos]
      invariant ret == Encode(bytes[..done])
    {
      c3[i] := bytes[pos];
      assert c3[..i + 1] == bytes[done..pos] + [bytes[pos]];
      assert bytes[done..pos + 1] == bytes[done..pos] + [bytes[pos]];
      i, pos := i + 1, pos + 1;
      if i == 3 {
        assert c3[..] == bytes[done..done + 3];
        ret := FullQuantum(ret, c3, c4);
        NextQuantum(bytes, done);
        i, done := 0, done + 3;
      }
    }
    if i > 0 {
      assert bytes[done..] == bytes[done..pos];
      LastQuantum(bytes, done);
      ret := PartQuantum(ret, c3, c4, i);
    } else {
      assert bytes[..done] == bytes;
    }
  }

  method FullQuantum(ret: string, c3: array<byte>, c4: array<byte>) returns (r: string)
    requires c3.Length == 3 && c4.Length == 4 && c3 != c4
    modifies c4
    ensures r == ret + EncodeQuantum(c3[..])
  {
    ToArray4(c3, c4);
    hide Digit, ToQuad;
    r := AppendDigits(ret, c4, 4);
    assert r[|ret|..] == EncodeQuantum(c3[..]);
  }

  /** The one or two octets left over. */
  method PartQuantum(ret: string, c3: array<byte>, c4: array<byte>, i: nat) returns (r: string)
    requires c3.Length == 3 && c4.Length == 4 && c3 != c4 && 1 <= i <= 2
    modifies c3, c4
    ensures r == ret + EncodeQuantum(old(c3[..i]))
  {
    for j := i to 3
      invariant c3[..i] == old(c3[..i]) && forall k | i <= k < j :: c3[k] == 0
    {
      c3[j] := 0;
    }
    assert Padded(c3[..i]) == Triple(c3[0], c3[1], c3[2]);
    ToArray4(c3, c4);
    hide Digit, ToQuad;
    r := AppendDigits(ret, c4, i + 1);
    ghost var base := r;
    var n := i;
    while n < 3
      invariant i <= n <= 3
      invariant |r| == |base| + n - i && r[..|base|] == base
      invariant forall k | |base| <= k < |r| :: r[k] == '='
    {
      r := r + ['='];
      n := n + 1;
    }
    assert r[..|ret|] == base[..|ret|];
    assert forall k | |ret| <= k < |base| :: r[k] == base[k];
    assert r[|ret|..] == EncodeQuantum(c3[..i]);
  }

  // ---------- hash.cc ----------

  /** The octets read so far as one number. */
  function Packed(b: seq<byte>): nat {
    if b == [] then 0 else 0x100 * Packed(b[..|b| - 1]) + b[|b| - 1]
  }

  lemma PackedIsGroup(b: seq<byte>)
    ensures |b| == 3 ==> Packed(b) == Group(Padded(b))
    ensures |b| == 2 ==> 0x100 * Packed(b) == Group(Padded(b))
    ensures |b| == 1 ==> 0x1_0000 * Packed(b) == Group(Padded(b))
  {
    if |b| == 3 {
      assert b[..2][..1] == b[..1];
    }
  }

  /** The first inner loop: up to three octets. */
  method PackOctets(data: seq<byte>, start: nat) returns (packed: nat, i: nat)
    requires start < |data|
    ensures i == (if start + 3 <= |data| then 3 else |data| - start)
    ensures packed == Packed(data[start..start + i])
  {
    packed, i := 0, 0;
    while i < 3 && start + i < |data|
      invariant i <= 3 && start + i <= |data| && packed == Packed(data[start..start + i])
      decreases 3 - i
    {
      assert data[start..start + i + 1][..i] == data[start..start + i];
      packed := 0x100 * packed + data[start + i];
      i := i + 1;
    }
  }

  /** The second inner loop: zero octets up to three. */
  method PackZeros(packed: nat, count: nat) returns (r: nat)
    requires 1 <= count <= 3
    ensures r == (if count == 3 then packed else if count == 2 then 0x100 * packed else 0x1_0000 * packed)
  {
    r := packed;
    for i := count to 3
      invariant r == (if i == count then packed else if i == count + 1 then 0x100 * packed else 0x1_0000 * packed)
    {
      r := 0x100 * r;
    }
  }

  method AppendPacked(ret: string, packed: nat, padding: nat, ghost b: seq<byte>) returns (r: string)
    requires 1 <= |b| <= 3 && padding == 3 - |b| && packed == Group(Padded(b))
    ensures r == ret + EncodeQuantum(b)
  {
    hide Group, ToQuad, Lookup, Digit, Sextets;
    SextetsAreSlices(Padded(b));
    var v := Sextets(packed);
    r := ret + [Lookup(v.a)];
    r := r + [Lookup(v.b)];
    if padding != 2 {
      r := r + [Lookup(v.c)];
    }
    if padding == 0 {
      r := r + [Lookup(v.d)];
    }
    r := r + seq(padding, _ => '=');
    assert r[|ret|..] == EncodeQuantum(b);
  }

  method Base64Encode(data: seq<byte>) returns (ret: string)
    ensures ret == Encode(data)
  {
    hide Encode, EncodeQuantum, Group, Padded, Packed;
    NothingEncoded(data);
    ret := "";
    var ptr := 0;
    while ptr < |data|
      invariant 0 <= ptr <= |data| && (ptr < |data| ==> ptr % 3 == 0)
      invariant ret == Encode(data[..ptr])
    {
      var packed, i := PackOctets(data, ptr);
      ghost var b := data[ptr..ptr + i];
      PackedIsGroup(b);
      var padding := if i == 2 then 1 else if i == 1 then 2 else 0;
      packed := PackZeros(packed, i);
      ret := AppendPacked(ret, packed, padding, b);
      if i == 3 {
        NextQuantum(data, ptr);
      } else {
        LastQuantum(data, ptr);
        assert data[..ptr + i] == data && b == data[ptr..];
      }
      ptr := ptr + i;
    }
    assert data[..ptr] == data;
  }

  // ---------- Reading quanta: hash.cc ----------

  /** The inner loop of base64decode: the packed sextets and the padding so far,
      or nothing after an invalid character or a character after padding. */
  function Scan(q: string): Option<(nat, nat)> {
    if q == "" then Some((0, 0))
    else
      var r, c := Scan(q[..|q| - 1]), q[|q| - 1];
      if r.None? then None
      else if c == '=' then Some((64 * r.value.0, r.value.1 + 1))
      else if r.value.1 > 0 || Value(c).None? then None
      else Some((64 * r.value.0 + Value(c).value, 0))
  }

  lemma {:induction false} ScanPrefix(q: string, n: nat)
    requires n <= |q| && Scan(q[..n]).None?
    ensures Scan(q).None?
    decreases |q|
  {
    hide Value;
    if n < |q| {
      assert q[..|q| - 1][..n] == q[..n];
      ScanPrefix(q[..|q| - 1], n);
    } else {
      assert q[..n] == q;
    }
  }

  lemma ScanStep(q: string)
    requires q != ""
    ensures var r, c := Scan(q[..|q| - 1]), q[|q| - 1];
            Scan(q) == if r.None? then None
                       else if c == '=' then Some((64 * r.value.0, r.value.1 + 1))
                       else if r.value.1 > 0 || Value(c).None? then None
                       else Some((64 * r.value.0 + Value(c).value, 0))
  {
  }

  lemma ScanTwo(q: string)
    requires |q| == 4
    ensures var a, b, r := Value(q[0]), Value(q[1]), Scan(q[..2]);
      && (a.Some? && b.Some? ==> r == Some((64 * a.value + b.value, 0)))
      && (r.Some? && r.value.1 == 0 ==> a.Some? && b.Some?)
      && (r.Some? && r.value.1 > 0 ==> q[1] == '=')
  {
    DigitsAreValues(0, '=');
    assert q[..2][..1] == q[..1] && q[..1][..0] == "" && Scan("") == Some((0, 0));
    ScanStep(q[..2]);
    ScanStep(q[..1]);
    hide Scan, Value;
  }

  lemma ScanThree(q: string)
    requires |q| == 4
    ensures var a, b, c, r := Value(q[0]), Value(q[1]), Value(q[2]), Scan(q[..3]);
      && (a.Some? && b.Some? && c.Some? ==> r == Some((0x1000 * a.value + 64 * b.value + c.value, 0)))
      && (a.Some? && b.Some? && q[2] == '=' ==> r == Some((0x1000 * a.value + 64 * b.value, 1)))
      && (r.Some? && r.value.1 == 0 ==> a.Some? && b.Some? && c.Some?)
      && (r.Some? && r.value.1 == 1 ==> a.Some? && b.Some? && q[2] == '=')
  {
    hide Scan, Value;
    DigitsAreValues(0, '=');
    assert q[..3][..2] == q[..2];
    ScanStep(q[..3]);
    ScanTwo(q);
  }

  /** The scan of four characters, character by character. */
  lemma ScanFour(q: string)
    requires |q| == 4
    ensures var a, b, c, d := Value(q[0]), Value(q[1]), Value(q[2]), Value(q[3]);
      && (a.Some? && b.Some? && c.Some? && d.Some? ==>
            Scan(q) == Some((QuadGroup(Quad(a.value, b.value, c.value, d.value)), 0)))
      && (a.Some? && b.Some? && c.Some? && q[3] == '=' ==>
            Scan(q) == Some((QuadGroup(Quad(a.value, b.value, c.value, 0)), 1)))
      && (a.Some? && b.Some? && q[2] == '=' && q[3] == '=' ==>
            Scan(q) == Some((QuadGroup(Quad(a.value, b.value, 0, 0)), 2)))
      && (Scan(q).Some? && Scan(q).value.1 <= 2 ==>
            a.Some? && b.Some? && (c.Some? || (q[2] == '=' && q[3] == '=')) && (d.Some? || q[3] == '='))
      && (Scan(q).Some? ==> (Scan(q).value.1 > 0 <==> q[3] == '='))
  {
    hide Scan, Value;
    DigitsAreValues(0, '=');
    ScanStep(q);
    ScanThree(q);
  }

  lemma ScanAccepts(q: string, last: bool)
    requires |q| == 4
    ensures DecodeQuantum(q, last).Some? <==> Scan(q).Some? && Scan(q).value.1 <= 2 && (Scan(q).value.1 > 0 ==> last)
  {
    hide Scan, Value, QuadGroup, ToTriple;
    ScanFour(q);
    DigitsAreValues(0, '=');
  }

  lemma ScanValue(q: string, last: bool)
    requires |q| == 4 && DecodeQuantum(q, last).Some?
    ensures Scan(q).Some? && Scan(q).value.0 < 0x100_0000 && Scan(q).value.1 <= 2
    ensures DecodeQuantum(q, last).value == Octets(Bytes(Scan(q).value.0))[..3 - Scan(q).value.1]
  {
    hide Scan, Value, QuadGroup, ToTriple, Bytes;
    ScanFour(q);
    DigitsAreValues(0, '=');
    var a, b, c, d := Value(q[0]), Value(q[1]), Value(q[2]), Value(q[3]);
    if c.None? {
      ScanValueOf(q, last, Quad(a.value, b.value, 0, 0), 2);
    } else if d.None? {
      ScanValueOf(q, last, Quad(a.value, b.value, c.value, 0), 1);
    } else {
      var v := Quad(a.value, b.value, c.value, d.value);
      assert Octets(ToTriple(v))[..3] == Octets(ToTriple(v));
      ScanValueOf(q, last, v, 0);
    }
  }

  lemma ScanValueOf(q: string, last: bool, v: Quad, padding: nat)
    requires |q| == 4 && padding <= 2 && Scan(q) == Some((QuadGroup(v), padding))
    requires DecodeQuantum(q, last) == Some(Octets(ToTriple(v))[..3 - padding])
    ensures DecodeQuantum(q, last).value == Octets(Bytes(Scan(q).value.0))[..3 - Scan(q).value.1]
  {
    hide Scan, DecodeQuantum, QuadGroup, ToTriple, Bytes;
    OctetsAreSlices(v);
  }

  /** What base64decode accepts in one quantum, and what it writes. */
  lemma ScanIsQuantum(q: string, last: bool)
    requires |q| == 4
    ensures DecodeQuantum(q, last).Some? <==> Scan(q).Some? && Scan(q).value.1 <= 2 && (Scan(q).value.1 > 0 ==> last)
    ensures DecodeQuantum(q, last).Some? ==>
      && Scan(q).value.0 < 0x100_0000
      && DecodeQuantum(q, last).value == Octets(Bytes(Scan(q).value.0))[..3 - Scan(q).value.1]
  {
    hide Scan, DecodeQuantum, Bytes;
    ScanAccepts(q, last);
    if DecodeQuantum(q, last).Some? {
      ScanValue(q, last);
    }
  }

  /** The inner loop of base64decode: at most four characters. */
  method ReadQuantum(src: string, start: nat) returns (ok: bool, i: nat, packed: nat, padding: nat)
    requires start <= |src|
    ensures ok ==> i == (if start + 4 <= |src| then 4 else |src| - start)
    ensures ok ==> Scan(src[start..start + i]) == Some((packed, padding))
    ensures !ok ==> i < 4 && start + i < |src| && Scan(src[start..start + i + 1]).None?
  {
    hide Value;
    i, packed, padding := 0, 0, 0;
    while i < 4 && start + i < |src|
      invariant 0 <= i <= 4 && start + i <= |src| && Scan(src[start..start + i]) == Some((packed, padding))
      decreases 4 - i
    {
      var c := src[start + i];
      ghost var q := src[start..start + i + 1];
      assert q[..|q| - 1] == src[start..start + i] && q[|q| - 1] == c;
      ScanStep(q);
      if c == '=' {
        padding := padding + 1;
        packed := 64 * packed;
      } else {
        if padding > 0 {
          return false, i, packed, padding;
        }
        if Value(c).None? {
          return false, i, packed, padding;
        }
        packed := 64 * packed + Value(c).value;
      }
      i := i + 1;
    }
    ok := true;
  }

  function Prepend(b: seq<byte>, rest: Option<seq<byte>>): Option<seq<byte>> {
    if rest.None? then None else Some(b + rest.value)
  }

  lemma DecodeStep(src: string, ptr: nat, done: seq<byte>)
    requires ptr + 4 <= |src|
    ensures var q := DecodeQuantum(src[ptr..ptr + 4], ptr + 4 == |src|);
      Prepend(done, Decode(src[ptr..])) == if q.None? then None else Prepend(done + q.value, Decode(src[ptr + 4..]))
  {
    hide DecodeQuantum;
    var s := src[ptr..];
    assert s[..4] == src[ptr..ptr + 4] && s[4..] == src[ptr + 4..];
    var q, rest := DecodeQuantum(s[..4], ptr + 4 == |src|), Decode(s[4..]);
    if q.Some? && rest.Some? {
      assert done + (q.value + rest.value) == (done + q.value) + rest.value;
    }
  }

  /** A string whose scan fails in the quantum at ptr is refused. */
  lemma Refused(src: string, ptr: nat, n: nat, done: seq<byte>)
    requires n <= 4 && ptr + n <= |src| && Scan(src[ptr..ptr + n]).None?
    ensures Prepend(done, Decode(src[ptr..])) == None
  {
    hide DecodeQuantum;
    if ptr + 4 <= |src| {
      var q := src[ptr..ptr + 4];
      assert q[..n] == src[ptr..ptr + n];
      ScanPrefix(q, n);
      ScanIsQuantum(q, ptr + 4 == |src|);
      DecodeStep(src, ptr, done);
    } else {
      assert Scan("").Some?;
    }
  }

  method Base64Decode(src: string) returns (result: seq<byte>)
    ensures result == if Decode(src).Some? then Decode(src).value else []
  {
    hide Decode, DecodeQuantum, Scan, Bytes;
    result := [];
    var ptr := 0;
    assert src[0..] == src && (Decode(src).Some? ==> [] + Decode(src).value == Decode(src).value);
    while ptr < |src|
      invariant 0 <= ptr <= |src|
      invariant Decode(src) == Prepend(result, Decode(src[ptr..]))
    {
      var ok, i, packed, padding := ReadQuantum(src, ptr);
      if !ok {
        Refused(src, ptr, i + 1, result);
        return [];
      }
      if i != 4 {
        TooShort(src[ptr..]);
        return [];
      }
      ghost var q := src[ptr..ptr + 4];
      ScanIsQuantum(q, ptr + 4 == |src|);
      DecodeStep(src, ptr, result);
      ptr := ptr + 4;
      if padding > 0 && ptr != |src| {
        return [];
      }
      if padding > 2 {
        return [];
      }
      var octets := Octets(Bytes(packed));
      result := result + octets[..3 - padding];
    }
    assert src[ptr..] == "";
    DecodeNothing();
  }

  lemma DecodeNothing()
    ensures Decode("") == Some([])
  {
  }

  lemma TooShort(s: string)
    requires 0 < |s| < 4
    ensures Decode(s).None?
  {
  }

  // ---------- Reading quanta: encoding.cc ----------

  predicate IsBase64(c: char) {
    'A' <= c <= 'Z' || 'a' <= c <= 'z' || '0' <= c <= '9' || c == '+' || c == '/'
  }

  /** base64_chars.find(c), searching from index k. */
  function Find(c: char, k: nat): (r: nat)
    requires k <= 64
    ensures r <= 64
    decreases 64 - k
  {
    if k == 64 || Lookup(k) == c then k else Find(c, k + 1)
  }

  /** The search finds the value of a character of the alphabet. */
  lemma {:induction false} FindIsValue(c: char, k: nat)
    requires k <= 64 && Value(c).Some? && k <= Value(c).value
    ensures Find(c, k) == Value(c).value
    decreases 64 - k
  {
    var v := Value(c).value;
    DigitsAreValues(v, c);
    if k < v {
      DigitsAreValues(k, c);
      hide Value, Digit;
      FindIsValue(c, k + 1);
    }
  }

  /** char_array_3 from char_array_4, with the additions of unsigned chars. */
  method ToArray3(c4: array<byte>, c3: array<byte>)
    requires c3.Length == 3 && c4.Length == 4 && c3 != c4
    modifies c3
    ensures c3[0] == (c4[0] as int * 4 + c4[1] / 16 % 4) % 256
    ensures c3[1] == (c4[1] % 16 * 16 + c4[2] / 4 % 16) % 256
    ensures c3[2] == (c4[2] as int % 4 * 64 + c4[3]) % 256
  {
    c3[0] := (c4[0] as int * 4 + c4[1] / 16 % 4) % 256;
    c3[1] := (c4[1] % 16 * 16 + c4[2] / 4 % 16) % 256;
    c3[2] := (c4[2] as int % 4 * 64 + c4[3]) % 256;
  }

  /** On sextets nothing is cut off, whatever lies beyond the first n of them. */
  lemma ArithmeticOfSextets(a: byte, b: byte, c: byte, d: byte, n: nat, q: Quad)
    requires a == q.a && b == q.b && (n > 2 ==> c == q.c) && (n > 3 ==> d == q.d)
    ensures (4 * a + b / 16 % 4) % 256 == ToTriple(q).a
    ensures n > 2 ==> (b % 16 * 16 + c / 4 % 16) % 256 == ToTriple(q).b
    ensures n > 3 ==> (c % 4 * 64 + d) % 256 == ToTriple(q).c
  {
    SextetQuarter(q.b);
    if n > 2 {
      SextetQuarter(q.c);
    }
  }

  lemma SextetQuarter(v: sextet)
    ensures v / 16 % 4 == v / 16 && v / 4 % 16 == v / 4
  {
  }

  /** The two loops that turn the characters of a quantum into octets; entries of
      char_array_4 beyond i are whatever was there. */
  method AppendOctets(ret: seq<byte>, chars: string, c4: array<byte>, c3: array<byte>) returns (r: seq<byte>)
    requires c3.Length == 3 && c4.Length == 4 && c3 != c4 && 1 <= |chars| <= 4 && InAlphabet(chars)
    modifies c3, c4
    ensures r == ret + LenientQuantum(chars)
  {
    hide Value, Find;
    for j := 0 to |chars|
      invariant forall k | 0 <= k < j :: c4[k] == Sextet(chars[k])
    {
      FindIsValue(chars[j], 0);
      c4[j] := Find(chars[j], 0);
    }
    hide Sextet;
    ToArray3(c4, c3);
    if |chars| > 1 {
      ghost var q := Quad(Sextet(chars[0]), Sextet(chars[1]), if |chars| > 2 then Sextet(chars[2]) else 0,
                          if |chars| > 3 then Sextet(chars[3]) else 0);
      ArithmeticOfSextets(c4[0], c4[1], c4[2], c4[3], |chars|, q);
    }
    r := ret + c3[..|chars| - 1];
  }

  method Base64Decoding(s: string) returns (ret: seq<byte>)
    ensures ret == DecodeLenient(s)
  {
    hide LenientQuantum, LenientBytes, Value, Prefix;
    ret := [];
    var chars, pos := "", 0;
    ghost var done := 0;
    var c4, c3 := new byte[4], new byte[3];
    NothingDecoded(s);
    while pos < |s| && s[pos] != '=' && IsBase64(s[pos])
      invariant 0 <= done <= pos <= |s| && done % 4 == 0 && |chars| < 4
      invariant chars == s[done..pos] && InAlphabet(s[..pos])
      invariant ret == LenientBytes(s[..done])
      decreases |s| - pos
    {
      chars := chars + [s[pos]];
      IsBase64IsAlphabet(s[pos]);
      pos := pos + 1;
      if |chars| == 4 {
        assert chars == s[done..pos] && forall i | 0 <= i < 4 :: chars[i] == s[..pos][done + i];
        ret := AppendOctets(ret, chars, c4, c3);
        NextRead(s, done);
        chars, done := "", pos;
      }
    }
    if pos < |s| {
      IsBase64IsAlphabet(s[pos]);
    }
    PrefixUnique(s, pos);
    LastRead(s, done, pos);
    if |chars| > 0 {
      assert forall i | 0 <= i < |chars| :: chars[i] == s[..pos][done + i];
      ret := AppendOctets(ret, chars, c4, c3);
    }
  }

  lemma IsBase64IsAlphabet(c: char)
    ensures c != '=' && IsBase64(c) <==> Value(c).Some?
  {
  }

  lemma NothingDecoded(s: string)
    ensures LenientBytes(s[..0]) == []
  {
  }

  lemma NextRead(s: string, done: nat)
    requires done + 4 <= |s| && done % 4 == 0
    ensures LenientBytes(s[..done + 4]) == LenientBytes(s[..done]) + LenientQuantum(s[done..done + 4])
  {
    hide LenientQuantum;
    var q := s[done..done + 4];
    assert s[..done + 4] == s[..done] + q;
    LenientAppends(s[..done], q);
    assert q[..4] == q && q[4..] == "";
    OneQuantum(q);
  }

  lemma OneQuantum(q: string)
    requires |q| == 4
    ensures LenientBytes(q) == LenientQuantum(q)
  {
    assert LenientBytes("") == [];
    assert q[..4] == q && q[4..] == "";
    hide LenientQuantum;
  }

  lemma LastRead(s: string, done: nat, pos: nat)
    requires done <= pos <= |s| && done % 4 == 0 && pos - done < 4
    ensures LenientBytes(s[..pos]) == LenientBytes(s[..done]) + LenientQuantum(s[done..pos])
  {
    hide LenientQuantum;
    assert s[..pos] == s[..done] + s[done..pos];
    LenientAppends(s[..done], s[done..pos]);
  }
}
