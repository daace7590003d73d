/** Base64 as in section 6.8 of RFC 2045, and the bit-shifting loops of transports/utils/base64.c that
    compute it with a 32-bit accumulator. */
module Base64 {
  import opened Wire

  type Sextet = s: int | 0 <= s < 64

  const SPACE: Byte := 32
  const EQUALS: Byte := 61

  // ---------------------------------------------------------------- the alphabet

  /** ENCODEMAP. */
  function Letter(s: Sextet): Byte {
    if s < 26 then 65 + s else if s < 52 then 71 + s else if s < 62 then s - 4 else if s == 62 then 43 else 47
  }

  /** DECODEMAP; 0xFF for a character that is not in the alphabet, and an entry for '=', which is never
      looked up. */
  function DecodeMap(c: Byte): Byte {
    if 65 <= c <= 90 then c - 65
    else if 97 <= c <= 122 then c - 71
    else if 48 <= c <= 57 then c + 4
    else if c == 43 || c == EQUALS then 62
    else if c == 47 then 63
    else 0xFF
  }

  /** isspace in the C locale. */
  predicate IsSpace(c: Byte) { c == SPACE || 9 <= c <= 13 }

  // ---------------------------------------------------------------- the encoding, by quanta

  /** The groups of six bits: 24 bits are four of them, and the last quantum is filled up with zero
      bits. */
  function Sextets(b: Bytes): seq<Sextet> {
    if b == [] then []
    else if |b| == 1 then [b[0] / 4, b[0] % 4 * 16]
    else if |b| == 2 then [b[0] / 4, b[0] % 4 * 16 + b[1] / 16, b[1] % 16 * 4]
    else [b[0] / 4, b[0] % 4 * 16 + b[1] / 16, b[1] % 16 * 4 + b[2] / 64, b[2] % 64] + Sextets(b[3..])
  }

  function Letters(s: seq<Sextet>): (r: Bytes)
    ensures |r| == |s|
  {
    seq(|s|, i requires 0 <= i < |s| => Letter(s[i]))
  }

  function Padding(n: nat): (p: Bytes)
    ensures (n + |p|) % 4 == 0 && |p| < 4
  {
    if n % 4 == 0 then [] else if n % 4 == 3 then [EQUALS] else if n % 4 == 2 then [EQUALS, EQUALS]
    else [EQUALS, EQUALS, EQUALS]
  }

  function Encoding(b: Bytes): Bytes {
    Letters(Sextets(b)) + Padding(|Sextets(b)|)
  }

  lemma {:induction false} SextetCount(b: Bytes)
    ensures |Sextets(b)| == (4 * |b| + 2) / 3
  {
    if |b| > 2 { SextetCount(b[3..]); }
  }

  /** Four characters for every three bytes begun. */
  lemma EncodingLength(b: Bytes)
    ensures |Encoding(b)| == 4 * ((|b| + 2) / 3)
  {
    SextetCount(b);
  }

  // ---------------------------------------------------------------- the decoding, by quanta

  /** The sextets of the characters up to the first that ends the data, whitespace skipped. */
  function Clean(s: Bytes): seq<Sextet> {
    if s == [] then []
    else if IsSpace(s[0]) then Clean(s[1..])
    else if s[0] == EQUALS || DecodeMap(s[0]) == 0xFF then []
    else [DecodeMap(s[0])] + Clean(s[1..])
  }

  function Octets(x: seq<Sextet>): Bytes {
    if |x| < 2 then []
    else if |x| == 2 then [x[0] as int * 4 + x[1] / 16]
    else if |x| == 3 then [x[0] as int * 4 + x[1] / 16, x[1] as int % 16 * 16 + x[2] / 4]
    else [x[0] as int * 4 + x[1] / 16, x[1] as int % 16 * 16 + x[2] / 4, x[2] as int % 4 * 64 + x[3]] + Octets(x[4..])
  }

  function Decoding(s: Bytes): Bytes { Octets(Clean(s)) }

  lemma {:induction false} OctetsSextets(b: Bytes)
    ensures Octets(Sextets(b)) == b
  {
    if |b| > 2 {
      OctetsSextets(b[3..]);
      assert Sextets(b)[4..] == Sextets(b[3..]);
      assert b == [b[0], b[1], b[2]] + b[3..];
    }
  }

  lemma {:induction false} CleanLetters(x: seq<Sextet>, end: Bytes)
    requires end == [] || end[0] == EQUALS
    ensures Clean(Letters(x) + end) == x
  {
    if x == [] {
      assert Letters(x) + end == end;
    } else {
      CleanLetters(x[1..], end);
      assert (Letters(x) + end)[0] == Letter(x[0]);
      assert (Letters(x) + end)[1..] == Letters(x[1..]) + end;
      assert x == [x[0]] + x[1..];
    }
  }

  /** Decoding the encoding of any bytes gives them back. */
  lemma RoundTrip(b: Bytes)
    ensures Decoding(Encoding(b)) == b
  {
    CleanLetters(Sextets(b), Padding(|Sextets(b)|));
    OctetsSextets(b);
  }

  /** Whitespace put anywhere into the text, a line break for one, changes nothing. */
  lemma {:induction false} SpaceIgnored(s: Bytes, i: nat, c: Byte)
    requires i <= |s| && IsSpace(c)
    ensures Decoding(s[..i] + [c] + s[i..]) == Decoding(s)
  {
    CleanIgnoresSpace(s, i, c);
  }

  lemma {:induction false} CleanIgnoresSpace(s: Bytes, i: nat, c: Byte)
    requires i <= |s| && IsSpace(c)
    ensures Clean(s[..i] + [c] + s[i..]) == Clean(s)
  {
    var t := s[..i] + [c] + s[i..];
    if i == 0 {
      assert t[1..] == s;
    } else {
      CleanIgnoresSpace(s[1..], i - 1, c);
      assert t[0] == s[0] && t[1..] == s[1..][..i - 1] + [c] + s[1..][i - 1..];
    }
  }

  // ---------------------------------------------------------------- the accumulator

  /** uint32_t keeps the 32 low bits. */
  function Wrap(x: nat): nat { x % 0x1_0000_0000 }

  function ShiftLeft(v: nat, n: nat): nat
    decreases n
  {
    if n == 0 then v else ShiftLeft(2 * v, n - 1)
  }

  function ShiftRight(v: nat, n: nat): nat
    decreases n
  {
    if n == 0 then v else ShiftRight(v / 2, n - 1)
  }

  /** Lines 122-127: the sextets that are complete. */
  function Emit(v: nat, rem: nat): seq<Sextet> {
    if rem < 6 then [] else [ShiftRight(v, rem - 6) % 64] + Emit(v, rem - 6)
  }

  /** The encoder's loops from this accumulator on; `rem` bits of it are still to be encoded. */
  function EncodeStream(v: nat, rem: nat, b: Bytes): seq<Sextet>
    requires rem < 6
    decreases |b|
  {
    if b == [] then if rem == 0 then [] else [Wrap(ShiftLeft(v, 6 - rem)) % 64]
    else
      var v' := Wrap(v * 256 + b[0]);
      Emit(v', rem + 8) + EncodeStream(v', (rem + 8) % 6, b[1..])
  }

  /** Quotient and remainder are what fits. */
  lemma DivMod(x: nat, q: nat, r: nat, m: nat)
    requires r < m && x == q * m + r
    ensures x / m == q && x % m == r
  {
    var d := q - x / m;
    assert d * m == x % m - r by {
      assert x == x / m * m + x % m;
      assert (q - x / m) * m == q * m - x / m * m;
    }
    Between(d, m);
  }

  lemma Between(d: int, m: int)
    requires -m < d * m < m
    ensures d == 0
  {
    assert d >= 1 ==> d * m >= m;
    assert d <= -1 ==> d * m <= -m;
  }

  /** Bits that have left the accumulator at the top do not matter. */
  lemma Low(x: nat)
    ensures Wrap(x) % 64 == x % 64 && Wrap(x) % 256 == x % 256
    ensures Wrap(x) % 1024 == x % 1024 && Wrap(x) % 4096 == x % 4096
  {
    var k, y := x / 0x1_0000_0000, Wrap(x);
    DivMod(x, k * 0x400_0000 + y / 64, y % 64, 64);
    DivMod(x, k * 0x100_0000 + y / 256, y % 256, 256);
    DivMod(x, k * 0x40_0000 + y / 1024, y % 1024, 1024);
    DivMod(x, k * 0x10_0000 + y / 4096, y % 4096, 4096);
  }

  lemma Parts(v: nat, c: nat)
    requires c < 256
    ensures (v * 256 + c) % 256 == c
    ensures (v * 256 + c) % 1024 == v % 4 * 256 + c
    ensures (v * 256 + c) % 4096 == v % 16 * 256 + c
  {
    DivMod(v * 256 + c, v, c, 256);
    DivMod(v * 256 + c, v / 4, v % 4 * 256 + c, 1024);
    DivMod(v * 256 + c, v / 16, v % 16 * 256 + c, 4096);
  }

  lemma Shifted(v: nat, c: Byte) returns (w: nat)
    ensures w == Wrap(v * 256 + c)
    ensures w % 256 == c && w % 1024 == v % 4 * 256 + c && w % 4096 == v % 16 * 256 + c
  {
    var x := v * 256 + c;
    w := Wrap(x);
    Low(x);
    Parts(v, c);
  }

  lemma Right(v: nat)
    ensures ShiftRight(v, 0) == v && ShiftRight(v, 2) == v / 4
    ensures ShiftRight(v, 4) == v / 16 && ShiftRight(v, 6) == v / 64
  {
    assert ShiftRight(v, 2) == ShiftRight(v / 2 / 2, 0);
    assert ShiftRight(v, 4) == ShiftRight(v / 2 / 2 / 2 / 2, 0);
    assert ShiftRight(v, 6) == ShiftRight(v / 2 / 2 / 2 / 2 / 2 / 2, 0);
  }

  lemma Middle(v: nat)
    ensures v / 4 % 64 == v % 256 / 4
    ensures v / 16 % 64 == v % 1024 / 16
    ensures v / 64 % 64 == v % 4096 / 64
  {
    var a, b, c := v % 256, v % 1024, v % 4096;
    DivMod(v, v / 256 * 64 + a / 4, a % 4, 4);
    DivMod(v / 4, v / 256, a / 4, 64);
    DivMod(v, v / 1024 * 64 + b / 16, b % 16, 16);
    DivMod(v / 16, v / 1024, b / 16, 64);
    DivMod(v, v / 4096 * 64 + c / 64, c % 64, 64);
    DivMod(v / 64, v / 4096, c / 64, 64);
  }

  lemma Emitted(v: nat)
    ensures Emit(v, 8) == [v % 256 / 4]
    ensures Emit(v, 10) == [v % 1024 / 16]
    ensures Emit(v, 12) == [v % 4096 / 64, v % 64]
  {
    Right(v);
    Middle(v);
    assert Emit(v, 6) == [v % 64] + Emit(v, 0);
    assert Emit(v, 12) == [ShiftRight(v, 6) % 64] + Emit(v, 6);
  }

  lemma LowBits(w: nat, c: nat)
    requires w % 256 == c
    ensures w % 4 == c % 4 && w % 16 == c % 16 && w % 64 == c % 64
  {
    DivMod(w, w / 256 * 64 + c / 4, c % 4, 4);
    DivMod(w, w / 256 * 16 + c / 16, c % 16, 16);
    DivMod(w, w / 256 * 4 + c / 64, c % 64, 64);
  }

  /** Two bits or four bits and the high ones of the next byte. */
  lemma Joined(p: nat, c: nat)
    requires c < 256
    ensures (p * 256 + c) / 16 == p * 16 + c / 16 && (p * 256 + c) / 64 == p * 4 + c / 64
  {
    DivMod(p * 256 + c, p * 16 + c / 16, c % 16, 16);
    DivMod(p * 256 + c, p * 4 + c / 64, c % 64, 64);
  }

  /** One turn of the loop, the accumulator after it being w: what it can emit, and its last bits. */
  lemma EncodeTurn(v: nat, rem: nat, b: Bytes) returns (w: nat)
    requires b != [] && rem < 6
    ensures Emit(w, 8) == [b[0] / 4] && Emit(w, 10) == [v % 4 * 16 + b[0] / 16]
    ensures Emit(w, 12) == [v % 16 * 4 + b[0] / 64, b[0] % 64]
    ensures w % 4 == b[0] % 4 && w % 16 == b[0] % 16
    ensures EncodeStream(v, rem, b) == Emit(w, rem + 8) + EncodeStream(w, (rem + 8) % 6, b[1..])
  {
    w := Shifted(v, b[0]);
    LowBits(w, b[0]);
    Joined(v % 4, b[0]);
    Joined(v % 16, b[0]);
    Emitted(w);
  }

  lemma Encode1(v: nat, b: Bytes) returns (w: nat)
    requires b != []
    ensures w % 4 == b[0] % 4 && EncodeStream(v, 0, b) == [b[0] / 4] + EncodeStream(w, 2, b[1..])
  {
    w := EncodeTurn(v, 0, b);
  }

  lemma Encode2(v: nat, b: Bytes) returns (w: nat)
    requires b != []
    ensures w % 16 == b[0] % 16 && EncodeStream(v, 2, b) == [v % 4 * 16 + b[0] / 16] + EncodeStream(w, 4, b[1..])
  {
    w := EncodeTurn(v, 2, b);
  }

  lemma Encode3(v: nat, b: Bytes) returns (w: nat)
    requires b != []
    ensures EncodeStream(v, 4, b) == [v % 16 * 4 + b[0] / 64, b[0] % 64] + EncodeStream(w, 0, b[1..])
  {
    w := EncodeTurn(v, 4, b);
  }

  lemma EncodeLast(v: nat)
    ensures EncodeStream(v, 0, []) == []
    ensures EncodeStream(v, 2, []) == [v % 4 * 16]
    ensures EncodeStream(v, 4, []) == [v % 16 * 4]
  {
    assert ShiftLeft(v, 4) == ShiftLeft(2 * (2 * (2 * (2 * v))), 0) == v * 16;
    assert ShiftLeft(v, 2) == ShiftLeft(2 * (2 * v), 0) == v * 4;
    LastBits(v);
  }

  lemma LastBits(v: nat)
    ensures Wrap(v * 16) % 64 == v % 4 * 16 && Wrap(v * 4) % 64 == v % 16 * 4
  {
    Low(v * 16);
    Low(v * 4);
    DivMod(v * 16, v / 4, v % 4 * 16, 64);
    DivMod(v * 4, v / 16, v % 16 * 4, 64);
  }

  lemma EncodeGroup(v: nat, b: Bytes) returns (w: nat)
    requires |b| > 2
    ensures EncodeStream(v, 0, b) ==
            [b[0] / 4, b[0] % 4 * 16 + b[1] / 16, b[1] % 16 * 4 + b[2] / 64, b[2] % 64] + EncodeStream(w, 0, b[3..])
  {
    var v1 := Encode1(v, b);
    var v2 := Encode2(v1, b[1..]);
    w := Encode3(v2, b[1..][1..]);
    assert b[1..][1..][1..] == b[3..];
  }

  /** The last one or two bytes. */
  lemma EncodeRest(v: nat, b: Bytes)
    requires |b| == 1 || |b| == 2
    ensures EncodeStream(v, 0, b) == Sextets(b)
  {
    var v1 := Encode1(v, b);
    if |b| == 1 {
      assert b[1..] == [];
      EncodeLast(v1);
    } else {
      var v2 := Encode2(v1, b[1..]);
      assert b[1..][1..] == [];
      EncodeLast(v2);
    }
  }

  /** The bit-shifting loops compute the quanta, whatever the accumulator held before. */
  lemma {:induction false} EncodeStreamIs(v: nat, b: Bytes)
    ensures EncodeStream(v, 0, b) == Sextets(b)
    decreases |b|
  {
    if b == [] {
      EncodeLast(v);
    } else if |b| < 3 {
      EncodeRest(v, b);
    } else {
      var w := EncodeGroup(v, b);
      EncodeStreamIs(w, b[3..]);
    }
  }

  /** The decoder's loop over the sextets from this accumulator on. */
  function DecodeStream(v: nat, rem: nat, x: seq<Sextet>): Bytes
    requires rem < 8
    decreases |x|
  {
    if x == [] then []
    else
      var v' := Wrap(v * 64 + x[0]);
      if rem + 6 >= 8 then [ShiftRight(v', rem - 2) % 256] + DecodeStream(v', rem - 2, x[1..])
      else DecodeStream(v', rem + 6, x[1..])
  }

  lemma PartsSix(v: nat, c: nat)
    requires c < 64
    ensures (v * 64 + c) % 64 == c && (v * 64 + c) % 256 == v % 4 * 64 + c
    ensures (v * 64 + c) % 1024 == v % 16 * 64 + c && (v * 64 + c) % 4096 == v % 64 * 64 + c
  {
    DivMod(v * 64 + c, v, c, 64);
    DivMod(v * 64 + c, v / 4, v % 4 * 64 + c, 256);
    DivMod(v * 64 + c, v / 16, v % 16 * 64 + c, 1024);
    DivMod(v * 64 + c, v / 64, v % 64 * 64 + c, 4096);
  }

  lemma ShiftedSix(v: nat, c: Sextet) returns (w: nat)
    ensures w == Wrap(v * 64 + c)
    ensures w % 64 == c && w % 4096 == v % 64 * 64 + c
    ensures w % 1024 == v % 16 * 64 + c && w % 256 == v % 4 * 64 + c
  {
    var y := v * 64 + c;
    w := Wrap(y);
    Low(y);
    PartsSix(v, c);
  }

  lemma LowerBits(w: nat, c: nat)
    requires w % 64 == c
    ensures w % 4 == c % 4 && w % 16 == c % 16
  {
    DivMod(w, w / 64 * 16 + c / 4, c % 4, 4);
    DivMod(w, w / 64 * 4 + c / 16, c % 16, 16);
  }

  lemma Upper(w: nat)
    ensures w / 16 % 256 == w % 4096 / 16 && w / 4 % 256 == w % 1024 / 4
  {
    var a, b := w % 4096, w % 1024;
    DivMod(w, w / 4096 * 256 + a / 16, a % 16, 16);
    DivMod(w / 16, w / 4096, a / 16, 256);
    DivMod(w, w / 1024 * 256 + b / 4, b % 4, 4);
    DivMod(w / 4, w / 1024, b / 4, 256);
  }

  lemma JoinedSix(p: nat, c: nat)
    requires c < 64
    ensures (p * 64 + c) / 16 == p * 4 + c / 16 && (p * 64 + c) / 4 == p * 16 + c / 4
  {
    DivMod(p * 64 + c, p * 4 + c / 16, c % 16, 16);
    DivMod(p * 64 + c, p * 16 + c / 4, c % 4, 4);
  }

  /** One turn of the decoder's loop: the octets it can write, and its last bits. */
  lemma DecodeTurn(v: nat, rem: nat, x: seq<Sextet>) returns (w: nat)
    requires x != [] && rem < 8
    ensures w % 4 == x[0] % 4 && w % 16 == x[0] % 16 && w % 64 == x[0]
    ensures ShiftRight(w, 4) % 256 == v % 64 * 4 + x[0] / 16
    ensures ShiftRight(w, 2) % 256 == v % 16 * 16 + x[0] / 4
    ensures ShiftRight(w, 0) % 256 == v % 4 * 64 + x[0]
    ensures DecodeStream(v, rem, x) ==
            if rem < 2 then DecodeStream(w, rem + 6, x[1..])
            else [ShiftRight(w, rem - 2) % 256] + DecodeStream(w, rem - 2, x[1..])
  {
    w := ShiftedSix(v, x[0]);
    LowerBits(w, x[0]);
    JoinedSix(v % 64, x[0]);
    JoinedSix(v % 16, x[0]);
    Right(w);
    Upper(w);
  }

  lemma Decode2(v: nat, x: seq<Sextet>) returns (w: nat)
    requires x != []
    ensures w % 16 == x[0] % 16 && DecodeStream(v, 6, x) == [v % 64 * 4 + x[0] / 16] + DecodeStream(w, 4, x[1..])
  {
    w := DecodeTurn(v, 6, x);
  }

  lemma Decode3(v: nat, x: seq<Sextet>) returns (w: nat)
    requires x != []
    ensures w % 4 == x[0] % 4 && DecodeStream(v, 4, x) == [v % 16 * 16 + x[0] / 4] + DecodeStream(w, 2, x[1..])
  {
    w := DecodeTurn(v, 4, x);
  }

  lemma Decode4(v: nat, x: seq<Sextet>) returns (w: nat)
    requires x != []
    ensures DecodeStream(v, 2, x) == [v % 4 * 64 + x[0]] + DecodeStream(w, 0, x[1..])
  {
    w := DecodeTurn(v, 2, x);
  }

  /** The same for the decoder. */
  lemma {:induction false} DecodeStreamIs(v: nat, x: seq<Sextet>)
    ensures DecodeStream(v, 0, x) == Octets(x)
    decreases |x|
  {
    if x != [] {
      var v1 := DecodeTurn(v, 0, x);
      if |x| > 1 {
        var v2 := Decode2(v1, x[1..]);
        if |x| > 2 {
          var v3 := Decode3(v2, x[1..][1..]);
          if |x| > 3 {
            var v4 := Decode4(v3, x[1..][1..][1..]);
            assert x[1..][1..][1..][1..] == x[4..];
            DecodeStreamIs(v4, x[4..]);
          }
        }
      }
    }
  }

  // ---------------------------------------------------------------- the two functions, in place

  /** The number of characters or bytes written, or -ENOBUFS. */
  datatype Result = Enobufs | Written(n: nat)

  lemma LettersSnoc(x: seq<Sextet>, s: Sextet)
    ensures Letters(x + [s]) == Letters(x) + [Letter(s)]
  {
  }

  /** The buffer holds this text at its start, and what it held before behind it. */
  ghost predicate Holds(now: Bytes, before: Bytes, text: Bytes) {
    |text| <= |now| == |before| && now[..|text|] == text && now[|text|..] == before[|text|..]
  }

  /** The next character is put behind the text. */
  method Write(out: array<Byte>, io: nat, c: Byte, ghost before: Bytes, ghost text: Bytes)
    requires Holds(out[..], before, text) && io == |text| < out.Length
    modifies out
    ensures Holds(out[..], before, text + [c])
  {
    assert before[|text|..][1..] == before[|text| + 1..] && out[..][|text|..][1..] == out[..][|text| + 1..];
    out[io] := c;
  }

  /** nn_base64_encode.  It fails exactly when there is no room for the encoding and a zero behind it. */
  method Encode(input: Bytes, out: array<Byte>) returns (ret: Result)
    modifies out
    ensures ret == if out.Length < |Encoding(input)| + 1 then Enobufs else Written(|Encoding(input)|)
    ensures ret.Written? ==> Holds(out[..], old(out[..]), Encoding(input) + [0])
  {
    ghost var before := out[..];
    EncodeStreamIs(0, input);
    var io, v, rem := 0, 0, 0;
    ghost var done: seq<Sextet> := [];
    var ii := 0;
    while ii < |input|
      invariant ii <= |input| && rem < 6 && io == |done| <= out.Length
      invariant done + EncodeStream(v, rem, input[ii..]) == Sextets(input)
      invariant Holds(out[..], before, Letters(done))
    {
      assert input[ii..][1..] == input[ii + 1..];
      var ok;
      ok, io, v, rem, done := EncodeByte(out, io, v, rem, input[ii], before, done, input[ii..]);
      if !ok {
        return Enobufs;
      }
      ii := ii + 1;
    }
    assert input[ii..] == [];
    ret := Finish(out, io, v, rem, before, done);
  }

  /** Lines 119-127; b is what is left of the input. */
  method EncodeByte(out: array<Byte>, io0: nat, v0: nat, rem0: nat, ch: Byte,
                    ghost before: Bytes, ghost done0: seq<Sextet>, ghost b: Bytes)
    returns (ok: bool, io: nat, v: nat, rem: nat, ghost done: seq<Sextet>)
    requires b != [] && b[0] == ch && rem0 < 6
    requires io0 == |done0| <= out.Length && Holds(out[..], before, Letters(done0))
    modifies out
    ensures ok ==> rem < 6 && done + EncodeStream(v, rem, b[1..]) == done0 + EncodeStream(v0, rem0, b)
    ensures ok ==> io == |done| <= out.Length && Holds(out[..], before, Letters(done))
    ensures !ok ==> |done0 + EncodeStream(v0, rem0, b)| > out.Length
  {
    v := Wrap(v0 * 256 + ch);
    rem := rem0 + 8;
    ghost var rest := EncodeStream(v, rem % 6, b[1..]);
    assert done0 + (Emit(v, rem) + rest) == done0 + Emit(v, rem) + rest;
    ok, io, rem, done := EmitLoop(out, io0, v, rem, before, done0);
  }

  /** Lines 130-149. */
  method Finish(out: array<Byte>, io0: nat, v0: nat, rem: nat, ghost before: Bytes, ghost done0: seq<Sextet>)
    returns (ret: Result)
    requires rem < 6 && io0 == |done0| <= out.Length && Holds(out[..], before, Letters(done0))
    modifies out
    ensures var done := done0 + EncodeStream(v0, rem, []);
            var e := Letters(done) + Padding(|done|);
            && ret == (if out.Length < |e| + 1 then Enobufs else Written(|e|))
            && (ret.Written? ==> Holds(out[..], before, e + [0]))
  {
    var io := io0;
    ghost var done := done0;
    if rem != 0 {
      var v := Wrap(ShiftLeft(v0, 6 - rem));
      if io >= out.Length {
        return Enobufs;
      }
      LettersSnoc(done, v % 64);
      Write(out, io, Letter(v % 64), before, Letters(done));
      done := done + [v % 64];
      io := io + 1;
    }
    assert done == done0 + EncodeStream(v0, rem, []);
    ret := Pad(out, io, before, done);
  }

  /** Lines 122-127. */
  method EmitLoop(out: array<Byte>, io0: nat, v: nat, rem0: nat, ghost before: Bytes, ghost done0: seq<Sextet>)
    returns (ok: bool, io: nat, rem: nat, ghost done: seq<Sextet>)
    requires io0 == |done0| <= out.Length && Holds(out[..], before, Letters(done0))
    modifies out
    ensures ok ==> rem < 6 && rem == rem0 % 6 && done == done0 + Emit(v, rem0)
    ensures ok ==> io == |done| <= out.Length && Holds(out[..], before, Letters(done))
    ensures !ok ==> |done0 + Emit(v, rem0)| > out.Length
  {
    io, rem, done := io0, rem0, done0;
    while rem >= 6
      invariant rem % 6 == rem0 % 6 && done + Emit(v, rem) == done0 + Emit(v, rem0)
      invariant io == |done| <= out.Length && Holds(out[..], before, Letters(done))
    {
      rem := rem - 6;
      if io >= out.Length {
        return false, io, rem, done;
      }
      ghost var s := ShiftRight(v, rem) % 64;
      LettersSnoc(done, s);
      Write(out, io, Letter(ShiftRight(v, rem) % 64), before, Letters(done));
      assert done + ([s] + Emit(v, rem)) == done + [s] + Emit(v, rem);
      done := done + [s];
      io := io + 1;
    }
    ok := true;
  }

  /** Lines 137-149. */
  method Pad(out: array<Byte>, io0: nat, ghost before: Bytes, ghost done: seq<Sextet>) returns (ret: Result)
    requires io0 == |done| <= out.Length && Holds(out[..], before, Letters(done))
    modifies out
    ensures var e := Letters(done) + Padding(|done|);
            && ret == (if out.Length < |e| + 1 then Enobufs else Written(|e|))
            && (ret.Written? ==> Holds(out[..], before, e + [0]))
  {
    var io := io0;
    ghost var e := Letters(done) + Padding(|done|);
    assert e[..io] == Letters(done);
    while io % 4 != 0
      invariant |done| <= io <= |e| && io <= out.Length && Holds(out[..], before, e[..io])
      decreases |e| - io
    {
      if io >= out.Length {
        return Enobufs;
      }
      Write(out, io, EQUALS, before, e[..io]);
      assert e[..io] + [EQUALS] == e[..io + 1];
      io := io + 1;
    }
    assert io == |e| && e[..io] == e;
    if io >= out.Length {
      return Enobufs;
    }
    Write(out, io, 0, before, e);
    ret := Written(io);
  }

  /** What a character means for the loop: it is skipped, it ends the loop, or it is the next sextet. */
  lemma CleanHead(s: Bytes)
    requires s != []
    ensures IsSpace(s[0]) ==> Clean(s) == Clean(s[1..])
    ensures !IsSpace(s[0]) && (s[0] == EQUALS || DecodeMap(s[0]) == 0xFF) ==> Clean(s) == []
    ensures !IsSpace(s[0]) && s[0] != EQUALS && DecodeMap(s[0]) != 0xFF ==>
              Clean(s) != [] && Clean(s)[0] == DecodeMap(s[0]) && Clean(s)[1..] == Clean(s[1..])
  {
    if !IsSpace(s[0]) && s[0] != EQUALS && DecodeMap(s[0]) != 0xFF {
      var ch: Sextet := DecodeMap(s[0]);
      assert Clean(s) == [ch] + Clean(s[1..]);
    }
  }

  /** Lines 85-93. */
  method Consume(out: array<Byte>, io0: nat, v0: nat, rem0: nat, ch: Sextet,
                 ghost before: Bytes, ghost done0: Bytes, ghost x: seq<Sextet>)
    returns (ok: bool, io: nat, v: nat, rem: nat, ghost done: Bytes)
    requires x != [] && x[0] == ch && rem0 < 8
    requires io0 == |done0| <= out.Length && Holds(out[..], before, done0)
    modifies out
    ensures ok ==> rem < 8 && done + DecodeStream(v, rem, x[1..]) == done0 + DecodeStream(v0, rem0, x)
    ensures ok ==> io == |done| <= out.Length && Holds(out[..], before, done)
    ensures !ok ==> |done0 + DecodeStream(v0, rem0, x)| > out.Length
  {
    io, done := io0, done0;
    v := Wrap(v0 * 64 + ch);
    rem := rem0 + 6;
    if rem >= 8 {
      rem := rem - 8;
      if io >= out.Length {
        return false, io, v, rem, done;
      }
      var b := ShiftRight(v, rem) % 256;
      Write(out, io, b, before, done);
      done := done + [b];
      io := io + 1;
      ghost var rest := DecodeStream(v, rem, x[1..]);
      assert done0 + ([b] + rest) == done + rest;
    }
    ok := true;
  }

  /** nn_base64_decode. */
  method Decode(input: Bytes, out: array<Byte>) returns (ret: Result)
    modifies out
    ensures ret == if out.Length < |Decoding(input)| then Enobufs else Written(|Decoding(input)|)
    ensures ret.Written? ==> Holds(out[..], old(out[..]), Decoding(input))
  {
    ghost var before := out[..];
    DecodeStreamIs(0, Clean(input));
    assert input[0..] == input;
    var io, v, rem := 0, 0, 0;
    ghost var done: Bytes := [];
    ghost var x := Clean(input);
    var ii := 0;
    while ii < |input|
      invariant ii <= |input| && rem < 8 && io == |done| <= out.Length
      invariant x == Clean(input[ii..]) && done + DecodeStream(v, rem, x) == Decoding(input)
      invariant Holds(out[..], before, done)
    {
      var c := input[ii];
      CleanHead(input[ii..]);
      assert input[ii..][1..] == input[ii + 1..];
      ii := ii + 1;
      if IsSpace(c) {
        continue;
      }
      if c == EQUALS {
        break;
      }
      var ch := DecodeMap(c);
      if ch == 0xFF {
        break;
      }
      var ok;
      ok, io, v, rem, done := Consume(out, io, v, rem, ch, before, done, x);
      x := x[1..];
      if !ok {
        return Enobufs;
      }
    }
    assert x == [] && done + [] == done;
    ret := Written(io);
  }
}
