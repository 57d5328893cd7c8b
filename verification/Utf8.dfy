/**
 UTF-8 encoding and decoding, against RFC 3629. The masks and shifts of the source select
 contiguous bits, so `(v & 0x0FC0) >> 6` is written `Low6(Shift6(v))`.
 */
module Utf8 {
  import opened Wrappers

  type byte = x: int | 0 <= x < 256

  /** A Unicode scalar value: any code point but a surrogate. */
  predicate IsScalar(v: int) {
    0 <= v <= 0x10FFFF && !(0xD800 <= v <= 0xDFFF)
  }

  predicate Tail(b: byte) {
    0x80 <= b <= 0xBF
  }

  /** One `UTF8-char` of the syntax in section 4 of RFC 3629. */
  predicate Utf8Char(b: seq<byte>) {
    || (|b| == 1 && b[0] <= 0x7F)
    || (|b| == 2 && 0xC2 <= b[0] <= 0xDF && Tail(b[1]))
    || (|b| == 3 && Tail(b[2]) &&
        (|| (b[0] == 0xE0 && 0xA0 <= b[1] <= 0xBF)
         || (0xE1 <= b[0] <= 0xEC && Tail(b[1]))
         || (b[0] == 0xED && 0x80 <= b[1] <= 0x9F)
         || (0xEE <= b[0] <= 0xEF && Tail(b[1]))))
    || (|b| == 4 && Tail(b[2]) && Tail(b[3]) &&
        (|| (b[0] == 0xF0 && 0x90 <= b[1] <= 0xBF)
         || (0xF1 <= b[0] <= 0xF3 && Tail(b[1]))
         || (b[0] == 0xF4 && 0x80 <= b[1] <= 0x8F)))
  }

  /** A shift right by six bits. */
  function Shift6(v: nat): (q: nat)
    ensures 64 * q <= v < 64 * q + 64
  {
    v / 64
  }

  /** The six lowest bits. */
  function Low6(v: nat): (r: nat)
    ensures r < 64 && v == 64 * Shift6(v) + r
  {
    v % 64
  }

  /** A tail byte carrying six bits. */
  function TailByte(bits: nat): (b: byte)
    requires bits < 64
    ensures Tail(b) && TailBits(b) == bits
  {
    0x80 + bits
  }

  function TailBits(b: byte): (bits: nat)
    ensures bits < 64 && (Tail(b) ==> b == 0x80 + bits)
  {
    b % 64
  }

  /** A first byte: a mark and the bits left over, `unit` being the number of values they can take. */
  function LeadByte(mark: nat, unit: nat, bits: nat): (b: byte)
    requires unit in {8, 16, 32} && mark + unit <= 256
    ensures bits < unit ==> b == mark + bits
  {
    mark + bits % unit
  }

  function LeadBits(b: byte, unit: nat): (bits: nat)
    requires unit in {8, 16, 32}
    ensures bits < unit
    ensures unit == 32 && 0xC0 <= b < 0xE0 ==> bits == b - 0xC0
    ensures unit == 16 && 0xE0 <= b < 0xF0 ==> bits == b - 0xE0
    ensures unit == 8 && 0xF0 <= b < 0xF8 ==> bits == b - 0xF0
  {
    b % unit
  }

  /** The byte sequence `encode` writes for a code point, surrogates included. */
  function EncodeBytes(v: int): (b: seq<byte>)
    requires 0 <= v <= 0x10FFFF
    ensures 1 <= |b| <= 4
  {
    if v < 0x80 then [v]
    else if v < 0x800 then [LeadByte(0xC0, 32, Shift6(v)), TailByte(Low6(v))]
    else if v < 0x10000 then
      [LeadByte(0xE0, 16, Shift6(Shift6(v))), TailByte(Low6(Shift6(v))), TailByte(Low6(v))]
    else
      [LeadByte(0xF0, 8, Shift6(Shift6(Shift6(v)))), TailByte(Low6(Shift6(Shift6(v)))), TailByte(Low6(Shift6(v))),
       TailByte(Low6(v))]
  }

  /** The bits a byte sequence carries, as `decode` gathers them. */
  function ValueOf(b: seq<byte>): (v: nat)
    requires 1 <= |b| <= 4
  {
    if |b| == 1 then b[0]
    else if |b| == 2 then LeadBits(b[0], 32) * 64 + TailBits(b[1])
    else if |b| == 3 then (LeadBits(b[0], 16) * 64 + TailBits(b[1])) * 64 + TailBits(b[2])
    else ((LeadBits(b[0], 8) * 64 + TailBits(b[1])) * 64 + TailBits(b[2])) * 64 + TailBits(b[3])
  }

  // ---------------------------------------------------------------------------------------------
  // The two directions
  // ---------------------------------------------------------------------------------------------

  /** Encoding keeps every bit, surrogate or not. */
  lemma ValueOfEncoding(v: int)
    requires 0 <= v <= 0x10FFFF
    ensures ValueOf(EncodeBytes(v)) == v
  {
    hide Shift6, Low6, TailByte, TailBits, LeadByte, LeadBits;
  }

  /** What `encode` writes is a character of the syntax exactly when the code point is no surrogate. */
  lemma EncodingIsCharExactly(v: int)
    requires 0 <= v <= 0x10FFFF
    ensures Utf8Char(EncodeBytes(v)) <==> IsScalar(v)
  {
    hide Shift6, Low6, TailByte, TailBits, LeadByte, LeadBits;
  }

  /** Every character of the syntax is the encoding of the one scalar value it carries: no overlong forms. */
  lemma CharIsEncoding(b: seq<byte>)
    requires Utf8Char(b)
    ensures IsScalar(ValueOf(b)) && EncodeBytes(ValueOf(b)) == b
  {
    hide Shift6, Low6, TailByte, TailBits, LeadByte, LeadBits;
    var lead := LeadBits(b[0], if |b| == 2 then 32 else if |b| == 3 then 16 else 8);
    if |b| >= 2 {
      SplitSix(lead, TailBits(b[1]));
    }
    if |b| >= 3 {
      SplitSix(lead * 64 + TailBits(b[1]), TailBits(b[2]));
    }
    if |b| == 4 {
      SplitSix((lead * 64 + TailBits(b[1])) * 64 + TailBits(b[2]), TailBits(b[3]));
    }
  }

  lemma SplitSix(q: nat, r: nat)
    requires r < 64
    ensures Shift6(q * 64 + r) == q && Low6(q * 64 + r) == r
  {
  }

  /** The length `getUTF8Length` reads off a first byte; 0 for a byte that starts no character. */
  function Utf8Length(first: byte): (n: nat)
    ensures n <= 4
    ensures forall b: seq<byte> :: Utf8Char(b) && b[0] == first ==> |b| == n
  {
    if first < 0x80 then 1
    else if first <= 0xBF then 0
    else if first == 0xC0 || first == 0xC1 then 0
    else if first <= 0xDF then 2
    else if first <= 0xEF then 3
    else if first <= 0xF4 then 4
    else 0
  }

  /** Memory from a `char*` on: the bytes of the string, then its terminating NUL. */
  function At(p: seq<byte>, i: nat): byte {
    if i < |p| then p[i] else 0
  }

  function First(p: seq<byte>, n: nat): (b: seq<byte>)
    ensures |b| == n
  {
    seq(n, i requires 0 <= i => At(p, i))
  }

  /** Reading one character: its length and value, or nothing. */
  function DecodeOne(p: seq<byte>): Option<(nat, int)> {
    var n := Utf8Length(At(p, 0));
    if n != 0 && Utf8Char(First(p, n)) then Some((n, ValueOf(First(p, n)))) else None
  }

  /** Some start of the memory is a character of the syntax exactly when reading succeeds, and then it is that one. */
  lemma DecodeOneFollowsSyntax(p: seq<byte>, n: nat)
    requires 1 <= n
    ensures Utf8Char(First(p, n)) <==> DecodeOne(p).Some? && DecodeOne(p).value.0 == n
  {
  }

  lemma FirstOfConcat(b: seq<byte>, rest: seq<byte>)
    ensures First(b + rest, |b|) == b
  {
  }

  /** Encoding then decoding gives back the code point, at the same length, exactly for scalar values. */
  lemma DecodeEncodeExactly(v: int, rest: seq<byte>)
    requires 0 <= v <= 0x10FFFF
    ensures DecodeOne(EncodeBytes(v) + rest) == Some((|EncodeBytes(v)|, v)) <==> IsScalar(v)
  {
    var b := EncodeBytes(v);
    FirstOfConcat(b, rest);
    EncodingIsCharExactly(v);
    ValueOfEncoding(v);
    DecodeOneFollowsSyntax(b + rest, |b|);
  }

  // ---------------------------------------------------------------------------------------------
  // Whole strings
  // ---------------------------------------------------------------------------------------------

  predicate Scalars(vs: seq<int>) {
    forall i :: 0 <= i < |vs| ==> IsScalar(vs[i])
  }

  function EncodeAll(vs: seq<int>): seq<byte>
    requires Scalars(vs)
  {
    if vs == [] then [] else EncodeBytes(vs[0]) + EncodeAll(vs[1..])
  }

  lemma CharLiesInside(p: seq<byte>)
    requires p != [] && DecodeOne(p).Some?
    ensures 1 <= DecodeOne(p).value.0 <= |p|
    ensures First(p, DecodeOne(p).value.0) == p[..DecodeOne(p).value.0]
  {
  }

  /** Reading character after character to the end of a string. */
  function DecodeAll(p: seq<byte>): Option<seq<int>> {
    if p == [] then Some([])
    else if DecodeOne(p).None? then None
    else
      CharLiesInside(p);
      var (n, v) := DecodeOne(p).value;
      var rest := DecodeAll(p[n..]);
      if rest.None? then None else Some([v] + rest.value)
  }

  /** Concatenated encodings decode to the whole sequence. */
  lemma {:induction false} DecodeEncodeAll(vs: seq<int>)
    requires Scalars(vs)
    ensures DecodeAll(EncodeAll(vs)) == Some(vs)
  {
    if vs != [] {
      var b, rest := EncodeBytes(vs[0]), EncodeAll(vs[1..]);
      DecodeEncodeExactly(vs[0], rest);
      assert (b + rest)[|b|..] == rest;
      DecodeEncodeAll(vs[1..]);
      assert [vs[0]] + vs[1..] == vs;
    }
  }

  lemma CharDecoded(p: seq<byte>)
    requires p != [] && DecodeOne(p).Some?
    ensures var (n, v) := DecodeOne(p).value; n <= |p| && IsScalar(v) && EncodeBytes(v) == p[..n]
  {
    CharLiesInside(p);
    CharIsEncoding(First(p, DecodeOne(p).value.0));
  }

  /** A byte string is accepted only as the encoding of what it decodes to. */
  lemma {:induction false} EncodeDecodeAll(p: seq<byte>)
    requires DecodeAll(p).Some?
    ensures Scalars(DecodeAll(p).value) && EncodeAll(DecodeAll(p).value) == p
    decreases |p|
  {
    hide DecodeOne, EncodeBytes, IsScalar;
    if p != [] {
      CharLiesInside(p);
      var (n, v) := DecodeOne(p).value;
      CharDecoded(p);
      EncodeDecodeAll(p[n..]);
      var vs := DecodeAll(p[n..]).value;
      assert ([v] + vs)[1..] == vs;
      assert p[..n] + p[n..] == p;
    }
  }

  function Concat(cs: seq<seq<byte>>): seq<byte> {
    if cs == [] then [] else cs[0] + Concat(cs[1..])
  }

  predicate Utf8Chars(cs: seq<seq<byte>>) {
    forall c <- cs :: Utf8Char(c)
  }

  /** `UTF8-octets` of section 4 of RFC 3629: any number of characters one after another. */
  ghost predicate Utf8String(p: seq<byte>) {
    exists cs: seq<seq<byte>> :: Utf8Chars(cs) && Concat(cs) == p
  }

  lemma StartsWithChar(p: seq<byte>)
    requires p != [] && DecodeOne(p).Some?
    ensures 1 <= DecodeOne(p).value.0 <= |p| && Utf8Char(p[..DecodeOne(p).value.0])
  {
    hide Utf8Char;
    CharLiesInside(p);
  }

  /** A string that is read to its end consists of characters. */
  lemma {:induction false} AcceptedIsChars(p: seq<byte>) returns (cs: seq<seq<byte>>)
    requires DecodeAll(p).Some?
    ensures Utf8Chars(cs) && Concat(cs) == p
    decreases |p|
  {
    hide Utf8Char, DecodeOne;
    if p == [] {
      cs := [];
    } else {
      StartsWithChar(p);
      var n := DecodeOne(p).value.0;
      var rest := AcceptedIsChars(p[n..]);
      cs := [p[..n]] + rest;
      assert cs[1..] == rest && p[..n] + p[n..] == p;
    }
  }

  /** Characters one after another are read to the end. */
  lemma {:induction false} CharsAreAccepted(cs: seq<seq<byte>>)
    requires Utf8Chars(cs)
    ensures DecodeAll(Concat(cs)).Some?
    decreases |cs|
  {
    if cs != [] {
      var c, rest := cs[0], Concat(cs[1..]);
      assert c in cs && forall x <- cs[1..] :: x in cs;
      CharsAreAccepted(cs[1..]);
      CharIsNotEmpty(c);
      hide Utf8Char, DecodeOne, ValueOf;
      FirstOfConcat(c, rest);
      DecodeOneFollowsSyntax(c + rest, |c|);
      CharLiesInside(c + rest);
      assert (c + rest)[|c|..] == rest;
    }
  }

  lemma CharIsNotEmpty(c: seq<byte>)
    requires Utf8Char(c)
    ensures 1 <= |c| <= 4
  {
  }

  /** Whole strings are accepted exactly when they follow the syntax. */
  lemma AcceptedExactlyUtf8(p: seq<byte>)
    ensures DecodeAll(p).Some? <==> Utf8String(p)
  {
    if DecodeAll(p).Some? {
      var cs := AcceptedIsChars(p);
    }
    if Utf8String(p) {
      var cs: seq<seq<byte>> :| Utf8Chars(cs) && Concat(cs) == p;
      CharsAreAccepted(cs);
    }
  }

  /** Decoding a string to `vs` and encoding `vs` to that string are the same relation. */
  lemma DecodeAllExactly(p: seq<byte>, vs: seq<int>)
    ensures DecodeAll(p) == Some(vs) <==> Scalars(vs) && EncodeAll(vs) == p
  {
    if DecodeAll(p).Some? {
      EncodeDecodeAll(p);
    }
    if Scalars(vs) && EncodeAll(vs) == p {
      DecodeEncodeAll(vs);
    }
  }

  // ---------------------------------------------------------------------------------------------
  // The methods
  // ---------------------------------------------------------------------------------------------

  /** `encode` into a buffer of n bytes: nothing is written unless everything fits. */
  method Encode(value: int, str: array<byte>, n: int) returns (len: int)
    requires n <= str.Length
    modifies str
    ensures 0 <= value <= 0x10FFFF && |EncodeBytes(value)| <= n ==>
              len == |EncodeBytes(value)| && str[..] == EncodeBytes(value) + old(str[..])[len..]
    ensures !(0 <= value <= 0x10FFFF) || n < |EncodeBytes(value)| ==> len == -1 && str[..] == old(str[..])
  {
    if value < 0 || n <= 0 {
      return -1;
    }
    if value < 0x80 {
      str[0] := value;
      return 1;
    }
    if value < 0x800 {
      if n < 2 { return -1; }
      str[0] := LeadByte(0xC0, 32, Shift6(value));
      str[1] := TailByte(Low6(value));
      return 2;
    }
    if value < 0x10000 {
      if n < 3 { return -1; }
      str[0] := LeadByte(0xE0, 16, Shift6(Shift6(value)));
      str[1] := TailByte(Low6(Shift6(value)));
      str[2] := TailByte(Low6(value));
      return 3;
    }
    if value <= 0x10FFFF {
      if n < 4 { return -1; }
      str[0] := LeadByte(0xF0, 8, Shift6(Shift6(Shift6(value))));
      str[1] := TailByte(Low6(Shift6(Shift6(value))));
      str[2] := TailByte(Low6(Shift6(value)));
      str[3] := TailByte(Low6(value));
      return 4;
    }
    return -1;
  }

  /** What the loop has gathered after the first i bytes. */
  function Gathered(b: seq<byte>, i: nat): int
    requires 1 <= i <= |b| <= 4 && 2 <= |b|
  {
    if i == 1 then LeadBits(b[0], if |b| == 2 then 32 else if |b| == 3 then 16 else 8)
    else Gathered(b, i - 1) * 64 + TailBits(b[i - 1])
  }

  lemma GatheredIsValue(b: seq<byte>)
    requires 2 <= |b| <= 4
    ensures Gathered(b, |b|) == ValueOf(b)
  {
    assert Gathered(b, 2) == Gathered(b, 1) * 64 + TailBits(b[1]);
    if |b| >= 3 {
      assert Gathered(b, 3) == Gathered(b, 2) * 64 + TailBits(b[2]);
    }
  }

  /** The range checks of `decode` accept exactly the characters of the syntax. */
  lemma ChecksAreSyntax(b: seq<byte>)
    requires 2 <= |b| <= 4 && Utf8Length(b[0]) == |b|
    requires forall i :: 1 <= i < |b| ==> Tail(b[i])
    ensures var v := ValueOf(b);
            Utf8Char(b) <==>
            && v <= 0x10FFFF
            && !(0xD800 <= v <= 0xDFFF)
            && !(|b| == 2 && v < 0x80) && !(|b| == 3 && v < 0x800) && !(|b| == 4 && v < 0x10000)
  {
    hide TailBits, LeadBits;
  }

  /** `decode`: the count, and what is written through `hex` if anything is. */
  method Decode(p: seq<byte>) returns (count: nat, hex: Option<int>)
    ensures DecodeOne(p).None? ==> count == 0 && hex == None
    ensures DecodeOne(p).Some? ==> count == DecodeOne(p).value.0 && hex == Some(DecodeOne(p).value.1)
  {
    count := Utf8Length(At(p, 0));
    hex := None;
    if count == 0 {
      return;
    }
    ghost var b := First(p, count);
    assert b[0] == At(p, 0);
    if count == 1 {
      hex := Some(At(p, 0));
    } else {
      var u := At(p, 0);
      var value: int := LeadBits(u, if count == 2 then 32 else if count == 3 then 16 else 8);
      for i := 1 to count
        invariant value == Gathered(b, i)
        invariant forall k :: 1 <= k < i ==> Tail(b[k])
      {
        u := At(p, i);
        assert b[i] == u;
        if u < 0x80 || u > 0xBF {
          return 0, None;
        }
        value := value * 64 + TailBits(u);
      }
      GatheredIsValue(b);
      ChecksAreSyntax(b);
      if value > 0x10FFFF { return 0, None; }
      if 0xD800 <= value <= 0xDFFF { return 0, None; }
      if (count == 2 && value < 0x80) || (count == 3 && value < 0x800) || (count == 4 && value < 0x10000) {
        return 0, None;
      }
      hex := Some(value);
    }
  }
}
