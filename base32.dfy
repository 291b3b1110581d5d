/**
 * Base32 without padding, as in section 6 of RFC 4648 ("BASE32_NOPAD" of the
 * `data_encoding` crate that formats chat tickets).
 *
 * The bytes are read as one bit string, most significant bit first; each group
 * of five bits is one symbol of the alphabet `A`-`Z` `2`-`7`, and the last
 * group is filled up with zero bits. Decoding refuses a length no encoding can
 * have (`len % 8` is 1, 3 or 6), any character outside the alphabet, and
 * non-zero filler bits, so every accepted text is the encoding of what it
 * decodes to.
 */
module Base32 {
  import opened Wrappers
  import opened Primitives

  datatype DecodeError =
    | InvalidLength(length: nat)
    | InvalidSymbol(position: nat)
    | NonZeroTrailingBits

  /** The alphabet of section 6 of RFC 4648, symbol 0 first. */
  const Alphabet: string := "ABCDEFGHIJKLMNOPQRSTUVWXYZ234567"

  predicate IsSymbolChar(c: char) {
    'A' <= c <= 'Z' || '2' <= c <= '7'
  }

  /** The character for a five-bit symbol. */
  function SymbolChar(v: nat): (c: char)
    requires v < 32
    ensures IsSymbolChar(c)
  {
    if v < 26 then ('A' as int + v) as char else ('2' as int + (v - 26)) as char
  }

  /** The symbol a character stands for, if it is in the alphabet. */
  function SymbolValue(c: char): (r: Option<nat>)
    ensures r.Some? <==> IsSymbolChar(c)
    ensures r.Some? ==> r.value < 32 && SymbolChar(r.value) == c
  {
    if 'A' <= c <= 'Z' then Some(c as int - 'A' as int)
    else if '2' <= c <= '7' then Some(c as int - '2' as int + 26)
    else None
  }

  lemma SymbolCharInAlphabet(v: nat)
    requires v < 32
    ensures SymbolChar(v) == Alphabet[v]
    ensures SymbolValue(SymbolChar(v)) == Some(v)
  {
  }

  // ---------------------------------------------------------------------------
  // Bit strings

  function Pow2(n: nat): (p: nat)
    ensures p > 0
  {
    if n == 0 then 1 else 2 * Pow2(n - 1)
  }

  /** The n low bits of x, most significant first. */
  function ToBits(x: nat, n: nat): (bits: seq<bool>)
    ensures |bits| == n
  {
    if n == 0 then [] else ToBits(x / 2, n - 1) + [x % 2 == 1]
  }

  /** The number a bit string stands for, most significant bit first. */
  function FromBits(bits: seq<bool>): (x: nat)
    ensures x < Pow2(|bits|)
  {
    if bits == [] then 0
    else 2 * FromBits(bits[..|bits| - 1]) + (if bits[|bits| - 1] then 1 else 0)
  }

  lemma {:induction false} FromToBits(x: nat, n: nat)
    requires x < Pow2(n)
    ensures FromBits(ToBits(x, n)) == x
  {
    if n > 0 {
      var init := ToBits(x / 2, n - 1);
      assert ToBits(x, n)[..n - 1] == init;
      FromToBits(x / 2, n - 1);
    }
  }

  lemma {:induction false} ToFromBits(bits: seq<bool>)
    ensures ToBits(FromBits(bits), |bits|) == bits
  {
    if bits != [] {
      var init := bits[..|bits| - 1];
      ToFromBits(init);
      assert bits == init + [bits[|bits| - 1]];
    }
  }

  function Zeros(n: nat): (z: seq<bool>)
    ensures |z| == n && forall i | 0 <= i < n :: !z[i]
  {
    seq(n, _ => false)
  }

  function BytesToBits(data: seq<byte>): (bits: seq<bool>)
    ensures |bits| == 8 * |data|
  {
    if data == [] then [] else ToBits(data[0] as nat, 8) + BytesToBits(data[1..])
  }

  function BitsToBytes(bits: seq<bool>): (data: seq<byte>)
    requires |bits| % 8 == 0
    ensures 8 * |data| == |bits|
  {
    if bits == [] then [] else [FromBits(bits[..8]) as byte] + BitsToBytes(bits[8..])
  }

  lemma {:induction false} BytesBitsRoundTrip(data: seq<byte>)
    ensures BitsToBytes(BytesToBits(data)) == data
  {
    if data != [] {
      var bits := BytesToBits(data);
      assert bits[..8] == ToBits(data[0] as nat, 8);
      assert bits[8..] == BytesToBits(data[1..]);
      FromToBits(data[0] as nat, 8);
      BytesBitsRoundTrip(data[1..]);
    }
  }

  lemma {:induction false} BitsBytesRoundTrip(bits: seq<bool>)
    requires |bits| % 8 == 0
    ensures BytesToBits(BitsToBytes(bits)) == bits
  {
    if bits != [] {
      ToFromBits(bits[..8]);
      BitsBytesRoundTrip(bits[8..]);
      assert bits == bits[..8] + bits[8..];
    }
  }

  /** Number of zero bits that fill up the last five-bit group. */
  function PadLength(n: nat): (k: nat)
    ensures k < 5 && (n + k) % 5 == 0
  {
    if n % 5 == 0 then 0 else 5 - n % 5
  }

  /** Cuts a bit string into five-bit symbols, zero-filling the last one. */
  function BitsToSymbols(bits: seq<bool>): (syms: seq<nat>)
    ensures |syms| == (|bits| + 4) / 5
    ensures forall i | 0 <= i < |syms| :: syms[i] < 32
    decreases |bits|
  {
    if bits == [] then []
    else if |bits| < 5 then [FromBits(bits + Zeros(5 - |bits|))]
    else [FromBits(bits[..5])] + BitsToSymbols(bits[5..])
  }

  function SymbolsToBits(syms: seq<nat>): (bits: seq<bool>)
    ensures |bits| == 5 * |syms|
  {
    if syms == [] then [] else ToBits(syms[0], 5) + SymbolsToBits(syms[1..])
  }

  lemma {:induction false} SymbolsOfBits(bits: seq<bool>)
    ensures SymbolsToBits(BitsToSymbols(bits)) == bits + Zeros(PadLength(|bits|))
    decreases |bits|
  {
    if bits == [] {
    } else if |bits| < 5 {
      SymbolsOfShortBits(bits);
    } else {
      SymbolsOfBits(bits[5..]);
      SymbolsOfLongBits(bits);
    }
  }

  /** Fewer than five bits are one zero-filled symbol. */
  lemma {:induction false} SymbolsOfShortBits(bits: seq<bool>)
    requires 0 < |bits| < 5
    ensures SymbolsToBits(BitsToSymbols(bits)) == bits + Zeros(PadLength(|bits|))
  {
    var word := bits + Zeros(5 - |bits|);
    ToFromBits(word);
    var syms := BitsToSymbols(bits);
    assert syms == [FromBits(word)] && syms[1..] == [];
    assert SymbolsToBits(syms) == ToBits(FromBits(word), 5) + SymbolsToBits([]);
    assert PadLength(|bits|) == 5 - |bits|;
  }

  /** The step of SymbolsOfBits: five bits make one symbol, ahead of the symbols of the rest. */
  lemma {:induction false} SymbolsOfLongBits(bits: seq<bool>)
    requires |bits| >= 5
    requires SymbolsToBits(BitsToSymbols(bits[5..])) == bits[5..] + Zeros(PadLength(|bits| - 5))
    ensures SymbolsToBits(BitsToSymbols(bits)) == bits + Zeros(PadLength(|bits|))
  {
    var head, tail := bits[..5], bits[5..];
    ToFromBits(head);
    var syms := BitsToSymbols(bits);
    assert syms == [FromBits(head)] + BitsToSymbols(tail);
    assert syms[1..] == BitsToSymbols(tail);
    assert SymbolsToBits(syms) == head + (tail + Zeros(PadLength(|tail|)));
    PadLengthShift(|bits|);
    assert bits == head + tail;
  }

  /** Five more bits need the same filler. */
  lemma PadLengthShift(n: nat)
    requires n >= 5
    ensures PadLength(n - 5) == PadLength(n)
  {
    var q, r := (n - 5) / 5, (n - 5) % 5;
    DivFive(n, q + 1, r);
  }

  /** A zero-filled bit string is cut back into the symbols it came from. */
  lemma {:induction false} BitsOfSymbols(bits: seq<bool>, syms: seq<nat>)
    requires forall i | 0 <= i < |syms| :: syms[i] < 32
    requires 5 * |syms| - 5 < |bits| <= 5 * |syms|
    requires SymbolsToBits(syms) == bits + Zeros(5 * |syms| - |bits|)
    ensures BitsToSymbols(bits) == syms
    decreases |syms|
  {
    if syms != [] {
      var head := SymbolsToBits(syms)[..5];
      assert head == ToBits(syms[0], 5);
      FromToBits(syms[0], 5);
      if |bits| < 5 {
        assert bits + Zeros(5 - |bits|) == head;
      } else if |syms| == 1 {
        assert bits[..5] == head;
      } else {
        assert bits[..5] == head;
        var rest := SymbolsToBits(syms)[5..];
        assert rest == SymbolsToBits(syms[1..]);
        assert rest == bits[5..] + Zeros(5 * |syms| - |bits|);
        BitsOfSymbols(bits[5..], syms[1..]);
      }
    }
  }

  // ---------------------------------------------------------------------------
  // Text

  function SymbolsToText(syms: seq<nat>): (text: string)
    requires forall i | 0 <= i < |syms| :: syms[i] < 32
    ensures |text| == |syms|
    ensures forall i | 0 <= i < |syms| :: text[i] == SymbolChar(syms[i])
  {
    seq(|syms|, i requires 0 <= i < |syms| => SymbolChar(syms[i]))
  }

  /** The symbols of a text, or the position of its first character outside the alphabet. */
  function TextToSymbols(text: string): (r: Result<seq<nat>, DecodeError>)
    ensures r.Ok? <==> forall i | 0 <= i < |text| :: IsSymbolChar(text[i])
    ensures r.Ok? ==> |r.value| == |text|
    ensures r.Ok? ==> forall i | 0 <= i < |text| :: r.value[i] < 32 && SymbolChar(r.value[i]) == text[i]
    ensures r.Err? ==> r.error.InvalidSymbol? && r.error.position < |text|
                       && !IsSymbolChar(text[r.error.position])
                       && forall i | 0 <= i < r.error.position :: IsSymbolChar(text[i])
  {
    if text == [] then Ok([])
    else match SymbolValue(text[0])
      case None => Err(InvalidSymbol(0))
      case Some(v) =>
        match TextToSymbols(text[1..])
        case Err(e) => Err(InvalidSymbol(e.position + 1))
        case Ok(rest) => Ok([v] + rest)
  }

  /** Lengths (mod 8) that no encoding has: they leave five or more filler bits. */
  predicate BadLength(n: nat) {
    n % 8 == 1 || n % 8 == 3 || n % 8 == 6
  }

  /** The encoding of some bytes: ceil(8n/5) characters of the alphabet. */
  function Encode(data: seq<byte>): (text: string)
    ensures |text| == (8 * |data| + 4) / 5
    ensures forall i | 0 <= i < |text| :: IsSymbolChar(text[i])
  {
    SymbolsToText(BitsToSymbols(BytesToBits(data)))
  }

  function Decode(text: string): (r: Result<seq<byte>, DecodeError>)
    ensures r.Ok? ==> |r.value| == 5 * |text| / 8
  {
    if BadLength(|text|) then Err(InvalidLength(|text|))
    else match TextToSymbols(text)
      case Err(e) => Err(e)
      case Ok(syms) =>
        var bits := SymbolsToBits(syms);
        var n := 5 * |text| / 8;
        FillerBits(|text|);
        DivEight(8 * n, n, 0);
        if true in bits[8 * n..] then Err(NonZeroTrailingBits)
        else Ok(BitsToBytes(bits[..8 * n]))
  }

  // ---------------------------------------------------------------------------
  // Properties

  /** Length arithmetic of an n-byte encoding. */
  lemma EncodedLength(n: nat)
    ensures !BadLength((8 * n + 4) / 5)
    ensures 5 * ((8 * n + 4) / 5) / 8 == n
    ensures 5 * ((8 * n + 4) / 5) == 8 * n + PadLength(8 * n)
  {
    var q, r := n / 5, n % 5;
    // 8 * r == 5 * k + m, and the length is 8 * q + c characters
    var c, k, m;
    if r == 0 { c, k, m := 0, 0, 0; }
    else if r == 1 { c, k, m := 2, 1, 3; }
    else if r == 2 { c, k, m := 4, 3, 1; }
    else if r == 3 { c, k, m := 5, 4, 4; }
    else { c, k, m := 7, 6, 2; }
    var len := 8 * q + c;
    DivFive(8 * n + 4, len, 8 * r + 4 - 5 * c);
    DivEight(len, q, c);
    DivEight(5 * len, n, 5 * c - 8 * r);
    DivFive(8 * n, 8 * q + k, m);
  }

  lemma DivFive(a: int, q: int, r: int)
    requires a == 5 * q + r && 0 <= r < 5
    ensures a / 5 == q && a % 5 == r
  {
  }

  lemma DivEight(a: int, q: int, r: int)
    requires a == 8 * q + r && 0 <= r < 8
    ensures a / 8 == q && a % 8 == r
  {
  }

  /** The symbols read from a text are the ones it was written from, and back. */
  lemma TextSymbolsRoundTrip(syms: seq<nat>, text: string)
    requires forall i | 0 <= i < |syms| :: syms[i] < 32
    ensures TextToSymbols(SymbolsToText(syms)) == Ok(syms)
    ensures TextToSymbols(text).Ok? ==> SymbolsToText(TextToSymbols(text).value) == text
  {
    var r := TextToSymbols(SymbolsToText(syms));
    forall i | 0 <= i < |syms| ensures r.value[i] == syms[i] {
      assert SymbolValue(SymbolChar(r.value[i])) == Some(r.value[i]);
      assert SymbolValue(SymbolChar(syms[i])) == Some(syms[i]);
    }
    assert r.value == syms;
  }

  /** Decoding an encoding gives back the bytes. */
  lemma DecodeEncode(data: seq<byte>)
    ensures Decode(Encode(data)) == Ok(data)
  {
    var bits := BytesToBits(data);
    var syms := BitsToSymbols(bits);
    var text := Encode(data);
    EncodedLength(|data|);
    var n := 5 * |text| / 8;
    assert n == |data|;
    TextSymbolsRoundTrip(syms, text);
    SymbolsOfBits(bits);
    var padded := SymbolsToBits(syms);
    assert padded[..8 * n] == bits;
    assert padded[8 * n..] == Zeros(PadLength(|bits|));
    BytesBitsRoundTrip(data);
  }

  /** A length that decodes leaves fewer than five filler bits. */
  lemma FillerBits(len: nat)
    requires !BadLength(len)
    ensures 5 * len - 5 < 8 * (5 * len / 8) <= 5 * len
  {
    var q, k := len / 8, len % 8;
    assert len == 8 * q + k;
    assert 5 * len == 8 * (5 * q) + 5 * k;
    if k == 0 { assert 5 * len / 8 == 5 * q; }
    else if k == 2 { assert 5 * len / 8 == 5 * q + 1; }
    else if k == 4 { assert 5 * len / 8 == 5 * q + 2; }
    else if k == 5 { assert 5 * len / 8 == 5 * q + 3; }
    else { assert 5 * len / 8 == 5 * q + 4; }
  }

  lemma NoTrueIsZeros(bits: seq<bool>, m: nat)
    requires m <= |bits| && true !in bits[m..]
    ensures bits == bits[..m] + Zeros(|bits| - m)
  {
    forall i | m <= i < |bits| ensures !bits[i] {
      assert bits[i] == bits[m..][i - m];
    }
  }

  /** Every text that decodes is the encoding of what it decodes to. */
  lemma EncodeDecode(text: string)
    requires Decode(text).Ok?
    ensures Encode(Decode(text).value) == text
  {
    var syms := TextToSymbols(text).value;
    var bits := SymbolsToBits(syms);
    var n := 5 * |text| / 8;
    var data := Decode(text).value;
    FillerBits(|text|);
    DivEight(8 * n, n, 0);
    assert data == BitsToBytes(bits[..8 * n]);
    BitsBytesRoundTrip(bits[..8 * n]);
    NoTrueIsZeros(bits, 8 * n);
    BitsOfSymbols(bits[..8 * n], syms);
    assert BitsToSymbols(BytesToBits(data)) == syms;
    TextSymbolsRoundTrip(syms, text);
  }

  /** A character outside the alphabet makes decoding fail. */
  lemma ForeignCharRejected(text: string, i: nat)
    requires i < |text| && !IsSymbolChar(text[i])
    ensures Decode(text).Err?
  {
  }

  // ---------------------------------------------------------------------------
  // Known answers (section 10 of RFC 4648, without the padding)

  /** BASE32("f") = "MY": 01100 110|00 is symbols 12 and 24. */
  lemma EncodeF()
    ensures Encode([0x66]) == "MY"
    ensures Decode("MY") == Ok([0x66])
  {
    var bits := BitsOfF();
    assert BytesToBits([0x66]) == bits;
    KnownSymbolBits();
    FromToBits(12, 5);
    FromToBits(24, 5);
    assert bits[..5] == ToBits(12, 5);
    assert bits[5..] + Zeros(2) == ToBits(24, 5);
    assert BitsToSymbols(bits[5..]) == [24];
    assert BitsToSymbols(bits) == [12, 24];
    DecodeEncode([0x66]);
  }

  /** BASE32("fo") = "MZXQ": 01100 11001 10111 1|0000 is symbols 12, 25, 23 and 16. */
  lemma EncodeFo()
    ensures Encode([0x66, 0x6f]) == "MZXQ"
    ensures Decode("MZXQ") == Ok([0x66, 0x6f])
  {
    FoBits();
    FoSymbols(ToBits(12, 5), ToBits(25, 5), ToBits(23, 5));
    FoText([12, 25, 23, 16]);
    DecodeEncode([0x66, 0x6f]);
  }

  /** Symbols 12, 25, 23 and 16 are written `MZXQ`. */
  lemma FoText(syms: seq<nat>)
    requires syms == [12, 25, 23, 16]
    ensures SymbolsToText(syms) == "MZXQ"
  {
    var text := SymbolsToText(syms);
    assert text[0] == 'M' && text[1] == 'Z' && text[2] == 'X' && text[3] == 'Q';
  }

  /** The bits of "fo", regrouped as the bits of three symbols and one more bit. */
  lemma FoBits()
    ensures BytesToBits([0x66, 0x6f]) == ToBits(12, 5) + ToBits(25, 5) + ToBits(23, 5) + [true]
  {
    var f := BitsOfF();
    var o := BitsOfO();
    BitsOfTwoBytes(0x66, 0x6f);
    KnownSymbolBits();
    var m, z, x := ToBits(12, 5), ToBits(25, 5), ToBits(23, 5);
    assert f == m + [true, true, false];
    assert z == [true, true, false] + [false, true];
    assert o == [false, true] + x + [true];
  }

  /** The bits of two bytes are the bits of the first, then those of the second. */
  lemma BitsOfTwoBytes(a: byte, b: byte)
    ensures BytesToBits([a, b]) == ToBits(a as nat, 8) + ToBits(b as nat, 8)
  {
    assert [a, b][1..] == [b] && [b][1..] == [];
  }

  /** The bits of `f` (0x66), most significant first. */
  lemma BitsOfF() returns (bits: seq<bool>)
    ensures bits == ToBits(0x66, 8) == [false, true, true, false, false, true, true, false]
  {
    assert ToBits(0x3, 3) == [false, true, true];
    assert ToBits(0x6, 4) == [false, true, true, false];
    assert ToBits(0xc, 5) == [false, true, true, false, false];
    assert ToBits(0x19, 6) == [false, true, true, false, false, true];
    assert ToBits(0x33, 7) == [false, true, true, false, false, true, true];
    bits := [false, true, true, false, false, true, true, false];
  }

  /** The bits of `o` (0x6f), most significant first. */
  lemma BitsOfO() returns (bits: seq<bool>)
    ensures bits == ToBits(0x6f, 8) == [false, true, true, false, true, true, true, true]
  {
    assert ToBits(0x3, 3) == [false, true, true];
    assert ToBits(0x6, 4) == [false, true, true, false];
    assert ToBits(0xd, 5) == [false, true, true, false, true];
    assert ToBits(0x1b, 6) == [false, true, true, false, true, true];
    assert ToBits(0x37, 7) == [false, true, true, false, true, true, true];
    bits := [false, true, true, false, true, true, true, true];
  }

  /** The five bits of the symbols `M` (12), `Y` (24), `Z` (25), `X` (23) and `Q` (16). */
  lemma KnownSymbolBits()
    ensures ToBits(12, 5) == [false, true, true, false, false]
    ensures ToBits(24, 5) == [true, true, false, false, false]
    ensures ToBits(25, 5) == [true, true, false, false, true]
    ensures ToBits(23, 5) == [true, false, true, true, true]
    ensures ToBits(16, 5) == [true, false, false, false, false]
  {
    assert ToBits(1, 2) == [false, true];
    assert ToBits(3, 3) == [false, true, true];
    assert ToBits(6, 4) == [false, true, true, false];
    assert ToBits(3, 2) == [true, true];
    assert ToBits(6, 3) == [true, true, false];
    assert ToBits(12, 4) == [true, true, false, false];
    assert ToBits(2, 2) == [true, false];
    assert ToBits(5, 3) == [true, false, true];
    assert ToBits(11, 4) == [true, false, true, true];
    assert ToBits(4, 3) == [true, false, false];
    assert ToBits(8, 4) == [true, false, false, false];
  }

  /** Five bits followed by more are cut into the symbol of the five and the symbols of the rest. */
  lemma SymbolsOfPrefix(head: seq<bool>, rest: seq<bool>)
    requires |head| == 5 && rest != []
    ensures BitsToSymbols(head + rest) == [FromBits(head)] + BitsToSymbols(rest)
  {
    assert (head + rest)[..5] == head && (head + rest)[5..] == rest;
  }

  /** The last bit of "fo", zero-filled, is symbol 16. */
  lemma LastSymbolOfFo()
    ensures BitsToSymbols([true]) == [16]
  {
    KnownSymbolBits();
    assert Zeros(4) == [false, false, false, false];
    assert [true] + Zeros(4) == ToBits(16, 5);
    FromToBits(16, 5);
  }

  /** The sixteen bits of "fo" cut into symbols 12, 25, 23 and 16. */
  lemma FoSymbols(m: seq<bool>, z: seq<bool>, x: seq<bool>)
    requires m == ToBits(12, 5) && z == ToBits(25, 5) && x == ToBits(23, 5)
    ensures BitsToSymbols(m + z + x + [true]) == [12, 25, 23, 16]
  {
    FromToBits(12, 5);
    FromToBits(25, 5);
    FromToBits(23, 5);
    LastSymbolOfFo();
    SymbolsOfPrefix(x, [true]);
    SymbolsOfPrefix(z, x + [true]);
    assert m + z + x + [true] == m + (z + (x + [true]));
    SymbolsOfPrefix(m, z + (x + [true]));
  }

  /** `MZ` has a valid length and alphabet, but its filler bits 01 are not zero. */
  lemma DecodeMzRejected()
    ensures Decode("MZ") == Err(NonZeroTrailingBits)
  {
    MzRejected("MZ");
  }

  /** Decoding `MZ`: two symbols, one byte, and two filler bits of which the second is set. */
  lemma MzRejected(text: string)
    requires text == "MZ"
    ensures Decode(text) == Err(NonZeroTrailingBits)
  {
    assert |text| == 2 && !BadLength(|text|);
    assert IsSymbolChar(text[0]) && IsSymbolChar(text[1]);
    var syms := TextToSymbols(text).value;
    assert SymbolChar(syms[0]) == 'M' && SymbolChar(syms[1]) == 'Z';
    MzFiller(syms);
    var bits := SymbolsToBits(syms);
    assert bits[9] in bits[8..];
  }

  /** The ninth and tenth bits of the symbols 12 and 25 are 0 and 1. */
  lemma MzFiller(syms: seq<nat>)
    requires |syms| == 2 && syms[0] == 12 && syms[1] == 25
    ensures SymbolsToBits(syms)[9]
  {
    assert syms[1..][1..] == [];
    assert SymbolsToBits(syms) == ToBits(syms[0], 5) + (ToBits(syms[1], 5) + SymbolsToBits([]));
    assert ToBits(syms[1], 5)[4];
  }
}
