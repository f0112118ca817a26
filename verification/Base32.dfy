/**
 The human-friendly Base32 code of connection tickets. Both sources pack bits through a 32-bit
 accumulator that is never masked; only its low `bits` bits are pending.
 */
module Base32 {
  import opened Common
  import opened Bits
  import opened Crc16

  const ALPHABET: string := "0123456789ABCDEFGHJKMNPQRSTVWXYZ"

  // The code on bit strings: the reference the loops are measured against.

  /** The number of zero bits that complete the last symbol. */
  function Padding(length: nat): (n: nat)
    ensures n < 5
  {
    if length % 5 == 0 then 0 else 5 - length % 5
  }

  function Padded(bytes: Bytes): seq<bool> {
    ByteBits(bytes) + Zeros(Padding(8 * |bytes|))
  }

  /** Five-bit digits of the byte string, the last one padded with zero bits. */
  function EncodedDigits(bytes: Bytes): seq<nat> {
    Pack(Padded(bytes), 5)
  }

  lemma PaddingFacts(n: nat, length: nat)
    requires length == 8 * n + Padding(8 * n)
    ensures length == 5 * (length / 5)
    ensures length - length % 8 == 8 * n
  {
    var q, r := 8 * n / 5, 8 * n % 5;
    assert 8 * n == 5 * q + r;
    assert length == 5 * (if r == 0 then q else q + 1);
    assert length == 8 * n + Padding(8 * n) && length / 8 == n;
  }

  /** Bytes of the whole octets in the digits; the remaining bits are padding. */
  function DecodedBytes(digits: seq<nat>): Bytes {
    var bits := Unpack(digits, 5);
    PackFits(bits[..|bits| - |bits| % 8], 8);
    WordSizes();
    Pack(bits[..|bits| - |bits| % 8], 8)
  }

  lemma {:induction false} WholeMultiple(length: nat, w: nat, n: nat)
    requires w > 0 && length == w * n
    ensures Whole(length, w)
  {
    if n > 0 {
      assert w * n == w * (n - 1) + w;
      WholeMultiple(length - w, w, n - 1);
    }
  }

  lemma {:induction false} QuintetBits(digits: seq<nat>)
    ensures |Unpack(digits, 5)| == 5 * |digits|
  {
    if digits != [] { QuintetBits(digits[..|digits| - 1]); }
  }

  lemma EncodedBits(bytes: Bytes)
    ensures Unpack(EncodedDigits(bytes), 5) == Padded(bytes)
    ensures Fits(EncodedDigits(bytes), 5)
    ensures 5 * |EncodedDigits(bytes)| == 8 * |bytes| + Padding(8 * |bytes|)
  {
    hide Unpack, Pack, Fits, Whole, Padding;
    var n := |Padded(bytes)|;
    PaddingFacts(|bytes|, n);
    WholeMultiple(n, 5, n / 5);
    UnpackPack(Padded(bytes), 5);
    QuintetBits(EncodedDigits(bytes));
  }

  lemma DecodedBits(digits: seq<nat>)
    ensures var bits := Unpack(digits, 5);
            Unpack(DecodedBytes(digits), 8) == bits[..|bits| - |bits| % 8]
    ensures Fits(DecodedBytes(digits), 8)
    ensures |Unpack(digits, 5)| == 5 * |digits|
  {
    hide Unpack, Pack, Fits, Whole;
    QuintetBits(digits);
    var bits := Unpack(digits, 5);
    var whole := bits[..|bits| - |bits| % 8];
    WholeMultiple(|whole|, 8, |whole| / 8);
    UnpackPack(whole, 8);
  }

  /** Decoding undoes encoding, for byte strings of every length. */
  lemma DigitsRoundTrip(bytes: Bytes)
    ensures DecodedBytes(EncodedDigits(bytes)) == bytes
  {
    hide Unpack, Pack, Fits, EncodedDigits, Padding;
    var all := Padded(bytes);
    EncodedBits(bytes);
    PaddingFacts(|bytes|, |all|);
    assert all[..8 * |bytes|] == ByteBits(bytes);
    BytesFit(bytes);
    PackUnique(bytes, 8);
  }

  // The encoder.

  function Symbol(digit: nat): char
    requires digit < 32
  {
    ALPHABET[digit]
  }

  function Symbols(digits: seq<nat>): string
    requires Fits(digits, 5)
  {
    Thirty();
    seq(|digits|, i requires 0 <= i < |digits| => Symbol(digits[i]))
  }

  lemma SymbolCode(d: nat)
    requires d < 32
    ensures ALPHABET[d] as int ==
      if d < 10 then 48 + d else if d < 18 then 55 + d else if d < 20 then 56 + d else if d < 22 then 57 + d
      else if d < 27 then 58 + d else 59 + d
  {
  }

  /** The symbols are the ten digits and the capitals without I, L, O and U. */
  lemma SymbolExactly(c: char)
    ensures |ALPHABET| == 32
    ensures ('0' <= c <= '9' || ('A' <= c <= 'Z' && c != 'I' && c != 'L' && c != 'O' && c != 'U')) <==>
      exists d: nat :: d < 32 && ALPHABET[d] == c
  {
    var x := c as int;
    var d := if x <= 57 then x - 48 else if x <= 72 then x - 55 else if x <= 75 then x - 56 else if x <= 78 then x - 57
             else if x <= 84 then x - 58 else x - 59;
    if 0 <= d < 32 { SymbolCode(d); }
    if e: nat :| e < 32 && ALPHABET[e] == c { SymbolCode(e); }
  }

  lemma Thirty()
    ensures Pow2(5) == 32
  {
  }

  /** Appending a byte to the accumulator appends its bits to the pending ones. */
  lemma AbsorbByte(value: nat, bits: nat, byte: Byte)
    requires bits <= 24
    ensures Digits(Low(Or(Shl(value, 8), byte), 32), bits + 8) == Digits(value, bits) + Digits(byte, 8)
  {
    hide Digits, Shl, Or, Low;
    WordSizes();
    JoinDisjoint(value, byte, 8);
    DigitsLow(Shl(value, 8) + byte, 32, bits + 8);
    DigitsJoin(value, byte, bits, 8);
  }

  lemma AbsorbDigit(value: nat, bits: nat, digit: nat)
    requires bits <= 24 && digit < 32
    ensures Digits(Low(Or(Shl(value, 5), digit), 32), bits + 5) == Digits(value, bits) + Digits(digit, 5)
  {
    hide Digits, Shl, Or, Low;
    Thirty();
    JoinDisjoint(value, digit, 5);
    DigitsLow(Shl(value, 5) + digit, 32, bits + 5);
    DigitsJoin(value, digit, bits, 5);
  }

  /** Emitting w masked bits takes them off the front of the pending ones. */
  lemma EmitWord(value: nat, bits: nat, w: nat)
    requires w <= bits
    ensures And(Shr(value, bits - w), Pow2(w) - 1) < Pow2(w)
    ensures Digits(value, bits)
         == Digits(And(Shr(value, bits - w), Pow2(w) - 1), w) + Digits(value, bits - w)
  {
    hide Digits, Shr, And, Low;
    AndMask(Shr(value, bits - w), w);
    DigitsLow(Shr(value, bits - w), w, w);
    DigitsSplit(value, w, bits - w);
  }

  lemma EmitLast(value: nat, bits: nat)
    requires 0 < bits < 5
    ensures And(Low(Shl(value, 5 - bits), 32), 31) < 32
    ensures Digits(And(Low(Shl(value, 5 - bits), 32), 31), 5) == Digits(value, bits) + Zeros(5 - bits)
  {
    hide Digits, Shl, And, Low;
    Thirty();
    var x := Shl(value, 5 - bits);
    AndMask(Low(x, 32), 5);
    DigitsLow(Low(x, 32), 5, 5);
    DigitsLow(x, 32, 5);
    DigitsJoin(value, 0, bits, 5 - bits);
    DigitsZero(5 - bits);
  }

  lemma PushDigit(digits: seq<nat>, d: nat)
    requires Fits(digits, 5) && d < 32
    ensures Fits(digits + [d], 5)
    ensures Symbols(digits + [d]) == Symbols(digits) + [ALPHABET[d]]
    ensures Unpack(digits + [d], 5) == Unpack(digits, 5) + Digits(d, 5)
  {
    hide Digits, Unpack, Pow2;
    Thirty();
    UnpackSnoc(digits, d, 5);
    SymbolsSnoc(digits, d);
  }

  lemma SymbolsSnoc(digits: seq<nat>, d: nat)
    requires Fits(digits, 5) && Fits(digits + [d], 5) && d < 32
    ensures Symbols(digits + [d]) == Symbols(digits) + [ALPHABET[d]]
  {
    hide Symbol, Pow2, Fits;
    OneSymbol(d);
  }

  lemma OneSymbol(d: nat)
    requires d < 32
    ensures Symbol(d) == ALPHABET[d]
  {
  }

  /** The inner loop: emit five-bit symbols while there are five pending bits. */
  method DrainSymbols(value: nat, bits: nat, out: string, ghost digits: seq<nat>)
    returns (bits': nat, out': string, ghost digits': seq<nat>)
    requires bits <= 12 && Fits(digits, 5) && out == Symbols(digits)
    ensures bits' < 5 && Fits(digits', 5) && out' == Symbols(digits')
    ensures Unpack(digits', 5) + Digits(value, bits') == Unpack(digits, 5) + Digits(value, bits)
  {
    hide Digits, Unpack, And, Shr, Fits, Symbols;
    bits', out', digits' := bits, out, digits;
    while bits' >= 5
      invariant bits' <= 12 && Fits(digits', 5) && out' == Symbols(digits')
      invariant Unpack(digits', 5) + Digits(value, bits') == Unpack(digits, 5) + Digits(value, bits)
    {
      Thirty();
      EmitWord(value, bits', 5);
      var d := And(Shr(value, bits' - 5), 31);
      PushDigit(digits', d);
      assert Unpack(digits', 5) + (Digits(d, 5) + Digits(value, bits' - 5))
          == Unpack(digits', 5) + Digits(d, 5) + Digits(value, bits' - 5);
      out' := out' + [ALPHABET[d]];
      digits' := digits' + [d];
      bits' := bits' - 5;
    }
  }

  method PackSymbols(bytes: Bytes) returns (out: string)
    ensures Fits(EncodedDigits(bytes), 5)
    ensures out == Symbols(EncodedDigits(bytes))
  {
    hide Digits, Unpack, And, Or, Shl, Shr, Low, Fits, Symbols, Pack;
    var bits: nat, value: nat := 0, 0;
    out := "";
    ghost var digits: seq<nat> := [];
    EmptyStart();
    for k := 0 to |bytes|
      invariant bits < 5 && Fits(digits, 5) && out == Symbols(digits)
      invariant Unpack(digits, 5) + Digits(value, bits) == ByteBits(bytes[..k])
    {
      AbsorbByte(value, bits, bytes[k]);
      assert bytes[..k + 1] == bytes[..k] + [bytes[k]];
      UnpackSnoc(bytes[..k], bytes[k], 8);
      assert Unpack(digits, 5) + (Digits(value, bits) + Digits(bytes[k], 8))
          == Unpack(digits, 5) + Digits(value, bits) + Digits(bytes[k], 8);
      value := Low(Or(Shl(value, 8), bytes[k]), 32);
      bits := bits + 8;
      bits, out, digits := DrainSymbols(value, bits, out, digits);
    }
    assert bytes[..|bytes|] == bytes;
    out := FlushSymbols(value, bits, out, digits, bytes);
  }

  lemma NoDigits(value: nat)
    ensures Digits(value, 0) == []
  {
  }

  /** After the loop: the pending bits, padded with zeros, make the last symbol. */
  method FlushSymbols(value: nat, bits: nat, out: string, ghost digits: seq<nat>, ghost bytes: Bytes)
    returns (out': string)
    requires bits < 5 && Fits(digits, 5) && out == Symbols(digits)
    requires Unpack(digits, 5) + Digits(value, bits) == ByteBits(bytes)
    ensures Fits(EncodedDigits(bytes), 5)
    ensures out' == Symbols(EncodedDigits(bytes))
  {
    hide Digits, Unpack, And, Shl, Low, Fits, Symbols, Pack, Padding, Zeros, ByteBits;
    out' := out;
    if bits > 0 {
      EmitLast(value, bits);
      var d := And(Low(Shl(value, 5 - bits), 32), 31);
      PushDigit(digits, d);
      PaddedTail(digits, value, bits, bytes);
      assert Unpack(digits + [d], 5) == Padded(bytes);
      PackUnique(digits + [d], 5);
      out' := out + [ALPHABET[d]];
    } else {
      PaddedTail(digits, value, bits, bytes);
      assert Unpack(digits, 5) == Padded(bytes);
      PackUnique(digits, 5);
    }
  }

  lemma PaddedTail(digits: seq<nat>, value: nat, bits: nat, bytes: Bytes)
    requires bits < 5
    requires Unpack(digits, 5) + Digits(value, bits) == ByteBits(bytes)
    ensures bits > 0 ==> Unpack(digits, 5) + (Digits(value, bits) + Zeros(5 - bits)) == Padded(bytes)
    ensures bits == 0 ==> Unpack(digits, 5) == Padded(bytes)
  {
    hide Digits, Unpack, ByteBits, Fits, Padding;
    QuintetBits(digits);
    assert |Digits(value, bits)| == bits && 5 * |digits| + bits == 8 * |bytes|;
    TailPadding(|digits|, bits);
    if bits == 0 { NoDigits(value); }
  }

  lemma TailPadding(n: nat, bits: nat)
    requires bits < 5
    ensures Padding(5 * n + bits) == if bits == 0 then 0 else 5 - bits
  {
    assert (5 * n + bits) % 5 == bits;
  }

  lemma EmptyStart()
    ensures Fits([], 5) && Fits([], 8) && Symbols([]) == "" && Unpack([], 5) == [] && Unpack([], 8) == []
    ensures Digits(0, 0) == []
  {
  }

  /** Groups of four joined by dashes. */
  function Grouped(s: string): string {
    if |s| <= 4 then s else s[..4] + "-" + Grouped(s[4..])
  }

  /** The printed text, character by character: a dash after every four symbols but not at the end. */
  lemma {:induction false} GroupedExactly(s: string)
    ensures |Grouped(s)| == |s| + (if s == "" then 0 else (|s| - 1) / 4)
    ensures forall j :: 0 <= j < |Grouped(s)| ==>
      j - j / 5 <= |s| && (j % 5 == 4 ==> Grouped(s)[j] == '-') && (j % 5 != 4 ==> j - j / 5 < |s| && Grouped(s)[j] == s[j - j / 5])
  {
    if |s| > 4 {
      var rest := Grouped(s[4..]);
      GroupedExactly(s[4..]);
      forall j | 5 <= j < |Grouped(s)|
        ensures j - j / 5 <= |s| && (j % 5 == 4 ==> Grouped(s)[j] == '-')
        ensures j % 5 != 4 ==> j - j / 5 < |s| && Grouped(s)[j] == s[j - j / 5]
      {
        assert Grouped(s)[j] == rest[j - 5] && (j - 5) / 5 == j / 5 - 1 && (j - 5) % 5 == j % 5;
      }
    }
  }

  /** JavaScript: on no symbols `match` yields null and `join` throws. */
  method Encode(bytes: Bytes) returns (r: Result<string, string>)
    ensures bytes == [] <==> r.Err?
    ensures r.Ok? ==> Fits(EncodedDigits(bytes), 5) && r.value == Grouped(Symbols(EncodedDigits(bytes)))
  {
    var out := PackSymbols(bytes);
    EncodedBits(bytes);
    if out == "" { return Err("no symbols to group"); }
    r := Ok(Grouped(out));
  }

  /** Kotlin: `chunked(4).joinToString("-")` maps the empty byte string to the empty text. */
  method EncodeKotlin(bytes: Bytes) returns (s: string)
    ensures Fits(EncodedDigits(bytes), 5) && s == Grouped(Symbols(EncodedDigits(bytes)))
  {
    var out := PackSymbols(bytes);
    s := Grouped(out);
  }

  // The decoder.

  function AsciiUpper(c: char): (u: char)
    ensures 'a' <= c <= 'z' ==> c as int - u as int == 32
    ensures !('a' <= c <= 'z') ==> u == c
  {
    if 'a' <= c <= 'z' then 'A' + (c - 'a') else c
  }

  /**
   Unicode upper-casing, one character to a text ('ı' to "I", 'ß' to "SS"). Only its values on ASCII
   are fixed here.
   */
  type UpperCase = u: char -> string | forall c: char :: c as int < 128 ==> u(c) == [AsciiUpper(c)]
    witness (c: char) => [AsciiUpper(c)]

  predicate AsciiAlnum(c: char) {
    '0' <= c <= '9' || 'A' <= c <= 'Z'
  }

  /** The whole text upper-cased. */
  function Raised(upper: UpperCase, text: string): string {
    if text == "" then "" else upper(text[0]) + Raised(upper, text[1..])
  }

  /** What is left without anything but ASCII letters and digits. */
  function Kept(text: string): string {
    if text == "" then "" else (if AsciiAlnum(text[0]) then [text[0]] else "") + Kept(text[1..])
  }

  /** Upper-cased first, then stripped: a character may become an ASCII letter only by its upper case. */
  function Clean(upper: UpperCase, text: string): string {
    Kept(Raised(upper, text))
  }

  function IndexOf(s: string, c: char): (i: int)
    ensures -1 <= i < |s|
    ensures i >= 0 ==> s[i] == c
    ensures i == -1 <==> c !in s
  {
    if s == "" then -1
    else if s[|s| - 1] == c && c !in s[..|s| - 1] then |s| - 1
    else IndexOf(s[..|s| - 1], c)
  }

  /** The decoding table: the alphabet with O read as 0 and I, L as 1. */
  function DigitOf(c: char): (d: Option<nat>)
    ensures d.Some? ==> d.value < 32
  {
    if c == 'O' then Some(0)
    else if c == 'I' || c == 'L' then Some(1)
    else
      var i := IndexOf(ALPHABET, c);
      if i < 0 then None else Some(i)
  }

  /** The digits of a cleaned text, if every symbol has one. */
  function DigitsOf(clean: string): Option<seq<nat>> {
    if clean == "" then Some([])
    else
      var front, last := DigitsOf(clean[..|clean| - 1]), DigitOf(clean[|clean| - 1]);
      if front.None? || last.None? then None else Some(front.value + [last.value])
  }

  lemma DigitsOfNext(clean: string, k: nat)
    requires k < |clean| && DigitsOf(clean[..k]).Some?
    ensures DigitsOf(clean[..k + 1]) ==
      if DigitOf(clean[k]).None? then None else Some(DigitsOf(clean[..k]).value + [DigitOf(clean[k]).value])
  {
    hide DigitOf;
    assert clean[..k + 1][..k] == clean[..k];
  }

  lemma DigitsOfNone()
    ensures DigitsOf("") == Some([])
  {
  }

  lemma {:induction false} DigitsOfPrefix(clean: string, k: nat)
    requires k <= |clean| && DigitsOf(clean[..k]).None?
    ensures DigitsOf(clean).None?
    decreases |clean|
  {
    if k < |clean| {
      assert clean[..|clean| - 1][..k] == clean[..k];
      DigitsOfPrefix(clean[..|clean| - 1], k);
    } else {
      assert clean[..k] == clean;
    }
  }

  /** What decoding a text yields. */
  function Decoded(upper: UpperCase, text: string): Result<Bytes, string> {
    match DigitsOf(Clean(upper, text))
    case None => Err("Invalid ticket character")
    case Some(digits) => Ok(DecodedBytes(digits))
  }

  lemma UnpackSymbolsDone(digits: seq<nat>, out: seq<nat>, value: nat, bits: nat)
    requires bits < 8 && Fits(out, 8)
    requires Unpack(out, 8) + Digits(value, bits) == Unpack(digits, 5)
    requires |Unpack(out, 8)| % 8 == 0
    ensures out == DecodedBytes(digits)
  {
    hide Unpack, Digits, Fits, Pack;
    var all := Unpack(digits, 5);
    assert all[..|all| - |all| % 8] == Unpack(out, 8);
    PackUnique(out, 8);
  }

  /** One pass over digits with the 32-bit accumulator; both sources run this loop. */
  method UnpackDigit(value: nat, bits: nat, out: seq<nat>, digit: nat, ghost seen: seq<nat>)
    returns (value': nat, bits': nat, out': seq<nat>)
    requires bits < 8 && digit < 32 && Fits(out, 8)
    requires |Unpack(out, 8)| % 8 == 0
    requires Unpack(out, 8) + Digits(value, bits) == Unpack(seen, 5)
    ensures bits' < 8 && Fits(out', 8)
    ensures |Unpack(out', 8)| % 8 == 0
    ensures Unpack(out', 8) + Digits(value', bits') == Unpack(seen + [digit], 5)
  {
    hide Digits, Unpack, And, Or, Shl, Shr, Low;
    UnpackSnoc(seen, digit, 5);
    AbsorbDigit(value, bits, digit);
    ghost var before, pending, added := Unpack(out, 8), Digits(value, bits), Digits(digit, 5);
    assert before + (pending + added) == before + pending + added;
    value' := Low(Or(Shl(value, 5), digit), 32);
    bits' := bits + 5;
    out' := out;
    if bits' >= 8 {
      WordSizes();
      EmitWord(value', bits', 8);
      var byte := And(Shr(value', bits' - 8), 0xff);
      UnpackSnoc(out, byte, 8);
      assert before + (Digits(byte, 8) + Digits(value', bits' - 8))
          == before + Digits(byte, 8) + Digits(value', bits' - 8);
      out' := out + [byte];
      bits' := bits' - 8;
    }
  }

  method Decode(upper: UpperCase, text: string) returns (r: Result<Bytes, string>)
    ensures r == Decoded(upper, text)
  {
    hide Digits, Unpack, Fits, Clean, DecodedBytes, DigitOf, IndexOf, DigitsOf;
    DigitsOfNone();
    var clean := Clean(upper, text);
    var bits: nat, value: nat := 0, 0;
    var out: seq<nat> := [];
    EmptyStart();
    for k := 0 to |clean|
      invariant DigitsOf(clean[..k]).Some?
      invariant bits < 8 && Fits(out, 8)
      invariant |Unpack(out, 8)| % 8 == 0
      invariant Unpack(out, 8) + Digits(value, bits) == Unpack(DigitsOf(clean[..k]).value, 5)
    {
      DigitsOfNext(clean, k);
      var digit := DigitOf(clean[k]);
      if digit.None? {
        DigitsOfPrefix(clean, k + 1);
        return Err("Invalid ticket character");
      }
      value, bits, out := UnpackDigit(value, bits, out, digit.value, DigitsOf(clean[..k]).value);
    }
    assert clean[..|clean|] == clean;
    UnpackSymbolsDone(DigitsOf(clean).value, out, value, bits);
    r := Ok(out);
  }

  // Spelling does not matter.

  /** The canonical spelling: capitals only, separators dropped, O as 0 and I, L as 1. */
  function Canonical(upper: UpperCase, text: string): string {
    var c := Clean(upper, text);
    seq(|c|, i requires 0 <= i < |c| => Unalias(c[i]))
  }

  function Unalias(c: char): char {
    match c
    case 'O' => '0'
    case 'I' => '1'
    case 'L' => '1'
    case _ => c
  }

  /** They are in ascending order, and no spelling of another one. */
  lemma SymbolDigits()
    ensures forall i: nat, j: nat :: i < j < 32 ==> ALPHABET[i] < ALPHABET[j]
    ensures forall d: nat :: d < 32 ==> AsciiAlnum(ALPHABET[d]) && AsciiUpper(ALPHABET[d]) == ALPHABET[d]
    ensures forall d: nat :: d < 32 ==> ALPHABET[d] != 'O' && ALPHABET[d] != 'I' && ALPHABET[d] != 'L'
  {
  }

  lemma DigitOfSymbol(d: nat)
    requires d < 32
    ensures DigitOf(ALPHABET[d]) == Some(d)
    ensures IndexOf(ALPHABET, ALPHABET[d]) == d
  {
    hide IndexOf;
    SymbolDigits();
    var i := IndexOf(ALPHABET, ALPHABET[d]);
    assert ALPHABET[d] in ALPHABET;
    assert ALPHABET[i] == ALPHABET[d];
  }

  /** Looking up the canonical letter in the alphabet is the aliased table. */
  lemma UnaliasDigit(c: char)
    ensures DigitOf(c) == (var i := IndexOf(ALPHABET, Unalias(c)); if i < 0 then None else Some(i))
  {
    hide IndexOf;
    assert ALPHABET[0] == '0' && ALPHABET[1] == '1';
    if c == 'O' {
      DigitOfSymbol(0);
    } else if c == 'I' || c == 'L' {
      DigitOfSymbol(1);
    }
  }

  lemma {:induction false} CanonicalDigits(a: string, b: string)
    requires |a| == |b| && forall i :: 0 <= i < |a| ==> Unalias(a[i]) == Unalias(b[i])
    ensures DigitsOf(a) == DigitsOf(b)
  {
    if a != "" {
      var n := |a| - 1;
      CanonicalDigits(a[..n], b[..n]);
      UnaliasDigit(a[n]);
      UnaliasDigit(b[n]);
    }
  }

  /** Texts with one canonical spelling decode alike: case, separators and the aliases O, I, L are free. */
  lemma SpellingIrrelevant(upper: UpperCase, a: string, b: string)
    requires Canonical(upper, a) == Canonical(upper, b)
    ensures Decoded(upper, a) == Decoded(upper, b)
  {
    hide Clean;
    var x, y := Clean(upper, a), Clean(upper, b);
    assert |x| == |Canonical(upper, a)| && |y| == |Canonical(upper, b)|;
    forall i | 0 <= i < |x| ensures Unalias(x[i]) == Unalias(y[i]) {
      assert Canonical(upper, a)[i] == Unalias(x[i]) && Canonical(upper, b)[i] == Unalias(y[i]);
    }
    CanonicalDigits(x, y);
  }

  lemma {:induction false} RaisedSplit(upper: UpperCase, a: string, b: string)
    ensures Raised(upper, a + b) == Raised(upper, a) + Raised(upper, b)
  {
    if a == "" {
      assert a + b == b;
    } else {
      assert (a + b)[0] == a[0] && (a + b)[1..] == a[1..] + b;
      RaisedSplit(upper, a[1..], b);
      assert upper(a[0]) + (Raised(upper, a[1..]) + Raised(upper, b)) == Raised(upper, a) + Raised(upper, b);
    }
  }

  lemma {:induction false} KeptSplit(a: string, b: string)
    ensures Kept(a + b) == Kept(a) + Kept(b)
  {
    if a == "" {
      assert a + b == b;
    } else {
      assert (a + b)[0] == a[0] && (a + b)[1..] == a[1..] + b;
      KeptSplit(a[1..], b);
      var first := if AsciiAlnum(a[0]) then [a[0]] else "";
      hide AsciiAlnum;
      assert first + (Kept(a[1..]) + Kept(b)) == first + Kept(a[1..]) + Kept(b);
    }
  }

  lemma CleanSplit(upper: UpperCase, a: string, b: string)
    ensures Clean(upper, a + b) == Clean(upper, a) + Clean(upper, b)
  {
    RaisedSplit(upper, a, b);
    KeptSplit(Raised(upper, a), Raised(upper, b));
  }

  lemma CanonicalSplit(upper: UpperCase, a: string, b: string)
    ensures Canonical(upper, a + b) == Canonical(upper, a) + Canonical(upper, b)
  {
    hide Clean;
    CleanSplit(upper, a, b);
  }

  /** Replacing any part of a text by another spelling of it keeps the result. */
  lemma OneRespelling(upper: UpperCase, before: string, part: string, part': string, after: string)
    requires Canonical(upper, part) == Canonical(upper, part')
    ensures Decoded(upper, before + part + after) == Decoded(upper, before + part' + after)
  {
    hide Decoded, Canonical;
    CanonicalSplit(upper, before + part, after);
    CanonicalSplit(upper, before + part', after);
    CanonicalSplit(upper, before, part);
    CanonicalSplit(upper, before, part');
    SpellingIrrelevant(upper, before + part + after, before + part' + after);
  }

  /** A character is skipped exactly if its upper case has no ASCII letter or digit. */
  lemma OneSeparator(upper: UpperCase, before: string, c: char, after: string)
    requires Kept(upper(c)) == ""
    ensures Decoded(upper, before + [c] + after) == Decoded(upper, before + after)
  {
    hide Decoded, Kept;
    RaisedOne(upper, c);
    NothingKept(upper);
    assert Canonical(upper, [c]) == Canonical(upper, "");
    OneRespelling(upper, before, [c], "", after);
    assert before + "" + after == before + after;
  }

  lemma NothingKept(upper: UpperCase)
    ensures Clean(upper, "") == ""
  {
  }

  lemma RaisedOne(upper: UpperCase, c: char)
    ensures Raised(upper, [c]) == upper(c)
  {
    assert [c][1..] == "";
    assert upper(c) + "" == upper(c);
  }

  /** The canonical spelling of each character: for ASCII it is fixed, for the others it is that of the upper case. */
  lemma OneCharacter(upper: UpperCase, c: char)
    ensures c as int < 128 ==>
      Canonical(upper, [c]) == if AsciiAlnum(AsciiUpper(c)) then [Unalias(AsciiUpper(c))] else ""
    ensures forall d: char :: upper(c) == [d] && AsciiAlnum(d) ==> Canonical(upper, [c]) == Canonical(upper, [d])
  {
    RaisedOne(upper, c);
    KeptOne(AsciiUpper(c));
    forall d: char | upper(c) == [d] && AsciiAlnum(d) ensures Canonical(upper, [c]) == Canonical(upper, [d]) {
      RaisedOne(upper, d);
    }
  }

  lemma KeptOne(c: char)
    ensures Kept([c]) == if AsciiAlnum(c) then [c] else ""
  {
    assert [c][1..] == "";
  }

  /** Upper-cased ASCII text is its own upper case, and of letters and digits nothing is stripped. */
  lemma {:induction false} CleanPlain(upper: UpperCase, s: string)
    requires forall c :: c in s ==> AsciiAlnum(c)
    ensures Clean(upper, s) == s
  {
    if s != "" {
      assert AsciiAlnum(s[0]) && s == [s[0]] + s[1..];
      CleanPlain(upper, s[1..]);
      CleanSplit(upper, [s[0]], s[1..]);
      RaisedOne(upper, s[0]);
      KeptOne(s[0]);
    }
  }

  lemma CleanSymbols(upper: UpperCase, digits: seq<nat>)
    requires Fits(digits, 5)
    ensures Clean(upper, Symbols(digits)) == Symbols(digits)
  {
    Thirty();
    SymbolDigits();
    CleanPlain(upper, Symbols(digits));
  }

  lemma {:induction false} CleanGrouped(upper: UpperCase, s: string)
    ensures Clean(upper, Grouped(s)) == Clean(upper, s)
  {
    hide Clean;
    if |s| > 4 {
      CleanSplit(upper, s[..4] + "-", Grouped(s[4..]));
      CleanSplit(upper, s[..4], "-");
      CleanSplit(upper, s[..4], s[4..]);
      assert s == s[..4] + s[4..];
      CleanDash(upper);
      CleanGrouped(upper, s[4..]);
      assert Clean(upper, s[..4]) + [] == Clean(upper, s[..4]);
    }
  }

  lemma CleanDash(upper: UpperCase)
    ensures Clean(upper, "-") == ""
  {
    RaisedOne(upper, '-');
    KeptOne('-');
  }

  lemma {:induction false} DigitsOfSymbols(digits: seq<nat>)
    requires Fits(digits, 5)
    ensures DigitsOf(Symbols(digits)) == Some(digits)
  {
    Thirty();
    if digits == [] {
      DigitsOfNone();
    } else {
      hide DigitOf, DigitsOf;
      var n := |digits| - 1;
      var s := Symbols(digits);
      assert s[..n] == Symbols(digits[..n]);
      DigitsOfSymbols(digits[..n]);
      DigitOfSymbol(digits[n]);
      assert digits == digits[..n] + [digits[n]];
      assert s[..n + 1] == s;
      DigitsOfNext(s, n);
    }
  }

  /** Decoding a printed text of symbols, grouped by dashes, gives back their digits. */
  lemma PrintedDigits(upper: UpperCase, digits: seq<nat>)
    requires Fits(digits, 5)
    ensures DigitsOf(Clean(upper, Grouped(Symbols(digits)))) == Some(digits)
  {
    hide Clean;
    CleanGrouped(upper, Symbols(digits));
    CleanSymbols(upper, digits);
    DigitsOfSymbols(digits);
  }

  /** The round trip on texts, for byte strings of every length. */
  lemma TextRoundTrip(upper: UpperCase, bytes: Bytes)
    ensures Fits(EncodedDigits(bytes), 5)
    ensures Decoded(upper, Grouped(Symbols(EncodedDigits(bytes)))) == Ok(bytes)
  {
    EncodedBits(bytes);
    PrintedDigits(upper, EncodedDigits(bytes));
    DigitsRoundTrip(bytes);
  }

  // Kotlin's decoder keeps every Unicode letter or digit, and then fails on the foreign ones.

  /** The upper-cased text has a letter or digit outside ASCII. */
  predicate Foreign(upper: UpperCase, text: string, letter: char -> bool) {
    HasForeign(Raised(upper, text), letter)
  }

  predicate HasForeign(raised: string, letter: char -> bool) {
    exists i :: 0 <= i < |raised| && raised[i] as int >= 128 && letter(raised[i])
  }

  function KeptKotlin(raised: string, letter: char -> bool): string {
    if raised == "" then ""
    else if AsciiAlnum(raised[0]) || (raised[0] as int >= 128 && letter(raised[0])) then [raised[0]] + KeptKotlin(raised[1..], letter)
    else KeptKotlin(raised[1..], letter)
  }

  function CleanKotlin(upper: UpperCase, text: string, letter: char -> bool): string {
    KeptKotlin(Raised(upper, text), letter)
  }

  lemma ForeignHead(raised: string, letter: char -> bool)
    requires raised != ""
    ensures HasForeign(raised, letter) <==> (raised[0] as int >= 128 && letter(raised[0])) || HasForeign(raised[1..], letter)
  {
    var rest := raised[1..];
    if HasForeign(raised, letter) {
      var i :| 0 <= i < |raised| && raised[i] as int >= 128 && letter(raised[i]);
      if i > 0 { assert rest[i - 1] == raised[i]; }
    }
    if HasForeign(rest, letter) {
      var i :| 0 <= i < |rest| && rest[i] as int >= 128 && letter(rest[i]);
      assert raised[i + 1] == rest[i];
    }
  }

  lemma {:induction false} KeptKotlinAscii(raised: string, letter: char -> bool)
    ensures !HasForeign(raised, letter) ==> KeptKotlin(raised, letter) == Kept(raised)
    ensures HasForeign(raised, letter) ==> exists c :: c in KeptKotlin(raised, letter) && c as int >= 128
  {
    if raised != "" {
      var c, rest := raised[0], raised[1..];
      KeptKotlinAscii(rest, letter);
      ForeignHead(raised, letter);
      if c as int >= 128 && letter(c) {
        assert c in KeptKotlin(raised, letter);
      } else if HasForeign(rest, letter) {
        var d :| d in KeptKotlin(rest, letter) && d as int >= 128;
        assert d in KeptKotlin(raised, letter);
      }
    }
  }

  lemma {:induction false} ForeignHasNoDigits(clean: string, c: char)
    requires c in clean && c as int >= 128
    ensures DigitsOf(clean).None?
  {
    SymbolDigits();
    var n := |clean| - 1;
    if clean[n] != c {
      assert clean == clean[..n] + [clean[n]];
      ForeignHasNoDigits(clean[..n], c);
    }
  }

  /** What Kotlin's decode yields. */
  function DecodedKotlin(upper: UpperCase, text: string, letter: char -> bool): Result<Bytes, string> {
    match DigitsOf(CleanKotlin(upper, text, letter))
    case None => Err("Invalid ticket character")
    case Some(digits) => Ok(DecodedBytes(digits))
  }

  /**
   Kotlin refuses every text whose upper case has a letter or digit outside ASCII, and decodes every
   other text as JavaScript does.
   */
  lemma DecodersAgree(upper: UpperCase, text: string, letter: char -> bool)
    ensures Foreign(upper, text, letter) ==> DecodedKotlin(upper, text, letter).Err?
    ensures !Foreign(upper, text, letter) ==> DecodedKotlin(upper, text, letter) == Decoded(upper, text)
  {
    var raised := Raised(upper, text);
    KeptKotlinAscii(raised, letter);
    if HasForeign(raised, letter) {
      var c :| c in KeptKotlin(raised, letter) && c as int >= 128;
      ForeignHasNoDigits(KeptKotlin(raised, letter), c);
    }
  }

  /** The two decoders give different results exactly on such texts that JavaScript accepts. */
  lemma DecodersDiffer(upper: UpperCase, text: string, letter: char -> bool)
    ensures DecodedKotlin(upper, text, letter) != Decoded(upper, text)
      <==> Foreign(upper, text, letter) && Decoded(upper, text).Ok?
  {
    hide Foreign, Clean, CleanKotlin, DecodedBytes;
    DecodersAgree(upper, text, letter);
  }

  method DecodeKotlin(upper: UpperCase, text: string, letter: char -> bool) returns (r: Result<Bytes, string>)
    ensures r == DecodedKotlin(upper, text, letter)
  {
    hide Digits, Unpack, Fits, CleanKotlin, DecodedBytes, IndexOf, Unalias, DigitOf, DigitsOf;
    DigitsOfNone();
    var clean := CleanKotlin(upper, text, letter);
    var bits: nat, value: nat := 0, 0;
    var out: seq<nat> := [];
    EmptyStart();
    for k := 0 to |clean|
      invariant DigitsOf(clean[..k]).Some?
      invariant bits < 8 && Fits(out, 8)
      invariant |Unpack(out, 8)| % 8 == 0
      invariant Unpack(out, 8) + Digits(value, bits) == Unpack(DigitsOf(clean[..k]).value, 5)
    {
      DigitsOfNext(clean, k);
      var digit := IndexOf(ALPHABET, Unalias(clean[k]));
      UnaliasDigit(clean[k]);
      if digit < 0 {
        DigitsOfPrefix(clean, k + 1);
        return Err("Invalid ticket character");
      }
      value, bits, out := UnpackDigit(value, bits, out, digit, DigitsOf(clean[..k]).value);
    }
    assert clean[..|clean|] == clean;
    UnpackSymbolsDone(DigitsOf(clean).value, out, value, bits);
    r := Ok(out);
  }
}
