/**
 The v3 manifest: block geometry, validation, and its construction by one pass over the source.
 BLAKE3 is any function to 64 lower-case hex digits; nothing else is assumed about it here.
 */
module Manifests {
  import opened Common

  const BLOCK: nat := 1024 * 1024
  const MAX_BLOCKS: nat := 262144
  const MAX_MANIFEST: nat := 24 * 1024 * 1024

  predicate ValidHash(s: string) {
    |s| == 64 && forall i :: 0 <= i < 64 ==> '0' <= s[i] <= '9' || 'a' <= s[i] <= 'f'
  }

  const HEX: string := "0123456789abcdef"

  predicate HexDigit(c: char) {
    exists d: nat :: d < 16 && HEX[d] == c
  }

  /** 64 characters out of the sixteen lower-case hexadecimal digits. */
  lemma ValidHashExactly(s: string)
    ensures ValidHash(s) <==> |s| == 64 && forall i :: 0 <= i < 64 ==> HexDigit(s[i])
  {
    hide HexDigit;
    if |s| == 64 {
      forall i | 0 <= i < 64 ensures ('0' <= s[i] <= '9' || 'a' <= s[i] <= 'f') <==> HexDigit(s[i]) {
        HexDigitExactly(s[i]);
      }
    }
  }

  lemma HexDigitExactly(c: char)
    ensures ('0' <= c <= '9' || 'a' <= c <= 'f') <==> HexDigit(c)
  {
    var d := if c as int <= 57 then c as int - 48 else c as int - 87;
    if 0 <= d < 16 { HexCode(d); }
    if e: nat :| e < 16 && HEX[e] == c { HexCode(e); }
  }

  lemma HexCode(d: nat)
    requires d < 16
    ensures HEX[d] as int == if d < 10 then 48 + d else 87 + d
  {
  }

  const ZERO_HASH: string := seq(64, _ => '0')

  type Hasher = h: Bytes -> string | forall b: Bytes :: ValidHash(h(b)) witness (b: Bytes) => ZERO_HASH

  datatype Manifest = Manifest(
    name: string, version: nat, size: nat, blockSize: nat, digest: string, blocks: seq<string>)

  // Geometry.

  function BlockCount(size: nat): nat {
    (size + BLOCK - 1) / BLOCK
  }

  /** Length of block `index`: full, except perhaps the last. The subtraction never underflows. */
  function Length(size: nat, index: nat): (n: nat)
    requires index < BlockCount(size)
    ensures 0 < n <= BLOCK
    ensures index * BLOCK + n <= size
    ensures index + 1 < BlockCount(size) ==> n == BLOCK
    ensures index + 1 == BlockCount(size) ==> index * BLOCK + n == size
  {
    Min(size - index * BLOCK, BLOCK)
  }

  function Lengths(size: nat): (ls: seq<nat>)
    ensures |ls| == BlockCount(size)
  {
    seq(BlockCount(size), i requires 0 <= i < BlockCount(size) => Length(size, i))
  }

  /** Block `index` of a content of the given size. */
  function Block(content: Bytes, size: nat, index: nat): (b: Bytes)
    requires index < BlockCount(size) && index * BLOCK + Length(size, index) <= |content|
    ensures |b| == Length(size, index)
  {
    content[index * BLOCK..index * BLOCK + Length(size, index)]
  }

  function Blocks(content: Bytes): (bs: seq<Bytes>)
    ensures |bs| == BlockCount(|content|)
  {
    seq(BlockCount(|content|), i requires 0 <= i < BlockCount(|content|) => Block(content, |content|, i))
  }

  lemma {:induction false} PrefixTiles(content: Bytes, k: nat)
    requires k <= BlockCount(|content|)
    ensures Sum(Lengths(|content|)[..k]) == Min(k * BLOCK, |content|)
    ensures Concat(Blocks(content)[..k]) == content[..Min(k * BLOCK, |content|)]
  {
    if k > 0 {
      PrefixTiles(content, k - 1);
      var ls, bs := Lengths(|content|), Blocks(content);
      assert ls[..k] == ls[..k - 1] + [ls[k - 1]];
      assert bs[..k] == bs[..k - 1] + [bs[k - 1]];
      SumSnoc(ls[..k - 1], ls[k - 1]);
      ConcatSnoc(bs[..k - 1], bs[k - 1]);
      var a, b := (k - 1) * BLOCK, Min(k * BLOCK, |content|);
      assert b == a + ls[k - 1] && bs[k - 1] == content[a..b];
      assert content[..b] == content[..a] + content[a..b];
    }
  }

  /** The blocks tile the file: their lengths sum to the size, their concatenation is the content. */
  lemma BlocksTile(content: Bytes)
    ensures Sum(Lengths(|content|)) == |content|
    ensures Concat(Blocks(content)) == content
  {
    var n := BlockCount(|content|);
    PrefixTiles(content, n);
    assert Lengths(|content|)[..n] == Lengths(|content|);
    assert Blocks(content)[..n] == Blocks(content);
    assert content[..|content|] == content;
  }

  // A resume map selects blocks: 1 requests one, 0 says its bytes are already there.

  /** The lengths of the blocks whose map entry equals `bit`, zero for the others. */
  function Selected(size: nat, wanted: seq<nat>, bit: nat): (ls: seq<nat>)
    requires |wanted| == BlockCount(size)
    ensures |ls| == |wanted|
  {
    seq(|wanted|, i requires 0 <= i < |wanted| => if wanted[i] == bit then Length(size, i) else 0)
  }

  lemma {:induction false} PrefixPartition(size: nat, wanted: seq<nat>, k: nat)
    requires |wanted| == BlockCount(size) && k <= |wanted|
    requires forall i :: 0 <= i < |wanted| ==> wanted[i] <= 1
    ensures Sum(Selected(size, wanted, 0)[..k]) + Sum(Selected(size, wanted, 1)[..k]) == Sum(Lengths(size)[..k])
  {
    if k > 0 {
      PrefixPartition(size, wanted, k - 1);
      var a, b, ls := Selected(size, wanted, 0), Selected(size, wanted, 1), Lengths(size);
      assert a[..k] == a[..k - 1] + [a[k - 1]] && b[..k] == b[..k - 1] + [b[k - 1]];
      assert ls[..k] == ls[..k - 1] + [ls[k - 1]];
      SumSnoc(a[..k - 1], a[k - 1]);
      SumSnoc(b[..k - 1], b[k - 1]);
      SumSnoc(ls[..k - 1], ls[k - 1]);
    }
  }

  /** Payload bytes and reused bytes add up to the file size, whatever the map says. */
  lemma Accounting(size: nat, wanted: seq<nat>)
    requires |wanted| == BlockCount(size)
    requires forall i :: 0 <= i < |wanted| ==> wanted[i] <= 1
    ensures Sum(Selected(size, wanted, 0)) + Sum(Selected(size, wanted, 1)) == size
  {
    var n := |wanted|;
    PrefixPartition(size, wanted, n);
    assert Selected(size, wanted, 0)[..n] == Selected(size, wanted, 0);
    assert Selected(size, wanted, 1)[..n] == Selected(size, wanted, 1);
    assert Lengths(size)[..n] == Lengths(size);
    var content: Bytes := seq(size, _ => 0);
    BlocksTile(content);
  }

  // Validation.

  predicate Control(c: char) {
    c as int < 0x20 || 0x7f <= c as int < 0xa0
  }

  function Utf8Length(s: string): nat {
    if s == "" then 0 else Utf8Length(s[..|s| - 1]) + Utf8Size(s[|s| - 1])
  }

  function Utf8Size(c: char): (n: nat)
    ensures 1 <= n <= 4
  {
    var x := c as int;
    if x < 0x80 then 1 else if x < 0x800 then 2 else if x < 0x1_0000 then 3 else 4
  }

  function Utf8Char(c: char): (b: Bytes)
    ensures |b| == Utf8Size(c)
  {
    var x := c as int;
    if x < 0x80 then [x]
    else if x < 0x800 then [0xc0 + x / 0x40, 0x80 + x % 0x40]
    else if x < 0x1_0000 then [0xe0 + x / 0x1000, 0x80 + x / 0x40 % 0x40, 0x80 + x % 0x40]
    else [0xf0 + x / 0x4_0000, 0x80 + x / 0x1000 % 0x40, 0x80 + x / 0x40 % 0x40, 0x80 + x % 0x40]
  }

  function Utf8(s: string): (b: Bytes)
    ensures |b| == Utf8Length(s)
  {
    if s == "" then [] else Utf8(s[..|s| - 1]) + Utf8Char(s[|s| - 1])
  }

  predicate Valid(m: Manifest) {
    && Utf8Length(m.name) <= 255
    && (forall i :: 0 <= i < |m.name| ==> !Control(m.name[i]))
    && m.version == 3
    && m.blockSize == BLOCK
    && m.size <= MAX_BLOCKS * BLOCK
    && |m.blocks| == BlockCount(m.size)
    && ValidHash(m.digest)
    && forall i :: 0 <= i < |m.blocks| ==> ValidHash(m.blocks[i])
  }

  /** What an offer must satisfy, in plain numbers: at most 262144 blocks of 1 MiB, so at most 256 GiB. */
  lemma ValidExactly(m: Manifest)
    ensures Valid(m) <==>
      && m.version == 3 && m.blockSize == 0x10_0000 && m.size <= 0x40_0000_0000
      && |m.blocks| * 0x10_0000 >= m.size && m.size > (|m.blocks| - 1) * 0x10_0000
      && Utf8Length(m.name) <= 255
      && (forall i :: 0 <= i < |m.name| ==> 0x20 <= m.name[i] as int < 0x7f || 0xa0 <= m.name[i] as int)
      && ValidHash(m.digest) && forall i :: 0 <= i < |m.blocks| ==> ValidHash(m.blocks[i])
  {
    hide ValidHash, Utf8Length;
  }

  /** The manifest promised for a content: its digest and the digest of each block, in order. */
  predicate Describes(h: Hasher, m: Manifest, content: Bytes) {
    && m.size == |content|
    && m.digest == h(content)
    && |m.blocks| == BlockCount(|content|)
    && forall i :: 0 <= i < |m.blocks| ==> m.blocks[i] == h(Block(content, |content|, i))
  }

  function DisplayName(name: string): string {
    var kept := Printable(name);
    kept[..Min(60, |kept|)]
  }

  function Printable(s: string): string {
    if s == "" then "" else Printable(s[..|s| - 1]) + (if Control(s[|s| - 1]) then "" else [s[|s| - 1]])
  }

  lemma {:induction false} PrintableClean(s: string)
    ensures forall i :: 0 <= i < |Printable(s)| ==> !Control(Printable(s)[i])
  {
    if s != "" { PrintableClean(s[..|s| - 1]); }
  }

  lemma {:induction false} Utf8Bound(s: string)
    ensures |s| <= Utf8Length(s) <= 4 * |s|
  {
    if s != "" { Utf8Bound(s[..|s| - 1]); }
  }

  lemma DisplayNameValid(name: string)
    ensures Utf8Length(DisplayName(name)) <= 240
    ensures forall i :: 0 <= i < |DisplayName(name)| ==> !Control(DisplayName(name)[i])
  {
    PrintableClean(name);
    Utf8Bound(DisplayName(name));
  }

  lemma {:induction false} PrintableSplit(a: string, b: string)
    ensures Printable(a + b) == Printable(a) + Printable(b)
  {
    if b == "" {
      assert a + b == a;
    } else {
      var n := |b| - 1;
      assert (a + b)[..|a + b| - 1] == a + b[..n];
      PrintableSplit(a, b[..n]);
    }
  }

  lemma {:induction false} PrintableWhole(s: string)
    requires forall i :: 0 <= i < |s| ==> !Control(s[i])
    ensures Printable(s) == s
  {
    if s != "" {
      PrintableWhole(s[..|s| - 1]);
      assert s == s[..|s| - 1] + [s[|s| - 1]];
    }
  }

  /**
   What a name becomes: a control character anywhere in it makes no difference, and of a name without
   any the first 60 characters stay, or all of them.
   */
  lemma DisplayNameExactly(a: string, c: char, b: string)
    ensures c as int < 0x20 || 0x7f <= c as int < 0xa0 ==> DisplayName(a + [c] + b) == DisplayName(a + b)
    ensures (forall i :: 0 <= i < |a| ==> 0x20 <= a[i] as int < 0x7f || 0xa0 <= a[i] as int) ==>
      DisplayName(a) == if |a| <= 60 then a else a[..60]
  {
    hide Printable;
    PrintableSplit(a + [c], b);
    PrintableSplit(a, [c]);
    PrintableSplit(a, b);
    PrintableOne(c);
    if forall i :: 0 <= i < |a| ==> 0x20 <= a[i] as int < 0x7f || 0xa0 <= a[i] as int { PrintableWhole(a); }
  }

  lemma PrintableOne(c: char)
    ensures Printable([c]) == if Control(c) then "" else [c]
  {
    assert [c][..0] == [];
  }

  // Building the manifest.

  /** seek and read_exact of one block into the front of a reused buffer. */
  method ReadBlock(file: Bytes, size: nat, index: nat, buffer: array<Byte>)
    requires index < BlockCount(size) && index * BLOCK + Length(size, index) <= |file|
    requires buffer.Length >= BLOCK
    modifies buffer
    ensures buffer[..Length(size, index)] == Block(file, size, index)
    ensures buffer[Length(size, index)..] == old(buffer[Length(size, index)..])
  {
    var offset, length := index * BLOCK, Length(size, index);
    forall i | 0 <= i < length { buffer[i] := file[offset + i]; }
    assert buffer[..length] == file[offset..offset + length];
  }

  /** What the hasher has absorbed after k blocks. */
  function Absorbed(file: Bytes, k: nat): Bytes {
    file[..Min(k * BLOCK, |file|)]
  }

  lemma AbsorbBlock(file: Bytes, index: nat)
    requires index < BlockCount(|file|)
    ensures Absorbed(file, index) + Block(file, |file|, index) == Absorbed(file, index + 1)
  {
  }

  lemma AbsorbEnds(file: Bytes)
    ensures Absorbed(file, 0) == [] && Absorbed(file, BlockCount(|file|)) == file
  {
  }

  /** `isFile` is the metadata test; the file does not change while it is hashed. */
  method ManifestFile(h: Hasher, file: Bytes, isFile: bool, name: string) returns (r: Result<Manifest, string>)
    ensures r.Ok? <==> isFile && |file| <= MAX_BLOCKS * BLOCK
    ensures r.Ok? ==> Valid(r.value) && Describes(h, r.value, file) && r.value.name == DisplayName(name)
  {
    hide Utf8Length, Control, DisplayName, Sum, Concat;
    if !isFile { return Err("source must be a regular file"); }
    var size := |file|;
    if size > MAX_BLOCKS * BLOCK { return Err("file exceeds transfer limit"); }
    var blocks, absorbed := HashBlocks(h, file);
    DisplayNameValid(name);
    r := Ok(Manifest(DisplayName(name), 3, size, BLOCK, h(absorbed), blocks));
  }

  /** The hashing loop: each block on its own, and all of them into the whole-file state. */
  method HashBlocks(h: Hasher, file: Bytes) returns (blocks: seq<string>, absorbed: Bytes)
    ensures |blocks| == BlockCount(|file|) && absorbed == file
    ensures forall i :: 0 <= i < |blocks| ==> blocks[i] == h(Block(file, |file|, i))
  {
    hide ValidHash, Block, BlockCount, Length, Absorbed;
    var size := |file|;
    blocks, absorbed := [], [];
    AbsorbEnds(file);
    var buffer := new Byte[BLOCK](i => 0);
    for index := 0 to BlockCount(size)
      invariant |blocks| == index
      invariant forall i :: 0 <= i < index ==> blocks[i] == h(Block(file, size, i))
      invariant absorbed == Absorbed(file, index)
    {
      ReadBlock(file, size, index, buffer);
      var bytes := buffer[..Length(size, index)];
      AbsorbBlock(file, index);
      absorbed := absorbed + bytes;
      blocks := blocks + [h(bytes)];
    }
  }

  // The JSON text of a manifest, as the sender frames it.

  function Quoted(s: string): string {
    "\"" + Escaped(s) + "\""
  }

  /** Names hold no control characters, so only quotes and backslashes are escaped. */
  function Escaped(s: string): string {
    if s == "" then ""
    else Escaped(s[..|s| - 1]) + (if s[|s| - 1] == '"' || s[|s| - 1] == '\\' then ['\\', s[|s| - 1]] else [s[|s| - 1]])
  }

  function Decimal(n: nat): string {
    if n < 10 then ["0123456789"[n]] else Decimal(n / 10) + ["0123456789"[n % 10]]
  }

  function JsonArray(blocks: seq<string>): string {
    if blocks == [] then "["
    else if |blocks| == 1 then "[" + Quoted(blocks[0])
    else JsonArray(blocks[..|blocks| - 1]) + "," + Quoted(blocks[|blocks| - 1])
  }

  function Json(m: Manifest): string {
    "{\"name\":" + Quoted(m.name)
    + ",\"version\":" + Decimal(m.version)
    + ",\"size\":" + Decimal(m.size)
    + ",\"block_size\":" + Decimal(m.blockSize)
    + ",\"digest\":" + Quoted(m.digest)
    + ",\"blocks\":" + JsonArray(m.blocks) + "]}"
  }

  lemma {:induction false} Utf8Split(a: string, b: string)
    ensures Utf8Length(a + b) == Utf8Length(a) + Utf8Length(b)
  {
    if b == "" {
      assert a + b == a;
    } else {
      var n := |b| - 1;
      assert (a + b)[..|a + b| - 1] == a + b[..n];
      Utf8Split(a, b[..n]);
    }
  }

  lemma {:induction false} EscapedBound(s: string)
    ensures Utf8Length(Escaped(s)) <= 2 * Utf8Length(s)
    ensures ValidHash(s) ==> Escaped(s) == s
  {
    EscapedSize(s);
    if ValidHash(s) { EscapedHash(s, 64); assert s[..64] == s; }
  }

  lemma {:induction false} EscapedSize(s: string)
    ensures Utf8Length(Escaped(s)) <= 2 * Utf8Length(s)
  {
    if s != "" {
      var front, c := s[..|s| - 1], s[|s| - 1];
      EscapedSize(front);
      if c == '"' || c == '\\' {
        Utf8Split(Escaped(front), ['\\', c]);
        assert ['\\', c][..1] == ['\\'];
        assert Utf8Length(['\\']) == Utf8Length(['\\'][..0]) + 1;
      } else {
        Utf8Split(Escaped(front), [c]);
      }
    }
  }

  lemma {:induction false} EscapedHash(s: string, k: nat)
    requires ValidHash(s) && k <= 64
    ensures Escaped(s[..k]) == s[..k]
  {
    if k > 0 {
      assert s[..k][..k - 1] == s[..k - 1];
      EscapedHash(s, k - 1);
    }
  }

  lemma {:induction false} AsciiLength(s: string)
    requires forall i :: 0 <= i < |s| ==> s[i] as int < 0x80
    ensures Utf8Length(s) == |s|
  {
    if s != "" { AsciiLength(s[..|s| - 1]); }
  }

  /** ASCII text is one byte for each character, with the character's code. */
  lemma {:induction false} AsciiBytes(s: string)
    requires forall i :: 0 <= i < |s| ==> s[i] as int < 0x80
    ensures |Utf8(s)| == |s| && forall i :: 0 <= i < |s| ==> Utf8(s)[i] == s[i] as int
  {
    if s != "" { AsciiBytes(s[..|s| - 1]); }
  }

  lemma DigestAscii(digest: string)
    requires ValidHash(digest)
    ensures |Utf8(digest)| == 64 && forall i :: 0 <= i < 64 ==> Utf8(digest)[i] == digest[i] as int
  {
    AsciiBytes(digest);
  }

  lemma QuotedHash(s: string)
    requires ValidHash(s)
    ensures Utf8Length(Quoted(s)) == 66
  {
    EscapedBound(s);
    assert |Quoted(s)| == 66;
    AsciiLength(Quoted(s));
  }

  lemma {:induction false} ArrayLength(blocks: seq<string>)
    requires forall i :: 0 <= i < |blocks| ==> ValidHash(blocks[i])
    ensures Utf8Length(JsonArray(blocks)) <= 67 * |blocks| + 1
  {
    if blocks == [] {
      AsciiLength("[");
    } else {
      var front, last := blocks[..|blocks| - 1], Quoted(blocks[|blocks| - 1]);
      QuotedHash(blocks[|blocks| - 1]);
      AsciiLength("[");
      AsciiLength(",");
      if |blocks| == 1 {
        Utf8Split("[", last);
      } else {
        ArrayLength(front);
        Utf8Split(JsonArray(front) + ",", last);
        Utf8Split(JsonArray(front), ",");
      }
    }
  }

  lemma {:induction false} DecimalLength(n: nat, limit: nat, digits: nat)
    requires digits > 0 && limit == Ten(digits) && n < limit
    ensures |Decimal(n)| <= digits && forall i :: 0 <= i < |Decimal(n)| ==> Decimal(n)[i] as int < 0x80
  {
    if n >= 10 {
      assert digits > 1;
      DecimalLength(n / 10, limit / 10, digits - 1);
    }
  }

  function Ten(k: nat): nat {
    if k == 0 then 1 else 10 * Ten(k - 1)
  }

  lemma DecimalUtf8(n: nat)
    requires n <= MAX_BLOCKS * BLOCK
    ensures Utf8Length(Decimal(n)) <= 12
  {
    assert Ten(6) == 1_000_000;
    assert Ten(12) == 1_000_000_000_000;
    DecimalLength(n, Ten(12), 12);
    AsciiLength(Decimal(n));
  }

  lemma QuotedName(s: string)
    requires Utf8Length(s) <= 255
    ensures Utf8Length(Quoted(s)) <= 512
  {
    EscapedBound(s);
    AsciiLength("\"");
    Utf8Split("\"" + Escaped(s), "\"");
    Utf8Split("\"", Escaped(s));
  }

  /** Every valid manifest fits the sender's frame limit, and its resume map the receiver's. */
  lemma FramesFit(m: Manifest)
    requires Valid(m)
    ensures Utf8Length(Json(m)) <= MAX_MANIFEST
    ensures |m.blocks| <= MAX_BLOCKS
  {
    hide Utf8Length, Decimal, JsonArray, Escaped;
    var a, b, c, d, e, f, g := "{\"name\":", ",\"version\":", ",\"size\":", ",\"block_size\":", ",\"digest\":",
      ",\"blocks\":", "]}";
    var x1 := a + Quoted(m.name);
    var x2 := x1 + b + Decimal(m.version);
    var x3 := x2 + c + Decimal(m.size);
    var x4 := x3 + d + Decimal(m.blockSize);
    var x5 := x4 + e + Quoted(m.digest);
    var x6 := x5 + f + JsonArray(m.blocks);
    QuotedName(m.name);
    DecimalUtf8(m.version);
    DecimalUtf8(m.size);
    DecimalUtf8(m.blockSize);
    QuotedHash(m.digest);
    ArrayLength(m.blocks);
    AsciiLength(a);
    AsciiLength(b);
    AsciiLength(c);
    AsciiLength(d);
    AsciiLength(e);
    AsciiLength(f);
    AsciiLength(g);
    Utf8Split(a, Quoted(m.name));
    Utf8Split(x1, b);
    Utf8Split(x1 + b, Decimal(m.version));
    Utf8Split(x2, c);
    Utf8Split(x2 + c, Decimal(m.size));
    Utf8Split(x3, d);
    Utf8Split(x3 + d, Decimal(m.blockSize));
    Utf8Split(x4, e);
    Utf8Split(x4 + e, Quoted(m.digest));
    Utf8Split(x5, f);
    Utf8Split(x5 + f, JsonArray(m.blocks));
    Utf8Split(x6, g);
    assert Json(m) == x6 + g;
  }
}
