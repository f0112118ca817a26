/**
 The text of a manifest determines the manifest: no two valid manifests are framed as the same bytes, so one
 decoder serves every offer.
 */
module ManifestText {
  import opened Common
  import opened Manifests

  // UTF-8.

  lemma Utf8CharTells(a: Bytes, c: char, b: Bytes, d: char)
    requires a + Utf8Char(c) == b + Utf8Char(d)
    ensures a == b && c == d
  {
    Utf8CharSize(a + Utf8Char(c), a, c, b, d);
    var n := |Utf8Char(c)|;
    assert |a| == |b|;
    assert (a + Utf8Char(c))[|a|..] == Utf8Char(c) && (b + Utf8Char(d))[|b|..] == Utf8Char(d);
    assert (a + Utf8Char(c))[..|a|] == a && (b + Utf8Char(d))[..|b|] == b;
    Utf8CharValue(c, d);
  }

  predicate Continues(b: Byte) {
    0x80 <= b < 0xc0
  }

  /** The last character starts at the last byte that does not continue one. */
  lemma LastStarts(text: Bytes, a: Bytes, c: char)
    requires text == a + Utf8Char(c)
    ensures |text| >= Utf8Size(c) && !Continues(text[|text| - Utf8Size(c)])
    ensures forall j :: |text| - Utf8Size(c) < j < |text| ==> Continues(text[j])
  {
    FirstByte(c);
    assert forall j :: |a| <= j < |text| ==> text[j] == Utf8Char(c)[j - |a|];
  }

  lemma FirstByte(c: char)
    ensures !Continues(Utf8Char(c)[0])
    ensures forall i :: 0 < i < |Utf8Char(c)| ==> Continues(Utf8Char(c)[i])
  {
  }

  lemma Utf8CharSize(text: Bytes, a: Bytes, c: char, b: Bytes, d: char)
    requires text == a + Utf8Char(c) && text == b + Utf8Char(d)
    ensures Utf8Size(c) == Utf8Size(d)
  {
    hide Utf8Char, Continues;
    LastStarts(text, a, c);
    LastStarts(text, b, d);
  }

  /**
   The encoding of section 3 of RFC 3629: the character's value is in the low bits of its bytes, the first of
   which says how many there are.
   */
  lemma Utf8Decodes(c: char)
    ensures var (x, b) := (c as int, Utf8Char(c));
      && (x < 0x80 ==> b == [x])
      && (0x80 <= x < 0x800 ==> |b| == 2 && 0xc0 <= b[0] < 0xe0 && x == (b[0] as int - 0xc0) * 0x40 + (b[1] as int - 0x80))
      && (0x800 <= x < 0x1_0000 ==>
            |b| == 3 && 0xe0 <= b[0] < 0xf0 && x == (b[0] as int - 0xe0) * 0x1000 + (b[1] as int - 0x80) * 0x40 + (b[2] as int - 0x80))
      && (0x1_0000 <= x ==>
            && |b| == 4 && 0xf0 <= b[0] < 0xf8
            && x == (b[0] as int - 0xf0) * 0x4_0000 + (b[1] as int - 0x80) * 0x1000 + (b[2] as int - 0x80) * 0x40 + (b[3] as int - 0x80))
      && forall i :: 0 < i < |b| ==> 0x80 <= b[i] < 0xc0
  {
    SixBits(c as int);
  }

  lemma Utf8CharValue(c: char, d: char)
    requires Utf8Char(c) == Utf8Char(d)
    ensures c == d
  {
    hide Utf8Char;
    Utf8Decodes(c);
    Utf8Decodes(d);
  }

  lemma SixBits(x: nat)
    ensures x == x / 0x1000 * 0x1000 + x / 0x40 % 0x40 * 0x40 + x % 0x40
    ensures x == x / 0x4_0000 * 0x4_0000 + x / 0x1000 % 0x40 * 0x1000 + x / 0x40 % 0x40 * 0x40 + x % 0x40
  {
    var a, b := x / 0x40, x / 0x1000;
    assert b == a / 0x40 && x / 0x4_0000 == b / 0x40;
  }

  lemma {:induction false} Utf8Tells(s: string, t: string)
    requires Utf8(s) == Utf8(t)
    ensures s == t
    decreases |s|
  {
    hide Utf8Char;
    if s != "" && t != "" {
      var c, d := s[|s| - 1], t[|t| - 1];
      Utf8CharTells(Utf8(s[..|s| - 1]), c, Utf8(t[..|t| - 1]), d);
      Utf8Tells(s[..|s| - 1], t[..|t| - 1]);
      assert s == s[..|s| - 1] + [c] && t == t[..|t| - 1] + [d];
    }
  }

  // Strings in quotes end where they end.

  function Escape(c: char): string {
    if c == '"' || c == '\\' then ['\\', c] else [c]
  }

  lemma {:induction false} EscapedFirst(c: char, s: string)
    ensures Escaped([c] + s) == Escape(c) + Escaped(s)
  {
    if s == "" {
      assert [c] + s == [c] && [c][..0] == "";
    } else {
      var n := |s| - 1;
      assert ([c] + s)[..|s|] == [c] + s[..n];
      EscapedFirst(c, s[..n]);
      assert Escape(c) + (Escaped(s[..n]) + Escape(s[n])) == Escape(c) + Escaped(s[..n]) + Escape(s[n]);
    }
  }

  lemma {:induction false} EscapedEnds(s: string, t: string, x: string, y: string)
    requires Escaped(s) + "\"" + x == Escaped(t) + "\"" + y
    ensures s == t && x == y
    decreases |s|
  {
    hide Escaped, Escape;
    if s == "" || t == "" {
      EscapedEmpty(s, t, x, y);
    } else {
      var c, d, s', t' := s[0], t[0], s[1..], t[1..];
      assert s == [c] + s' && t == [d] + t';
      EscapedFirst(c, s');
      EscapedFirst(d, t');
      assert Escaped(s) + "\"" + x == Escape(c) + (Escaped(s') + "\"" + x);
      assert Escaped(t) + "\"" + y == Escape(d) + (Escaped(t') + "\"" + y);
      SameEscape(c, d, Escaped(s') + "\"" + x, Escaped(t') + "\"" + y);
      EscapedEnds(s', t', x, y);
    }
  }

  lemma EscapedEmpty(s: string, t: string, x: string, y: string)
    requires Escaped(s) + "\"" + x == Escaped(t) + "\"" + y && (s == "" || t == "")
    ensures s == t && x == y
  {
    var all := Escaped(s) + "\"" + x;
    if s != "" { StartsOtherwise(s, x); }
    if t != "" { StartsOtherwise(t, y); }
    assert s == "" ==> all[0] == '"';
    assert t == "" ==> all[0] == '"';
    assert s == t;
    assert all[1..] == x && all[1..] == y;
  }

  lemma StartsOtherwise(s: string, x: string)
    requires s != ""
    ensures (Escaped(s) + "\"" + x)[0] != '"'
  {
    assert s == [s[0]] + s[1..];
    EscapedFirst(s[0], s[1..]);
  }

  lemma SameEscape(c: char, d: char, x: string, y: string)
    requires Escape(c) + x == Escape(d) + y
    ensures c == d && x == y
  {
    var all := Escape(c) + x;
    assert all[0] == Escape(c)[0] == Escape(d)[0];
    assert |Escape(c)| == |Escape(d)|;
    if |Escape(c)| == 2 { assert all[1] == c && all[1] == d; }
    assert all[|Escape(c)|..] == x && all[|Escape(d)|..] == y;
  }

  lemma QuotedEnds(s: string, t: string, x: string, y: string)
    requires Quoted(s) + x == Quoted(t) + y
    ensures s == t && x == y
  {
    hide Escaped;
    var all := Quoted(s) + x;
    assert all[1..] == Escaped(s) + "\"" + x && all[1..] == Escaped(t) + "\"" + y;
    EscapedEnds(s, t, x, y);
  }

  // Numbers end at the comma.

  lemma {:induction false} DecimalDigits(n: nat)
    ensures |Decimal(n)| > 0 && forall i :: 0 <= i < |Decimal(n)| ==> Decimal(n)[i] != ','
  {
    if n >= 10 { DecimalDigits(n / 10); }
  }

  lemma {:induction false} DecimalTells(n: nat, k: nat)
    requires Decimal(n) == Decimal(k)
    ensures n == k
  {
    var s := Decimal(n);
    assert n >= 10 ==> |s| > 1 by { if n >= 10 { DecimalDigits(n / 10); } }
    assert k >= 10 ==> |s| > 1 by { if k >= 10 { DecimalDigits(k / 10); } }
    assert s[|s| - 1] == "0123456789"[n % 10] && s[|s| - 1] == "0123456789"[k % 10];
    OneDigit(n % 10, k % 10);
    if n >= 10 && k >= 10 {
      assert s[..|s| - 1] == Decimal(n / 10) && s[..|s| - 1] == Decimal(k / 10);
      DecimalTells(n / 10, k / 10);
    }
  }

  lemma OneDigit(a: nat, b: nat)
    requires a < 10 && b < 10 && "0123456789"[a] == "0123456789"[b]
    ensures a == b
  {
    DigitCode(a);
    DigitCode(b);
  }

  lemma DigitCode(a: nat)
    requires a < 10
    ensures "0123456789"[a] as int == 48 + a
  {
  }

  lemma DecimalEnds(n: nat, k: nat, x: string, y: string)
    requires Decimal(n) + "," + x == Decimal(k) + "," + y
    ensures n == k && x == y
  {
    hide Decimal;
    DecimalDigits(n);
    DecimalDigits(k);
    var all := Decimal(n) + "," + x;
    var p, q := |Decimal(n)|, |Decimal(k)|;
    assert all[p] == ',' && all[q] == ',';
    assert forall i :: 0 <= i < p ==> all[i] == Decimal(n)[i];
    assert forall i :: 0 <= i < q ==> all[i] == Decimal(k)[i];
    assert p == q;
    assert all[..p] == Decimal(n) && all[..p] == Decimal(k);
    assert all[p + 1..] == x && all[p + 1..] == y;
    DecimalTells(n, k);
  }

  // The list of block digests.

  lemma {:induction false} ArraySize(blocks: seq<string>)
    requires forall i :: 0 <= i < |blocks| ==> ValidHash(blocks[i])
    ensures |JsonArray(blocks)| == if blocks == [] then 1 else 67 * |blocks|
    decreases |blocks|
  {
    hide Escaped, ValidHash;
    if blocks != [] {
      var n := |blocks| - 1;
      QuotedSize(blocks[n]);
      if n > 0 { ArraySize(blocks[..n]); }
    }
  }

  lemma QuotedSize(s: string)
    requires ValidHash(s)
    ensures |Quoted(s)| == 66
  {
    hide Escaped;
    EscapedBound(s);
  }

  lemma {:induction false} ArrayTells(a: seq<string>, b: seq<string>)
    requires forall i :: 0 <= i < |a| ==> ValidHash(a[i])
    requires forall i :: 0 <= i < |b| ==> ValidHash(b[i])
    requires JsonArray(a) == JsonArray(b)
    ensures a == b
    decreases |a|
  {
    hide Escaped, ValidHash, Quoted;
    ArraySize(a);
    ArraySize(b);
    assert |a| == |b|;
    if a != [] {
      var n := |a| - 1;
      QuotedSize(a[n]);
      QuotedSize(b[n]);
      var all, cut := JsonArray(a), |JsonArray(a)| - 66;
      assert all[cut..] == Quoted(a[n]) && all[cut..] == Quoted(b[n]);
      assert Quoted(a[n]) + "" == Quoted(a[n]) && Quoted(b[n]) + "" == Quoted(b[n]);
      QuotedEnds(a[n], b[n], "", "");
      if n > 0 {
        assert all[..cut - 1] == JsonArray(a[..n]) && all[..cut - 1] == JsonArray(b[..n]);
        ArrayTells(a[..n], b[..n]);
      }
      assert a == a[..n] + [a[n]] && b == b[..n] + [b[n]];
    }
  }

  // The whole text.

  function FromBlocks(m: Manifest): string {
    ",\"blocks\":" + JsonArray(m.blocks) + "]}"
  }

  function FromDigest(m: Manifest): string {
    ",\"digest\":" + Quoted(m.digest) + FromBlocks(m)
  }

  /** What follows the comma after the version, and after the size. */
  function FromSize(m: Manifest): string {
    "\"size\":" + Decimal(m.size) + "," + FromBlockSize(m)
  }

  function FromBlockSize(m: Manifest): string {
    "\"block_size\":" + Decimal(m.blockSize) + FromDigest(m)
  }

  lemma JsonParts(m: Manifest)
    ensures Json(m) == "{\"name\":" + Quoted(m.name) + ",\"version\":" + Decimal(m.version) + "," + FromSize(m)
  {
    hide Quoted, Decimal, JsonArray;
    var a, b, c, d := Quoted(m.name), Decimal(m.version), Decimal(m.size), Decimal(m.blockSize);
    assert ",\"size\":" == "," + "\"size\":" && ",\"block_size\":" == "," + "\"block_size\":";
  }

  /** Two valid manifests with the same text are the same manifest. */
  lemma TextTells(m: Manifest, k: Manifest)
    requires Valid(m) && Valid(k) && Utf8(Json(m)) == Utf8(Json(k))
    ensures m == k
  {
    hide Quoted, Decimal, JsonArray, Json, Utf8, FromSize, FromDigest, FromBlockSize, FromBlocks;
    Utf8Tells(Json(m), Json(k));
    JsonParts(m);
    JsonParts(k);
    HeadTells(m, k);
    SizeTells(m, k);
    DigestTells(m, k);
    BlocksTell(m, k);
  }

  lemma HeadTells(m: Manifest, k: Manifest)
    requires "{\"name\":" + Quoted(m.name) + ",\"version\":" + Decimal(m.version) + "," + FromSize(m)
          == "{\"name\":" + Quoted(k.name) + ",\"version\":" + Decimal(k.version) + "," + FromSize(k)
    ensures m.name == k.name && m.version == k.version && FromSize(m) == FromSize(k)
  {
    hide Quoted, Decimal, FromSize;
    var head, next := "{\"name\":", ",\"version\":";
    var u, v := Decimal(m.version) + "," + FromSize(m), Decimal(k.version) + "," + FromSize(k);
    AfterSame(head, Quoted(m.name) + (next + u), Quoted(k.name) + (next + v)) by {
      assert head + (Quoted(m.name) + (next + u)) == head + Quoted(m.name) + next + Decimal(m.version) + "," + FromSize(m);
      assert head + (Quoted(k.name) + (next + v)) == head + Quoted(k.name) + next + Decimal(k.version) + "," + FromSize(k);
    }
    QuotedEnds(m.name, k.name, next + u, next + v);
    AfterSame(next, u, v);
    DecimalEnds(m.version, k.version, FromSize(m), FromSize(k));
  }

  lemma AfterSame(head: string, x: string, y: string)
    requires head + x == head + y
    ensures x == y
  {
    assert (head + x)[|head|..] == x && (head + y)[|head|..] == y;
  }

  lemma SizeTells(m: Manifest, k: Manifest)
    requires FromSize(m) == FromSize(k)
    ensures m.size == k.size && FromBlockSize(m) == FromBlockSize(k)
  {
    hide Decimal, FromBlockSize;
    var head := "\"size\":";
    assert FromSize(m) == head + (Decimal(m.size) + "," + FromBlockSize(m));
    assert FromSize(k) == head + (Decimal(k.size) + "," + FromBlockSize(k));
    AfterSame(head, Decimal(m.size) + "," + FromBlockSize(m), Decimal(k.size) + "," + FromBlockSize(k));
    DecimalEnds(m.size, k.size, FromBlockSize(m), FromBlockSize(k));
  }

  lemma DigestTells(m: Manifest, k: Manifest)
    requires FromBlockSize(m) == FromBlockSize(k)
    ensures m.blockSize == k.blockSize && m.digest == k.digest && FromBlocks(m) == FromBlocks(k)
  {
    hide Decimal, Quoted, FromBlocks;
    var head, next := "\"block_size\":", "\"digest\":";
    var u, v := next + (Quoted(m.digest) + FromBlocks(m)), next + (Quoted(k.digest) + FromBlocks(k));
    assert FromDigest(m) == "," + u && FromDigest(k) == "," + v;
    assert FromBlockSize(m) == head + (Decimal(m.blockSize) + "," + u);
    assert FromBlockSize(k) == head + (Decimal(k.blockSize) + "," + v);
    AfterSame(head, Decimal(m.blockSize) + "," + u, Decimal(k.blockSize) + "," + v);
    DecimalEnds(m.blockSize, k.blockSize, u, v);
    AfterSame(next, Quoted(m.digest) + FromBlocks(m), Quoted(k.digest) + FromBlocks(k));
    QuotedEnds(m.digest, k.digest, FromBlocks(m), FromBlocks(k));
  }

  lemma BlocksTell(m: Manifest, k: Manifest)
    requires Valid(m) && Valid(k) && FromBlocks(m) == FromBlocks(k)
    ensures m.blocks == k.blocks
  {
    hide JsonArray, ValidHash;
    var head := ",\"blocks\":";
    assert FromBlocks(m) == head + (JsonArray(m.blocks) + "]}") && FromBlocks(k) == head + (JsonArray(k.blocks) + "]}");
    AfterSame(head, JsonArray(m.blocks) + "]}", JsonArray(k.blocks) + "]}");
    var all := JsonArray(m.blocks) + "]}";
    assert all[..|all| - 2] == JsonArray(m.blocks) && all[..|all| - 2] == JsonArray(k.blocks);
    ArrayTells(m.blocks, k.blocks);
  }

  ghost predicate Offered(m: Manifest, text: Bytes) {
    Valid(m) && Utf8(Json(m)) == text
  }

  /** The decoder that finds the one valid manifest with a text, if there is one. */
  ghost function Read(text: Bytes): Option<Manifest> {
    if exists m :: Offered(m, text) then (var m :| Offered(m, text); Some(m)) else None
  }

  /** One decoder serves every offer, so the assumption that an offer is decoded to itself can be met for all. */
  lemma OneDecoder(m: Manifest)
    requires Valid(m)
    ensures Read(Utf8(Json(m))) == Some(m)
  {
    hide Utf8, Json, Valid;
    assert Offered(m, Utf8(Json(m)));
    forall k | Offered(k, Utf8(Json(m))) ensures k == m { TextTells(k, m); }
  }
}
