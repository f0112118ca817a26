/**
 Connection tickets: an IPv4 endpoint and a secret, framed by a checksum and printed in Base32.
 Encoding and decoding are inverse, and no edit of up to three adjacent symbols is silently accepted.
 */
module ConnectionTicket {
  import opened Common
  import opened Bits
  import opened Crc16
  import opened Base32

  const FIXED_PORT: nat := 45882

  datatype Ticket = Ticket(octets: Bytes, port: nat, secret: Bytes)

  /** Exactly ten bytes of the secret: cut, or filled up with zeros. */
  function Fitted(secret: Bytes): (s: Bytes)
    ensures |s| == 10
  {
    seq(10, i requires 0 <= i < 10 => if i < |secret| then secret[i] else 0)
  }

  /** Flag byte, port only when it is not the well-known one, then the secret. */
  function Payload(octets: Bytes, port: nat, secret: Bytes): Bytes
    requires port < 0x1_0000
  {
    octets + (if port != FIXED_PORT then [1, port / 256, port % 256] else [0]) + Fitted(secret)
  }

  predicate Octets(xs: seq<int>) {
    |xs| == 4 && forall i :: 0 <= i < 4 ==> 0 <= xs[i] <= 255
  }

  function Printed(octets: Bytes, port: nat, secret: Bytes): string
    requires port < 0x1_0000
  {
    var digits := EncodedDigits(Frame(Payload(octets, port, secret)));
    EncodedBits(Frame(Payload(octets, port, secret)));
    Grouped(Symbols(digits))
  }

  method EncodeTicket(octets: seq<int>, port: int, secret: Bytes) returns (r: Result<string, string>)
    ensures r.Ok? <==> |octets| == 4 && (forall i :: 0 <= i < 4 ==> 0 <= octets[i] <= 255) && 0 <= port < 0x1_0000
    ensures r.Ok? ==> Octets(octets)
    ensures r.Ok? ==> r.value == Printed(octets, port, secret)
  {
    hide Checksum, Register, EncodedDigits, Grouped, Symbols, Payload, Fitted;
    if !Octets(octets) { return Err("Ticket requires IPv4"); }
    if port != FIXED_PORT && !(0 <= port < 0x1_0000) { return Err("port out of range"); }
    var payload := WritePayload(octets, port, secret);
    var framed := WriteFrame(payload);
    EncodedBits(framed);
    r := Encode(framed);
  }

  /** The buffer is allocated at its final size and filled at offsets. */
  method WritePayload(octets: Bytes, port: nat, secret: Bytes) returns (payload: Bytes)
    requires |octets| == 4 && port < 0x1_0000
    ensures payload == Payload(octets, port, secret)
  {
    var mapped := port != FIXED_PORT;
    var buffer := new Byte[if mapped then 17 else 15](i => 0);
    forall i | 0 <= i < 4 { buffer[i] := octets[i]; }
    buffer[4] := if mapped then 1 else 0;
    var offset := 5;
    if mapped {
      buffer[offset] := port / 256;
      buffer[offset + 1] := port % 256;
      offset := offset + 2;
    }
    forall i | 0 <= i < 10 && i < |secret| { buffer[offset + i] := secret[i]; }
    payload := buffer[..];
  }

  method WriteFrame(payload: Bytes) returns (framed: Bytes)
    ensures framed == Frame(payload)
  {
    hide Checksum, Register;
    var n := |payload|;
    var buffer := new Byte[n + 2](i => 0);
    forall i | 0 <= i < n { buffer[i] := payload[i]; }
    assert buffer[..n] == payload;
    var crc := ComputeCrc(payload);
    buffer[n] := crc / 256;
    buffer[n + 1] := crc % 256;
    assert buffer[..n] == payload;
    assert crc / 256 % 256 == crc / 256;
    framed := buffer[..];
  }

  // Decoding.

  function Opened(framed: Bytes): Result<Ticket, string> {
    var n := |framed| - 2;
    if n != 15 && n != 17 then Err("Invalid connection ticket length")
    else if !Checked(framed) then Err("Connection ticket checksum failed")
    else if (framed[4] == 1) != (n == 17) then Err("Invalid connection ticket flags")
    else if n == 17 then Ok(Ticket(framed[..4], (framed[5] as int) * 256 + framed[6], framed[7..17]))
    else Ok(Ticket(framed[..4], FIXED_PORT, framed[5..15]))
  }

  /** What decoding a text as a ticket yields. */
  function DecodedTicket(upper: UpperCase, text: string): Result<Ticket, string> {
    match Decoded(upper, text)
    case Err(e) => Err(e)
    case Ok(framed) => Opened(framed)
  }

  method DecodeTicket(upper: UpperCase, code: string) returns (r: Result<Ticket, string>)
    ensures r == DecodedTicket(upper, code)
  {
    hide Decoded, Opened;
    var decoded := Decode(upper, code);
    if decoded.Err? { return Err(decoded.error); }
    r := OpenFrame(decoded.value);
  }

  method OpenFrame(framed: Bytes) returns (r: Result<Ticket, string>)
    ensures r == Opened(framed)
  {
    hide Checksum, Register;
    if |framed| != 17 && |framed| != 19 { return Err("Invalid connection ticket length"); }
    var payload := framed[..|framed| - 2];
    var crc := ComputeCrc(payload);
    if crc != (framed[|framed| - 2] as int) * 256 + framed[|framed| - 1] {
      return Err("Connection ticket checksum failed");
    }
    var mapped := payload[4] == 1;
    if mapped != (|framed| == 19) { return Err("Invalid connection ticket flags"); }
    var offset := 5;
    var port: nat := FIXED_PORT;
    if mapped {
      port := (payload[offset] as int) * 256 + payload[offset + 1];
      offset := offset + 2;
    }
    r := Ok(Ticket(payload[..4], port, payload[offset..offset + 10]));
    assert payload[..4] == framed[..4] && payload[offset..offset + 10] == framed[offset..offset + 10];
  }

  /** Kotlin's parse. `letter` is the platform's letter-or-digit test on characters outside ASCII. */
  method Parse(upper: UpperCase, code: string, letter: char -> bool) returns (r: Result<Ticket, string>)
    ensures Foreign(upper, code, letter) ==> r.Err?
    ensures !Foreign(upper, code, letter) ==> r.Ok? == DecodedTicket(upper, code).Ok?
    ensures !Foreign(upper, code, letter) && r.Ok? ==> r == DecodedTicket(upper, code)
  {
    hide Checksum, Register, Decoded, DecodedKotlin, Foreign;
    DecodersAgree(upper, code, letter);
    var decoded := DecodeKotlin(upper, code, letter);
    if decoded.Err? { return Err(decoded.error); }
    var framed := decoded.value;
    if |framed| != 17 && |framed| != 19 { return Err("Invalid ticket length"); }
    var payload := framed[..|framed| - 2];
    var expected := (framed[|framed| - 2] as int) * 256 + framed[|framed| - 1];
    var crc := ComputeCrc(payload);
    if crc != expected { return Err("Ticket checksum failed"); }
    var mapped := payload[4] == 1;
    if mapped != (|framed| == 19) { return Err("Invalid ticket flags"); }
    var offset, port: nat := 5, FIXED_PORT;
    if mapped {
      port := (payload[5] as int) * 256 + payload[6];
      offset := 7;
    }
    assert payload[..4] == framed[..4] && payload[offset..offset + 10] == framed[offset..offset + 10];
    r := Ok(Ticket(payload[..4], port, payload[offset..offset + 10]));
  }

  /**
   The bytes of a ticket: four octets, a flag, for every port but 45882 the port with its high byte first, and
   ten bytes of the secret, cut or filled up with zeros.
   */
  lemma TicketLayout(octets: Bytes, port: nat, secret: Bytes, i: nat)
    requires |octets| == 4 && port < 0x1_0000
    ensures var p, from := Payload(octets, port, secret), if port == 45882 then 5 else 7;
      && |p| == from + 10 && p[..4] == octets
      && (port == 45882 ==> p[4] == 0)
      && (port != 45882 ==> p[4] == 1 && (p[5] as int) * 256 + p[6] == port)
      && (i < 10 ==> p[from + i] == if i < |secret| then secret[i] else 0)
  {
  }

  /** The bytes of any payload with the right flag are read back so, whoever wrote it. */
  lemma OpenedExactly(payload: Bytes)
    requires |payload| == 15 || |payload| == 17
    ensures Opened(Frame(payload)) ==
      if (payload[4] == 1) != (|payload| == 17) then Err("Invalid connection ticket flags")
      else Ok(Ticket(payload[..4], if |payload| == 17 then (payload[5] as int) * 256 + payload[6] else 45882, payload[|payload| - 10..]))
  {
    hide Checksum;
    FrameChecked(payload);
    var framed := Frame(payload);
    assert framed[..4] == payload[..4];
    assert framed[|payload| - 10..|payload|] == payload[|payload| - 10..];
  }

  // Round trip.

  lemma OpenedFrame(octets: Bytes, port: nat, secret: Bytes)
    requires |octets| == 4 && port < 0x1_0000
    ensures Opened(Frame(Payload(octets, port, secret))) == Ok(Ticket(octets, port, Fitted(secret)))
  {
    hide Checksum;
    var payload := Payload(octets, port, secret);
    var framed := Frame(payload);
    FrameChecked(payload);
    assert framed[..4] == octets;
    var offset := if port != FIXED_PORT then 7 else 5;
    assert framed[offset..offset + 10] == Fitted(secret);
    if port != FIXED_PORT {
      assert framed[4] == 1 && framed[5] == port / 256 && framed[6] == port % 256;
    } else {
      assert framed[4] == 0;
    }
  }

  /** Every endpoint and secret survives the trip through the printed ticket. */
  lemma TicketRoundTrip(upper: UpperCase, octets: Bytes, port: nat, secret: Bytes)
    requires |octets| == 4 && port < 0x1_0000
    ensures DecodedTicket(upper, Printed(octets, port, secret)) == Ok(Ticket(octets, port, Fitted(secret)))
    ensures |secret| == 10 ==> Fitted(secret) == secret
  {
    hide Payload, Opened, Frame, Decoded, EncodedDigits, Grouped, Symbols;
    TextRoundTrip(upper, Frame(Payload(octets, port, secret)));
    OpenedFrame(octets, port, secret);
  }

  // Edits.

  /** The symbol bits a text carries. */
  function TextBits(upper: UpperCase, text: string): seq<bool>
    requires DigitsOf(Clean(upper, text)).Some?
  {
    Unpack(DigitsOf(Clean(upper, text)).value, 5)
  }

  lemma FramesOfBits(upper: UpperCase, a: string, b: string, from: nat)
    requires Decoded(upper, a).Ok? && Decoded(upper, b).Ok?
    requires SameOutside(TextBits(upper, a), TextBits(upper, b), from, from + 16)
    ensures |Decoded(upper, a).value| == |Decoded(upper, b).value|
    ensures SameOutside(ByteBits(Decoded(upper, a).value), ByteBits(Decoded(upper, b).value), from, from + 16)
  {
    hide Unpack, Pack, DecodedBytes, Clean, DigitsOf;
    DecodedBits(DigitsOf(Clean(upper, a)).value);
    DecodedBits(DigitsOf(Clean(upper, b)).value);
    var x, y := TextBits(upper, a), TextBits(upper, b);
    assert ByteBits(Decoded(upper, a).value) == x[..|x| - |x| % 8];
    assert ByteBits(Decoded(upper, b).value) == y[..|y| - |y| % 8];
  }

  /** Damage to at most 16 consecutive bits of a valid ticket is refused, or hits only padding. */
  lemma BurstRefused(upper: UpperCase, ticket: string, edited: string, from: nat)
    requires DecodedTicket(upper, ticket).Ok?
    requires DigitsOf(Clean(upper, edited)).Some?
    requires SameOutside(TextBits(upper, ticket), TextBits(upper, edited), from, from + 16)
    ensures DecodedTicket(upper, edited).Err? || Decoded(upper, edited) == Decoded(upper, ticket)
    ensures DecodedTicket(upper, edited).Err? || DecodedTicket(upper, edited) == DecodedTicket(upper, ticket)
  {
    hide Unpack, Pack, DecodedBytes, Clean, DigitsOf;
    if DecodedTicket(upper, edited).Ok? {
      FramesOfBits(upper, ticket, edited, from);
      BurstDetected(Decoded(upper, ticket).value, Decoded(upper, edited).value, from);
    }
  }

  /** Replacing up to three adjacent symbols by any letters or digits is refused, or hits only padding. */
  lemma ThreeSymbolsRefused(upper: UpperCase, ticket: string, edited: string, at: nat)
    requires DecodedTicket(upper, ticket).Ok?
    requires |Clean(upper, edited)| == |Clean(upper, ticket)|
    requires forall i :: 0 <= i < |Clean(upper, ticket)| && !(at <= i < at + 3) ==> Clean(upper, edited)[i] == Clean(upper, ticket)[i]
    ensures DecodedTicket(upper, edited).Err? || Decoded(upper, edited) == Decoded(upper, ticket)
    ensures DecodedTicket(upper, edited).Err? || DecodedTicket(upper, edited) == DecodedTicket(upper, ticket)
  {
    hide Unpack, Pack, DecodedBytes, Clean, Opened;
    if DigitsOf(Clean(upper, edited)).Some? {
      var a, b := Clean(upper, ticket), Clean(upper, edited);
      DigitAt(a);
      DigitAt(b);
      var x, y := DigitsOf(a).value, DigitsOf(b).value;
      UnpackLocal(x, y, at, at + 3);
      assert SameOutside(TextBits(upper, ticket), TextBits(upper, edited), 5 * at, 5 * at + 16);
      BurstRefused(upper, ticket, edited, 5 * at);
    }
  }

  lemma {:induction false} DigitAt(clean: string)
    requires DigitsOf(clean).Some?
    ensures |DigitsOf(clean).value| == |clean|
    ensures forall i :: 0 <= i < |clean| ==> DigitOf(clean[i]) == Some(DigitsOf(clean).value[i])
  {
    if clean != "" { DigitAt(clean[..|clean| - 1]); }
  }
}
