/**
 The anti-replay window in its three implementations: Rust on u64, JavaScript on BigInt and Kotlin
 on ULong. Each one is proved to decide exactly as a plain set of accepted counters does (the
 sliding window of section 3.4.3 of RFC 4303 with 64 entries), so the three agree call by call.
 */
module ReplayWindow {
  import opened Common
  import opened Bits
  import opened Packets

  lemma U64Range()
    ensures Pow2(64) == U64_MAX + 1
  {
    WordSizes();
  }

  // The specification: which counters have been accepted so far.

  /** Fresh, nonzero, and less than 64 behind every counter accepted so far. */
  ghost predicate Accepts(accepted: set<nat>, counter: int) {
    && 0 < counter <= U64_MAX
    && counter !in accepted
    && forall a :: a in accepted ==> a - counter < 64
  }

  ghost function Record(accepted: set<nat>, counter: int): set<nat> {
    if Accepts(accepted, counter) then accepted + {counter} else accepted
  }

  ghost function Recorded(accepted: set<nat>, counters: seq<int>): set<nat>
    decreases |counters|
  {
    if counters == [] then accepted
    else Recorded(Record(accepted, counters[0]), counters[1..])
  }

  /** The answers the set gives to a sequence of calls. */
  ghost function Decisions(accepted: set<nat>, counters: seq<int>): (d: seq<bool>)
    ensures |d| == |counters|
    decreases |counters|
  {
    if counters == [] then []
    else [Accepts(accepted, counters[0])] + Decisions(Record(accepted, counters[0]), counters[1..])
  }

  lemma {:induction false} DecisionsSnoc(accepted: set<nat>, counters: seq<int>, c: int)
    ensures Decisions(accepted, counters + [c])
         == Decisions(accepted, counters) + [Accepts(Recorded(accepted, counters), c)]
    ensures Recorded(accepted, counters + [c]) == Record(Recorded(accepted, counters), c)
    decreases |counters|
  {
    if counters == [] {
      assert [c][1..] == [];
    } else {
      assert (counters + [c])[1..] == counters[1..] + [c];
      DecisionsSnoc(Record(accepted, counters[0]), counters[1..], c);
    }
  }

  lemma {:induction false} AcceptedStaysRefused(accepted: set<nat>, counters: seq<int>, k: nat)
    requires k < |counters| && counters[k] >= 0 && counters[k] in accepted
    ensures !Decisions(accepted, counters)[k]
    decreases |counters|
  {
    if k > 0 { AcceptedStaysRefused(Record(accepted, counters[0]), counters[1..], k - 1); }
  }

  /** No counter is accepted twice, whatever calls come between. */
  lemma {:induction false} NeverTwice(accepted: set<nat>, counters: seq<int>, i: nat, j: nat)
    requires i < j < |counters| && counters[i] == counters[j]
    requires Decisions(accepted, counters)[i]
    ensures !Decisions(accepted, counters)[j]
    decreases |counters|
  {
    var rest := Record(accepted, counters[0]);
    if i == 0 {
      AcceptedStaysRefused(rest, counters[1..], j - 1);
    } else {
      NeverTwice(rest, counters[1..], i - 1, j - 1);
    }
  }

  /** Once a counter 64 or more ahead has been accepted, an older one is refused for good. */
  lemma {:induction false} TooOldStaysRefused(accepted: set<nat>, counters: seq<int>, high: nat, k: nat)
    requires k < |counters| && high in accepted && high - counters[k] >= 64
    ensures !Decisions(accepted, counters)[k]
    decreases |counters|
  {
    if k > 0 { TooOldStaysRefused(Record(accepted, counters[0]), counters[1..], high, k - 1); }
  }

  /** One of the first calls was accepted with counter a. */
  ghost predicate AcceptedIn(counters: seq<int>, d: seq<bool>, a: int)
    requires |d| == |counters|
  {
    exists j :: 0 <= j < |counters| && d[j] && counters[j] == a
  }

  lemma AcceptedSnoc(counters: seq<int>, d: seq<bool>, c: int, ok: bool, a: int)
    requires |d| == |counters|
    ensures AcceptedIn(counters + [c], d + [ok], a) <==> AcceptedIn(counters, d, a) || (ok && a == c)
  {
    if j :| 0 <= j < |counters| && d[j] && counters[j] == a {
      assert (d + [ok])[j] && (counters + [c])[j] == a;
    }
    if ok && a == c { assert (d + [ok])[|d|] && (counters + [c])[|d|] == a; }
  }

  lemma {:induction false} RecordedExactly(counters: seq<int>, a: int)
    ensures a >= 0 && a in Recorded({}, counters) <==> AcceptedIn(counters, Decisions({}, counters), a)
    decreases |counters|
  {
    hide Accepts, AcceptedIn;
    if counters == [] {
      NoneAccepted(a);
    } else {
      var n := |counters| - 1;
      assert counters == counters[..n] + [counters[n]];
      RecordedExactly(counters[..n], a);
      DecisionsSnoc({}, counters[..n], counters[n]);
      AcceptsCounter(Recorded({}, counters[..n]), counters[n]);
      AcceptedSnoc(counters[..n], Decisions({}, counters[..n]), counters[n], Accepts(Recorded({}, counters[..n]), counters[n]), a);
    }
  }

  lemma NoneAccepted(a: int)
    ensures !AcceptedIn([], [], a)
  {
  }

  lemma AcceptsCounter(accepted: set<nat>, counter: int)
    ensures Accepts(accepted, counter) ==> counter > 0
  {
  }

  /** No accepted call had the counter, and none had one 64 or more ahead of it. */
  ghost predicate FreshAmong(counters: seq<int>, d: seq<bool>, c: int)
    requires |d| == |counters|
  {
    forall j :: 0 <= j < |counters| && d[j] ==> counters[j] != c && counters[j] - c < 64
  }

  /**
   The answers without any set: a call is accepted exactly when its counter is in range, none of the
   calls accepted before had it, and none of those was 64 or more ahead.
   */
  lemma {:induction false} DecisionsExactly(counters: seq<int>, k: nat)
    requires k < |counters|
    ensures Decisions({}, counters)[k] <==>
      && 0 < counters[k] <= 0xffff_ffff_ffff_ffff
      && forall j :: 0 <= j < k && Decisions({}, counters)[j] ==>
           counters[j] != counters[k] && counters[j] - counters[k] < 64
    decreases |counters|
  {
    hide Accepts, AcceptedIn, Recorded;
    var n := |counters| - 1;
    assert counters == counters[..n] + [counters[n]];
    DecisionsSnoc({}, counters[..n], counters[n]);
    var before, d := Decisions({}, counters[..n]), Decisions({}, counters);
    assert forall j :: 0 <= j < n ==> d[j] == before[j] && counters[j] == counters[..n][j];
    if k < n {
      DecisionsExactly(counters[..n], k);
    } else {
      LastDecision(counters[..n], counters[n]);
      assert d[n] == Accepts(Recorded({}, counters[..n]), counters[n]);
    }
  }

  lemma LastDecision(counters: seq<int>, c: int)
    ensures Accepts(Recorded({}, counters), c) <==>
      0 < c <= 0xffff_ffff_ffff_ffff && FreshAmong(counters, Decisions({}, counters), c)
  {
    hide Decisions, Recorded, AcceptedIn;
    var d, seen := Decisions({}, counters), Recorded({}, counters);
    forall j | 0 <= j < |counters| && d[j] ensures counters[j] >= 0 && counters[j] in seen {
      AcceptedAt(counters, d, j);
      RecordedExactly(counters, counters[j]);
    }
    forall a | a in seen ensures AcceptedIn(counters, d, a) { RecordedExactly(counters, a); }
    if FreshAmong(counters, d, c) {
      forall a | a in seen ensures a != c && a - c < 64 { FreshFrom(counters, d, c, a); }
    }
  }

  lemma AcceptedAt(counters: seq<int>, d: seq<bool>, j: nat)
    requires |d| == |counters| && j < |d| && d[j]
    ensures AcceptedIn(counters, d, counters[j])
  {
  }

  lemma FreshFrom(counters: seq<int>, d: seq<bool>, c: int, a: int)
    requires |d| == |counters| && FreshAmong(counters, d, c) && AcceptedIn(counters, d, a)
    ensures a != c && a - c < 64
  {
  }

  // The refinement relation between a 64-bit bitmap and the set.

  ghost predicate Represents(highest: nat, bits: nat, accepted: set<nat>) {
    && (highest == 0 ==> accepted == {})
    && (highest > 0 ==> highest in accepted)
    && (forall a :: a in accepted ==> 0 < a <= highest)
    && bits < Pow2(64)
    && forall i: nat :: i < 64 ==> (Bit(bits, i) <==> i <= highest && highest - i in accepted)
  }

  lemma RepresentsEmpty()
    ensures Represents(0, 0, {})
  {
    forall i: nat | i < 64 ensures !Bit(0, i) { BitZero(i); }
  }

  /** A counter above the highest is accepted, and the bitmap moves up by the distance. */
  lemma Advance(highest: nat, bits: nat, accepted: set<nat>, counter: nat, bits': nat)
    requires Represents(highest, bits, accepted)
    requires highest < counter <= U64_MAX
    requires bits' < Pow2(64)
    requires forall i: nat :: i < 64 ==>
      (Bit(bits', i) <==> i == 0 || (i >= counter - highest && Bit(bits, i - (counter - highest))))
    ensures Accepts(accepted, counter)
    ensures Represents(counter, bits', accepted + {counter})
  {
    hide Bit;
    var shift := counter - highest;
    forall i: nat | i < 64
      ensures Bit(bits', i) <==> i <= counter && counter - i in accepted + {counter}
    {
      if i >= shift { assert highest - (i - shift) == counter - i; }
    }
  }

  /** A counter at or below the highest is decided by its bit, and sets it. */
  lemma Within(highest: nat, bits: nat, accepted: set<nat>, counter: nat, bits': nat)
    requires Represents(highest, bits, accepted)
    requires 0 < counter <= highest <= U64_MAX && highest - counter < 64
    requires !Bit(bits, highest - counter)
    requires bits' == Or(bits, Pow2(highest - counter))
    ensures Accepts(accepted, counter)
    ensures Represents(highest, bits', accepted + {counter})
  {
    hide Bit, Or;
    var behind := highest - counter;
    assert counter == highest - behind;
    Pow2Smaller(behind, 64);
    OrBound(bits, Pow2(behind), 64);
    forall i: nat | i < 64
      ensures Bit(bits', i) <==> i <= highest && highest - i in accepted + {counter}
    {
      BitOr(bits, Pow2(behind), i);
      BitPow2(behind, i);
    }
  }

  /** A counter whose bit is set was accepted before. */
  lemma AlreadySeen(highest: nat, bits: nat, accepted: set<nat>, counter: nat)
    requires Represents(highest, bits, accepted) && counter <= highest && highest - counter < 64
    requires Bit(bits, highest - counter)
    ensures !Accepts(accepted, counter)
  {
    hide Bit;
    assert highest - (highest - counter) == counter;
  }

  lemma TooFarBehind(highest: nat, bits: nat, accepted: set<nat>, counter: nat)
    requires Represents(highest, bits, accepted) && counter <= highest && highest - counter >= 64
    ensures !Accepts(accepted, counter)
  {
    hide Bit;
  }

  lemma OutOfRange(accepted: set<nat>, counter: int)
    requires counter <= 0 || counter > U64_MAX
    ensures !Accepts(accepted, counter)
  {
  }

  lemma {:induction false} Pow2Smaller(a: nat, b: nat)
    requires a < b
    ensures Pow2(a) < Pow2(b)
  {
    if a + 1 < b { Pow2Smaller(a, b - 1); }
  }

  lemma OneBit(i: nat)
    ensures Bit(1, i) == (i == 0)
  {
    BitPow2(0, i);
  }

  /** Rust truncates the shifted window and then sets bit 0. */
  lemma ShiftThenOr(bits: nat, shift: nat, i: nat)
    requires i < 64
    ensures Bit(Or(Low(Shl(bits, shift), 64), 1), i) == (i == 0 || (i >= shift && Bit(bits, i - shift)))
    ensures Or(Low(Shl(bits, shift), 64), 1) < Pow2(64)
  {
    var x := Shl(bits, shift);
    BitOr(Low(x, 64), 1, i);
    BitLow(x, 64, i);
    BitShift(bits, shift, i);
    OneBit(i);
    U64Range();
    OrBound(Low(x, 64), 1, 64);
  }

  /** JavaScript sets bit 0 of the unbounded shift and then truncates. */
  lemma OrThenTruncate(bits: nat, shift: nat, i: nat)
    requires i < 64
    ensures Bit(Low(Or(Shl(bits, shift), 1), 64), i) == (i == 0 || (i >= shift && Bit(bits, i - shift)))
  {
    var x := Shl(bits, shift);
    BitLow(Or(x, 1), 64, i);
    BitOr(x, 1, i);
    BitShift(bits, shift, i);
    OneBit(i);
  }

  // native-core/src/lib.rs

  class CryptoState {
    const cipher: Cipher
    const sendPrefix: Bytes
    const receivePrefix: Bytes
    var sendCounter: nat
    var highestReceived: nat
    var replayWindow: nat
    ghost var accepted: set<nat>

    ghost predicate Valid()
      reads this
    {
      && |sendPrefix| == |receivePrefix| == 4
      && sendCounter <= U64_MAX && highestReceived <= U64_MAX
      && Represents(highestReceived, replayWindow, accepted)
    }

    constructor (cipher: Cipher, sendPrefix: Bytes, receivePrefix: Bytes)
      requires |sendPrefix| == |receivePrefix| == 4
      ensures Valid() && accepted == {} && sendCounter == 0
      ensures this.cipher == cipher && this.sendPrefix == sendPrefix && this.receivePrefix == receivePrefix
    {
      this.cipher, this.sendPrefix, this.receivePrefix := cipher, sendPrefix, receivePrefix;
      sendCounter, highestReceived, replayWindow, accepted := 0, 0, 0, {};
      new;
      RepresentsEmpty();
    }

    /**
     Sealing takes the next counter, also when the encryption then fails, and never reuses one: at the
     end of the 64-bit range it fails without a change.
     */
    method Seal(plain: Bytes) returns (r: Result<Bytes, string>)
      requires Valid()
      modifies this`sendCounter
      ensures Valid()
      ensures sendCounter == if old(sendCounter) == 0xffff_ffff_ffff_ffff then old(sendCounter) else old(sendCounter) + 1
      ensures r.Ok? <==> old(sendCounter) < 0xffff_ffff_ffff_ffff && Encrypted(sendCounter, plain).Some?
      ensures r.Ok? ==> r.value == Packed(sendCounter, Encrypted(sendCounter, plain).value)
    {
      if sendCounter == U64_MAX { return Err("packet counter exhausted"); }
      sendCounter := sendCounter + 1;
      var encrypted := cipher.encrypt(Nonce(sendPrefix, sendCounter), CounterBytes(sendCounter), plain);
      if encrypted.None? { return Err("AES-GCM encryption failed"); }
      r := Ok(MAGIC + [VERSION, ENCRYPTED_TYPE] + CounterBytes(sendCounter) + encrypted.value);
    }

    /** The ciphertext under a counter of this side's direction; the counter is authenticated with it. */
    function Encrypted(counter: nat, plain: Bytes): Option<Bytes> {
      cipher.encrypt(Nonce(sendPrefix, counter), CounterBytes(counter), plain)
    }

    function Decrypted(counter: nat, ciphertext: Bytes): Option<Bytes> {
      cipher.decrypt(Nonce(receivePrefix, counter), CounterBytes(counter), ciphertext)
    }

    method AcceptCounter(counter: nat) returns (ok: bool)
      requires Valid() && counter <= U64_MAX
      modifies this`highestReceived, this`replayWindow, this`accepted
      ensures Valid()
      ensures ok == Accepts(old(accepted), counter)
      ensures accepted == Record(old(accepted), counter)
    {
      hide Shl, Or, And, Low, Bit, Represents, Accepts;
      if counter == 0 {
        OutOfRange(accepted, counter);
        return false;
      }
      if counter > highestReceived {
        var shift := counter - highestReceived;
        var window := if shift >= 64 then 1 else Or(Low(Shl(replayWindow, shift), 64), 1);
        forall i: nat | i < 64
          ensures Bit(window, i) == (i == 0 || (i >= shift && Bit(replayWindow, i - shift)))
        {
          if shift >= 64 { OneBit(i); } else { ShiftThenOr(replayWindow, shift, i); }
        }
        assert window < Pow2(64) by { U64Range(); if shift < 64 { ShiftThenOr(replayWindow, shift, 0); } }
        Advance(highestReceived, replayWindow, accepted, counter, window);
        replayWindow := window;
        highestReceived := counter;
        accepted := accepted + {counter};
        return true;
      }
      var behind := highestReceived - counter;
      if behind >= 64 {
        TooFarBehind(highestReceived, replayWindow, accepted, counter);
        return false;
      }
      var bit := Pow2(behind);
      AndPow2(replayWindow, behind);
      if And(replayWindow, bit) != 0 {
        AlreadySeen(highestReceived, replayWindow, accepted, counter);
        return false;
      }
      Within(highestReceived, replayWindow, accepted, counter, Or(replayWindow, bit));
      replayWindow := Or(replayWindow, bit);
      accepted := accepted + {counter};
      return true;
    }

    /**
     Opening an encrypted packet: the counter is committed only after decryption succeeded, so a
     forged packet leaves the window alone and every counter opens at most one packet.
     */
    method Open(packet: Bytes) returns (plain: Option<Bytes>)
      requires Valid()
      modifies this`highestReceived, this`replayWindow, this`accepted
      ensures Valid()
      ensures plain.Some? <==> Opens(old(accepted), packet)
      ensures plain.Some? ==> plain == Decrypted(CounterOf(packet), packet[14..])
      ensures plain.Some? ==> accepted == old(accepted) + {CounterOf(packet)}
      ensures plain.None? ==> accepted == old(accepted)
    {
      if |packet| < 30 || packet[..4] != MAGIC || packet[4] != VERSION || packet[5] != ENCRYPTED_TYPE { return None; }
      var counter := CounterOf(packet);
      CounterRange(packet);
      plain := cipher.decrypt(Nonce(receivePrefix, counter), CounterBytes(counter), packet[14..]);
      if plain.None? { return None; }
      var ok := AcceptCounter(counter);
      if !ok { return None; }
    }

    ghost predicate Opens(accepted: set<nat>, packet: Bytes) {
      && Headed(packet)
      && Decrypted(CounterOf(packet), packet[14..]).Some?
      && Accepts(accepted, CounterOf(packet))
    }

    /**
     Which packets open, byte by byte: with a well-formed header, a counter c and at least 16 bytes of
     ciphertext, exactly those that decrypt under c when c is fresh.
     */
    lemma OpensExactly(accepted: set<nat>, c: nat, ciphertext: Bytes, packet: Bytes)
      requires 1 <= c <= 0xffff_ffff_ffff_ffff && |ciphertext| >= 16
      requires packet == [0x51, 0x32, 0x50, 0x53, 2, 17,
        c / 0x100_0000_0000_0000 % 256, c / 0x1_0000_0000_0000 % 256, c / 0x100_0000_0000 % 256, c / 0x1_0000_0000 % 256,
        c / 0x100_0000 % 256, c / 0x1_0000 % 256, c / 0x100 % 256, c % 256] + ciphertext
      ensures Headed(packet) && CounterOf(packet) == c && packet[14..] == ciphertext
      ensures Opens(accepted, packet) <==> Decrypted(c, ciphertext).Some? && Accepts(accepted, c)
    {
      PacketLayout(c, ciphertext, packet);
    }
  }

  /** Packets sealed in a row take the counters 1, 2, 3, ... */
  method SealAll(a: CryptoState, plains: seq<Bytes>) returns (packets: seq<Bytes>)
    requires a.Valid() && a.sendCounter == 0
    requires |plains| <= U64_MAX && forall i :: 0 <= i < |plains| ==> a.Encrypted(i + 1, plains[i]).Some?
    modifies a`sendCounter
    ensures |packets| == |plains|
    ensures forall i :: 0 <= i < |packets| ==> packets[i] == Packed(i + 1, a.Encrypted(i + 1, plains[i]).value)
  {
    hide Packed, Nonce, CounterBytes;
    packets := [];
    for i := 0 to |plains|
      invariant a.Valid() && a.sendCounter == i == |packets|
      invariant forall j :: 0 <= j < i ==> packets[j] == Packed(j + 1, a.Encrypted(j + 1, plains[j]).value)
    {
      var r := a.Seal(plains[i]);
      packets := packets + [r.value];
    }
  }

  /**
   Two sides of one key over a channel that may drop, repeat and reorder packets: what is delivered
   opens to its own plaintext exactly when its counter is fresh then, and to nothing otherwise.
   */
  method Channel(a: CryptoState, b: CryptoState, plains: seq<Bytes>, order: seq<nat>) returns (outs: seq<Option<Bytes>>)
    requires a.Valid() && b.Valid() && a != b && a.sendCounter == 0 && b.accepted == {}
    requires a.cipher == b.cipher && a.sendPrefix == b.receivePrefix && Inverse(a.cipher)
    requires |plains| <= U64_MAX && forall i :: 0 <= i < |plains| ==> a.Encrypted(i + 1, plains[i]).Some?
    requires forall k :: 0 <= k < |order| ==> order[k] < |plains|
    modifies a, b
    ensures |outs| == |order|
    ensures forall k :: 0 <= k < |order| ==>
      outs[k] == if Decisions({}, Numbered(order))[k] then Some(plains[order[k]]) else None
  {
    hide Packed, Nonce, CounterBytes, Headed, CounterOf, Accepts, Represents, Inverse, Decisions, Numbered;
    var packets := SealAll(a, plains);
    outs := [];
    NoneDelivered();
    for k := 0 to |order|
      invariant b.Valid() && |outs| == k
      invariant b.accepted == Recorded({}, Numbered(order[..k]))
      invariant forall j :: 0 <= j < k ==>
        outs[j] == if Decisions({}, Numbered(order[..k]))[j] then Some(plains[order[j]]) else None
    {
      SealedOpens(a, b, order[k] + 1, plains[order[k]], b.accepted);
      OneDelivered(order, k);
      var plain := b.Open(packets[order[k]]);
      outs := outs + [plain];
    }
    assert order[..|order|] == order;
  }

  lemma NoneDelivered()
    ensures Numbered([]) == [] && Recorded({}, []) == {}
  {
  }

  lemma OneDelivered(order: seq<nat>, k: nat)
    requires k < |order|
    ensures var (before, after) := (Numbered(order[..k]), Numbered(order[..k + 1]));
      && Decisions({}, after) == Decisions({}, before) + [Accepts(Recorded({}, before), order[k] + 1)]
      && Recorded({}, after) == Record(Recorded({}, before), order[k] + 1)
  {
    hide Accepts;
    assert Numbered(order[..k + 1]) == Numbered(order[..k]) + [order[k] + 1];
    DecisionsSnoc({}, Numbered(order[..k]), order[k] + 1);
  }

  /** The counters of the packets delivered in that order: packet i is sealed with counter i + 1. */
  function Numbered(order: seq<nat>): (counters: seq<int>)
    ensures |counters| == |order|
  {
    seq(|order|, k requires 0 <= k < |order| => order[k] + 1)
  }

  lemma SealedOpens(a: CryptoState, b: CryptoState, c: nat, plain: Bytes, accepted: set<nat>)
    requires a.cipher == b.cipher && a.sendPrefix == b.receivePrefix && Inverse(a.cipher)
    requires c <= U64_MAX && a.Encrypted(c, plain).Some?
    ensures var packet := Packed(c, a.Encrypted(c, plain).value);
      && (b.Opens(accepted, packet) <==> Accepts(accepted, c))
      && |packet| >= 30 && CounterOf(packet) == c
      && b.Decrypted(CounterOf(packet), packet[14..]) == Some(plain)
  {
    hide Accepts;
    PackedCarries(c, a.Encrypted(c, plain).value);
  }

  // electron/ReplayWindow.cjs

  class BigIntWindow {
    var highest: nat
    var bits: nat
    ghost var accepted: set<nat>

    ghost predicate Valid()
      reads this
    {
      highest <= U64_MAX && Represents(highest, bits, accepted)
    }

    constructor ()
      ensures Valid() && accepted == {}
    {
      highest, bits, accepted := 0, 0, {};
      new;
      RepresentsEmpty();
    }

    method Clear()
      modifies this
      ensures Valid() && accepted == {}
    {
      highest, bits, accepted := 0, 0, {};
      RepresentsEmpty();
    }

    /** The counter is an arbitrary BigInt; only 1 to 2^64 - 1 can be accepted. */
    method Accept(counter: int) returns (ok: bool)
      requires Valid()
      modifies this
      ensures Valid()
      ensures ok == Accepts(old(accepted), counter)
      ensures accepted == Record(old(accepted), counter)
    {
      hide Shl, Or, And, Low, Bit, Represents, Accepts;
      if counter <= 0 || counter > U64_MAX {
        OutOfRange(accepted, counter);
        return false;
      }
      if counter > highest {
        var shift := counter - highest;
        var window := if shift >= 64 then 1 else Low(Or(Shl(bits, shift), 1), 64);
        forall i: nat | i < 64
          ensures Bit(window, i) == (i == 0 || (i >= shift && Bit(bits, i - shift)))
        {
          if shift >= 64 { OneBit(i); } else { OrThenTruncate(bits, shift, i); }
        }
        assert window < Pow2(64) by { U64Range(); }
        Advance(highest, bits, accepted, counter, window);
        bits := window;
        highest := counter;
        accepted := accepted + {counter};
        return true;
      }
      var behind := highest - counter;
      if behind >= 64 {
        TooFarBehind(highest, bits, accepted, counter);
        return false;
      }
      var bit := Pow2(behind);
      AndPow2(bits, behind);
      if And(bits, bit) != 0 {
        AlreadySeen(highest, bits, accepted, counter);
        return false;
      }
      Within(highest, bits, accepted, counter, Or(bits, bit));
      bits := Or(bits, bit);
      accepted := accepted + {counter};
      return true;
    }
  }

  // android/.../ReplayWindow.kt

  /** The unsigned reading of a signed 64-bit Kotlin Long. */
  function ToULong(x: int): (u: nat)
    requires -0x8000_0000_0000_0000 <= x < 0x8000_0000_0000_0000
    ensures u <= U64_MAX
  {
    if x < 0 then x + U64_MAX + 1 else x
  }

  class ULongWindow {
    var highest: nat
    var bits: nat
    ghost var accepted: set<nat>

    ghost predicate Valid()
      reads this
    {
      highest <= U64_MAX && Represents(highest, bits, accepted)
    }

    constructor ()
      ensures Valid() && accepted == {}
    {
      highest, bits, accepted := 0, 0, {};
      new;
      RepresentsEmpty();
    }

    method Accept(counterBits: int) returns (ok: bool)
      requires Valid() && -0x8000_0000_0000_0000 <= counterBits < 0x8000_0000_0000_0000
      modifies this
      ensures Valid()
      ensures ok == Accepts(old(accepted), ToULong(counterBits))
      ensures accepted == Record(old(accepted), ToULong(counterBits))
    {
      var counter := ToULong(counterBits);
      hide Shl, Or, And, Low, Bit, Represents, Accepts;
      if counter == 0 {
        OutOfRange(accepted, counter);
        return false;
      }
      if counter > highest {
        var shift := counter - highest;
        var window := if shift >= 64 then 1 else Or(Low(Shl(bits, shift), 64), 1);
        forall i: nat | i < 64
          ensures Bit(window, i) == (i == 0 || (i >= shift && Bit(bits, i - shift)))
        {
          if shift >= 64 { OneBit(i); } else { ShiftThenOr(bits, shift, i); }
        }
        assert window < Pow2(64) by { U64Range(); if shift < 64 { ShiftThenOr(bits, shift, 0); } }
        Advance(highest, bits, accepted, counter, window);
        bits := window;
        highest := counter;
        accepted := accepted + {counter};
        return true;
      }
      var behind := highest - counter;
      if behind >= 64 {
        TooFarBehind(highest, bits, accepted, counter);
        return false;
      }
      var bit := Pow2(behind);
      AndPow2(bits, behind);
      if And(bits, bit) != 0 {
        AlreadySeen(highest, bits, accepted, counter);
        return false;
      }
      Within(highest, bits, accepted, counter, Or(bits, bit));
      bits := Or(bits, bit);
      accepted := accepted + {counter};
      return true;
    }
  }

  /** A Kotlin Long holding the bits of an unsigned counter. */
  function ToLong(u: nat): (x: int)
    requires u <= U64_MAX
    ensures -0x8000_0000_0000_0000 <= x < 0x8000_0000_0000_0000 && ToULong(x) == u
  {
    if u < 0x8000_0000_0000_0000 then u else u - U64_MAX - 1
  }

  /** Over any sequence of 64-bit counters the three windows give the same answers, those of the set. */
  method ThreeWindowsAgree(cipher: Cipher, counters: seq<int>) returns (rust: seq<bool>, js: seq<bool>, kotlin: seq<bool>)
    requires forall i :: 0 <= i < |counters| ==> 0 <= counters[i] <= U64_MAX
    ensures rust == js == kotlin == Decisions({}, counters)
  {
    var r := new CryptoState(cipher, [0, 0, 0, 0], [0, 0, 0, 0]);
    var j := new BigIntWindow();
    var k := new ULongWindow();
    rust, js, kotlin := [], [], [];
    for n := 0 to |counters|
      invariant r.Valid() && j.Valid() && k.Valid()
      invariant r.accepted == j.accepted == k.accepted == Recorded({}, counters[..n])
      invariant rust == js == kotlin == Decisions({}, counters[..n])
    {
      var a := r.AcceptCounter(counters[n]);
      var b := j.Accept(counters[n]);
      var c := k.Accept(ToLong(counters[n]));
      rust, js, kotlin := rust + [a], js + [b], kotlin + [c];
      DecisionsSnoc({}, counters[..n], counters[n]);
      assert counters[..n + 1] == counters[..n] + [counters[n]];
    }
    assert counters[..|counters|] == counters;
  }
}
