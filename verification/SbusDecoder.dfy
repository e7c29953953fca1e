/**
 Decoding of SBUS frames: sixteen channels of eleven bits, packed least significant
 bit first into twenty-two bytes.
 */
module SbusDecoder {
  import opened Digits

  const SBUS_FRAME_LEN: nat := 25
  const SBUS_HEADER: nat := 0x0f
  const SBUS_FOOTERS: set<nat> := {0x00, 0x04, 0x14, 0x24, 0x34}
  const SBUS_FLAG_FRAME_LOST: nat := 4
  const SBUS_FLAG_FAILSAFE: nat := 8
  const CHANNEL_MASK: nat := 0x07ff

  datatype FrameError = BadLength(n: nat) | BadHeader(b: nat) | BadFooter(b: nat) | FailsafeSet | FrameLostSet

  datatype Decoded = Channels(values: seq<nat>) | Refused(error: FrameError)

  predicate IsFrame(frame: seq<nat>) {
    AllBelow(frame, 256)
  }

  function Or2(x: nat, y: nat): nat {
    BitAnd(BitOr(x, y), CHANNEL_MASK)
  }

  function Or3(x: nat, y: nat, z: nat): nat {
    BitAnd(BitOr(BitOr(x, y), z), CHANNEL_MASK)
  }

  /** Eight channels from the eleven bytes that start at `b[at]`. */
  function EightChannels(b: seq<nat>, at: nat): (r: seq<nat>)
    requires at + 11 <= |b|
    ensures |r| == 8
  {
    [Or2(b[at], ShiftLeft(b[at + 1], 8)),
     Or2(ShiftRight(b[at + 1], 3), ShiftLeft(b[at + 2], 5)),
     Or3(ShiftRight(b[at + 2], 6), ShiftLeft(b[at + 3], 2), ShiftLeft(b[at + 4], 10)),
     Or2(ShiftRight(b[at + 4], 1), ShiftLeft(b[at + 5], 7)),
     Or2(ShiftRight(b[at + 5], 4), ShiftLeft(b[at + 6], 4)),
     Or3(ShiftRight(b[at + 6], 7), ShiftLeft(b[at + 7], 1), ShiftLeft(b[at + 8], 9)),
     Or2(ShiftRight(b[at + 8], 2), ShiftLeft(b[at + 9], 6)),
     Or2(ShiftRight(b[at + 9], 5), ShiftLeft(b[at + 10], 3))]
  }

  /** `decode_sbus_frame`. */
  function Decode(frame: seq<nat>): Decoded {
    if |frame| != SBUS_FRAME_LEN then Refused(BadLength(|frame|))
    else if frame[0] != SBUS_HEADER then Refused(BadHeader(frame[0]))
    else if frame[24] !in SBUS_FOOTERS then Refused(BadFooter(frame[24]))
    else if BitAnd(frame[23], SBUS_FLAG_FAILSAFE) != 0 then Refused(FailsafeSet)
    else if BitAnd(frame[23], SBUS_FLAG_FRAME_LOST) != 0 then Refused(FrameLostSet)
    else Channels(EightChannels(frame, 1) + EightChannels(frame, 12))
  }

  // ---------------------------------------------------------------------------
  // Each channel as arithmetic
  // ---------------------------------------------------------------------------

  lemma Pow2Values()
    ensures Pow(2, 1) == 2 && Pow(2, 2) == 4 && Pow(2, 3) == 8 && Pow(2, 4) == 16 && Pow(2, 5) == 32
    ensures Pow(2, 6) == 64 && Pow(2, 7) == 128 && Pow(2, 8) == 256 && Pow(2, 9) == 512 && Pow(2, 10) == 1024
    ensures Pow(2, 11) == 2048
  {
  }

  lemma MaskIsMod(x: nat)
    ensures BitAnd(x, CHANNEL_MASK) == x % 2048
  {
    AndOfOnes(x, 11);
    Pow2Values();
  }

  /** The low part `x` has `n` bits, the high part starts above it. */
  lemma Or2IsSum(x: nat, y: nat, n: nat)
    requires x < Pow(2, n)
    ensures Or2(x, ShiftLeft(y, n)) == (x + ShiftLeft(y, n)) % 2048
  {
    OrOfDisjoint(x, y, n);
    MaskIsMod(x + ShiftLeft(y, n));
  }

  lemma Or3IsSum(x: nat, y: nat, n: nat, z: nat, m: nat)
    requires x < Pow(2, n) && x + ShiftLeft(y, n) < Pow(2, m)
    ensures Or3(x, ShiftLeft(y, n), ShiftLeft(z, m)) == (x + ShiftLeft(y, n) + ShiftLeft(z, m)) % 2048
  {
    OrOfDisjoint(x, y, n);
    OrOfDisjoint(x + ShiftLeft(y, n), z, m);
    MaskIsMod(x + ShiftLeft(y, n) + ShiftLeft(z, m));
  }

  /** Cutting a byte at bit `n` of a channel: the part that belongs to this channel and
      the part the next one starts with. */
  lemma Cut2(x: nat, y: nat, low: nat, rest: nat)
    requires low * rest == 2048 && x < low && rest > 0
    ensures (x + y * low) % 2048 == x + low * (y % rest)
  {
    assert y == y % rest + rest * (y / rest);
    assert (y % rest + rest * (y / rest)) * low == low * (y % rest) + (low * rest) * (y / rest);
    ProductMonotone(low, y % rest + 1, rest);
    assert low * (y % rest + 1) == low * (y % rest) + low;
    DivModUnique(x + y * low, 2048, y / rest, x + low * (y % rest));
  }

  /** `2^n` for the shifts that occur. */
  function Weight(n: nat): (w: nat)
    requires n <= 11
    ensures w > 0
  {
    [1, 2, 4, 8, 16, 32, 64, 128, 256, 512, 1024, 2048][n]
  }

  lemma WeightIsPow(n: nat)
    requires n <= 11
    ensures Weight(n) == Pow(2, n) && Weight(n) * Weight(11 - n) == 2048
  {
    Pow2Values();
  }

  lemma ShiftBy(x: nat, n: nat)
    requires n <= 11
    ensures ShiftRight(x, n) == x / Weight(n) && ShiftLeft(x, n) == x * Weight(n)
  {
    WeightIsPow(n);
  }

  /** A channel of two bytes: the bits of `a` above bit `r`, then low bits of `b`. */
  lemma TwoBytes(a: nat, r: nat, b: nat, n: nat)
    requires r <= 11 && n <= 11 && a / Weight(r) < Weight(n)
    ensures Or2(ShiftRight(a, r), ShiftLeft(b, n)) == a / Weight(r) + Weight(n) * (b % Weight(11 - n))
  {
    ShiftBy(a, r);
    ShiftBy(b, n);
    WeightIsPow(n);
    Or2IsSum(a / Weight(r), b, n);
    Cut2(a / Weight(r), b, Weight(n), Weight(11 - n));
  }

  /** A channel of three bytes, the middle one whole. */
  lemma ThreeBytes(a: nat, r: nat, b: nat, n: nat, c: nat, m: nat)
    requires r <= 11 && n <= 11 && m <= 11 && a / Weight(r) < Weight(n) && a / Weight(r) + b * Weight(n) < Weight(m)
    ensures Or3(ShiftRight(a, r), ShiftLeft(b, n), ShiftLeft(c, m))
      == a / Weight(r) + b * Weight(n) + Weight(m) * (c % Weight(11 - m))
  {
    ShiftBy(a, r);
    ShiftBy(b, n);
    ShiftBy(c, m);
    WeightIsPow(n);
    WeightIsPow(m);
    Or3IsSum(a / Weight(r), b, n, c, m);
    Cut2(a / Weight(r) + b * Weight(n), c, Weight(m), Weight(11 - m));
  }

  /** The eight channels as sums of the parts of the bytes they are cut from. */
  function Cut(d: seq<nat>): (r: seq<nat>)
    requires |d| == 11
    ensures |r| == 8
  {
    [d[0] + 256 * (d[1] % 8),
     d[1] / 8 + 32 * (d[2] % 64),
     d[2] / 64 + d[3] * 4 + 1024 * (d[4] % 2),
     d[4] / 2 + 128 * (d[5] % 16),
     d[5] / 16 + 16 * (d[6] % 128),
     d[6] / 128 + d[7] * 2 + 512 * (d[8] % 4),
     d[8] / 4 + 64 * (d[9] % 32),
     d[9] / 32 + 8 * (d[10] % 256)]
  }

  lemma FirstChannel(a: nat, b: nat)
    requires a < 256
    ensures Or2(a, ShiftLeft(b, 8)) == a + 256 * (b % 8)
  {
    ShiftBy(b, 8);
    WeightIsPow(8);
    Or2IsSum(a, b, 8);
    Cut2(a, b, 256, 8);
  }

  lemma ThirdChannel(a: nat, b: nat, c: nat)
    requires a < 256 && b < 256
    ensures Or3(ShiftRight(a, 6), ShiftLeft(b, 2), ShiftLeft(c, 10)) == a / 64 + b * 4 + 1024 * (c % 2)
  {
    ThreeBytes(a, 6, b, 2, c, 10);
  }

  lemma SixthChannel(a: nat, b: nat, c: nat)
    requires a < 256 && b < 256
    ensures Or3(ShiftRight(a, 7), ShiftLeft(b, 1), ShiftLeft(c, 9)) == a / 128 + b * 2 + 512 * (c % 4)
  {
    ThreeBytes(a, 7, b, 1, c, 9);
  }

  lemma LowChannels(d: seq<nat>)
    requires |d| == 11 && AllBelow(d, 256)
    ensures var c, e := EightChannels(d, 0), Cut(d); c[0] == e[0] && c[1] == e[1] && c[2] == e[2] && c[3] == e[3]
  {
    assert Or2(d[0], ShiftLeft(d[1], 8)) == d[0] + 256 * (d[1] % 8) by { FirstChannel(d[0], d[1]); }
    assert Or2(ShiftRight(d[1], 3), ShiftLeft(d[2], 5)) == d[1] / 8 + 32 * (d[2] % 64) by { TwoBytes(d[1], 3, d[2], 5); }
    assert Or3(ShiftRight(d[2], 6), ShiftLeft(d[3], 2), ShiftLeft(d[4], 10))
      == d[2] / 64 + d[3] * 4 + 1024 * (d[4] % 2) by { ThirdChannel(d[2], d[3], d[4]); }
    assert Or2(ShiftRight(d[4], 1), ShiftLeft(d[5], 7)) == d[4] / 2 + 128 * (d[5] % 16) by { TwoBytes(d[4], 1, d[5], 7); }
  }

  lemma HighChannels(d: seq<nat>)
    requires |d| == 11 && AllBelow(d, 256)
    ensures var c, e := EightChannels(d, 0), Cut(d); c[4] == e[4] && c[5] == e[5] && c[6] == e[6] && c[7] == e[7]
  {
    assert Or2(ShiftRight(d[5], 4), ShiftLeft(d[6], 4)) == d[5] / 16 + 16 * (d[6] % 128) by { TwoBytes(d[5], 4, d[6], 4); }
    assert Or3(ShiftRight(d[6], 7), ShiftLeft(d[7], 1), ShiftLeft(d[8], 9))
      == d[6] / 128 + d[7] * 2 + 512 * (d[8] % 4) by { SixthChannel(d[6], d[7], d[8]); }
    assert Or2(ShiftRight(d[8], 2), ShiftLeft(d[9], 6)) == d[8] / 4 + 64 * (d[9] % 32) by { TwoBytes(d[8], 2, d[9], 6); }
    assert Or2(ShiftRight(d[9], 5), ShiftLeft(d[10], 3)) == d[9] / 32 + 8 * (d[10] % 256) by { TwoBytes(d[9], 5, d[10], 3); }
  }

  lemma EightAreCut(b: seq<nat>, at: nat)
    requires at + 11 <= |b| && AllBelow(b, 256)
    ensures EightChannels(b, at) == Cut(b[at..at + 11])
  {
    var d := b[at..at + 11];
    LowChannels(d);
    HighChannels(d);
    assert EightChannels(b, at) == EightChannels(d, 0);
  }

  function Horner8(c: seq<nat>): int
    requires |c| == 8
  {
    c[0] + 2048 * (c[1] + 2048 * (c[2] + 2048 * (c[3] + 2048 * (c[4] + 2048 * (c[5] + 2048 * (c[6] + 2048 * c[7]))))))
  }

  function Horner11(d: seq<nat>): int
    requires |d| == 11
  {
    d[0] + 256 * (d[1] + 256 * (d[2] + 256 * (d[3] + 256 * (d[4] + 256 * (d[5]
      + 256 * (d[6] + 256 * (d[7] + 256 * (d[8] + 256 * (d[9] + 256 * d[10])))))))))
  }

  lemma Halves(d: seq<nat>)
    requires |d| == 11 && d[10] < 256
    ensures d[1] == d[1] % 8 + 8 * (d[1] / 8) && d[2] == d[2] % 64 + 64 * (d[2] / 64)
    ensures d[4] == d[4] % 2 + 2 * (d[4] / 2) && d[5] == d[5] % 16 + 16 * (d[5] / 16)
    ensures d[6] == d[6] % 128 + 128 * (d[6] / 128) && d[8] == d[8] % 4 + 4 * (d[8] / 4)
    ensures d[9] == d[9] % 32 + 32 * (d[9] / 32) && d[10] % 256 == d[10]
  {
  }

  lemma CutValue(d: seq<nat>)
    requires |d| == 11 && AllBelow(d, 256)
    ensures Value(Cut(d), 2048) == Value(d, 256)
  {
    Halves(d);
    ValueOf8(Cut(d));
    ValueOf11(d);
    assert Horner8(Cut(d)) == Horner11(d);
  }

  lemma CutIsBelow(d: seq<nat>)
    requires |d| == 11 && AllBelow(d, 256)
    ensures AllBelow(Cut(d), 2048)
  {
  }

  /** Eight channels are below 2048 and make up the same number as their bytes. */
  lemma BlockValue(b: seq<nat>, at: nat)
    requires at + 11 <= |b| && AllBelow(b, 256)
    ensures AllBelow(EightChannels(b, at), 2048)
    ensures Value(EightChannels(b, at), 2048) == Value(b[at..at + 11], 256)
  {
    EightAreCut(b, at);
    CutValue(b[at..at + 11]);
    CutIsBelow(b[at..at + 11]);
  }

  lemma ValueOf8(c: seq<nat>)
    requires |c| == 8
    ensures Value(c, 2048) == Horner8(c)
  {
    ValueUnrolls(c, 2048, 8);
  }

  lemma ValueOf11(d: seq<nat>)
    requires |d| == 11
    ensures Value(d, 256) == Horner11(d)
  {
    ValueUnrolls(d, 256, 11);
  }

  lemma {:induction false} ValueUnrolls(d: seq<nat>, b: nat, n: nat)
    requires |d| == n
    ensures forall k :: 0 <= k < n ==> Value(d[k..], b) == d[k] + b * Value(d[k + 1..], b)
    ensures d[0..] == d && Value(d[n..], b) == 0
  {
    forall k | 0 <= k < n ensures Value(d[k..], b) == d[k] + b * Value(d[k + 1..], b) {
      assert d[k..][1..] == d[k + 1..];
    }
  }

  // ---------------------------------------------------------------------------
  // Theorems
  // ---------------------------------------------------------------------------

  /** Length, header and footer are right and neither bit 2 nor bit 3 of the flags is
      set; other flags do not matter. */
  predicate Acceptable(frame: seq<nat>) {
    && |frame| == SBUS_FRAME_LEN && frame[0] == SBUS_HEADER && frame[24] in SBUS_FOOTERS
    && frame[23] / 8 % 2 == 0 && frame[23] / 4 % 2 == 0
  }

  /** The twenty-two payload bytes and the number they spell, lowest byte first. */
  function Payload(frame: seq<nat>): seq<nat>
    requires |frame| == SBUS_FRAME_LEN
  {
    frame[1..23]
  }

  function PayloadValue(frame: seq<nat>): nat
    requires |frame| == SBUS_FRAME_LEN
  {
    Value(Payload(frame), 256)
  }

  lemma BlockPowers()
    ensures Pow(256, 11) == Pow(2048, 8) && Pow(256, 22) == Pow(2048, 16)
  {
    PowersUnroll(256, 11);
    PowersUnroll(2048, 8);
    PowAdds(256, 11, 11);
    PowAdds(2048, 8, 8);
  }

  lemma Associates(x: nat, y: nat, z: nat)
    ensures x * (y * z) == x * y * z
  {
  }

  lemma {:induction false} PowAdds(b: nat, m: nat, n: nat)
    ensures Pow(b, m + n) == Pow(b, m) * Pow(b, n)
    decreases m
  {
    if m > 0 {
      PowAdds(b, m - 1, n);
      Associates(b, Pow(b, m - 1), Pow(b, n));
    }
  }

  lemma PowersUnroll(b: nat, n: nat)
    requires 0 < n <= 11
    ensures forall k :: 0 < k <= n ==> Pow(b, k) == b * Pow(b, k - 1)
    ensures Pow(b, 0) == 1
  {
  }

  lemma TwoBlocks(c: seq<nat>, d: seq<nat>, p: seq<nat>, q: seq<nat>)
    requires |c| == 8 && |p| == 11 && Value(c, 2048) == Value(p, 256) && Value(d, 2048) == Value(q, 256)
    ensures Value(c + d, 2048) == Value(p + q, 256)
  {
    BlockPowers();
    ValueAppend(c, d, 2048);
    ValueAppend(p, q, 256);
  }

  lemma BlocksSpellThePayload(frame: seq<nat>)
    requires IsFrame(frame) && |frame| == SBUS_FRAME_LEN
    ensures var c := EightChannels(frame, 1) + EightChannels(frame, 12);
      AllBelow(c, 2048) && Value(c, 2048) == PayloadValue(frame)
  {
    BlockValue(frame, 1);
    BlockValue(frame, 12);
    TwoBlocks(EightChannels(frame, 1), EightChannels(frame, 12), frame[1..12], frame[12..23]);
    assert Payload(frame) == frame[1..12] + frame[12..23];
  }

  /** The sixteen channels are below 2048 and spell the same number as the payload. */
  lemma ChannelsSpellThePayload(frame: seq<nat>)
    requires IsFrame(frame) && Acceptable(frame)
    ensures Decode(frame).Channels?
    ensures var c := Decode(frame).values;
      |c| == 16 && AllBelow(c, 2048) && Value(c, 2048) == PayloadValue(frame)
  {
    AcceptsExactly(frame);
    BlocksSpellThePayload(frame);
  }

  /** Channel `i` of an accepted frame is `(N / 2048^i) % 2048`, where `N` is the number
      the payload spells. */
  lemma ChannelIsQuotient(frame: seq<nat>, i: nat)
    requires IsFrame(frame) && Acceptable(frame) && i < 16
    ensures Decode(frame).Channels? && |Decode(frame).values| == 16 && Pow(2048, i) > 0
    ensures Decode(frame).values[i] == PayloadValue(frame) / Pow(2048, i) % 2048
  {
    ChannelsSpellThePayload(frame);
    DigitsOfValue(Decode(frame).values, 2048);
    DigitIsQuotient(PayloadValue(frame), 2048, 16, i);
  }

  /** The payload that spells the same number as sixteen channels. */
  function Pack(channels: seq<nat>): (r: seq<nat>)
    ensures |channels| == 16 ==> |r| == 22
  {
    DigitsOf(Value(channels, 2048), 256, |channels| * 11 / 8)
  }

  /** Packing what was decoded gives the payload back. */
  lemma PackUndoesDecode(frame: seq<nat>)
    requires IsFrame(frame) && Acceptable(frame)
    ensures Decode(frame).Channels? && Pack(Decode(frame).values) == Payload(frame)
  {
    ChannelsSpellThePayload(frame);
    DigitsOfValue(Payload(frame), 256);
  }

  function FrameOf(payload: seq<nat>, flags: nat, footer: nat): (r: seq<nat>)
    requires |payload| == 22
    ensures |r| == SBUS_FRAME_LEN
  {
    [SBUS_HEADER] + payload + [flags, footer]
  }

  lemma SameDigits(c: seq<nat>, d: seq<nat>, b: nat)
    requires b > 0 && |c| == |d| && AllBelow(c, b) && AllBelow(d, b) && Value(c, b) == Value(d, b)
    ensures c == d
  {
    DigitsOfValue(c, b);
    DigitsOfValue(d, b);
  }

  lemma PackedValue(channels: seq<nat>)
    requires AllBelow(channels, 2048) && Pow(256, |channels| * 11 / 8) == Pow(2048, |channels|)
    ensures AllBelow(Pack(channels), 256) && Value(Pack(channels), 256) == Value(channels, 2048)
  {
    var n := |channels| * 11 / 8;
    DigitsAreBelow(Value(channels, 2048), 256, n);
    ValueIsBelow(channels, 2048);
    ValueOfDigits(Value(channels, 2048), 256, n);
  }

  lemma PowersMatch(n: nat)
    requires n == 16
    ensures Pow(256, n * 11 / 8) == Pow(2048, n)
  {
    BlockPowers();
  }

  lemma PackedBytes(channels: seq<nat>)
    requires |channels| == 16 && AllBelow(channels, 2048)
    ensures AllBelow(Pack(channels), 256) && Value(Pack(channels), 256) == Value(channels, 2048)
  {
    PowersMatch(|channels|);
    PackedValue(channels);
  }

  lemma FrameOfPayload(payload: seq<nat>, flags: nat, footer: nat)
    requires |payload| == 22 && AllBelow(payload, 256) && flags < 256 && footer < 256
    ensures var frame := FrameOf(payload, flags, footer); IsFrame(frame) && Payload(frame) == payload
  {
  }

  lemma PackedFrame(channels: seq<nat>, flags: nat, footer: nat)
    requires |channels| == 16 && AllBelow(channels, 2048) && flags < 256 && footer in SBUS_FOOTERS
    ensures var frame := FrameOf(Pack(channels), flags, footer);
      IsFrame(frame) && PayloadValue(frame) == Value(channels, 2048)
  {
    PackedBytes(channels);
    var payload := Pack(channels);
    FrameOfPayload(payload, flags, footer);
    assert PayloadValue(FrameOf(payload, flags, footer)) == Value(payload, 256);
  }

  /** Decoding what was packed gives the channels back, for any channels of eleven bits
      and any acceptable flags and footer: decoding is a bijection on payloads. */
  lemma DecodeUndoesPack(channels: seq<nat>, flags: nat, footer: nat)
    requires |channels| == 16 && AllBelow(channels, 2048) && flags < 256 && footer in SBUS_FOOTERS
    requires flags / 4 % 2 == 0 && flags / 8 % 2 == 0
    ensures Decode(FrameOf(Pack(channels), flags, footer)) == Channels(channels)
  {
    var frame := FrameOf(Pack(channels), flags, footer);
    PackedFrame(channels, flags, footer);
    AcceptsExactly(frame);
    ChannelsSpellThePayload(frame);
    SameDigits(channels, Decode(frame).values, 2048);
  }

  lemma FlagTests(flags: nat)
    ensures BitAnd(flags, SBUS_FLAG_FRAME_LOST) != 0 <==> flags / 4 % 2 == 1
    ensures BitAnd(flags, SBUS_FLAG_FAILSAFE) != 0 <==> flags / 8 % 2 == 1
  {
    Pow2Values();
    AndOfBit(flags, 2);
    AndOfBit(flags, 3);
  }

  /** A frame is decoded exactly when it is acceptable. */
  lemma AcceptsExactly(frame: seq<nat>)
    ensures Decode(frame).Channels? <==> Acceptable(frame)
  {
    if |frame| == SBUS_FRAME_LEN { FlagTests(frame[23]); }
  }
}
