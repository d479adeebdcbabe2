/**
 The paymaster's terms on the wire: the off-chain encoder and the on-chain parser.
 */
module PaymasterData {
  import opened Common

  type Byte = b: int | 0 <= b < 256
  type Bytes = seq<Byte>

  const PAYMASTER_DATA_OFFSET: nat := 52
  const VALID_AFTER_OFFSET: nat := 58
  const FEE_OFFSET: nat := 64
  const SERVICE_FEE_OFFSET: nat := 96
  const REFUND_TO_OFFSET: nat := 128
  const FEE_TOKEN_OFFSET: nat := 148
  const TOKEN_PER_ETH_OFFSET: nat := 168
  const WITHDRAWAL_HASH_OFFSET: nat := 200
  const SENDER_IMPL_OFFSET: nat := 232
  const SIGNATURE_OFFSET: nat := 252
  const SIGNATURE_LENGTH: nat := 65
  const PAYMASTER_AND_DATA_LENGTH: nat := 317

  // ------------------------------------------------------------ big-endian numbers

  function Range(width: nat): (size: nat)
    ensures size > 0
  {
    if width == 0 then 1 else 256 * Range(width - 1)
  }

  /** `value` in `width` bytes, most significant first. */
  function ToBytes(value: nat, width: nat): (bytes: Bytes)
    ensures |bytes| == width
  {
    if width == 0 then [] else ToBytes(value / 256, width - 1) + [value % 256]
  }

  function FromBytes(bytes: Bytes): nat {
    if bytes == [] then 0 else 256 * FromBytes(bytes[..|bytes| - 1]) + bytes[|bytes| - 1]
  }

  lemma {:induction false} DecodeEncode(value: nat, width: nat)
    requires value < Range(width)
    ensures FromBytes(ToBytes(value, width)) == value
  {
    if width == 0 {
    } else {
      DecodeEncode(value / 256, width - 1);
      assert ToBytes(value, width)[..width - 1] == ToBytes(value / 256, width - 1);
    }
  }

  lemma {:induction false} EncodeDecode(bytes: Bytes)
    ensures FromBytes(bytes) < Range(|bytes|)
    ensures ToBytes(FromBytes(bytes), |bytes|) == bytes
  {
    if bytes == [] {
    } else {
      EncodeDecode(bytes[..|bytes| - 1]);
    }
  }

  /** Byte `i` of `width` has `width - 1 - i` less significant bytes after it. */
  lemma {:induction false} BigEndian(value: nat, width: nat, i: nat)
    requires i < width
    ensures ToBytes(value, width)[i] == (value / Range(width - 1 - i)) % 256
  {
    if i == width - 1 {
    } else {
      BigEndian(value / 256, width - 1, i);
      DivideTwice(value, Range(width - 2 - i));
    }
  }

  lemma DivideTwice(value: nat, size: nat)
    requires size > 0
    ensures value / 256 / size == value / (256 * size)
  {
    var outer := value / (256 * size);
    var rest := value % (256 * size);
    assert value == 256 * size * outer + rest;
    assert value / 256 == size * outer + rest / 256;
    assert rest / 256 < size;
    QuotientIs(value / 256, size, outer, rest / 256);
  }

  // ------------------------------------------------------------ the two sides

  predicate InRange(t: FeeTerms) {
    && t.validUntil < Range(6) && t.validAfter < Range(6)
    && t.fee < Range(32) && t.serviceFee < Range(32)
    && t.refundTo < Range(20) && t.feeToken < Range(20)
    && t.tokenPerEth < Range(32) && t.withdrawalHash < Range(32)
    && t.senderImplementation < Range(20)
  }

  /** `encodePaymasterData`; fails on a signature of another length and on a number too wide for its field. */
  function Encode(t: FeeTerms, signature: Bytes): Result<Bytes> {
    if |signature| != SIGNATURE_LENGTH || !InRange(t) then Err
    else Ok(ToBytes(t.validUntil, 6) + ToBytes(t.validAfter, 6) + ToBytes(t.fee, 32) + ToBytes(t.serviceFee, 32)
            + ToBytes(t.refundTo, 20) + ToBytes(t.feeToken, 20) + ToBytes(t.tokenPerEth, 32)
            + ToBytes(t.withdrawalHash, 32) + ToBytes(t.senderImplementation, 20) + signature)
  }

  function Field(data: Bytes, from: nat, to: nat): nat
    requires from <= to <= |data|
  {
    FromBytes(data[from..to])
  }

  /** `parsePaymasterAndData`; fails on any other length. */
  function Parse(data: Bytes): Result<(FeeTerms, Bytes)> {
    if |data| != PAYMASTER_AND_DATA_LENGTH then Err
    else Ok((FeeTerms(Field(data, PAYMASTER_DATA_OFFSET, VALID_AFTER_OFFSET),
                      Field(data, VALID_AFTER_OFFSET, FEE_OFFSET),
                      Field(data, FEE_OFFSET, SERVICE_FEE_OFFSET),
                      Field(data, SERVICE_FEE_OFFSET, REFUND_TO_OFFSET),
                      Field(data, REFUND_TO_OFFSET, FEE_TOKEN_OFFSET),
                      Field(data, FEE_TOKEN_OFFSET, TOKEN_PER_ETH_OFFSET),
                      Field(data, TOKEN_PER_ETH_OFFSET, WITHDRAWAL_HASH_OFFSET),
                      Field(data, WITHDRAWAL_HASH_OFFSET, SENDER_IMPL_OFFSET),
                      Field(data, SENDER_IMPL_OFFSET, SIGNATURE_OFFSET)),
             data[SIGNATURE_OFFSET..]))
  }

  // ------------------------------------------------------------ the layout

  /** Which bytes of the encoded terms hold which field; each is big-endian. */
  lemma EncodedLayout(t: FeeTerms, signature: Bytes)
    requires Encode(t, signature).Ok?
    ensures var data := Encode(t, signature).value;
      && |data| == 265
      && data[0..6] == ToBytes(t.validUntil, 6) && data[6..12] == ToBytes(t.validAfter, 6)
      && data[12..44] == ToBytes(t.fee, 32) && data[44..76] == ToBytes(t.serviceFee, 32)
      && data[76..96] == ToBytes(t.refundTo, 20) && data[96..116] == ToBytes(t.feeToken, 20)
      && data[116..148] == ToBytes(t.tokenPerEth, 32) && data[148..180] == ToBytes(t.withdrawalHash, 32)
      && data[180..200] == ToBytes(t.senderImplementation, 20) && data[200..265] == signature
  {
    hide ToBytes, Range;
    var data := Encode(t, signature).value;
    var times := ToBytes(t.validUntil, 6) + ToBytes(t.validAfter, 6);
    var fees := times + ToBytes(t.fee, 32) + ToBytes(t.serviceFee, 32);
    var accounts := fees + ToBytes(t.refundTo, 20) + ToBytes(t.feeToken, 20);
    var words := accounts + ToBytes(t.tokenPerEth, 32) + ToBytes(t.withdrawalHash, 32);
    assert data[..12] == times && data[12..76] == ToBytes(t.fee, 32) + ToBytes(t.serviceFee, 32);
    assert data[76..116] == ToBytes(t.refundTo, 20) + ToBytes(t.feeToken, 20);
    assert data[116..180] == ToBytes(t.tokenPerEth, 32) + ToBytes(t.withdrawalHash, 32);
    assert data[180..] == ToBytes(t.senderImplementation, 20) + signature;
  }

  /** Which bytes of the whole field the parser reads for which field. */
  lemma ParsedLayout(data: Bytes)
    requires |data| == 317
    ensures var (t, signature) := Parse(data).value;
      && ToBytes(t.validUntil, 6) == data[52..58] && ToBytes(t.validAfter, 6) == data[58..64]
      && ToBytes(t.fee, 32) == data[64..96] && ToBytes(t.serviceFee, 32) == data[96..128]
      && ToBytes(t.refundTo, 20) == data[128..148] && ToBytes(t.feeToken, 20) == data[148..168]
      && ToBytes(t.tokenPerEth, 32) == data[168..200] && ToBytes(t.withdrawalHash, 32) == data[200..232]
      && ToBytes(t.senderImplementation, 20) == data[232..252] && signature == data[252..317]
  {
    hide ToBytes, FromBytes, Range;
    WritesBack(data, 52, 6);
    WritesBack(data, 58, 6);
    WritesBack(data, 64, 32);
    WritesBack(data, 96, 32);
    WritesBack(data, 128, 20);
    WritesBack(data, 148, 20);
    WritesBack(data, 168, 32);
    WritesBack(data, 200, 32);
    WritesBack(data, 232, 20);
  }

  // ------------------------------------------------------------ round trips

  /** Encoding in-range terms behind any 52-byte prefix gives 317 bytes that parse back. */
  lemma ParseOfEncode(prefix: Bytes, t: FeeTerms, signature: Bytes)
    requires |prefix| == PAYMASTER_DATA_OFFSET
    ensures Encode(t, signature).Ok? <==> |signature| == SIGNATURE_LENGTH && InRange(t)
    ensures Encode(t, signature).Ok? ==>
      && |prefix + Encode(t, signature).value| == PAYMASTER_AND_DATA_LENGTH
      && Parse(prefix + Encode(t, signature).value) == Ok((t, signature))
  {
    if Encode(t, signature).Ok? {
      EncodedFieldsReadBack(prefix, t, signature);
    }
  }

  lemma EncodedFieldsReadBack(prefix: Bytes, t: FeeTerms, signature: Bytes)
    requires |prefix| == PAYMASTER_DATA_OFFSET && |signature| == SIGNATURE_LENGTH && InRange(t)
    ensures |prefix + Encode(t, signature).value| == PAYMASTER_AND_DATA_LENGTH
    ensures Parse(prefix + Encode(t, signature).value) == Ok((t, signature))
  {
    hide ToBytes, FromBytes, Range;
    var data := prefix + Encode(t, signature).value;
    ReadsBack(data, PAYMASTER_DATA_OFFSET, t.validUntil, 6);
    ReadsBack(data, VALID_AFTER_OFFSET, t.validAfter, 6);
    ReadsBack(data, FEE_OFFSET, t.fee, 32);
    ReadsBack(data, SERVICE_FEE_OFFSET, t.serviceFee, 32);
    ReadsBack(data, REFUND_TO_OFFSET, t.refundTo, 20);
    ReadsBack(data, FEE_TOKEN_OFFSET, t.feeToken, 20);
    ReadsBack(data, TOKEN_PER_ETH_OFFSET, t.tokenPerEth, 32);
    ReadsBack(data, WITHDRAWAL_HASH_OFFSET, t.withdrawalHash, 32);
    ReadsBack(data, SENDER_IMPL_OFFSET, t.senderImplementation, 20);
    assert data[SIGNATURE_OFFSET..] == signature;
  }

  lemma ReadsBack(data: Bytes, from: nat, value: nat, width: nat)
    requires from + width <= |data| && data[from..from + width] == ToBytes(value, width) && value < Range(width)
    ensures Field(data, from, from + width) == value
  {
    DecodeEncode(value, width);
  }

  lemma WritesBack(data: Bytes, from: nat, width: nat)
    requires from + width <= |data|
    ensures Field(data, from, from + width) < Range(width)
    ensures ToBytes(Field(data, from, from + width), width) == data[from..from + width]
  {
    EncodeDecode(data[from..from + width]);
  }

  /** Every 317-byte string is its prefix followed by the encoding of what it parses to. */
  lemma EncodeOfParse(data: Bytes)
    ensures Parse(data).Ok? <==> |data| == PAYMASTER_AND_DATA_LENGTH
    ensures Parse(data).Ok? ==>
      var (t, signature) := Parse(data).value;
      InRange(t) && Encode(t, signature).Ok? && data == data[..PAYMASTER_DATA_OFFSET] + Encode(t, signature).value
  {
    hide ToBytes, FromBytes, Range;
    if |data| == PAYMASTER_AND_DATA_LENGTH {
      WritesBack(data, PAYMASTER_DATA_OFFSET, 6);
      WritesBack(data, VALID_AFTER_OFFSET, 6);
      WritesBack(data, FEE_OFFSET, 32);
      WritesBack(data, SERVICE_FEE_OFFSET, 32);
      WritesBack(data, REFUND_TO_OFFSET, 20);
      WritesBack(data, FEE_TOKEN_OFFSET, 20);
      WritesBack(data, TOKEN_PER_ETH_OFFSET, 32);
      WritesBack(data, WITHDRAWAL_HASH_OFFSET, 32);
      WritesBack(data, SENDER_IMPL_OFFSET, 20);
      var (t, signature) := Parse(data).value;
      assert data == data[..PAYMASTER_DATA_OFFSET] + Encode(t, signature).value;
    }
  }
}
