/** Recursive Length Prefix coding: `packages/rlp/src/index.ts`; Yellow Paper, Appendix B.

    `Encode` and `Decode` are the source's loops; each is proved equal to a recursive
    specification function, and the two specification functions are proved to be exact inverses. */
module Rlp {

  type byte = b: int | 0 <= b < 256
  type nibble = n: int | 0 <= n < 16
  type Bytes = seq<byte>

  /** A nested array of byte strings. */
  datatype Item = Str(data: Bytes) | List(items: seq<Item>)

  datatype Error =
    | ExtraZeros             // "invalid RLP: extra zeros"
    | InvalidByteSequence    // parsing an empty hex string
    | SliceOutOfBounds       // safeSlice
    | NotPrefixed            // a single byte below 0x80 was given a prefix
    | NotEnoughBytes         // no room for the string length
    | StringTooShort         // long form used for a string of at most 55 bytes
    | ListTooShort           // long form used for a list of at most 55 bytes
    | LargerThanData         // total list length exceeds the input
    | NonZeroRemainder       // `decode` without `stream`

  datatype Result<+T> = Ok(value: T) | Err(error: Error)

  // ---------------------------------------------------------------------------------------
  // Hexadecimal and big-endian numbers
  // ---------------------------------------------------------------------------------------

  /** `integer.toString(16)`. */
  function HexDigits(n: nat): (h: seq<nibble>)
    ensures |h| >= 1
  {
    if n < 16 then [n] else HexDigits(n / 16) + [n % 16]
  }

  /** `numberToHex`: padded to an even number of digits. */
  function NumberToHex(n: nat): (h: seq<nibble>)
    ensures |h| % 2 == 0
  {
    var hex := HexDigits(n);
    if |hex| % 2 == 1 then [0] + hex else hex
  }

  /** `hexToBytes` on an even number of digits. */
  function HexToBytes(h: seq<nibble>): Bytes
    requires |h| % 2 == 0
  {
    if h == [] then []
    else
      var b: byte := h[0] as int * 16 + h[1];
      [b] + HexToBytes(h[2..])
  }

  /** The shortest big-endian form of `n`; zero is a single zero byte. */
  function BigEndian(n: nat): (b: Bytes)
    ensures |b| >= 1
  {
    if n < 256 then [n] else BigEndian(n / 256) + [n % 256]
  }

  /** The number a big-endian byte string stands for. */
  function FromBigEndian(b: Bytes): nat {
    if b == [] then 0 else FromBigEndian(b[..|b| - 1]) * 256 + b[|b| - 1]
  }

  function Pow256(k: nat): nat {
    if k == 0 then 1 else 256 * Pow256(k - 1)
  }

  lemma {:induction false} HexToBytesConcat(a: seq<nibble>, b: seq<nibble>)
    requires |a| % 2 == 0 && |b| % 2 == 0
    ensures HexToBytes(a + b) == HexToBytes(a) + HexToBytes(b)
  {
    if a == [] {
      assert a + b == b;
    } else {
      assert (a + b)[2..] == a[2..] + b;
      HexToBytesConcat(a[2..], b);
    }
  }

  lemma {:induction false} HexPair(n: nat)
    ensures HexToBytes([n / 16 % 16, n % 16]) == [n % 256]
  {
    PairValue(n);
    TwoDigits(n / 16 % 16, n % 16);
  }

  lemma {:induction false} PairValue(n: nat)
    ensures n / 16 % 16 * 16 + n % 16 == n % 256
  {}

  lemma {:induction false} TwoDigits(high: nibble, low: nibble)
    ensures HexToBytes([high, low]) == [high * 16 + low]
  {
    var last: seq<nibble> := [high, low];
    assert HexToBytes(last[2..]) == [];
  }

  /** Going through a padded hex string yields the shortest big-endian bytes. */
  lemma {:induction false} HexIsBigEndian(n: nat)
    ensures HexToBytes(NumberToHex(n)) == BigEndian(n)
  {
    if n < 16 {
      assert NumberToHex(n) == [0, n];
      assert NumberToHex(n)[2..] == [];
    } else if n < 256 {
      assert HexDigits(n) == [n / 16, n % 16];
      assert NumberToHex(n)[2..] == [];
    } else {
      var last: seq<nibble> := [n / 16 % 16, n % 16];
      assert n / 16 / 16 == n / 256;
      assert HexDigits(n) == HexDigits(n / 256) + last;
      assert NumberToHex(n) == NumberToHex(n / 256) + last;
      HexToBytesConcat(NumberToHex(n / 256), last);
      HexPair(n);
      HexIsBigEndian(n / 256);
    }
  }

  lemma {:induction false} FromToBigEndian(n: nat)
    ensures FromBigEndian(BigEndian(n)) == n
    ensures n > 0 ==> BigEndian(n)[0] != 0
  {
    var b := BigEndian(n);
    if n < 256 {
      assert b[..0] == [];
    } else {
      FromToBigEndian(n / 256);
      assert b[..|b| - 1] == BigEndian(n / 256);
    }
  }

  lemma {:induction false} ToFromBigEndian(b: Bytes)
    requires b != [] && b[0] != 0
    ensures FromBigEndian(b) > 0
    ensures BigEndian(FromBigEndian(b)) == b
  {
    var init := b[..|b| - 1];
    if |b| == 1 {
      assert init == [];
    } else {
      ToFromBigEndian(init);
      assert b == init + [b[|b| - 1]];
    }
  }

  /** `n` needs at most `k` bytes exactly when it is below `256^k`. */
  lemma {:induction false} BigEndianLength(n: nat, k: nat)
    requires k >= 1
    ensures |BigEndian(n)| <= k <==> n < Pow256(k)
  {
    if k == 1 {
      assert Pow256(1) == 256 * Pow256(0);
    } else if n >= 256 {
      BigEndianLength(n / 256, k - 1);
    } else {
      Pow256Positive(k - 1);
    }
  }

  lemma {:induction false} Pow256Positive(k: nat)
    ensures Pow256(k) >= 1
  {
    if k > 0 {
      Pow256Positive(k - 1);
    }
  }

  const TWO_64 := 0x1_0000_0000_0000_0000

  /** Eight bytes hold exactly the numbers below 2^64. */
  lemma {:induction false} EightBytes(n: nat)
    ensures |BigEndian(n)| <= 8 <==> n < TWO_64
  {
    BigEndianLength(n, 8);
    assert Pow256(2) == 256 * (256 * Pow256(0));
    assert Pow256(4) == 256 * (256 * Pow256(2));
    assert Pow256(6) == 256 * (256 * Pow256(4));
    assert Pow256(8) == 256 * (256 * Pow256(6));
  }

  // ---------------------------------------------------------------------------------------
  // Length prefixes
  // ---------------------------------------------------------------------------------------

  const STRING_OFFSET := 128
  const LIST_OFFSET := 192

  /** `encodeLength`. */
  function EncodeLength(len: nat, offset: nat): Bytes
    requires offset == STRING_OFFSET || offset == LIST_OFFSET
  {
    if len < 56 then [len + offset]
    else
      var hexLength := NumberToHex(len);
      var lLength := |hexLength| / 2;
      var firstByte := NumberToHex(offset + 55 + lLength);
      HexToBytes(firstByte + hexLength)
  }

  lemma {:induction false} HexToBytesLength(h: seq<nibble>)
    requires |h| % 2 == 0
    ensures |HexToBytes(h)| == |h| / 2
  {
    if h != [] {
      HexToBytesLength(h[2..]);
    }
  }

  /** The long form is the big-endian count of length bytes followed by the big-endian length. */
  lemma {:induction false} LongPrefix(len: nat, offset: nat)
    requires offset == STRING_OFFSET || offset == LIST_OFFSET
    requires len >= 56
    ensures EncodeLength(len, offset) == BigEndian(offset + 55 + |BigEndian(len)|) + BigEndian(len)
  {
    var hex := NumberToHex(len);
    HexIsBigEndian(len);
    HexToBytesLength(hex);
    var first := NumberToHex(offset + 55 + |hex| / 2);
    HexIsBigEndian(offset + 55 + |hex| / 2);
    HexToBytesConcat(first, hex);
  }

  /** `decodeLength`: leading zeros are refused; an empty string does not parse. */
  function DecodeLength(v: Bytes): (r: Result<nat>)
  {
    if v == [] then Err(InvalidByteSequence)
    else if v[0] == 0 then Err(ExtraZeros)
    else Ok(FromBigEndian(v))
  }

  /** `safeSlice`. */
  function SafeSlice(input: Bytes, start: nat, end: nat): (r: Result<Bytes>)
    requires start <= end
  {
    if end > |input| then Err(SliceOutOfBounds) else Ok(input[start..end])
  }

  // ---------------------------------------------------------------------------------------
  // Specification functions
  // ---------------------------------------------------------------------------------------

  function EncodeOf(x: Item): Bytes
    decreases x, 1
  {
    match x
    case Str(s) =>
      if |s| == 1 && s[0] < 128 then s else EncodeLength(|s|, STRING_OFFSET) + s
    case List(xs) =>
      var payload := EncodeItems(xs);
      EncodeLength(|payload|, LIST_OFFSET) + payload
  }

  /** The concatenated encodings of a list's elements. */
  function EncodeItems(xs: seq<Item>): Bytes
    decreases xs, 0
  {
    if xs == [] then [] else EncodeOf(xs[0]) + EncodeItems(xs[1..])
  }

  /** The bytes that follow the length prefix. */
  function Payload(x: Item): Bytes {
    match x
    case Str(s) => s
    case List(xs) => EncodeItems(xs)
  }

  /** The item at the front of the input, and what follows it. */
  function DecodeOf(input: Bytes): (r: Result<(Item, Bytes)>)
    ensures r.Ok? ==> |r.value.1| < |input|
    decreases |input|, 1
  {
    if input == [] then Err(InvalidByteSequence)
    else if input[0] <= 0x7f then Ok((Str(input[..1]), input[1..]))
    else if input[0] <= 0xb7 then DecodeShortString(input)
    else if input[0] <= 0xbf then DecodeLongString(input)
    else if input[0] <= 0xf7 then DecodeShortList(input)
    else DecodeLongList(input)
  }

  function DecodeShortString(input: Bytes): (r: Result<(Item, Bytes)>)
    requires input != [] && 0x7f < input[0] <= 0xb7
    ensures r.Ok? ==> |r.value.1| < |input|
  {
    var length := input[0] - 0x7f;
    match (if input[0] == 0x80 then Ok([]) else SafeSlice(input, 1, length))
    case Err(e) => Err(e)
    case Ok(data) =>
      if length == 2 && data[0] < 0x80 then Err(NotPrefixed)
      else Ok((Str(data), input[length..]))
  }

  function DecodeLongString(input: Bytes): (r: Result<(Item, Bytes)>)
    requires input != [] && 0xb7 < input[0] <= 0xbf
    ensures r.Ok? ==> |r.value.1| < |input|
  {
    var lLength := input[0] - 0xb6;
    if |input| - 1 < lLength then Err(NotEnoughBytes)
    else
      match DecodeLength(input[1..lLength])
      case Err(e) => Err(e)
      case Ok(length) =>
        if length <= 55 then Err(StringTooShort)
        else
          match SafeSlice(input, lLength, length + lLength)
          case Err(e) => Err(e)
          case Ok(data) => Ok((Str(data), input[length + lLength..]))
  }

  function DecodeShortList(input: Bytes): (r: Result<(Item, Bytes)>)
    requires input != [] && 0xbf < input[0] <= 0xf7
    ensures r.Ok? ==> |r.value.1| < |input|
    decreases |input|, 0
  {
    var length := input[0] - 0xbf;
    match SafeSlice(input, 1, length)
    case Err(e) => Err(e)
    case Ok(payload) =>
      match DecodeItems(payload)
      case Err(e) => Err(e)
      case Ok(decoded) => Ok((List(decoded), input[length..]))
  }

  function DecodeLongList(input: Bytes): (r: Result<(Item, Bytes)>)
    requires input != [] && 0xf7 < input[0]
    ensures r.Ok? ==> |r.value.1| < |input|
    decreases |input|, 0
  {
    var lLength := input[0] - 0xf6;
    match SafeSlice(input, 1, lLength)
    case Err(e) => Err(e)
    case Ok(lengthBytes) =>
      match DecodeLength(lengthBytes)
      case Err(e) => Err(e)
      case Ok(length) =>
        if length < 56 then Err(ListTooShort)
        else if lLength + length > |input| then Err(LargerThanData)
        else
          match DecodeItems(input[lLength..lLength + length])
          case Err(e) => Err(e)
          case Ok(decoded) => Ok((List(decoded), input[lLength + length..]))
  }

  /** Decodes items one after the other until the payload is used up. */
  function DecodeItems(payload: Bytes): (r: Result<seq<Item>>)
    decreases |payload|, 2
  {
    if payload == [] then Ok([])
    else
      match DecodeOf(payload)
      case Err(e) => Err(e)
      case Ok((x, rest)) =>
        match DecodeItems(rest)
        case Err(e) => Err(e)
        case Ok(xs) => Ok([x] + xs)
  }

  // ---------------------------------------------------------------------------------------
  // The source's loops
  // ---------------------------------------------------------------------------------------

  lemma {:induction false} EncodeItemsSnoc(xs: seq<Item>, x: Item)
    ensures EncodeItems(xs + [x]) == EncodeItems(xs) + EncodeOf(x)
  {
    if xs == [] {
      assert xs + [x] == [x] && [x][1..] == [];
    } else {
      assert (xs + [x])[1..] == xs[1..] + [x];
      EncodeItemsSnoc(xs[1..], x);
    }
  }

  /** `encode` (index.ts:262-278). */
  method Encode(input: Item) returns (r: Bytes)
    ensures r == EncodeOf(input)
    decreases input
  {
    match input
    case List(items) =>
      var output: Bytes := [];
      var outputLength := 0;
      var i := 0;
      while i < |items|
        invariant 0 <= i <= |items|
        invariant output == EncodeItems(items[..i])
        invariant outputLength == |output|
      {
        var encoded := Encode(items[i]);
        EncodeItemsSnoc(items[..i], items[i]);
        assert items[..i + 1] == items[..i] + [items[i]];
        output := output + encoded;
        outputLength := outputLength + |encoded|;
        i := i + 1;
      }
      assert items[..i] == items;
      return EncodeLength(outputLength, LIST_OFFSET) + output;
    case Str(inputBuf) =>
      if |inputBuf| == 1 && inputBuf[0] < 128 {
        return inputBuf;
      }
      return EncodeLength(|inputBuf|, STRING_OFFSET) + inputBuf;
  }

  /** What is still to be decoded, put behind what has been decoded. */
  function Resume(decoded: seq<Item>, rest: Result<seq<Item>>): Result<seq<Item>> {
    match rest
    case Err(e) => Err(e)
    case Ok(xs) => Ok(decoded + xs)
  }

  /** The `while (innerRemainder.length)` loop of `_decode`. */
  method DecodePayload(payload: Bytes) returns (r: Result<seq<Item>>)
    ensures r == DecodeItems(payload)
    decreases |payload|, 1
  {
    var innerRemainder := payload;
    var decoded: seq<Item> := [];
    assert Resume([], DecodeItems(payload)) == DecodeItems(payload) by {
      if DecodeItems(payload).Ok? {
        assert [] + DecodeItems(payload).value == DecodeItems(payload).value;
      }
    }
    while innerRemainder != []
      invariant |innerRemainder| <= |payload|
      invariant DecodeItems(payload) == Resume(decoded, DecodeItems(innerRemainder))
      decreases |innerRemainder|
    {
      var d := DecodeOne(innerRemainder);
      match d {
        case Err(e) => return Err(e);
        case Ok((x, rest)) =>
          forall xs: seq<Item> ensures decoded + ([x] + xs) == decoded + [x] + xs {}
          decoded := decoded + [x];
          innerRemainder := rest;
      }
    }
    assert decoded + [] == decoded;
    return Ok(decoded);
  }

  /** `_decode` (index.ts:47-134). */
  method DecodeOne(input: Bytes) returns (r: Result<(Item, Bytes)>)
    ensures r == DecodeOf(input)
    decreases |input|, 0
  {
    if input == [] {
      return Err(InvalidByteSequence);
    }
    var firstByte := input[0];
    if firstByte <= 0x7f {
      return Ok((Str(input[..1]), input[1..]));
    } else if firstByte <= 0xb7 {
      var length := firstByte - 0x7f;
      var data: Bytes := [];
      if firstByte != 0x80 {
        var slice := SafeSlice(input, 1, length);
        if slice.Err? { return Err(slice.error); }
        data := slice.value;
      }
      if length == 2 && data[0] < 0x80 {
        return Err(NotPrefixed);
      }
      return Ok((Str(data), input[length..]));
    } else if firstByte <= 0xbf {
      var lLength := firstByte - 0xb6;
      if |input| - 1 < lLength {
        return Err(NotEnoughBytes);
      }
      var length := DecodeLength(input[1..lLength]);
      if length.Err? { return Err(length.error); }
      if length.value <= 55 {
        return Err(StringTooShort);
      }
      var data := SafeSlice(input, lLength, length.value + lLength);
      if data.Err? { return Err(data.error); }
      return Ok((Str(data.value), input[length.value + lLength..]));
    } else if firstByte <= 0xf7 {
      var length := firstByte - 0xbf;
      var payload := SafeSlice(input, 1, length);
      if payload.Err? { return Err(payload.error); }
      var decoded := DecodePayload(payload.value);
      if decoded.Err? { return Err(decoded.error); }
      return Ok((List(decoded.value), input[length..]));
    } else {
      var lLength := firstByte - 0xf6;
      var lengthBytes := SafeSlice(input, 1, lLength);
      if lengthBytes.Err? { return Err(lengthBytes.error); }
      var length := DecodeLength(lengthBytes.value);
      if length.Err? { return Err(length.error); }
      if length.value < 56 {
        return Err(ListTooShort);
      }
      var totalLength := lLength + length.value;
      if totalLength > |input| {
        return Err(LargerThanData);
      }
      var decoded := DecodePayload(input[lLength..totalLength]);
      if decoded.Err? { return Err(decoded.error); }
      return Ok((List(decoded.value), input[totalLength..]));
    }
  }

  // ---------------------------------------------------------------------------------------
  // Inverses
  // ---------------------------------------------------------------------------------------

  lemma {:induction false} ShortLongPrefix(len: nat, offset: nat)
    requires offset == STRING_OFFSET || offset == LIST_OFFSET
    requires 56 <= len < TWO_64
    ensures |BigEndian(len)| <= 8
    ensures EncodeLength(len, offset) == [offset + 55 + |BigEndian(len)|] + BigEndian(len)
  {
    LongPrefix(len, offset);
    EightBytes(len);
  }

  /** Read back, minimal length bytes give the prefix they came from. */
  lemma {:induction false} LongPrefixCanonical(v: Bytes, offset: nat)
    requires offset == STRING_OFFSET || offset == LIST_OFFSET
    requires 1 <= |v| <= 8 && v[0] != 0 && FromBigEndian(v) >= 56
    ensures EncodeLength(FromBigEndian(v), offset) == [offset + 55 + |v|] + v
    ensures FromBigEndian(v) < TWO_64
  {
    ToFromBigEndian(v);
    EightBytes(FromBigEndian(v));
    ShortLongPrefix(FromBigEndian(v), offset);
  }

  lemma {:induction false} LongFormPrefix(input: Bytes, lLength: nat, offset: nat)
    requires offset == STRING_OFFSET || offset == LIST_OFFSET
    requires 2 <= lLength <= 9 && lLength <= |input|
    requires input[1] != 0 && input[0] == offset + 54 + lLength
    requires FromBigEndian(input[1..lLength]) >= 56
    ensures EncodeLength(FromBigEndian(input[1..lLength]), offset) == input[..lLength]
    ensures FromBigEndian(input[1..lLength]) < TWO_64
  {
    var v := input[1..lLength];
    LongPrefixCanonical(v, offset);
    assert input[..lLength] == [input[0]] + v;
  }

  lemma {:induction false} SplitTwice(b: Bytes, i: nat, j: nat)
    requires i <= j <= |b|
    ensures b == b[..i] + b[i..j] + b[j..]
  {}

  lemma {:induction false} ShortStringIsCanonical(input: Bytes)
    requires input != [] && 0x7f < input[0] <= 0xb7 && DecodeShortString(input).Ok?
    ensures var (x, rest) := DecodeShortString(input).value;
            input == EncodeOf(x) + rest && |Payload(x)| < TWO_64
  {
    var length := input[0] - 0x7f;
    var data := DecodeShortString(input).value.0.data;
    assert |data| == length - 1;
    assert EncodeOf(Str(data)) == [input[0]] + data;
    SplitTwice(input, 1, length);
    assert input[..1] == [input[0]];
  }

  lemma {:induction false} LongStringIsCanonical(input: Bytes)
    requires input != [] && 0xb7 < input[0] <= 0xbf && DecodeLongString(input).Ok?
    ensures var (x, rest) := DecodeLongString(input).value;
            input == EncodeOf(x) + rest && |Payload(x)| < TWO_64
  {
    var lLength := input[0] - 0xb6;
    LongFormPrefix(input, lLength, STRING_OFFSET);
    var length := FromBigEndian(input[1..lLength]);
    var data := input[lLength..length + lLength];
    assert DecodeLongString(input).value == (Str(data), input[length + lLength..]);
    assert EncodeOf(Str(data)) == input[..lLength] + data;
    SplitTwice(input, lLength, length + lLength);
  }

  lemma {:induction false} ShortListIsCanonical(input: Bytes)
    requires input != [] && 0xbf < input[0] <= 0xf7 && DecodeShortList(input).Ok?
    ensures var (x, rest) := DecodeShortList(input).value;
            input == EncodeOf(x) + rest && |Payload(x)| < TWO_64
    decreases |input|, 0
  {
    var length := input[0] - 0xbf;
    DecodeItemsIsCanonical(input[1..length]);
    SplitTwice(input, 1, length);
    assert input[..1] == [input[0]];
  }

  lemma {:induction false} LongListIsCanonical(input: Bytes)
    requires input != [] && 0xf7 < input[0] && DecodeLongList(input).Ok?
    ensures var (x, rest) := DecodeLongList(input).value;
            input == EncodeOf(x) + rest && |Payload(x)| < TWO_64
    decreases |input|, 0
  {
    var lLength := input[0] - 0xf6;
    LongFormPrefix(input, lLength, LIST_OFFSET);
    var length := FromBigEndian(input[1..lLength]);
    DecodeItemsIsCanonical(input[lLength..lLength + length]);
    SplitTwice(input, lLength, lLength + length);
  }

  /** Whatever is accepted is the canonical encoding of what is returned, followed by the rest. */
  lemma {:induction false} DecodeIsCanonical(input: Bytes)
    requires DecodeOf(input).Ok?
    ensures input == EncodeOf(DecodeOf(input).value.0) + DecodeOf(input).value.1
    ensures |Payload(DecodeOf(input).value.0)| < TWO_64
    decreases |input|, 1
  {
    if input[0] <= 0x7f {
    } else if input[0] <= 0xb7 {
      ShortStringIsCanonical(input);
    } else if input[0] <= 0xbf {
      LongStringIsCanonical(input);
    } else if input[0] <= 0xf7 {
      ShortListIsCanonical(input);
    } else {
      LongListIsCanonical(input);
    }
  }

  lemma {:induction false} DecodeItemsIsCanonical(payload: Bytes)
    requires DecodeItems(payload).Ok?
    ensures payload == EncodeItems(DecodeItems(payload).value)
    decreases |payload|, 2
  {
    if payload != [] {
      DecodeIsCanonical(payload);
      var (x, rest) := DecodeOf(payload).value;
      DecodeItemsIsCanonical(rest);
      var xs := DecodeItems(payload).value;
      assert xs[1..] == DecodeItems(rest).value;
    }
  }

  /** How the decoder splits a prefixed encoding. */
  lemma {:induction false} PrefixReadsBack(len: nat, offset: nat, payload: Bytes, rest: Bytes)
    requires offset == STRING_OFFSET || offset == LIST_OFFSET
    requires 56 <= len == |payload| < TWO_64
    ensures var e := EncodeLength(len, offset) + payload + rest;
            var lLength := 1 + |BigEndian(len)|;
            && 2 <= lLength <= 9 && |e| == lLength + len + |rest|
            && e[0] == offset + 54 + lLength && DecodeLength(e[1..lLength]) == Ok(len)
            && e[lLength..lLength + len] == payload && e[lLength + len..] == rest
  {
    ShortLongPrefix(len, offset);
    FromToBigEndian(len);
    EightBytes(len);
    var prefix := EncodeLength(len, offset);
    var e := prefix + payload + rest;
    assert e[1..|prefix|] == prefix[1..] == BigEndian(len);
    assert e[|prefix|..|prefix| + len] == payload;
  }

  /** The decoder takes a whole encoding off the front of any input. */
  lemma {:induction false} DecodeAfterEncode(x: Item, rest: Bytes)
    requires |Payload(x)| < TWO_64
    ensures DecodeOf(EncodeOf(x) + rest) == Ok((x, rest))
    decreases x, 1
  {
    match x
    case Str(s) => DecodeStringAfterEncode(s, rest);
    case List(xs) =>
      DecodeItemsAfterEncode(xs);
      DecodeListAfterEncode(xs, rest);
  }

  /** The first byte alone decides how an input is read. */
  lemma {:induction false} Dispatch(e: Bytes)
    requires e != []
    ensures 0x7f < e[0] <= 0xb7 ==> DecodeOf(e) == DecodeShortString(e)
    ensures 0xb7 < e[0] <= 0xbf ==> DecodeOf(e) == DecodeLongString(e)
    ensures 0xbf < e[0] <= 0xf7 ==> DecodeOf(e) == DecodeShortList(e)
    ensures 0xf7 < e[0] ==> DecodeOf(e) == DecodeLongList(e)
  {}

  lemma {:induction false} DecodeStringAfterEncode(s: Bytes, rest: Bytes)
    requires |s| < TWO_64
    ensures DecodeOf(EncodeOf(Str(s)) + rest) == Ok((Str(s), rest))
  {
    var e := EncodeOf(Str(s)) + rest;
    if |s| == 1 && s[0] < 128 {
      assert e[..1] == s && e[1..] == rest;
    } else if |s| < 56 {
      var prefix := EncodeLength(|s|, STRING_OFFSET);
      assert e == prefix + s + rest;
      assert e[1..1 + |s|] == s && e[1 + |s|..] == rest;
    } else {
      PrefixReadsBack(|s|, STRING_OFFSET, s, rest);
      Dispatch(e);
      DecodeLongStringParts(e, 1 + |BigEndian(|s|)|, s, rest);
    }
  }

  lemma {:induction false} DecodeListAfterEncode(xs: seq<Item>, rest: Bytes)
    requires |EncodeItems(xs)| < TWO_64
    requires DecodeItems(EncodeItems(xs)) == Ok(xs)
    ensures DecodeOf(EncodeOf(List(xs)) + rest) == Ok((List(xs), rest))
  {
    var payload := EncodeItems(xs);
    var e := EncodeOf(List(xs)) + rest;
    if |payload| < 56 {
      var prefix := EncodeLength(|payload|, LIST_OFFSET);
      assert e == prefix + payload + rest;
      assert SafeSlice(e, 1, 1 + |payload|) == Ok(payload) && e[1 + |payload|..] == rest;
      Dispatch(e);
    } else {
      PrefixReadsBack(|payload|, LIST_OFFSET, payload, rest);
      Dispatch(e);
      DecodeLongListParts(e, 1 + |BigEndian(|payload|)|, payload, rest, xs);
    }
  }

  lemma {:induction false} DecodeLongStringParts(e: Bytes, lLength: nat, s: Bytes, rest: Bytes)
    requires 2 <= lLength <= 9 && |s| >= 56 && |e| == lLength + |s| + |rest|
    requires e[0] == STRING_OFFSET + 54 + lLength && DecodeLength(e[1..lLength]) == Ok(|s|)
    requires e[lLength..lLength + |s|] == s && e[lLength + |s|..] == rest
    ensures DecodeLongString(e) == Ok((Str(s), rest))
  {
    assert SafeSlice(e, lLength, |s| + lLength) == Ok(s);
  }

  lemma {:induction false} DecodeLongListParts(e: Bytes, lLength: nat, payload: Bytes, rest: Bytes, xs: seq<Item>)
    requires 2 <= lLength <= 9 && |payload| >= 56 && |e| == lLength + |payload| + |rest|
    requires e[0] == LIST_OFFSET + 54 + lLength && DecodeLength(e[1..lLength]) == Ok(|payload|)
    requires e[lLength..lLength + |payload|] == payload && e[lLength + |payload|..] == rest
    requires DecodeItems(payload) == Ok(xs)
    ensures DecodeLongList(e) == Ok((List(xs), rest))
  {
    assert SafeSlice(e, 1, lLength) == Ok(e[1..lLength]);
  }

  lemma {:induction false} DecodeItemsAfterEncode(xs: seq<Item>)
    requires |EncodeItems(xs)| < TWO_64
    ensures DecodeItems(EncodeItems(xs)) == Ok(xs)
    decreases xs, 0
  {
    if xs != [] {
      PayloadNoLonger(xs[0]);
      DecodeAfterEncode(xs[0], EncodeItems(xs[1..]));
      DecodeItemsAfterEncode(xs[1..]);
      assert xs == [xs[0]] + xs[1..];
    }
  }

  lemma {:induction false} PayloadNoLonger(x: Item)
    ensures |Payload(x)| <= |EncodeOf(x)|
  {}

  /** The exact domain of the round trip: eight length bytes are all the first byte has room for. */
  lemma {:induction false} RoundTripExactly(x: Item)
    ensures (forall rest :: DecodeOf(EncodeOf(x) + rest) == Ok((x, rest))) <==>
            |Payload(x)| < TWO_64
  {
    if |Payload(x)| < TWO_64 {
      forall rest ensures DecodeOf(EncodeOf(x) + rest) == Ok((x, rest)) {
        DecodeAfterEncode(x, rest);
      }
    } else {
      var e := EncodeOf(x) + [];
      if DecodeOf(e) == Ok((x, [])) {
        DecodeIsCanonical(e);
      }
    }
  }

  /** No encoding is a proper prefix of another, and equal encodings mean equal items. */
  lemma {:induction false} EncodingIsPrefixFree(x: Item, y: Item, r: Bytes, s: Bytes)
    requires |Payload(x)| < TWO_64 && |Payload(y)| < TWO_64
    requires EncodeOf(x) + r == EncodeOf(y) + s
    ensures x == y && r == s
  {
    DecodeAfterEncode(x, r);
    DecodeAfterEncode(y, s);
  }

  /** `decode` without `stream`, on non-empty input (index.ts:288-307). */
  method DecodeAll(input: Bytes) returns (r: Result<Item>)
    requires input != []
    ensures r.Ok? ==> input == EncodeOf(r.value)
    ensures r.Err? ==> forall x :: |Payload(x)| < TWO_64 ==> input != EncodeOf(x)
  {
    var decoded := DecodeOne(input);
    forall x | |Payload(x)| < TWO_64 && input == EncodeOf(x)
      ensures decoded == Ok((x, []))
    {
      DecodeAfterEncode(x, []);
      assert EncodeOf(x) + [] == input;
    }
    match decoded {
      case Err(e) => return Err(e);
      case Ok((x, remainder)) =>
        DecodeIsCanonical(input);
        if remainder != [] {
          return Err(NonZeroRemainder);
        }
        return Ok(x);
    }
  }
}
