/** The bytes themselves: what each position of a number and of an encoding holds (Yellow Paper, Appendix B). */
module RlpLayout {
  import opened Rlp

  // ---------------------------------------------------------------------------------------
  // Numbers
  // ---------------------------------------------------------------------------------------

  /** A byte in front counts for its place, a leading zero for nothing. */
  lemma {:induction false} FromBigEndianFront(x: byte, b: Bytes)
    ensures FromBigEndian([]) == 0
    ensures FromBigEndian([x] + b) == x * Pow256(|b|) + FromBigEndian(b)
    decreases |b|
  {
    var all := [x] + b;
    if b == [] {
      assert all[..0] == [];
      assert FromBigEndian(all) == FromBigEndian(all[..0]) * 256 + x;
    } else {
      var init, last := b[..|b| - 1], b[|b| - 1];
      assert all[..|all| - 1] == [x] + init;
      FromBigEndianFront(x, init);
      assert Pow256(|b|) == 256 * Pow256(|init|);
      assert (x * Pow256(|init|) + FromBigEndian(init)) * 256 == x * (256 * Pow256(|init|)) + FromBigEndian(init) * 256;
    }
  }

  /** Every byte times the power of 256 of the number of bytes after it. */
  function Positional(b: Bytes): nat {
    if b == [] then 0 else b[0] * Pow256(|b| - 1) + Positional(b[1..])
  }

  lemma {:induction false} FromBigEndianIsPositional(b: Bytes)
    ensures FromBigEndian(b) == Positional(b)
  {
    if b != [] {
      FromBigEndianIsPositional(b[1..]);
      FromBigEndianFront(b[0], b[1..]);
      assert b == [b[0]] + b[1..];
    } else {
      FromBigEndianFront(0, []);
    }
  }

  /** Two nibbles to a byte, the high one first. */
  lemma {:induction false} HexToBytesAt(h: seq<nibble>, i: nat)
    requires |h| % 2 == 0 && 2 * i < |h|
    ensures |HexToBytes(h)| == |h| / 2 && HexToBytes(h)[i] == h[2 * i] as int * 16 + h[2 * i + 1]
    decreases |h|
  {
    HexToBytesLength(h);
    if i > 0 {
      HexToBytesAt(h[2..], i - 1);
    }
  }

  // ---------------------------------------------------------------------------------------
  // Encodings
  // ---------------------------------------------------------------------------------------

  /** The size of the payload, and whether it is a string or a list, are in the first byte, and in the bytes of a
      long length; a single small byte stands for itself. What follows is the payload. */
  lemma {:induction false} Layout(x: Item)
    requires |Payload(x)| < TWO_64
    ensures var e, n := EncodeOf(x), |Payload(x)|;
            var long := if n < 56 then [] else BigEndian(n);
            && e != []
            && (x.Str? && n == 1 && x.data[0] < 0x80 ==> e == x.data)
            && (!(x.Str? && n == 1 && x.data[0] < 0x80) ==>
                  && |long| <= 8 && e == [e[0]] + long + Payload(x)
                  && e[0] == (if x.Str? then 0x80 else 0xc0) + if n < 56 then n else 55 + |long|)
  {
    var n := |Payload(x)|;
    if n >= 56 {
      LongPrefix(n, STRING_OFFSET);
      LongPrefix(n, LIST_OFFSET);
      EightBytes(n);
    }
  }

  /** The payload of a list is the encodings of its items, one after the other. */
  lemma {:induction false} ListPayload(xs: seq<Item>, ys: seq<Item>)
    ensures EncodeItems(xs + ys) == EncodeItems(xs) + EncodeItems(ys)
  {
    if xs == [] {
      assert xs + ys == ys;
    } else {
      assert (xs + ys)[1..] == xs[1..] + ys && (xs + ys)[0] == xs[0];
      ListPayload(xs[1..], ys);
      hide EncodeOf;
    }
  }

  lemma {:induction false} OneItem(x: Item)
    ensures EncodeItems([]) == [] && EncodeItems([x]) == EncodeOf(x)
  {
    assert [x][1..] == [];
  }
}
