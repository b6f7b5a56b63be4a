/** The wire format of a transaction message: length-prefixed vectors nested in
    length-prefixed vectors, written to and read from a stream of bytes. */
module Wire {
  import opened Bytes
  import opened Sorting
  import opened CompiledKeys
  import opened MessageCompiler

  /** A decoder and an encoder that undo each other: a value and a rest are read
      from exactly those bytes that are the value's encoding followed by the rest. */
  ghost predicate Inverse<T(!new)>(enc: T -> Option<Bytes>, dec: Bytes -> Option<(T, Bytes)>)
  {
    forall b, x, rest :: Agree(enc, dec, b, x, rest)
  }

  ghost predicate Agree<T>(enc: T -> Option<Bytes>, dec: Bytes -> Option<(T, Bytes)>, b: Bytes, x: T, rest: Bytes)
  {
    dec(b) == Some((x, rest)) <==> enc(x).Some? && b == enc(x).value + rest
  }

  // ----- vectors

  function EncodeItems<T>(enc: T -> Option<Bytes>, items: seq<T>): Option<Bytes>
  {
    if items == [] then Some([])
    else
      var front, last := EncodeItems(enc, items[..|items| - 1]), enc(items[|items| - 1]);
      if front.Some? && last.Some? then Some(front.value + last.value) else None
  }

  function DecodeItems<T>(dec: Bytes -> Option<(T, Bytes)>, n: nat, b: Bytes): Option<(seq<T>, Bytes)>
  {
    if n == 0 then Some(([], b))
    else
      var front := DecodeItems(dec, n - 1, b);
      if front.None? then None
      else
        var last := dec(front.value.1);
        if last.None? then None else Some((front.value.0 + [last.value.0], last.value.1))
  }

  function EncodeVec<T>(width: nat, enc: T -> Option<Bytes>, items: seq<T>): Option<Bytes>
  {
    if |items| >= Radix(width) then None
    else
      var body := EncodeItems(enc, items);
      if body.None? then None else Some(LittleEndian(|items|, width) + body.value)
  }

  function DecodeVec<T>(width: nat, dec: Bytes -> Option<(T, Bytes)>, b: Bytes): Option<(seq<T>, Bytes)>
  {
    if |b| < width then None else DecodeItems(dec, FromLittleEndian(b[..width]), b[width..])
  }

  /** `SmallVec::serialize`: the prefix, then every item; the first failure stops it. */
  method SerializeSmallVec<T>(width: nat, enc: T -> Option<Bytes>, items: seq<T>) returns (out: Option<Bytes>)
    ensures out == EncodeVec(width, enc, items)
  {
    if |items| >= Radix(width) {
      return None;
    }
    var written := LittleEndian(|items|, width);
    for i := 0 to |items|
      invariant EncodeItems(enc, items[..i]).Some?
      invariant written == LittleEndian(|items|, width) + EncodeItems(enc, items[..i]).value
    {
      var item := enc(items[i]);
      ItemsUpTo(enc, items, i);
      if item.None? {
        ItemsFail(enc, items, i + 1);
        return None;
      }
      written := written + item.value;
    }
    assert items[..|items|] == items;
    return Some(written);
  }

  lemma ItemsUpTo<T>(enc: T -> Option<Bytes>, items: seq<T>, i: nat)
    requires i < |items| && EncodeItems(enc, items[..i]).Some?
    ensures enc(items[i]).None? ==> EncodeItems(enc, items[..i + 1]).None?
    ensures enc(items[i]).Some? ==>
              EncodeItems(enc, items[..i + 1]) == Some(EncodeItems(enc, items[..i]).value + enc(items[i]).value)
  {
    assert items[..i + 1][..i] == items[..i];
  }

  lemma {:induction false} ItemsFail<T>(enc: T -> Option<Bytes>, items: seq<T>, i: nat)
    requires i <= |items| && EncodeItems(enc, items[..i]).None?
    ensures EncodeItems(enc, items).None?
    decreases |items| - i
  {
    if i < |items| {
      assert items[..i + 1][..i] == items[..i];
      ItemsFail(enc, items, i + 1);
    } else {
      assert items[..i] == items;
    }
  }

  /** `SmallVec::deserialize_reader`: the prefix, then that many items. */
  method DeserializeSmallVec<T>(width: nat, dec: Bytes -> Option<(T, Bytes)>, b: Bytes)
    returns (r: Option<(seq<T>, Bytes)>)
    ensures r == DecodeVec(width, dec, b)
  {
    if |b| < width {
      return None;
    }
    var len, reader := FromLittleEndian(b[..width]), b[width..];
    var out: seq<T> := [];
    for i := 0 to len
      invariant DecodeItems(dec, i, b[width..]) == Some((out, reader))
    {
      var item := dec(reader);
      if item.None? {
        DecodeFails(dec, i + 1, len, b[width..]);
        return None;
      }
      out, reader := out + [item.value.0], item.value.1;
    }
    return Some((out, reader));
  }

  lemma {:induction false} DecodeFails<T>(dec: Bytes -> Option<(T, Bytes)>, i: nat, n: nat, b: Bytes)
    requires i <= n && DecodeItems(dec, i, b).None?
    ensures DecodeItems(dec, n, b).None?
    decreases n - i
  {
    if i < n {
      DecodeFails(dec, i + 1, n, b);
    }
  }

  lemma {:induction false} DecodedItems<T(!new)>(enc: T -> Option<Bytes>, dec: Bytes -> Option<(T, Bytes)>,
                                                 n: nat, b: Bytes)
    requires Inverse(enc, dec) && DecodeItems(dec, n, b).Some?
    ensures var (xs, rest) := DecodeItems(dec, n, b).value;
            |xs| == n && EncodeItems(enc, xs).Some? && b == EncodeItems(enc, xs).value + rest
  {
    if n > 0 {
      DecodedItems(enc, dec, n - 1, b);
      var (ys, mid) := DecodeItems(dec, n - 1, b).value;
      var (x, rest) := dec(mid).value;
      assert Agree(enc, dec, mid, x, rest);
      assert (ys + [x])[..n - 1] == ys;
      assert EncodeItems(enc, ys).value + mid == EncodeItems(enc, ys).value + enc(x).value + rest;
    }
  }

  lemma {:induction false} EncodedItems<T(!new)>(enc: T -> Option<Bytes>, dec: Bytes -> Option<(T, Bytes)>,
                                                 xs: seq<T>, rest: Bytes)
    requires Inverse(enc, dec) && EncodeItems(enc, xs).Some?
    ensures DecodeItems(dec, |xs|, EncodeItems(enc, xs).value + rest) == Some((xs, rest))
  {
    if xs == [] {
      assert [] + rest == rest;
    } else {
      var n := |xs| - 1;
      var ys, x := xs[..n], xs[n];
      var mid := enc(x).value + rest;
      EncodedItems(enc, dec, ys, mid);
      assert Agree(enc, dec, mid, x, rest);
      assert EncodeItems(enc, xs).value + rest == EncodeItems(enc, ys).value + mid;
      assert ys + [x] == xs;
    }
  }

  lemma ItemsAgree<T(!new)>(enc: T -> Option<Bytes>, dec: Bytes -> Option<(T, Bytes)>,
                            n: nat, b: Bytes, xs: seq<T>, rest: Bytes)
    requires Inverse(enc, dec)
    ensures DecodeItems(dec, n, b) == Some((xs, rest))
            <==> |xs| == n && EncodeItems(enc, xs).Some? && b == EncodeItems(enc, xs).value + rest
  {
    hide Inverse, DecodeItems, EncodeItems;
    if DecodeItems(dec, n, b) == Some((xs, rest)) {
      DecodedItems(enc, dec, n, b);
    }
    if |xs| == n && EncodeItems(enc, xs).Some? && b == EncodeItems(enc, xs).value + rest {
      EncodedItems(enc, dec, xs, rest);
    }
  }

  lemma VecInverse<T(!new)>(width: nat, enc: T -> Option<Bytes>, dec: Bytes -> Option<(T, Bytes)>)
    requires Inverse(enc, dec)
    ensures Inverse(VecEncoder(width, enc), VecDecoder(width, dec))
  {
    hide Inverse, EncodeItems, DecodeItems, LittleEndian, FromLittleEndian, Radix;
    forall b, xs, rest ensures Agree(VecEncoder(width, enc), VecDecoder(width, dec), b, xs, rest) {
      if |b| >= width {
        var n := FromLittleEndian(b[..width]);
        ItemsAgree(enc, dec, n, b[width..], xs, rest);
        PrefixAgree(width, b, |xs|);
        assert b == b[..width] + b[width..];
      }
      if EncodeVec(width, enc, xs).Some? && b == EncodeVec(width, enc, xs).value + rest {
        assert b[..width] == LittleEndian(|xs|, width);
        assert b[width..] == EncodeItems(enc, xs).value + rest;
      }
    }
    InverseFrom(VecEncoder(width, enc), VecDecoder(width, dec));
  }

  lemma InverseFrom<T(!new)>(enc: T -> Option<Bytes>, dec: Bytes -> Option<(T, Bytes)>)
    requires forall b, x, rest :: Agree(enc, dec, b, x, rest)
    ensures Inverse(enc, dec)
  {
  }

  /** The prefix reads as `n` exactly when it is `n` written out. */
  lemma PrefixAgree(width: nat, b: Bytes, n: nat)
    requires width <= |b|
    ensures FromLittleEndian(b[..width]) == n <==> n < Radix(width) && b[..width] == LittleEndian(n, width)
  {
    FromLittleEndianBound(b[..width]);
    LittleEndianCanonical(b[..width]);
    if n < Radix(width) {
      LittleEndianRoundTrip(n, width);
    }
  }

  function VecEncoder<T>(width: nat, enc: T -> Option<Bytes>): seq<T> -> Option<Bytes>
  {
    (items: seq<T>) => EncodeVec(width, enc, items)
  }

  function VecDecoder<T>(width: nat, dec: Bytes -> Option<(T, Bytes)>): Bytes -> Option<(seq<T>, Bytes)>
  {
    (b: Bytes) => DecodeVec(width, dec, b)
  }

  // ----- bytes and keys

  function EncodeByte(x: u8): Option<Bytes> { Some([x]) }

  function DecodeByte(b: Bytes): Option<(u8, Bytes)> { if b == [] then None else Some((b[0], b[1..])) }

  function EncodeKey(k: Pubkey): Option<Bytes> { Some(k) }

  function DecodeKey(b: Bytes): Option<(Pubkey, Bytes)> { if |b| < 32 then None else Some((b[..32], b[32..])) }

  lemma ByteInverse()
    ensures Inverse(EncodeByte, DecodeByte)
  {
    forall b, x, rest ensures Agree(EncodeByte, DecodeByte, b, x, rest) {
      if b != [] {
        assert b == [b[0]] + b[1..];
      }
      assert ([x] + rest)[1..] == rest;
    }
  }

  lemma KeyInverse()
    ensures Inverse(EncodeKey, DecodeKey)
  {
    forall b, x, rest ensures Agree(EncodeKey, DecodeKey, b, x, rest) {
      if |b| >= 32 {
        assert b == b[..32] + b[32..];
      }
      var joined := x + rest;
      assert joined[..32] == x && joined[32..] == rest;
    }
  }

  // ----- the message

  function EncodeBytes8(items: Bytes): Option<Bytes> { EncodeVec(1, EncodeByte, items) }

  function DecodeBytes8(b: Bytes): Option<(Bytes, Bytes)> { DecodeVec(1, DecodeByte, b) }

  function EncodeBytes16(items: Bytes): Option<Bytes> { EncodeVec(2, EncodeByte, items) }

  function DecodeBytes16(b: Bytes): Option<(Bytes, Bytes)> { DecodeVec(2, DecodeByte, b) }

  function EncodeInstruction(c: CompiledInstruction): Option<Bytes>
  {
    var accounts, data := EncodeBytes8(c.accountIndexes), EncodeBytes16(c.data);
    if accounts.None? || data.None? then None else Some([c.programIdIndex] + accounts.value + data.value)
  }

  function DecodeInstruction(b: Bytes): Option<(CompiledInstruction, Bytes)>
  {
    var tag := DecodeByte(b);
    if tag.None? then None
    else
      var accounts := DecodeBytes8(tag.value.1);
      if accounts.None? then None
      else
        var data := DecodeBytes16(accounts.value.1);
        if data.None? then None
        else Some((CompiledInstruction(tag.value.0, accounts.value.0, data.value.0), data.value.1))
  }

  function EncodeLookup(l: TableLookup): Option<Bytes>
  {
    var writable, readonly := EncodeBytes8(l.writableIndexes), EncodeBytes8(l.readonlyIndexes);
    if writable.None? || readonly.None? then None else Some(l.accountKey + writable.value + readonly.value)
  }

  function DecodeLookup(b: Bytes): Option<(TableLookup, Bytes)>
  {
    var key := DecodeKey(b);
    if key.None? then None
    else
      var writable := DecodeBytes8(key.value.1);
      if writable.None? then None
      else
        var readonly := DecodeBytes8(writable.value.1);
        if readonly.None? then None
        else Some((TableLookup(key.value.0, writable.value.0, readonly.value.0), readonly.value.1))
  }

  function EncodeMessage(m: TransactionMessage): Option<Bytes>
  {
    var keys := EncodeVec(1, EncodeKey, m.accountKeys);
    var instructions := EncodeVec(1, EncodeInstruction, m.instructions);
    var lookups := EncodeVec(1, EncodeLookup, m.addressTableLookups);
    if keys.None? || instructions.None? || lookups.None? then None
    else Some([m.numSigners, m.numWritableSigners, m.numWritableNonSigners] + keys.value + instructions.value
              + lookups.value)
  }

  function DecodeMessage(b: Bytes): Option<(TransactionMessage, Bytes)>
  {
    if |b| < 3 then None
    else
      var keys := DecodeVec(1, DecodeKey, b[3..]);
      if keys.None? then None
      else
        var instructions := DecodeVec(1, DecodeInstruction, keys.value.1);
        if instructions.None? then None
        else
          var lookups := DecodeVec(1, DecodeLookup, instructions.value.1);
          if lookups.None? then None
          else Some((TransactionMessage(b[0], b[1], b[2], keys.value.0, instructions.value.0, lookups.value.0),
                     lookups.value.1))
  }

  // ----- the message codec

  method Serialize(m: TransactionMessage) returns (out: Option<Bytes>)
    ensures out == EncodeMessage(m)
  {
    hide EncodeVec, EncodeInstruction, EncodeLookup;
    var written := [m.numSigners, m.numWritableSigners, m.numWritableNonSigners];
    var keys := SerializeSmallVec(1, EncodeKey, m.accountKeys);
    if keys.None? {
      return None;
    }
    written := written + keys.value;
    var instructions := SerializeSmallVec(1, EncodeInstruction, m.instructions);
    if instructions.None? {
      return None;
    }
    written := written + instructions.value;
    var lookups := SerializeSmallVec(1, EncodeLookup, m.addressTableLookups);
    if lookups.None? {
      return None;
    }
    return Some(written + lookups.value);
  }

  method Deserialize(b: Bytes) returns (r: Option<(TransactionMessage, Bytes)>)
    ensures r == DecodeMessage(b)
  {
    hide DecodeVec, DecodeInstruction, DecodeLookup;
    if |b| < 3 {
      return None;
    }
    var keys := DeserializeSmallVec(1, DecodeKey, b[3..]);
    if keys.None? {
      return None;
    }
    var instructions := DeserializeSmallVec(1, DecodeInstruction, keys.value.1);
    if instructions.None? {
      return None;
    }
    var lookups := DeserializeSmallVec(1, DecodeLookup, instructions.value.1);
    if lookups.None? {
      return None;
    }
    var m := TransactionMessage(b[0], b[1], b[2], keys.value.0, instructions.value.0, lookups.value.0);
    return Some((m, lookups.value.1));
  }

  function Decode3<A, B, C>(decA: Bytes -> Option<(A, Bytes)>, decB: Bytes -> Option<(B, Bytes)>,
                            decC: Bytes -> Option<(C, Bytes)>, b: Bytes): Option<((A, B, C), Bytes)>
  {
    var x := decA(b);
    if x.None? then None
    else
      var y := decB(x.value.1);
      if y.None? then None
      else
        var z := decC(y.value.1);
        if z.None? then None else Some(((x.value.0, y.value.0, z.value.0), z.value.1))
  }

  /** Three parts read one after the other are three parts written one after the other. */
  lemma ThreeParts<A(!new), B(!new), C(!new)>(
      encA: A -> Option<Bytes>, decA: Bytes -> Option<(A, Bytes)>,
      encB: B -> Option<Bytes>, decB: Bytes -> Option<(B, Bytes)>,
      encC: C -> Option<Bytes>, decC: Bytes -> Option<(C, Bytes)>, b: Bytes, x: A, y: B, z: C, rest: Bytes)
    requires Inverse(encA, decA) && Inverse(encB, decB) && Inverse(encC, decC)
    ensures Decode3(decA, decB, decC, b) == Some(((x, y, z), rest))
            <==> && encA(x).Some? && encB(y).Some? && encC(z).Some?
                 && b == encA(x).value + encB(y).value + encC(z).value + rest
  {
    if Decode3(decA, decB, decC, b) == Some(((x, y, z), rest)) {
      var b1 := decA(b).value.1;
      var b2 := decB(b1).value.1;
      assert Agree(encA, decA, b, x, b1) && Agree(encB, decB, b1, y, b2) && Agree(encC, decC, b2, z, rest);
      assert b == encA(x).value + (encB(y).value + (encC(z).value + rest));
    }
    if encA(x).Some? && encB(y).Some? && encC(z).Some? && b == encA(x).value + encB(y).value + encC(z).value + rest {
      var b2 := encC(z).value + rest;
      var b1 := encB(y).value + b2;
      assert b == encA(x).value + b1;
      assert Agree(encA, decA, b, x, b1) && Agree(encB, decB, b1, y, b2) && Agree(encC, decC, b2, z, rest);
    }
  }

  lemma BytesInverse()
    ensures Inverse(EncodeBytes8, DecodeBytes8) && Inverse(EncodeBytes16, DecodeBytes16)
  {
    ByteInverse();
    VecInverse(1, EncodeByte, DecodeByte);
    VecInverse(2, EncodeByte, DecodeByte);
    forall b, x, rest ensures Agree(EncodeBytes8, DecodeBytes8, b, x, rest) {
      assert Agree(VecEncoder(1, EncodeByte), VecDecoder(1, DecodeByte), b, x, rest);
    }
    forall b, x, rest ensures Agree(EncodeBytes16, DecodeBytes16, b, x, rest) {
      assert Agree(VecEncoder(2, EncodeByte), VecDecoder(2, DecodeByte), b, x, rest);
    }
  }

  lemma InstructionInverse()
    ensures Inverse(EncodeInstruction, DecodeInstruction)
  {
    hide Inverse, EncodeBytes8, EncodeBytes16, DecodeBytes8, DecodeBytes16;
    ByteInverse();
    BytesInverse();
    forall b, c, rest ensures Agree(EncodeInstruction, DecodeInstruction, b, c, rest) {
      ThreeParts(EncodeByte, DecodeByte, EncodeBytes8, DecodeBytes8, EncodeBytes16, DecodeBytes16,
                 b, c.programIdIndex, c.accountIndexes, c.data, rest);
    }
    InverseFrom(EncodeInstruction, DecodeInstruction);
  }

  lemma LookupInverse()
    ensures Inverse(EncodeLookup, DecodeLookup)
  {
    hide Inverse, EncodeBytes8, DecodeBytes8, EncodeKey, DecodeKey;
    KeyInverse();
    BytesInverse();
    forall b, l, rest ensures Agree(EncodeLookup, DecodeLookup, b, l, rest) {
      ThreeParts(EncodeKey, DecodeKey, EncodeBytes8, DecodeBytes8, EncodeBytes8, DecodeBytes8,
                 b, l.accountKey, l.writableIndexes, l.readonlyIndexes, rest);
      KeyAsIs(l.accountKey);
    }
    InverseFrom(EncodeLookup, DecodeLookup);
  }

  lemma KeyAsIs(k: Pubkey)
    ensures EncodeKey(k) == Some(k)
  {
  }

  /** Decoding undoes encoding whatever follows, and whatever decodes is the
      encoding of what it decodes to. */
  lemma MessageInverse()
    ensures Inverse(EncodeMessage, DecodeMessage)
  {
    hide Inverse, EncodeVec, DecodeVec;
    KeyInverse();
    InstructionInverse();
    LookupInverse();
    VecInverse(1, EncodeKey, DecodeKey);
    VecInverse(1, EncodeInstruction, DecodeInstruction);
    VecInverse(1, EncodeLookup, DecodeLookup);
    forall b, m, rest ensures Agree(EncodeMessage, DecodeMessage, b, m, rest) {
      MessageAgrees(b, m, rest);
    }
    InverseFrom(EncodeMessage, DecodeMessage);
  }

  lemma MessageAgrees(b: Bytes, m: TransactionMessage, rest: Bytes)
    requires Inverse(VecEncoder(1, EncodeKey), VecDecoder(1, DecodeKey))
    requires Inverse(VecEncoder(1, EncodeInstruction), VecDecoder(1, DecodeInstruction))
    requires Inverse(VecEncoder(1, EncodeLookup), VecDecoder(1, DecodeLookup))
    ensures Agree(EncodeMessage, DecodeMessage, b, m, rest)
  {
    hide Inverse, EncodeVec, DecodeVec;
    var counts := [m.numSigners, m.numWritableSigners, m.numWritableNonSigners];
    if |b| >= 3 {
      ThreeParts(VecEncoder(1, EncodeKey), VecDecoder(1, DecodeKey),
                 VecEncoder(1, EncodeInstruction), VecDecoder(1, DecodeInstruction),
                 VecEncoder(1, EncodeLookup), VecDecoder(1, DecodeLookup),
                 b[3..], m.accountKeys, m.instructions, m.addressTableLookups, rest);
      assert b == [b[0], b[1], b[2]] + b[3..];
    }
    if EncodeMessage(m).Some? {
      var keys, ixs := EncodeVec(1, EncodeKey, m.accountKeys), EncodeVec(1, EncodeInstruction, m.instructions);
      var lookups := EncodeVec(1, EncodeLookup, m.addressTableLookups);
      assert EncodeMessage(m).value + rest == counts + (keys.value + ixs.value + lookups.value + rest);
    }
  }

  // ----- which messages can be written

  predicate InstructionFits(c: CompiledInstruction) { |c.accountIndexes| <= 0xFF && |c.data| <= 0xFFFF }

  predicate LookupFits(l: TableLookup) { |l.writableIndexes| <= 0xFF && |l.readonlyIndexes| <= 0xFF }

  /** Every nested length fits its prefix. */
  predicate Fits(m: TransactionMessage)
  {
    && |m.accountKeys| <= 0xFF && |m.instructions| <= 0xFF && |m.addressTableLookups| <= 0xFF
    && (forall i :: 0 <= i < |m.instructions| ==> InstructionFits(m.instructions[i]))
    && (forall i :: 0 <= i < |m.addressTableLookups| ==> LookupFits(m.addressTableLookups[i]))
  }

  lemma {:induction false} ItemsEncode<T>(enc: T -> Option<Bytes>, items: seq<T>)
    ensures EncodeItems(enc, items).Some? <==> forall i :: 0 <= i < |items| ==> enc(items[i]).Some?
  {
    if items != [] {
      var n := |items| - 1;
      ItemsEncode(enc, items[..n]);
      assert forall i :: 0 <= i < n ==> items[..n][i] == items[i];
    }
  }

  lemma Radixes()
    ensures Radix(1) == 0x100 && Radix(2) == 0x1_0000 && Radix(4) == 0x1_0000_0000
  {
    assert Radix(2) == 0x100 * Radix(1);
    assert Radix(4) == 0x100 * Radix(3) && Radix(3) == 0x100 * Radix(2);
  }

  lemma BytesEncode(b: Bytes)
    ensures EncodeBytes8(b).Some? <==> |b| <= 0xFF
    ensures EncodeBytes16(b).Some? <==> |b| <= 0xFFFF
  {
    Radixes();
    ItemsEncode(EncodeByte, b);
  }

  /** Serialization succeeds exactly when every nested length fits. */
  lemma EncodesIffFits(m: TransactionMessage)
    ensures EncodeMessage(m).Some? <==> Fits(m)
  {
    hide EncodeItems, EncodeBytes8, EncodeBytes16, LittleEndian, Radix;
    Radixes();
    ItemsEncode(EncodeKey, m.accountKeys);
    ItemsEncode(EncodeInstruction, m.instructions);
    ItemsEncode(EncodeLookup, m.addressTableLookups);
    forall i | 0 <= i < |m.instructions|
      ensures EncodeInstruction(m.instructions[i]).Some? <==> InstructionFits(m.instructions[i])
    {
      BytesEncode(m.instructions[i].accountIndexes);
      BytesEncode(m.instructions[i].data);
    }
    forall i | 0 <= i < |m.addressTableLookups|
      ensures EncodeLookup(m.addressTableLookups[i]).Some? <==> LookupFits(m.addressTableLookups[i])
    {
      BytesEncode(m.addressTableLookups[i].writableIndexes);
      BytesEncode(m.addressTableLookups[i].readonlyIndexes);
    }
  }

  /** The wire round trip, with any bytes behind the message. */
  lemma WireRoundTrip(m: TransactionMessage, suffix: Bytes)
    ensures EncodeMessage(m).Some? <==> Fits(m)
    ensures Fits(m) ==> DecodeMessage(EncodeMessage(m).value + suffix) == Some((m, suffix))
  {
    hide EncodeMessage, DecodeMessage, Fits;
    EncodesIffFits(m);
    MessageInverse();
    if Fits(m) {
      assert Agree(EncodeMessage, DecodeMessage, EncodeMessage(m).value + suffix, m, suffix);
    }
  }

  // ----- the bytes on the wire, written out

  function KeyBytes(k: Pubkey): Bytes { k }

  function InstructionBytes(c: CompiledInstruction): Bytes
    requires InstructionFits(c)
  {
    [c.programIdIndex] + [|c.accountIndexes|] + c.accountIndexes + [|c.data| % 0x100, |c.data| / 0x100] + c.data
  }

  function LookupBytes(l: TableLookup): Bytes
    requires LookupFits(l)
  {
    l.accountKey + [|l.writableIndexes|] + l.writableIndexes + [|l.readonlyIndexes|] + l.readonlyIndexes
  }

  /** All instructions, one after the other. */
  function AllInstructionBytes(cs: seq<CompiledInstruction>): Bytes
    requires forall i :: 0 <= i < |cs| ==> InstructionFits(cs[i])
  {
    if cs == [] then [] else AllInstructionBytes(cs[..|cs| - 1]) + InstructionBytes(cs[|cs| - 1])
  }

  function AllLookupBytes(ls: seq<TableLookup>): Bytes
    requires forall i :: 0 <= i < |ls| ==> LookupFits(ls[i])
  {
    if ls == [] then [] else AllLookupBytes(ls[..|ls| - 1]) + LookupBytes(ls[|ls| - 1])
  }

  /** Counts, then keys, instructions and lookups, each behind its number. */
  lemma MessageLayout(m: TransactionMessage)
    requires Fits(m)
    ensures EncodeMessage(m)
            == Some([m.numSigners, m.numWritableSigners, m.numWritableNonSigners]
                    + ([|m.accountKeys|] + FlatMap(KeyBytes, m.accountKeys))
                    + ([|m.instructions|] + AllInstructionBytes(m.instructions))
                    + ([|m.addressTableLookups|] + AllLookupBytes(m.addressTableLookups)))
  {
    hide EncodeItems, EncodeInstruction, EncodeLookup, LittleEndian, InstructionFits, LookupFits, Radix;
    Radixes();
    OneByte(|m.accountKeys|);
    OneByte(|m.instructions|);
    OneByte(|m.addressTableLookups|);
    KeysLayout(m.accountKeys);
    InstructionsLayout(m.instructions);
    LookupsLayout(m.addressTableLookups);
  }

  lemma OneByte(n: nat)
    requires n <= 0xFF
    ensures LittleEndian(n, 1) == [n]
  {
    assert LittleEndian(n / 0x100, 0) == [];
  }

  lemma TwoBytes(n: nat)
    requires n <= 0xFFFF
    ensures LittleEndian(n, 2) == [n % 0x100, n / 0x100]
  {
    OneByte(n / 0x100);
  }

  lemma {:induction false} PlainBytes(b: Bytes)
    ensures EncodeItems(EncodeByte, b) == Some(b)
  {
    if b != [] {
      var n := |b| - 1;
      PlainBytes(b[..n]);
      assert b == b[..n] + [b[n]];
    }
  }

  lemma {:induction false} KeysLayout(keys: seq<Pubkey>)
    ensures EncodeItems(EncodeKey, keys) == Some(FlatMap(KeyBytes, keys))
  {
    if keys != [] {
      KeysLayout(keys[..|keys| - 1]);
    }
  }

  lemma InstructionLayout(c: CompiledInstruction)
    requires InstructionFits(c)
    ensures EncodeInstruction(c) == Some(InstructionBytes(c))
  {
    hide EncodeItems, LittleEndian, Radix;
    Radixes();
    OneByte(|c.accountIndexes|);
    TwoBytes(|c.data|);
    PlainBytes(c.accountIndexes);
    PlainBytes(c.data);
    assert [c.programIdIndex] + ([|c.accountIndexes|] + c.accountIndexes)
           + ([|c.data| % 0x100, |c.data| / 0x100] + c.data) == InstructionBytes(c);
  }

  lemma LookupLayout(l: TableLookup)
    requires LookupFits(l)
    ensures EncodeLookup(l) == Some(LookupBytes(l))
  {
    hide EncodeItems, LittleEndian, Radix;
    Radixes();
    OneByte(|l.writableIndexes|);
    OneByte(|l.readonlyIndexes|);
    PlainBytes(l.writableIndexes);
    PlainBytes(l.readonlyIndexes);
    assert l.accountKey + ([|l.writableIndexes|] + l.writableIndexes) + ([|l.readonlyIndexes|] + l.readonlyIndexes)
           == LookupBytes(l);
  }

  lemma {:induction false} InstructionsLayout(cs: seq<CompiledInstruction>)
    requires forall i :: 0 <= i < |cs| ==> InstructionFits(cs[i])
    ensures EncodeItems(EncodeInstruction, cs) == Some(AllInstructionBytes(cs))
  {
    hide EncodeInstruction, InstructionBytes, InstructionFits;
    if cs != [] {
      InstructionsLayout(cs[..|cs| - 1]);
      InstructionLayout(cs[|cs| - 1]);
    }
  }

  lemma {:induction false} LookupsLayout(ls: seq<TableLookup>)
    requires forall i :: 0 <= i < |ls| ==> LookupFits(ls[i])
    ensures EncodeItems(EncodeLookup, ls) == Some(AllLookupBytes(ls))
  {
    hide EncodeLookup, LookupBytes, LookupFits;
    if ls != [] {
      LookupsLayout(ls[..|ls| - 1]);
      LookupLayout(ls[|ls| - 1]);
    }
  }
}
