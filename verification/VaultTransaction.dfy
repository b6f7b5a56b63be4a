/** `vault_transaction_create`: the argument codec, and the whole way from
    instructions to the bytes the on-chain program will decode. */
module VaultTransaction {
  import opened Bytes
  import opened CompiledKeys
  import opened MessageCompiler
  import opened Wire

  /** The memo is the bytes of its text. */
  datatype CreateArgs = CreateArgs(vaultIndex: u8, ephemeralSigners: u8, transactionMessage: Bytes, memo: Option<Bytes>)

  // ----- the argument codec

  /** Length as the low 32 bits, then the bytes. */
  function EncodeBlob(x: Bytes): Bytes { LittleEndian(|x|, 4) + x }

  function DecodeBlob(b: Bytes): Option<(Bytes, Bytes)>
  {
    if |b| < 4 then None
    else
      var n := FromLittleEndian(b[..4]);
      if |b| - 4 < n then None else Some((b[4..4 + n], b[4 + n..]))
  }

  function EncodeArgs(a: CreateArgs): Bytes
  {
    [a.vaultIndex, a.ephemeralSigners] + EncodeBlob(a.transactionMessage)
    + if a.memo.None? then [0] else [1] + EncodeBlob(a.memo.value)
  }

  function DecodeMemo(utf8: Bytes -> bool, b: Bytes): Option<Option<Bytes>>
  {
    if b == [] then None
    else if b[0] == 0 then Some(None)
    else if b[0] != 1 || DecodeBlob(b[1..]).None? || !utf8(DecodeBlob(b[1..]).value.0) then None
    else Some(Some(DecodeBlob(b[1..]).value.0))
  }

  /** What follows the memo is ignored. */
  function DecodeArgs(utf8: Bytes -> bool, b: Bytes): Option<CreateArgs>
  {
    if |b| < 2 || DecodeBlob(b[2..]).None? then None
    else
      var (message, rest) := DecodeBlob(b[2..]).value;
      var memo := DecodeMemo(utf8, rest);
      if memo.None? then None else Some(CreateArgs(b[0], b[1], message, memo.value))
  }

  method TryToVec(a: CreateArgs) returns (out: Bytes)
    ensures out == EncodeArgs(a)
  {
    hide LittleEndian;
    out := [];
    out := out + [a.vaultIndex];
    out := out + [a.ephemeralSigners];
    out := out + LittleEndian(|a.transactionMessage| % 0x1_0000_0000, 4);
    LowBytes(|a.transactionMessage|);
    out := out + a.transactionMessage;
    match a.memo {
      case None =>
        out := out + [0];
      case Some(s) =>
        out := out + [1];
        out := out + LittleEndian(|s| % 0x1_0000_0000, 4);
        LowBytes(|s|);
        out := out + s;
    }
  }

  /** Casting a length to 32 bits is writing its four low bytes. */
  lemma LowBytes(n: nat)
    ensures LittleEndian(n % 0x1_0000_0000, 4) == LittleEndian(n, 4)
  {
    Radixes();
    Truncated(n, n / 0x1_0000_0000, n % 0x1_0000_0000, 4);
  }

  lemma {:induction false} Truncated(n: nat, q: nat, r: nat, width: nat)
    requires n == q * Radix(width) + r
    ensures LittleEndian(r, width) == LittleEndian(n, width)
    decreases width
  {
    if width > 0 {
      var high := q * Radix(width - 1);
      assert n == 0x100 * high + r;
      Truncated(n / 0x100, q, r / 0x100, width - 1);
    }
  }

  method TryFromSlice(utf8: Bytes -> bool, slice: Bytes) returns (r: Option<CreateArgs>)
    ensures r == DecodeArgs(utf8, slice)
  {
    hide FromLittleEndian;
    var bytes := slice;
    if bytes == [] {
      return None;
    }
    var vaultIndex := bytes[0];
    bytes := bytes[1..];
    if bytes == [] {
      return None;
    }
    var ephemeralSigners := bytes[0];
    bytes := bytes[1..];
    if |bytes| < 4 {
      return None;
    }
    var len := FromLittleEndian(bytes[..4]);
    bytes := bytes[4..];
    assert bytes == slice[2..][4..] && slice[2..][..4] == slice[2..6];
    if |bytes| < len {
      return None;
    }
    var message := bytes[..len];
    bytes := bytes[len..];
    assert message == slice[2..][4..4 + len] && bytes == slice[2..][4 + len..];
    if bytes == [] {
      return None;
    }
    if bytes[0] == 0 {
      return Some(CreateArgs(vaultIndex, ephemeralSigners, message, None));
    }
    var text := DecodeBlob(bytes[1..]);
    if bytes[0] != 1 || text.None? || !utf8(text.value.0) {
      return None;
    }
    return Some(CreateArgs(vaultIndex, ephemeralSigners, message, Some(text.value.0)));
  }

  predicate Short(x: Bytes) { |x| < 0x1_0000_0000 }

  /** Both lengths fit 32 bits. */
  predicate ArgsFit(a: CreateArgs)
  {
    Short(a.transactionMessage) && (a.memo.Some? ==> Short(a.memo.value))
  }

  predicate MemoIsText(utf8: Bytes -> bool, a: CreateArgs) { a.memo.Some? ==> utf8(a.memo.value) }

  lemma BlobAgrees(b: Bytes, x: Bytes, rest: Bytes)
    ensures DecodeBlob(b) == Some((x, rest)) <==> Short(x) && b == EncodeBlob(x) + rest
  {
    hide LittleEndian, FromLittleEndian;
    Radixes();
    if |b| >= 4 {
      PrefixAgree(4, b, |x|);
      if DecodeBlob(b) == Some((x, rest)) {
        assert b == b[..4] + x + rest;
      }
    }
    if Short(x) && b == EncodeBlob(x) + rest {
      assert b[..4] == LittleEndian(|x|, 4) && b[4..4 + |x|] == x && b[4 + |x|..] == rest;
    }
  }

  /** The bytes decode to `a` exactly when they begin with `a`'s encoding, its
      lengths are not truncated and its memo is text. */
  lemma DecodesIff(utf8: Bytes -> bool, b: Bytes, a: CreateArgs)
    ensures DecodeArgs(utf8, b) == Some(a) <==> ArgsFit(a) && MemoIsText(utf8, a) && EncodeArgs(a) <= b
  {
    if DecodeArgs(utf8, b) == Some(a) {
      DecodedArgs(utf8, b, a);
    }
    if ArgsFit(a) && MemoIsText(utf8, a) && EncodeArgs(a) <= b {
      EncodedArgs(utf8, a, b[|EncodeArgs(a)|..]);
      assert b == EncodeArgs(a) + b[|EncodeArgs(a)|..];
    }
  }

  lemma DecodedArgs(utf8: Bytes -> bool, b: Bytes, a: CreateArgs)
    requires DecodeArgs(utf8, b) == Some(a)
    ensures ArgsFit(a) && MemoIsText(utf8, a) && EncodeArgs(a) <= b
  {
    hide DecodeBlob, EncodeBlob;
    var (message, rest) := DecodeBlob(b[2..]).value;
    BlobAgrees(b[2..], message, rest);
    assert b == [b[0], b[1]] + b[2..];
    if a.memo.Some? {
      var (text, rest') := DecodeBlob(rest[1..]).value;
      BlobAgrees(rest[1..], text, rest');
      assert rest == [1] + rest[1..];
      assert b == EncodeArgs(a) + rest';
    } else {
      assert rest == [0] + rest[1..];
      assert b == EncodeArgs(a) + rest[1..];
    }
  }

  lemma EncodedArgs(utf8: Bytes -> bool, a: CreateArgs, rest: Bytes)
    requires ArgsFit(a) && MemoIsText(utf8, a)
    ensures DecodeArgs(utf8, EncodeArgs(a) + rest) == Some(a)
  {
    hide DecodeBlob, EncodeBlob;
    var b := EncodeArgs(a) + rest;
    if a.memo.Some? {
      var tail := [1] + EncodeBlob(a.memo.value) + rest;
      assert b[2..] == EncodeBlob(a.transactionMessage) + tail;
      BlobAgrees(b[2..], a.transactionMessage, tail);
      assert tail[1..] == EncodeBlob(a.memo.value) + rest;
      BlobAgrees(tail[1..], a.memo.value, rest);
    } else {
      var tail := [0] + rest;
      assert b[2..] == EncodeBlob(a.transactionMessage) + tail;
      BlobAgrees(b[2..], a.transactionMessage, tail);
    }
  }

  /** The arguments survive the trip exactly when neither length is truncated. */
  lemma ArgsRoundTripIff(utf8: Bytes -> bool, a: CreateArgs, suffix: Bytes)
    requires MemoIsText(utf8, a)
    ensures DecodeArgs(utf8, EncodeArgs(a) + suffix) == Some(a) <==> ArgsFit(a)
  {
    DecodesIff(utf8, EncodeArgs(a) + suffix, a);
  }

  /** A length in four bytes, least significant first. */
  function Length(x: Bytes): Bytes
    requires Short(x)
  {
    [|x| % 0x100, |x| / 0x100 % 0x100, |x| / 0x1_0000 % 0x100, |x| / 0x100_0000]
  }

  /** The arguments on the wire, written out. */
  lemma ArgsLayout(a: CreateArgs)
    requires ArgsFit(a)
    ensures EncodeArgs(a)
            == [a.vaultIndex, a.ephemeralSigners] + Length(a.transactionMessage) + a.transactionMessage
               + if a.memo.None? then [0] else [1] + Length(a.memo.value) + a.memo.value
  {
    hide LittleEndian, Length, Short;
    LengthIs(a.transactionMessage);
    if a.memo.Some? {
      LengthIs(a.memo.value);
    }
  }

  lemma LengthIs(x: Bytes)
    requires Short(x)
    ensures LittleEndian(|x|, 4) == Length(x)
  {
    hide Short;
    var n: nat := |x|;
    var b1, b2, b3 := LittleEndian(n / 0x100, 3), LittleEndian(n / 0x100 / 0x100, 2),
                      LittleEndian(n / 0x100 / 0x100 / 0x100, 1);
    assert LittleEndian(n, 4) == [n % 0x100] + b1 && b1 == [n / 0x100 % 0x100] + b2
           && b2 == [n / 0x100 / 0x100 % 0x100] + b3;
    assert b3 == [n / 0x100 / 0x100 / 0x100 % 0x100];
    Quotients(n);
    HighByte(x);
  }

  lemma Quotients(n: nat)
    ensures n / 0x100 / 0x100 == n / 0x1_0000 && n / 0x100 / 0x100 / 0x100 == n / 0x100_0000
  {
  }

  lemma HighByte(x: Bytes)
    requires Short(x)
    ensures |x| / 0x100_0000 % 0x100 == |x| / 0x100_0000
  {
  }

  /** A message of 2^32 bytes is written with length zero, and the reader takes
      its first byte for the memo's tag: it is lost without an error. */
  lemma LongMessageLost(utf8: Bytes -> bool)
    ensures var a := CreateArgs(0, 0, seq(0x1_0000_0000, _ => 0), None);
            DecodeArgs(utf8, EncodeArgs(a)) == Some(CreateArgs(0, 0, [], None)) != Some(a)
  {
    hide DecodeArgs;
    var a, short := CreateArgs(0, 0, seq(0x1_0000_0000, _ => 0), None), CreateArgs(0, 0, [], None);
    LowBytes(0x1_0000_0000);
    var prefix := LittleEndian(0, 4);
    assert EncodeArgs(short) == [0, 0] + (prefix + []) + [0];
    assert EncodeArgs(a) == [0, 0] + (prefix + a.transactionMessage) + [0];
    DecodesIff(utf8, EncodeArgs(a), short);
  }

  // ----- from instructions to bytes

  /** What the format asks of the instructions themselves. */
  predicate InstructionsFit(ixs: seq<Instruction>)
  {
    |ixs| <= 0xFF && forall i :: 0 <= i < |ixs| ==> |ixs[i].accounts| <= 0xFF && |ixs[i].data| <= 0xFFFF
  }

  /** A compiled message can be written exactly when the instructions fit: the
      tables and keys always do. */
  lemma CompiledFitsIff(ixs: seq<Instruction>, msg: TransactionMessage)
    requires SameShape(ixs, msg.instructions) && LookupsFit(msg.addressTableLookups) && |msg.accountKeys| <= 0xFF
    ensures Fits(msg) <==> InstructionsFit(ixs)
  {
    forall i | 0 <= i < |msg.addressTableLookups| ensures LookupFits(msg.addressTableLookups[i]) {
    }
    forall i | 0 <= i < |ixs|
      ensures InstructionFits(msg.instructions[i]) <==> |ixs[i].accounts| <= 0xFF && |ixs[i].data| <= 0xFFFF
    {
    }
  }

  lemma {:induction false} ItemsSize<T>(enc: T -> Option<Bytes>, items: seq<T>, bound: nat)
    requires EncodeItems(enc, items).Some?
    requires forall i :: 0 <= i < |items| && enc(items[i]).Some? ==> |enc(items[i]).value| <= bound
    ensures |EncodeItems(enc, items).value| <= |items| * bound
  {
    if items != [] {
      var n := |items| - 1;
      ItemsSize(enc, items[..n], bound);
      assert |items| * bound == n * bound + bound;
    }
  }

  lemma BytesSize(b: Bytes)
    ensures EncodeBytes8(b).Some? ==> |EncodeBytes8(b).value| <= 1 + |b|
    ensures EncodeBytes16(b).Some? ==> |EncodeBytes16(b).value| <= 2 + |b|
  {
    hide EncodeItems;
    ItemsEncode(EncodeByte, b);
    ItemsSize(EncodeByte, b, 1);
  }

  lemma InstructionSize(c: CompiledInstruction)
    requires InstructionFits(c) && EncodeInstruction(c).Some?
    ensures |EncodeInstruction(c).value| <= 0x1_0200
  {
    BytesSize(c.accountIndexes);
    BytesSize(c.data);
  }

  lemma LookupSize(l: TableLookup)
    requires LookupFits(l) && EncodeLookup(l).Some?
    ensures |EncodeLookup(l).value| <= 0x1_0200
  {
    BytesSize(l.writableIndexes);
    BytesSize(l.readonlyIndexes);
  }

  lemma VecSize<T>(enc: T -> Option<Bytes>, items: seq<T>)
    requires |items| <= 0xFF && EncodeVec(1, enc, items).Some?
    requires forall i :: 0 <= i < |items| && enc(items[i]).Some? ==> |enc(items[i]).value| <= 0x1_0200
    ensures |EncodeVec(1, enc, items).value| <= 1 + 0xFF * 0x1_0200
  {
    ItemsSize(enc, items, 0x1_0200);
  }

  /** A message that can be written is far shorter than 2^32 bytes. */
  lemma MessageIsShort(m: TransactionMessage)
    requires Fits(m) && EncodeMessage(m).Some?
    ensures Short(EncodeMessage(m).value)
  {
    hide EncodeVec, EncodeInstruction, EncodeLookup, InstructionFits, LookupFits;
    forall i | 0 <= i < |m.instructions| && EncodeInstruction(m.instructions[i]).Some?
      ensures |EncodeInstruction(m.instructions[i]).value| <= 0x1_0200
    {
      InstructionSize(m.instructions[i]);
    }
    forall i | 0 <= i < |m.addressTableLookups| && EncodeLookup(m.addressTableLookups[i]).Some?
      ensures |EncodeLookup(m.addressTableLookups[i]).value| <= 0x1_0200
    {
      LookupSize(m.addressTableLookups[i]);
    }
    VecSize(EncodeKey, m.accountKeys);
    VecSize(EncodeInstruction, m.instructions);
    VecSize(EncodeLookup, m.addressTableLookups);
  }

  /** The data decodes to this vault and memo, no ephemeral signers, and a message
      that executes as these instructions. */
  ghost predicate Carries(utf8: Bytes -> bool, chain: Chain, vault: Pubkey, vaultIndex: u8, memo: Option<Bytes>,
                          ixs: seq<Instruction>, data: Bytes)
  {
    var args := DecodeArgs(utf8, data);
    && args.Some? && args.value.vaultIndex == vaultIndex && args.value.ephemeralSigners == 0 && args.value.memo == memo
    && var message := DecodeMessage(args.value.transactionMessage);
    && message.Some? && message.value.1 == []
    && Executes(chain, vault, ixs, message.value.0)
  }

  lemma Carried(utf8: Bytes -> bool, chain: Chain, vault: Pubkey, ixs: seq<Instruction>, msg: TransactionMessage,
                args: CreateArgs)
    requires Executes(chain, vault, ixs, msg) && EncodeMessage(msg) == Some(args.transactionMessage)
    requires ArgsFit(args) && MemoIsText(utf8, args) && args.ephemeralSigners == 0
    ensures Carries(utf8, chain, vault, args.vaultIndex, args.memo, ixs, EncodeArgs(args))
  {
    hide Executes, EncodeMessage, DecodeMessage, EncodeArgs, DecodeArgs, Fits;
    assert EncodeArgs(args) + [] == EncodeArgs(args);
    ArgsRoundTripIff(utf8, args, []);
    assert args.transactionMessage + [] == args.transactionMessage;
    WireRoundTrip(msg, []);
  }

  /** The keys fit their indexes and the instructions their prefixes. */
  ghost predicate Expressible(vault: Pubkey, ixs: seq<Instruction>, tables: seq<LookupTable>)
  {
    && |Referenced(Some(vault), ixs)| <= 0x100 && |Static(vault, ixs, tables)| <= 0xFF
    && InstructionsFit(ixs)
  }

  /** The account inputs of the instruction. */
  datatype CreateAccounts = CreateAccounts(multisig: Pubkey, transaction: Pubkey, creator: Pubkey, rentPayer: Pubkey)

  /** `vault_transaction_create_ix`; `discriminator` is the fixed prefix of the
      instruction, `system` the system program. */
  function CreateInstruction(programId: Pubkey, accounts: CreateAccounts, system: Pubkey, discriminator: Bytes,
                             args: Bytes): (ix: Instruction)
    ensures |ix.data| >= |discriminator|
            && ix.data[..|discriminator|] == discriminator && ix.data[|discriminator|..] == args
    ensures ix.programId == programId && |ix.accounts| == 5
    ensures ix.accounts[0].pubkey == accounts.multisig && ix.accounts[1].pubkey == accounts.transaction
    ensures ix.accounts[2].pubkey == accounts.creator && ix.accounts[3].pubkey == accounts.rentPayer
    ensures ix.accounts[4].pubkey == system
    ensures forall i :: 0 <= i < 5 ==> (ix.accounts[i].isSigner <==> i == 2 || i == 3)
    ensures forall i :: 0 <= i < 5 ==> (ix.accounts[i].isWritable <==> i == 0 || i == 1 || i == 3)
  {
    Instruction(programId,
                [AccountMeta(accounts.multisig, false, true), AccountMeta(accounts.transaction, false, true),
                 AccountMeta(accounts.creator, true, false), AccountMeta(accounts.rentPayer, true, true),
                 AccountMeta(system, false, false)],
                discriminator + args)
  }

  /** `vault_transaction_create_from_instructions`: compile, serialize, wrap.  The
      instruction exists exactly when the inner ones are expressible, and on every
      chain that holds the tables its data, behind the discriminator, decodes to a
      message that executes as the inner instructions. */
  method CreateFromInstructions(utf8: Bytes -> bool, programId: Pubkey, accounts: CreateAccounts, system: Pubkey,
                                discriminator: Bytes, vault: Pubkey, vaultIndex: u8, ixs: seq<Instruction>,
                                tables: seq<LookupTable>, memo: Option<Bytes>) returns (r: Option<Instruction>)
    requires memo.Some? ==> utf8(memo.value)
    ensures r.Some? <==> Expressible(vault, ixs, tables)
    ensures r.Some? ==> |r.value.data| >= |discriminator|
                        && r.value == CreateInstruction(programId, accounts, system, discriminator,
                                                        r.value.data[|discriminator|..])
    ensures r.Some? && (memo.Some? ==> Short(memo.value)) ==>
              forall chain :: Published(chain, tables) ==>
                Carries(utf8, chain, vault, vaultIndex, memo, ixs, r.value.data[|discriminator|..])
  {
    hide Executes, Referenced, Static, Published, InstructionsFit, EncodeMessage, EncodeArgs, Fits, Carries, HeaderFits,
         LookupsFit, SameShape, StaticByKey;
    var message := TryCompile(vault, ixs, tables);
    if message.Err? {
      return None;
    }
    CompiledFitsIff(ixs, message.value);
    EncodesIffFits(message.value);
    var bytes := Serialize(message.value);
    if bytes.None? {
      return None;
    }
    MessageIsShort(message.value);
    var args := CreateArgs(vaultIndex, 0, bytes.value, memo);
    var data := TryToVec(args);
    if memo.Some? ==> Short(memo.value) {
      forall chain | Published(chain, tables) ensures Carries(utf8, chain, vault, vaultIndex, memo, ixs, data) {
        Carried(utf8, chain, vault, ixs, message.value, args);
      }
    }
    return Some(CreateInstruction(programId, accounts, system, discriminator, data));
  }
}
