/** The compiler from instructions and lookup tables to an indexed message, and
    the proof that executing the message means executing the instructions. */
module MessageCompiler {
  import opened Bytes
  import opened Sorting
  import opened Filtering
  import opened CompiledKeys

  datatype CompiledInstruction = CompiledInstruction(programIdIndex: u8, accountIndexes: seq<u8>, data: Bytes)

  datatype TransactionMessage = TransactionMessage(numSigners: u8, numWritableSigners: u8, numWritableNonSigners: u8,
                                                   accountKeys: seq<Pubkey>, instructions: seq<CompiledInstruction>,
                                                   addressTableLookups: seq<TableLookup>)

  // ----- what a message means to the program that executes it

  /** Lookup tables by address.  Tables only ever grow. */
  type Chain = map<Pubkey, seq<Pubkey>>

  predicate Published(chain: Chain, tables: seq<LookupTable>)
  {
    forall t :: t in tables ==> t.key in chain && t.addresses <= chain[t.key]
  }

  predicate InRange(chain: Chain, table: Pubkey, indexes: seq<u8>)
  {
    table in chain && forall i :: 0 <= i < |indexes| ==> indexes[i] < |chain[table]|
  }

  function Fetch(chain: Chain, table: Pubkey, indexes: seq<u8>): seq<Pubkey>
  {
    if InRange(chain, table, indexes)
    then seq(|indexes|, i requires 0 <= i < |indexes| && InRange(chain, table, indexes) => chain[table][indexes[i]])
    else []
  }

  function FetchWritable(chain: Chain): TableLookup -> seq<Pubkey>
  {
    (l: TableLookup) => Fetch(chain, l.accountKey, l.writableIndexes)
  }

  function FetchReadonly(chain: Chain): TableLookup -> seq<Pubkey>
  {
    (l: TableLookup) => Fetch(chain, l.accountKey, l.readonlyIndexes)
  }

  /** All keys a message can index: its own, then everything loaded to be
      written, then everything loaded to be read. */
  function ResolvedWritable(chain: Chain, msg: TransactionMessage): seq<Pubkey>
  {
    FlatMap(FetchWritable(chain), msg.addressTableLookups)
  }

  function Resolved(chain: Chain, msg: TransactionMessage): seq<Pubkey>
  {
    msg.accountKeys + ResolvedWritable(chain, msg) + FlatMap(FetchReadonly(chain), msg.addressTableLookups)
  }

  predicate SignerAt(msg: TransactionMessage, p: nat) { p < msg.numSigners }

  predicate WritableAt(chain: Chain, msg: TransactionMessage, p: nat)
  {
    || p < msg.numWritableSigners
    || msg.numSigners <= p < msg.numSigners + msg.numWritableNonSigners
    || |msg.accountKeys| <= p < |msg.accountKeys| + |ResolvedWritable(chain, msg)|
  }

  /** The compiled instruction, its indexes looked up in `keys`, is `ix`. */
  predicate Denotes(keys: seq<Pubkey>, c: CompiledInstruction, ix: Instruction)
  {
    && c.programIdIndex < |keys| && keys[c.programIdIndex] == ix.programId
    && |c.accountIndexes| == |ix.accounts|
    && (forall j :: 0 <= j < |ix.accounts| ==>
          c.accountIndexes[j] < |keys| && keys[c.accountIndexes[j]] == ix.accounts[j].pubkey)
    && c.data == ix.data
  }

  predicate DenoteAll(keys: seq<Pubkey>, cs: seq<CompiledInstruction>, ixs: seq<Instruction>)
  {
    |cs| == |ixs| && forall i :: 0 <= i < |ixs| ==> Denotes(keys, cs[i], ixs[i])
  }

  /** On this chain every lookup resolves, the keys are exactly the referenced
      ones without repeats and with exactly the privileges asked for, the vault
      comes first, and every instruction is the original one. */
  ghost predicate Executes(chain: Chain, vault: Pubkey, ixs: seq<Instruction>, msg: TransactionMessage)
  {
    var keys := Resolved(chain, msg);
    && (forall l :: l in msg.addressTableLookups ==>
          InRange(chain, l.accountKey, l.writableIndexes) && InRange(chain, l.accountKey, l.readonlyIndexes))
    && Distinct(keys) && Elements(keys) == Referenced(Some(vault), ixs)
    && msg.accountKeys != [] && msg.accountKeys[0] == vault
    && msg.numSigners <= |msg.accountKeys|
    && (forall p :: 0 <= p < |keys| ==> Privileged(chain, vault, ixs, msg, p, keys[p]))
    && DenoteAll(keys, msg.instructions, ixs)
  }

  ghost predicate Privileged(chain: Chain, vault: Pubkey, ixs: seq<Instruction>, msg: TransactionMessage, p: nat,
                             k: Pubkey)
  {
    && (SignerAt(msg, p) <==> Signs(Some(vault), ixs, k))
    && (WritableAt(chain, msg, p) <==> Writes(Some(vault), ixs, k))
  }

  /** Keys that cannot be left to a table: signers, and what no table holds. */
  ghost function Static(vault: Pubkey, ixs: seq<Instruction>, tables: seq<LookupTable>): set<Pubkey>
  {
    set k | k in Referenced(Some(vault), ixs)
            && (Signs(Some(vault), ixs, k) || forall t :: t in tables ==> !InTable(t, k))
  }

  /** They are the referenced keys that sign or are not among the first 256
      addresses of any table. */
  lemma StaticIs(vault: Pubkey, ixs: seq<Instruction>, tables: seq<LookupTable>, k: Pubkey)
    ensures k in Static(vault, ixs, tables)
            <==> k in Referenced(Some(vault), ixs)
                 && (Signs(Some(vault), ixs, k)
                     || forall t, i :: t in tables && 0 <= i < |t.addresses| && i <= 0xFF ==> t.addresses[i] != k)
  {
    hide InTable, Referenced, Signs;
    forall t | t in tables
      ensures InTable(t, k) <==> exists i :: 0 <= i < |t.addresses| && i <= 0xFF && t.addresses[i] == k
    {
      InTableIff(t, k);
    }
  }

  // ----- indexing the accounts

  /** `index` sends every key among the first `n` to one of its positions. */
  ghost predicate Inverts(keys: seq<Pubkey>, n: nat, index: map<Pubkey, u8>)
    requires n <= |keys|
  {
    && (forall j :: 0 <= j < n ==> keys[j] in index)
    && (forall k :: k in index ==> index[k] < n && keys[index[k]] == k)
  }

  predicate Known(keys: seq<Pubkey>, ix: Instruction)
  {
    ix.programId in keys && forall a :: a in ix.accounts ==> a.pubkey in keys
  }

  lemma KnownIff(keys: seq<Pubkey>, ixs: seq<Instruction>)
    ensures Referenced(None, ixs) <= Elements(keys) <==> forall ix :: ix in ixs ==> Known(keys, ix)
  {
    if Referenced(None, ixs) <= Elements(keys) {
      forall ix | ix in ixs ensures Known(keys, ix) {
        assert ix.programId in Referenced(None, ixs);
        forall a | a in ix.accounts ensures a.pubkey in keys {
          assert a.pubkey in Referenced(None, ixs);
        }
      }
    }
  }

  method CompileInstruction(keys: seq<Pubkey>, index: map<Pubkey, u8>, ix: Instruction)
    returns (c: Option<CompiledInstruction>)
    requires Inverts(keys, |keys|, index)
    ensures c.Some? <==> Known(keys, ix)
    ensures c.Some? ==> Denotes(keys, c.value, ix)
  {
    var accountIndexes: seq<u8> := [];
    for j := 0 to |ix.accounts|
      invariant |accountIndexes| == j
      invariant forall i :: 0 <= i < j ==> ix.accounts[i].pubkey in keys
      invariant forall i :: 0 <= i < j ==>
                  accountIndexes[i] < |keys| && keys[accountIndexes[i]] == ix.accounts[i].pubkey
    {
      if ix.accounts[j].pubkey !in index {
        return None;
      }
      accountIndexes := accountIndexes + [index[ix.accounts[j].pubkey]];
    }
    if ix.programId !in index {
      return None;
    }
    return Some(CompiledInstruction(index[ix.programId], accountIndexes, ix.data));
  }

  /** `AccountKeys::try_compile_instructions`. */
  method CompileInstructions(keys: seq<Pubkey>, ixs: seq<Instruction>) returns (r: Result<seq<CompiledInstruction>>)
    ensures r.Ok? <==> |keys| <= 0x100 && Referenced(None, ixs) <= Elements(keys)
    ensures r.Ok? ==> DenoteAll(keys, r.value, ixs)
    ensures r.Err? ==> r.error == InstructionCompileFailure
  {
    hide Known, Referenced, Denotes;
    var index: map<Pubkey, u8> := map[];
    for i := 0 to |keys|
      invariant i <= 0x100
      invariant Inverts(keys, i, index)
    {
      if i > 0xFF {
        return Err(InstructionCompileFailure);
      }
      index := index[keys[i] := i];
    }
    KnownIff(keys, ixs);
    var compiled: seq<CompiledInstruction> := [];
    for i := 0 to |ixs|
      invariant DenoteAll(keys, compiled, ixs[..i])
      invariant forall ix :: ix in ixs[..i] ==> Known(keys, ix)
    {
      assert ixs[..i + 1] == ixs[..i] + [ixs[i]];
      var c := CompileInstruction(keys, index, ixs[i]);
      if c.None? {
        assert ixs[i] in ixs;
        return Err(InstructionCompileFailure);
      }
      compiled := compiled + [c.value];
    }
    assert ixs[..|ixs|] == ixs;
    return Ok(compiled);
  }

  // ----- the keys left to the tables

  function WritableOf(l: Loaded): seq<Pubkey> { l.writable }

  function ReadonlyOf(l: Loaded): seq<Pubkey> { l.readonly }

  /** `keys` lists, once each, what the tables take of one kind. */
  ghost predicate ListsHoisted(m: KeyMap, tables: seq<LookupTable>, writable: bool, keys: seq<Pubkey>)
  {
    && Distinct(keys)
    && forall k :: k in keys <==> k in m && Hoisted(m[k], tables, k) && m[k].isWritable == writable
  }

  ghost predicate Looks(tables: seq<LookupTable>, lookups: seq<TableLookup>, loaded: seq<Loaded>)
  {
    |lookups| == |loaded| && forall i :: 0 <= i < |lookups| ==> LooksInto(tables, lookups[i], loaded[i])
  }

  ghost predicate LooksInto(tables: seq<LookupTable>, lookup: TableLookup, loaded: Loaded)
  {
    exists t :: t in tables && Indexes(t, lookup, loaded)
  }

  ghost predicate Hoists(m: KeyMap, tables: seq<LookupTable>, lookups: seq<TableLookup>, loaded: seq<Loaded>)
  {
    && Looks(tables, lookups, loaded)
    && ListsHoisted(m, tables, true, FlatMap(WritableOf, loaded))
    && ListsHoisted(m, tables, false, FlatMap(ReadonlyOf, loaded))
  }

  lemma HoistedMore(meta: KeyMeta, tables: seq<LookupTable>, t: LookupTable, k: Pubkey)
    ensures Hoisted(meta, tables + [t], k) <==> Hoisted(meta, tables, k) || (Loadable(meta) && InTable(t, k))
  {
    var all := tables + [t];
    assert forall x :: x in all <==> x in tables || x == t;
  }

  lemma RemainingMore(m: KeyMap, tables: seq<LookupTable>, t: LookupTable)
    ensures Remaining(Remaining(m, tables), [t]) == Remaining(m, tables + [t])
  {
    hide Hoisted, InTable;
    forall k | k in m
      ensures Hoisted(m[k], tables + [t], k) <==> Hoisted(m[k], tables, k) || Hoisted(m[k], [t], k)
    {
      HoistedMore(m[k], tables, t, k);
      HoistedMore(m[k], [], t, k);
      assert [] + [t] == [t];
      NoTables(m[k], k);
    }
  }

  lemma NoTables(meta: KeyMeta, k: Pubkey)
    ensures !Hoisted(meta, [], k)
  {
  }

  lemma ListsMore(m: KeyMap, tables: seq<LookupTable>, t: LookupTable, writable: bool, keys: seq<Pubkey>,
                  more: seq<Pubkey>)
    requires ListsHoisted(m, tables, writable, keys)
    requires Drains(Remaining(m, tables), t, if writable then LoadableWritable else LoadableReadonly, more)
    ensures ListsHoisted(m, tables + [t], writable, keys + more)
  {
    hide Hoisted, InTable, Distinct, Ascending;
    DistinctJoin(keys, more);
    forall k ensures k in keys + more <==> k in m && Hoisted(m[k], tables + [t], k) && m[k].isWritable == writable {
      if k in m {
        HoistedMore(m[k], tables, t, k);
      }
    }
  }

  lemma LooksMore(tables: seq<LookupTable>, t: LookupTable, lookups: seq<TableLookup>, loaded: seq<Loaded>)
    requires Looks(tables, lookups, loaded)
    ensures Looks(tables + [t], lookups, loaded)
    ensures forall lookup, l :: Indexes(t, lookup, l) ==> Looks(tables + [t], lookups + [lookup], loaded + [l])
  {
    hide Indexes;
    var all := tables + [t];
    assert forall x :: x in tables ==> x in all;
    assert t in all;
    forall i | 0 <= i < |lookups| ensures LooksInto(all, lookups[i], loaded[i]) {
      assert LooksInto(tables, lookups[i], loaded[i]);
    }
  }

  lemma HoistsNothing(m: KeyMap, tables: seq<LookupTable>)
    ensures Hoists(m, tables[..0], [], []) && Remaining(m, tables[..0]) == m
  {
  }

  lemma HoistsMore(m: KeyMap, tables: seq<LookupTable>, t: LookupTable, lookups: seq<TableLookup>, loaded: seq<Loaded>,
                   r: Option<(TableLookup, Loaded)>)
    requires Hoists(m, tables, lookups, loaded)
    requires Extracts(Remaining(m, tables), t, Extracted(r)) && (r.Some? ==> Indexes(t, r.value.0, r.value.1))
    ensures r.None? ==> Hoists(m, tables + [t], lookups, loaded)
    ensures r.Some? ==> Hoists(m, tables + [t], lookups + [r.value.0], loaded + [r.value.1])
  {
    hide Remaining, ListsHoisted, Looks, Indexes, Drains;
    LooksMore(tables, t, lookups, loaded);
    var l := Extracted(r);
    var w, o := FlatMap(WritableOf, loaded), FlatMap(ReadonlyOf, loaded);
    ListsMore(m, tables, t, true, w, l.writable);
    ListsMore(m, tables, t, false, o, l.readonly);
    assert w + [] == w && o + [] == o;
  }

  // ----- putting it together

  /** Every way a compiled message hangs together before any chain is consulted. */
  ghost predicate Assembled(vault: Pubkey, ixs: seq<Instruction>, tables: seq<LookupTable>, header: Header,
                            fixed: seq<Pubkey>, lookups: seq<TableLookup>, loaded: seq<Loaded>,
                            compiled: seq<CompiledInstruction>)
  {
    var m := Merged(Some(vault), ixs);
    && Arranged(Some(vault), Remaining(m, tables), header, fixed)
    && Hoists(m, tables, lookups, loaded)
    && DenoteAll(fixed + FlatMap(WritableOf, loaded) + FlatMap(ReadonlyOf, loaded), compiled, ixs)
  }

  lemma FetchedKeys(chain: Chain, t: LookupTable, indexes: seq<u8>, keys: seq<Pubkey>)
    requires t.key in chain && t.addresses <= chain[t.key] && PointsAt(t, indexes, keys)
    ensures InRange(chain, t.key, indexes) && Fetch(chain, t.key, indexes) == keys
  {
  }

  lemma LookupResolves(chain: Chain, tables: seq<LookupTable>, lookup: TableLookup, loaded: Loaded)
    requires Published(chain, tables) && LooksInto(tables, lookup, loaded)
    ensures InRange(chain, lookup.accountKey, lookup.writableIndexes)
    ensures InRange(chain, lookup.accountKey, lookup.readonlyIndexes)
    ensures FetchWritable(chain)(lookup) == loaded.writable && FetchReadonly(chain)(lookup) == loaded.readonly
  {
    hide PointsAt, Fetch, InRange;
    var t :| t in tables && Indexes(t, lookup, loaded);
    FetchedKeys(chain, t, lookup.writableIndexes, loaded.writable);
    FetchedKeys(chain, t, lookup.readonlyIndexes, loaded.readonly);
  }

  /** Each lookup fetches, on any chain that has the tables, what was drained for it. */
  lemma {:induction false} LookupsResolve(chain: Chain, tables: seq<LookupTable>, lookups: seq<TableLookup>,
                                          loaded: seq<Loaded>)
    requires Published(chain, tables) && Looks(tables, lookups, loaded)
    ensures forall l :: l in lookups ==>
              InRange(chain, l.accountKey, l.writableIndexes) && InRange(chain, l.accountKey, l.readonlyIndexes)
    ensures FlatMap(FetchWritable(chain), lookups) == FlatMap(WritableOf, loaded)
    ensures FlatMap(FetchReadonly(chain), lookups) == FlatMap(ReadonlyOf, loaded)
  {
    hide LooksInto, InRange, Published, FetchWritable, FetchReadonly;
    if lookups != [] {
      var n := |lookups| - 1;
      LookupsResolve(chain, tables, lookups[..n], loaded[..n]);
      LookupResolves(chain, tables, lookups[n], loaded[n]);
      assert lookups == lookups[..n] + [lookups[n]];
      assert WritableOf(loaded[n]) == loaded[n].writable && ReadonlyOf(loaded[n]) == loaded[n].readonly;
    }
  }

  /** Static and loaded keys partition the referenced ones. */
  lemma KeysPartition(vault: Pubkey, ixs: seq<Instruction>, tables: seq<LookupTable>, header: Header,
                      fixed: seq<Pubkey>, w: seq<Pubkey>, o: seq<Pubkey>)
    requires Arranged(Some(vault), Remaining(Merged(Some(vault), ixs), tables), header, fixed)
    requires ListsHoisted(Merged(Some(vault), ixs), tables, true, w)
    requires ListsHoisted(Merged(Some(vault), ixs), tables, false, o)
    ensures Distinct(fixed + w + o) && Elements(fixed + w + o) == Referenced(Some(vault), ixs)
    ensures Elements(fixed) == Static(vault, ixs, tables)
    ensures |fixed + w + o| == |Referenced(Some(vault), ixs)| && |fixed| == |Static(vault, ixs, tables)|
  {
    hide Distinct, Static, Referenced, Merged, Hoisted, Remaining, Arranged;
    var m := Merged(Some(vault), ixs);
    StaticKeys(vault, ixs, tables, header, fixed);
    assert forall k :: k in fixed <==> k in Elements(fixed);
    DistinctJoin(fixed, w);
    DistinctJoin(fixed + w, o);
    DistinctCount(fixed);
    DistinctCount(fixed + w + o);
  }

  lemma StaticKeys(vault: Pubkey, ixs: seq<Instruction>, tables: seq<LookupTable>, header: Header, fixed: seq<Pubkey>)
    requires Arranged(Some(vault), Remaining(Merged(Some(vault), ixs), tables), header, fixed)
    ensures var m := Merged(Some(vault), ixs);
            && m.Keys == Referenced(Some(vault), ixs)
            && (forall k :: k in Elements(fixed) <==> k in m && !Hoisted(m[k], tables, k))
    ensures Distinct(fixed) && Elements(fixed) == Static(vault, ixs, tables)
  {
    hide Distinct, Signs, Writes, InTable, Referenced;
    VaultSigns(vault, ixs);
  }

  lemma VaultSigns(vault: Pubkey, ixs: seq<Instruction>)
    ensures vault in Referenced(Some(vault), ixs) && Signs(Some(vault), ixs, vault) && Writes(Some(vault), ixs, vault)
  {
  }

  function MessageOf(header: Header, fixed: seq<Pubkey>, lookups: seq<TableLookup>,
                     compiled: seq<CompiledInstruction>): TransactionMessage
    requires |fixed| <= 0xFF
  {
    TransactionMessage(header.requiredSignatures,
                       SaturatingSub(header.requiredSignatures, header.readonlySigned),
                       SaturatingSub(SaturatingSub(|fixed|, header.requiredSignatures), header.readonlyUnsigned),
                       fixed, compiled, lookups)
  }

  function SaturatingSub(a: u8, b: u8): u8 { if a >= b then a - b else 0 }

  lemma AssembledExecutes(chain: Chain, vault: Pubkey, ixs: seq<Instruction>, tables: seq<LookupTable>, header: Header,
                          fixed: seq<Pubkey>, lookups: seq<TableLookup>, loaded: seq<Loaded>,
                          compiled: seq<CompiledInstruction>)
    requires Assembled(vault, ixs, tables, header, fixed, lookups, loaded, compiled) && |fixed| <= 0xFF
    requires Published(chain, tables)
    ensures Executes(chain, vault, ixs, MessageOf(header, fixed, lookups, compiled))
  {
    hide Distinct, Signs, Writes, InTable, Referenced, Looks, DenoteAll, InRange, Published, FetchWritable,
         FetchReadonly, FlatMap, Merged, Remaining, Arranged, ListsHoisted, Privileged;
    var msg := MessageOf(header, fixed, lookups, compiled);
    var w, o := FlatMap(WritableOf, loaded), FlatMap(ReadonlyOf, loaded);
    LookupsResolve(chain, tables, lookups, loaded);
    KeysPartition(vault, ixs, tables, header, fixed, w, o);
    assert Resolved(chain, msg) == fixed + w + o;
    VaultFirst(vault, Remaining(Merged(Some(vault), ixs), tables), header, fixed);
    forall p | 0 <= p < |fixed + w + o| ensures Privileged(chain, vault, ixs, msg, p, (fixed + w + o)[p]) {
      if p < |fixed| {
        StaticPrivileged(chain, vault, ixs, tables, header, fixed, msg, p);
      } else {
        LoadedPrivileged(chain, vault, ixs, tables, header, fixed, w, o, msg, p);
      }
    }
  }

  lemma VaultFirst(vault: Pubkey, m: KeyMap, header: Header, fixed: seq<Pubkey>)
    requires Arranged(Some(vault), m, header, fixed)
    ensures fixed != [] && fixed[0] == vault && header.requiredSignatures <= |fixed|
  {
  }

  lemma StaticPrivileged(chain: Chain, vault: Pubkey, ixs: seq<Instruction>, tables: seq<LookupTable>, header: Header,
                         fixed: seq<Pubkey>, msg: TransactionMessage, p: nat)
    requires |fixed| <= 0xFF && p < |fixed|
    requires Arranged(Some(vault), Remaining(Merged(Some(vault), ixs), tables), header, fixed)
    requires msg == MessageOf(header, fixed, msg.addressTableLookups, msg.instructions)
    ensures Privileged(chain, vault, ixs, msg, p, fixed[p])
  {
    hide Distinct, Signs, Writes, InTable, Referenced, ResolvedWritable, Hoisted;
    var m := Merged(Some(vault), ixs);
    assert fixed[p] in Elements(fixed);
    VaultSigns(vault, ixs);
  }

  lemma LoadedPrivileged(chain: Chain, vault: Pubkey, ixs: seq<Instruction>, tables: seq<LookupTable>, header: Header,
                         fixed: seq<Pubkey>, w: seq<Pubkey>, o: seq<Pubkey>, msg: TransactionMessage, p: nat)
    requires |fixed| <= 0xFF && |fixed| <= p < |fixed + w + o|
    requires Arranged(Some(vault), Remaining(Merged(Some(vault), ixs), tables), header, fixed)
    requires ListsHoisted(Merged(Some(vault), ixs), tables, true, w)
    requires ListsHoisted(Merged(Some(vault), ixs), tables, false, o)
    requires msg == MessageOf(header, fixed, msg.addressTableLookups, msg.instructions)
    requires ResolvedWritable(chain, msg) == w
    ensures Privileged(chain, vault, ixs, msg, p, (fixed + w + o)[p])
  {
    hide Distinct, Signs, Writes, InTable, Referenced, ResolvedWritable, Remaining;
    var k := (fixed + w + o)[p];
    assert if p < |fixed| + |w| then k in w else k in o;
  }

  /** `try_compile`.  It succeeds exactly when the referenced keys number at most
      256 and those that must stay in the message at most 255; and then, on every
      chain that holds the given tables, the message executes as the instructions. */
  method TryCompile(vault: Pubkey, ixs: seq<Instruction>, tables: seq<LookupTable>)
    returns (r: Result<TransactionMessage>)
    ensures r.Ok? <==> |Referenced(Some(vault), ixs)| <= 0x100 && |Static(vault, ixs, tables)| <= 0xFF
    ensures r == Err(InstructionCompileFailure)
            <==> HeaderFits(vault, ixs, tables) && |Referenced(Some(vault), ixs)| > 0x100
    ensures r.Ok? ==> forall chain :: Published(chain, tables) ==> Executes(chain, vault, ixs, r.value)
    ensures r.Ok? ==> Elements(r.value.accountKeys) == Static(vault, ixs, tables)
    ensures r.Ok? ==> |r.value.accountKeys| <= 0xFF && LookupsFit(r.value.addressTableLookups)
    ensures r.Ok? ==> SameShape(ixs, r.value.instructions)
    ensures r.Ok? ==> StaticByKey(vault, r.value)
  {
    hide Merged, Remaining, Arranged, ByKey, StaticByKey, Hoists, Executes, DenoteAll, Referenced, Static, Published,
         Extracts, FlatMap, SignerKeys, ReadonlyKeys, ListsHoisted;
    var compiledKeys := new CompiledKeys.Compile(ixs, Some(vault));
    var lookups: seq<TableLookup>, loaded: seq<Loaded> := [], [];
    ghost var m := compiledKeys.keyMetaMap;
    HoistsNothing(m, tables);
    for i := 0 to |tables|
      invariant compiledKeys.payer == Some(vault)
      invariant compiledKeys.keyMetaMap == Remaining(m, tables[..i])
      invariant Hoists(m, tables[..i], lookups, loaded)
      invariant NoIdleLookup(lookups)
    {
      var e := compiledKeys.ExtractTableLookup(tables[i]);
      HoistsMore(m, tables[..i], tables[i], lookups, loaded, e);
      RemainingMore(m, tables[..i], tables[i]);
      assert tables[..i + 1] == tables[..i] + [tables[i]];
      if e.Some? {
        lookups, loaded := lookups + [e.value.0], loaded + [e.value.1];
      }
    }
    assert tables[..|tables|] == tables;
    var components := compiledKeys.IntoMessageComponents();
    if components.Err? {
      HeaderTooSmall(vault, ixs, tables);
      return Err(components.error);
    }
    var (header, fixed) := components.value;
    var keys := fixed + FlatMap(WritableOf, loaded) + FlatMap(ReadonlyOf, loaded);
    HoistsLists(m, tables, lookups, loaded);
    KeysPartition(vault, ixs, tables, header, fixed, FlatMap(WritableOf, loaded), FlatMap(ReadonlyOf, loaded));
    WithoutPayer(vault, ixs);
    var compiled := CompileInstructions(keys, ixs);
    if compiled.Err? {
      return Err(compiled.error);
    }
    if |fixed| > 0xFF {
      return Err(AccountIndexOverflow);
    }
    ShapeOf(keys, compiled.value, ixs);
    MessageByKey(vault, Remaining(m, tables), header, fixed, lookups, compiled.value);
    VaultFirst(vault, Remaining(m, tables), header, fixed);
    LookupsBounded(m, tables, lookups, loaded);
    forall chain | Published(chain, tables)
      ensures Executes(chain, vault, ixs, MessageOf(header, fixed, lookups, compiled.value))
    {
      AssembledExecutes(chain, vault, ixs, tables, header, fixed, lookups, loaded, compiled.value);
    }
    return Ok(MessageOf(header, fixed, lookups, compiled.value));
  }

  predicate StaticWritableAt(msg: TransactionMessage, p: nat)
  {
    p < msg.numWritableSigners || msg.numSigners <= p < msg.numSigners + msg.numWritableNonSigners
  }

  /** Static keys of the same privileges stand in numeric order, the vault aside. */
  ghost predicate StaticByKey(vault: Pubkey, msg: TransactionMessage)
  {
    forall i, j :: 0 <= i < j < |msg.accountKeys| && msg.accountKeys[i] != vault
                   && (SignerAt(msg, i) <==> SignerAt(msg, j))
                   && (StaticWritableAt(msg, i) <==> StaticWritableAt(msg, j))
                   ==> BigEndian(msg.accountKeys[i]) <= BigEndian(msg.accountKeys[j])
  }

  lemma MessageByKey(vault: Pubkey, m: KeyMap, header: Header, fixed: seq<Pubkey>, lookups: seq<TableLookup>,
                     compiled: seq<CompiledInstruction>)
    requires |fixed| <= 0xFF && Arranged(Some(vault), m, header, fixed) && ByKey(Some(vault), header, fixed)
    ensures StaticByKey(vault, MessageOf(header, fixed, lookups, compiled))
  {
    hide Leq, BigEndian, MetaOf, KeysWith, Distinct;
    var msg := MessageOf(header, fixed, lookups, compiled);
    forall i, j | 0 <= i < j < |fixed| ensures Leq(fixed[i], fixed[j]) <==> BigEndian(fixed[i]) <= BigEndian(fixed[j]) {
      LeqIsNumeric(fixed[i], fixed[j]);
    }
    forall p | 0 <= p < |fixed|
      ensures StaticWritableAt(msg, p) <==> WritableByHeader(header, |fixed|, p)
      ensures SignerAt(msg, p) <==> SignerByHeader(header, p)
    {
    }
  }

  /** Every emitted lookup loads something. */
  predicate NoIdleLookup(lookups: seq<TableLookup>)
  {
    forall i :: 0 <= i < |lookups| ==> |lookups[i].writableIndexes| + |lookups[i].readonlyIndexes| > 0
  }

  /** The lookups and their indexes can be counted by a byte. */
  predicate LookupsFit(lookups: seq<TableLookup>)
  {
    |lookups| <= 0xFF
    && forall i :: 0 <= i < |lookups| ==> |lookups[i].writableIndexes| <= 0xFF && |lookups[i].readonlyIndexes| <= 0xFF
  }

  predicate SameShape(ixs: seq<Instruction>, cs: seq<CompiledInstruction>)
  {
    |cs| == |ixs|
    && forall i :: 0 <= i < |ixs| ==> |cs[i].accountIndexes| == |ixs[i].accounts| && cs[i].data == ixs[i].data
  }

  lemma ShapeOf(keys: seq<Pubkey>, cs: seq<CompiledInstruction>, ixs: seq<Instruction>)
    requires DenoteAll(keys, cs, ixs)
    ensures SameShape(ixs, cs)
  {
    forall i | 0 <= i < |ixs| ensures |cs[i].accountIndexes| == |ixs[i].accounts| && cs[i].data == ixs[i].data {
      assert Denotes(keys, cs[i], ixs[i]);
    }
  }

  /** Each lookup loads some key of its own. */
  lemma LookupsBounded(m: KeyMap, tables: seq<LookupTable>, lookups: seq<TableLookup>, loaded: seq<Loaded>)
    requires Hoists(m, tables, lookups, loaded) && NoIdleLookup(lookups)
    ensures |FlatMap(WritableOf, loaded)| + |FlatMap(ReadonlyOf, loaded)| <= 0xFF ==> LookupsFit(lookups)
  {
    hide ListsHoisted;
    LoadedCounts(tables, lookups, loaded);
  }

  lemma {:induction false} LoadedCounts(tables: seq<LookupTable>, lookups: seq<TableLookup>, loaded: seq<Loaded>)
    requires Looks(tables, lookups, loaded) && NoIdleLookup(lookups)
    ensures |lookups| <= |FlatMap(WritableOf, loaded)| + |FlatMap(ReadonlyOf, loaded)|
    ensures forall i :: 0 <= i < |lookups| ==>
              && |lookups[i].writableIndexes| <= |FlatMap(WritableOf, loaded)|
              && |lookups[i].readonlyIndexes| <= |FlatMap(ReadonlyOf, loaded)|
  {
    if lookups != [] {
      var n := |lookups| - 1;
      LoadedCounts(tables, lookups[..n], loaded[..n]);
      assert LooksInto(tables, lookups[n], loaded[n]);
      forall i | 0 <= i < n
        ensures |lookups[i].writableIndexes| <= |FlatMap(WritableOf, loaded[..n])|
        ensures |lookups[i].readonlyIndexes| <= |FlatMap(ReadonlyOf, loaded[..n])|
      {
        assert lookups[..n][i] == lookups[i];
      }
    }
  }

  lemma HoistsLists(m: KeyMap, tables: seq<LookupTable>, lookups: seq<TableLookup>, loaded: seq<Loaded>)
    requires Hoists(m, tables, lookups, loaded)
    ensures ListsHoisted(m, tables, true, FlatMap(WritableOf, loaded))
    ensures ListsHoisted(m, tables, false, FlatMap(ReadonlyOf, loaded))
  {
  }

  lemma WithoutPayer(vault: Pubkey, ixs: seq<Instruction>)
    ensures Referenced(None, ixs) <= Referenced(Some(vault), ixs)
  {
  }

  /** The counts of the header each fit a byte. */
  ghost predicate HeaderFits(vault: Pubkey, ixs: seq<Instruction>, tables: seq<LookupTable>)
  {
    var rest := Remaining(Merged(Some(vault), ixs), tables);
    |SignerKeys(Some(vault), rest)| <= 0xFF && |ReadonlyKeys(Some(vault), rest)| <= 0xFF
  }

  /** Too many signers or readonly keys are too many static keys. */
  lemma HeaderTooSmall(vault: Pubkey, ixs: seq<Instruction>, tables: seq<LookupTable>)
    ensures var rest := Remaining(Merged(Some(vault), ixs), tables);
            |SignerKeys(Some(vault), rest)| <= |Static(vault, ixs, tables)|
            && |ReadonlyKeys(Some(vault), rest)| <= |Static(vault, ixs, tables)|
  {
    hide Signs, Writes, InTable, Referenced;
    var rest := Remaining(Merged(Some(vault), ixs), tables);
    VaultSigns(vault, ixs);
    assert KeysWith(Some(vault), rest) == Static(vault, ixs, tables);
    SubsetSize(SignerKeys(Some(vault), rest), Static(vault, ixs, tables));
    SubsetSize(ReadonlyKeys(Some(vault), rest), Static(vault, ixs, tables));
  }
}
