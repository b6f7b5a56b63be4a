/** The keys of a vault transaction: who signs, what is written, and which keys
    move out of the message into address lookup tables. */
module CompiledKeys {
  import opened Bytes
  import opened Sorting
  import opened Filtering

  type Pubkey = Bytes32

  datatype AccountMeta = AccountMeta(pubkey: Pubkey, isSigner: bool, isWritable: bool)

  datatype Instruction = Instruction(programId: Pubkey, accounts: seq<AccountMeta>, data: Bytes)

  datatype LookupTable = LookupTable(key: Pubkey, addresses: seq<Pubkey>)

  datatype KeyMeta = KeyMeta(isSigner: bool, isWritable: bool, isInvoked: bool)

  const DEFAULT: KeyMeta := KeyMeta(false, false, false)

  type KeyMap = map<Pubkey, KeyMeta>

  datatype TableLookup = TableLookup(accountKey: Pubkey, writableIndexes: seq<u8>, readonlyIndexes: seq<u8>)

  datatype Loaded = Loaded(writable: seq<Pubkey>, readonly: seq<Pubkey>)

  datatype Header = Header(requiredSignatures: u8, readonlySigned: u8, readonlyUnsigned: u8)

  // ----- what the instructions ask for

  ghost function Referenced(payer: Option<Pubkey>, ixs: seq<Instruction>): set<Pubkey>
  {
    (set ix | ix in ixs :: ix.programId)
    + (set ix, a | ix in ixs && a in ix.accounts :: a.pubkey)
    + if payer.Some? then {payer.value} else {}
  }

  predicate AsksSigner(ix: Instruction, k: Pubkey) { exists a :: a in ix.accounts && a.pubkey == k && a.isSigner }

  predicate AsksWritable(ix: Instruction, k: Pubkey) { exists a :: a in ix.accounts && a.pubkey == k && a.isWritable }

  predicate Signs(payer: Option<Pubkey>, ixs: seq<Instruction>, k: Pubkey)
  {
    payer == Some(k) || exists ix :: ix in ixs && AsksSigner(ix, k)
  }

  predicate Writes(payer: Option<Pubkey>, ixs: seq<Instruction>, k: Pubkey)
  {
    payer == Some(k) || exists ix :: ix in ixs && AsksWritable(ix, k)
  }

  /** Every referenced key with the union of what is asked of it. */
  ghost function Merged(payer: Option<Pubkey>, ixs: seq<Instruction>): KeyMap
  {
    map k | k in Referenced(payer, ixs) :: KeyMeta(Signs(payer, ixs, k), Writes(payer, ixs, k), false)
  }

  function Entry(m: KeyMap, k: Pubkey): KeyMeta { if k in m then m[k] else DEFAULT }

  function Touch(m: KeyMap, a: AccountMeta): KeyMap
  {
    var meta := Entry(m, a.pubkey);
    m[a.pubkey := meta.(isSigner := meta.isSigner || a.isSigner, isWritable := meta.isWritable || a.isWritable)]
  }

  /** What a list asks is what its front asks or what its last instruction asks. */
  lemma SplitLast(init: seq<Instruction>, ix: Instruction)
    ensures forall k :: Signs(None, init + [ix], k) <==> Signs(None, init, k) || AsksSigner(ix, k)
    ensures forall k :: Writes(None, init + [ix], k) <==> Writes(None, init, k) || AsksWritable(ix, k)
    ensures Referenced(None, init + [ix])
            == Referenced(None, init) + {ix.programId} + set a | a in ix.accounts :: a.pubkey
  {
    var all := init + [ix];
    assert forall x :: x in all <==> x in init || x == ix;
  }

  lemma SplitAccount(ix: Instruction, a: AccountMeta)
    ensures var more := ix.(accounts := ix.accounts + [a]);
            forall k :: (AsksSigner(more, k) <==> AsksSigner(ix, k) || (k == a.pubkey && a.isSigner))
                        && (AsksWritable(more, k) <==> AsksWritable(ix, k) || (k == a.pubkey && a.isWritable))
    ensures (set b | b in ix.accounts + [a] :: b.pubkey) == (set b | b in ix.accounts :: b.pubkey) + {a.pubkey}
  {
    var accounts := ix.accounts + [a];
    assert forall b :: b in accounts <==> b in ix.accounts || b == a;
  }

  lemma MergedProgram(init: seq<Instruction>, ix: Instruction)
    requires ix.accounts == []
    ensures Merged(None, init + [ix]) == Merged(None, init)[ix.programId := Entry(Merged(None, init), ix.programId)]
  {
    hide Signs, Writes, Referenced;
    SplitLast(init, ix);
    UnreferencedAsksNothing(init);
  }

  lemma MergedAccount(init: seq<Instruction>, ix: Instruction, a: AccountMeta)
    ensures Merged(None, init + [ix.(accounts := ix.accounts + [a])]) == Touch(Merged(None, init + [ix]), a)
  {
    hide Signs, Writes, AsksSigner, AsksWritable, Referenced;
    SplitLast(init, ix);
    SplitLast(init, ix.(accounts := ix.accounts + [a]));
    SplitAccount(ix, a);
    UnreferencedAsksNothing(init + [ix]);
  }

  lemma UnreferencedAsksNothing(ixs: seq<Instruction>)
    ensures forall k :: k !in Referenced(None, ixs) ==> !Signs(None, ixs, k) && !Writes(None, ixs, k)
  {
  }

  lemma MergedNothing(ixs: seq<Instruction>)
    ensures Merged(None, ixs[..0]) == map[]
  {
  }

  lemma MergedPayer(ixs: seq<Instruction>, p: Pubkey)
    ensures Merged(Some(p), ixs) == Touch(Merged(None, ixs), AccountMeta(p, true, true))
  {
    assert Referenced(Some(p), ixs) == Referenced(None, ixs) + {p};
  }

  // ----- moving keys into a lookup table

  /** Index of the first occurrence, or the length. */
  function Position(s: seq<Pubkey>, k: Pubkey): (i: nat)
    ensures i <= |s| && k !in s[..i] && (i < |s| ==> s[i] == k)
  {
    FirstIndex((x: Pubkey) => x == k, s)
  }

  /** The table holds `k` first at a position that fits a byte. */
  predicate InTable(t: LookupTable, k: Pubkey)
  {
    Position(t.addresses, k) < |t.addresses| && Position(t.addresses, k) < 0x100
  }

  /** A table can serve a key exactly when one of its first 256 addresses is that key. */
  lemma InTableIff(t: LookupTable, k: Pubkey)
    ensures InTable(t, k) <==> exists i :: 0 <= i < |t.addresses| && i <= 0xFF && t.addresses[i] == k
  {
    hide FirstIndex;
    var before := t.addresses[..Position(t.addresses, k)];
    assert forall i :: 0 <= i < |before| ==> before[i] != k;
  }

  predicate Loadable(meta: KeyMeta) { !meta.isSigner && !meta.isInvoked }

  /** Indexes into the table, one for each key, that all point at their key. */
  predicate PointsAt(t: LookupTable, indexes: seq<u8>, keys: seq<Pubkey>)
  {
    |indexes| == |keys|
    && forall j :: 0 <= j < |keys| ==> indexes[j] < |t.addresses| && t.addresses[indexes[j]] == keys[j]
  }

  /** `keys` enumerates, in order and once each, the entries of `m` that pass the
      filter and are in the table. */
  ghost predicate Drains(m: KeyMap, t: LookupTable, filter: KeyMeta -> bool, keys: seq<Pubkey>)
  {
    && Distinct(keys)
    && Ascending(Identity, keys)
    && forall k :: k in keys <==> k in m && filter(m[k]) && InTable(t, k)
  }

  lemma DrainStep(m: KeyMap, t: LookupTable, filter: KeyMeta -> bool, order: seq<Pubkey>, i: nat, keys: seq<Pubkey>)
    requires order == SortedSet(m.Keys) && i < |order|
    requires DrainsUpTo(m, t, filter, order, i, keys)
    ensures order[i] in m
    ensures DrainsUpTo(m, t, filter, order, i + 1,
                       if filter(m[order[i]]) && InTable(t, order[i]) then keys + [order[i]] else keys)
  {
    hide InTable, SortedSet, Leq, Ascending, Distinct;
    SortedSetEnumerates(m.Keys);
    var k := order[i];
    assert order[..i + 1] == order[..i] + [k];
    AfterAllOthers(order, i);
    DistinctAppend(keys, k);
    AscendingAppend(keys, k);
  }

  /** In an enumeration the next key is new, and above all before it. */
  lemma AfterAllOthers(order: seq<Pubkey>, i: nat)
    requires i < |order| && Ascending(Identity, order) && DistinctKeys(Identity, order)
    ensures forall x :: x in order[..i] ==> x != order[i] && Leq(x, order[i])
  {
    hide Leq;
    forall x | x in order[..i] ensures x != order[i] && Leq(x, order[i]) {
      var l :| 0 <= l < i && order[l] == x;
      assert Identity(order[l]) != Identity(order[i]) && Leq(Identity(order[l]), Identity(order[i]));
    }
  }

  lemma DistinctAppend(keys: seq<Pubkey>, k: Pubkey)
    ensures Distinct(keys) && k !in keys ==> Distinct(keys + [k])
  {
  }

  lemma AscendingAppend(keys: seq<Pubkey>, k: Pubkey)
    ensures Ascending(Identity, keys) && (forall x :: x in keys ==> Leq(x, k)) ==> Ascending(Identity, keys + [k])
  {
    hide Leq;
  }

  ghost predicate DrainsUpTo(m: KeyMap, t: LookupTable, filter: KeyMeta -> bool, order: seq<Pubkey>, i: nat,
                             keys: seq<Pubkey>)
    requires i <= |order|
  {
    && Distinct(keys)
    && Ascending(Identity, keys)
    && forall k :: k in keys <==> k in order[..i] && k in m && filter(m[k]) && InTable(t, k)
  }

  class CompiledKeys {
    const payer: Option<Pubkey>
    var keyMetaMap: KeyMap

    constructor Compile(ixs: seq<Instruction>, payer: Option<Pubkey>)
      ensures this.payer == payer
      ensures keyMetaMap == Merged(payer, ixs)
    {
      hide Merged, Touch, Entry;
      var m: KeyMap := map[];
      MergedNothing(ixs);
      for i := 0 to |ixs|
        invariant m == Merged(None, ixs[..i])
      {
        var ix := ixs[i];
        ghost var begun := ix.(accounts := []);
        MergedProgram(ixs[..i], begun);
        m := m[ix.programId := Entry(m, ix.programId)];
        for j := 0 to |ix.accounts|
          invariant m == Merged(None, ixs[..i] + [ix.(accounts := ix.accounts[..j])])
        {
          assert ix.accounts[..j + 1] == ix.accounts[..j] + [ix.accounts[j]];
          MergedAccount(ixs[..i], ix.(accounts := ix.accounts[..j]), ix.accounts[j]);
          m := Touch(m, ix.accounts[j]);
        }
        assert ix.accounts[..|ix.accounts|] == ix.accounts;
        assert ixs[..i + 1] == ixs[..i] + [ix];
      }
      assert ixs[..|ixs|] == ixs;
      if payer.Some? {
        MergedPayer(ixs, payer.value);
        m := Touch(m, AccountMeta(payer.value, true, true));
      }
      this.payer := payer;
      keyMetaMap := m;
    }

    /** Takes the keys that pass the filter and are in the table out of the map. */
    method DrainKeysFoundInLookupTable(t: LookupTable, filter: KeyMeta -> bool)
      returns (indexes: seq<u8>, drained: seq<Pubkey>)
      modifies this`keyMetaMap
      ensures PointsAt(t, indexes, drained)
      ensures Drains(old(keyMetaMap), t, filter, drained)
      ensures keyMetaMap == old(keyMetaMap) - Elements(drained)
    {
      hide SortedSet, DrainsUpTo, Drains;
      indexes, drained := [], [];
      var order := SortedSet(keyMetaMap.Keys);
      NothingDrained(keyMetaMap, t, filter, order);
      for i := 0 to |order|
        invariant keyMetaMap == old(keyMetaMap)
        invariant DrainsUpTo(keyMetaMap, t, filter, order, i, drained)
        invariant PointsAt(t, indexes, drained)
      {
        var key := order[i];
        DrainStep(keyMetaMap, t, filter, order, i, drained);
        if !filter(keyMetaMap[key]) {
          continue;
        }
        var at := Position(t.addresses, key);
        if at < |t.addresses| && at < 0x100 {
          indexes, drained := indexes + [at], drained + [key];
        }
      }
      AllDrained(keyMetaMap, t, filter, order, drained);
      for i := 0 to |drained|
        invariant keyMetaMap == old(keyMetaMap) - Elements(drained[..i])
      {
        keyMetaMap := keyMetaMap - {drained[i]};
        assert Elements(drained[..i + 1]) == Elements(drained[..i]) + {drained[i]};
      }
      assert drained[..|drained|] == drained;
    }

    /** Takes the writable keys, then the readonly ones, out of the map. */
    method ExtractTableLookup(t: LookupTable) returns (r: Option<(TableLookup, Loaded)>)
      modifies this`keyMetaMap
      ensures Extracts(old(keyMetaMap), t, Extracted(r))
      ensures keyMetaMap == Remaining(old(keyMetaMap), [t])
      ensures r.Some? ==> Indexes(t, r.value.0, r.value.1)
      ensures r.Some? ==> |r.value.0.writableIndexes| + |r.value.0.readonlyIndexes| > 0
    {
      hide Distinct, Ascending, PointsAt, InTable;
      ghost var before := keyMetaMap;
      var writableIndexes, writable := DrainKeysFoundInLookupTable(t, LoadableWritable);
      ghost var between := keyMetaMap;
      var readonlyIndexes, readonly := DrainKeysFoundInLookupTable(t, LoadableReadonly);
      if writableIndexes == [] && readonlyIndexes == [] {
        NoKeys(t, writable);
        NoKeys(t, readonly);
        return None;
      }
      return Some((TableLookup(t.key, writableIndexes, readonlyIndexes), Loaded(writable, readonly)));
    }

    /** The header and the static keys, by privilege. */
    method IntoMessageComponents() returns (r: Result<(Header, seq<Pubkey>)>)
      ensures r.Ok? <==> |SignerKeys(payer, keyMetaMap)| <= 0xFF && |ReadonlyKeys(payer, keyMetaMap)| <= 0xFF
      ensures r.Ok? ==> Arranged(payer, keyMetaMap, r.value.0, r.value.1) && ByKey(payer, r.value.0, r.value.1)
      ensures r.Err? ==> r.error == AccountIndexOverflow
    {
      hide Filter, SortedSet, Arranged, ByKey, SignerKeys, ReadonlyKeys;
      var others := if payer.Some? then keyMetaMap - {payer.value} else keyMetaMap;
      var order := SortedSet(others.Keys);
      var first := if payer.Some? then [payer.value] else [];
      var writableSigners := first + Filter(InClass(others, true, true), order);
      var readonlySigners := Filter(InClass(others, true, false), order);
      var writableNonSigners := Filter(InClass(others, false, true), order);
      var readonlyNonSigners := Filter(InClass(others, false, false), order);
      var signers := |writableSigners| + |readonlySigners|;
      ClassesArranged(payer, keyMetaMap, others, order);
      if signers > 0xFF || |readonlySigners| > 0xFF || |readonlyNonSigners| > 0xFF {
        return Err(AccountIndexOverflow);
      }
      var header := Header(signers, |readonlySigners|, |readonlyNonSigners|);
      return Ok((header, writableSigners + readonlySigners + writableNonSigners + readonlyNonSigners));
    }
  }

  // ----- extraction, over any number of tables

  function LoadableWritable(meta: KeyMeta): bool { Loadable(meta) && meta.isWritable }

  function LoadableReadonly(meta: KeyMeta): bool { Loadable(meta) && !meta.isWritable }

  function Extracted(r: Option<(TableLookup, Loaded)>): Loaded { if r.Some? then r.value.1 else Loaded([], []) }

  /** A lookup into `t` that loads exactly these keys. */
  predicate Indexes(t: LookupTable, lookup: TableLookup, loaded: Loaded)
  {
    && lookup.accountKey == t.key
    && PointsAt(t, lookup.writableIndexes, loaded.writable)
    && PointsAt(t, lookup.readonlyIndexes, loaded.readonly)
  }

  predicate Hoisted(meta: KeyMeta, tables: seq<LookupTable>, k: Pubkey)
  {
    Loadable(meta) && exists t :: t in tables && InTable(t, k)
  }

  /** What stays in the message: signers, and keys that no table holds. */
  function Remaining(m: KeyMap, tables: seq<LookupTable>): KeyMap
  {
    map k | k in m && !Hoisted(m[k], tables, k) :: m[k]
  }

  ghost predicate Extracts(m: KeyMap, t: LookupTable, loaded: Loaded)
  {
    Drains(m, t, LoadableWritable, loaded.writable) && Drains(m, t, LoadableReadonly, loaded.readonly)
  }

  lemma NoKeys(t: LookupTable, keys: seq<Pubkey>)
    requires PointsAt(t, [], keys)
    ensures keys == []
  {
  }

  // ----- the arrangement of the static keys

  datatype CompileError = AccountIndexOverflow | InstructionCompileFailure

  datatype Result<+T> = Ok(value: T) | Err(error: CompileError)

  /** The payer counts as a writable signer whatever the map says. */
  function MetaOf(payer: Option<Pubkey>, m: KeyMap, k: Pubkey): KeyMeta
  {
    if payer == Some(k) then KeyMeta(true, true, false) else Entry(m, k)
  }

  function KeysWith(payer: Option<Pubkey>, m: KeyMap): set<Pubkey>
  {
    m.Keys + if payer.Some? then {payer.value} else {}
  }

  function SignerKeys(payer: Option<Pubkey>, m: KeyMap): set<Pubkey>
  {
    set k | k in KeysWith(payer, m) && MetaOf(payer, m, k).isSigner
  }

  function ReadonlyKeys(payer: Option<Pubkey>, m: KeyMap): set<Pubkey>
  {
    set k | k in KeysWith(payer, m) && !MetaOf(payer, m, k).isSigner && !MetaOf(payer, m, k).isWritable
  }

  /** Privileges read off a position by the header. */
  predicate SignerByHeader(header: Header, p: nat) { p < header.requiredSignatures }

  predicate WritableByHeader(header: Header, count: nat, p: nat)
  {
    || p < header.requiredSignatures - header.readonlySigned
    || header.requiredSignatures <= p < count - header.readonlyUnsigned
  }

  ghost predicate Arranged(payer: Option<Pubkey>, m: KeyMap, header: Header, keys: seq<Pubkey>)
  {
    && Distinct(keys) && Elements(keys) == KeysWith(payer, m)
    && (payer.Some? ==> keys != [] && keys[0] == payer.value)
    && header.readonlySigned <= header.requiredSignatures <= |keys| - header.readonlyUnsigned
    && forall p :: 0 <= p < |keys| ==>
         && SignerByHeader(header, p) == MetaOf(payer, m, keys[p]).isSigner
         && WritableByHeader(header, |keys|, p) == MetaOf(payer, m, keys[p]).isWritable
  }

  /** Keys of the same privileges stand in key order, the payer aside. */
  ghost predicate ByKey(payer: Option<Pubkey>, header: Header, keys: seq<Pubkey>)
  {
    forall i, j :: 0 <= i < j < |keys| && SameClass(header, |keys|, i, j) && payer != Some(keys[i]) ==>
      Leq(keys[i], keys[j])
  }

  predicate SameClass(header: Header, count: nat, i: nat, j: nat)
  {
    && (SignerByHeader(header, i) <==> SignerByHeader(header, j))
    && (WritableByHeader(header, count, i) <==> WritableByHeader(header, count, j))
  }

  lemma {:induction false} FilterAscending(p: Pubkey -> bool, s: seq<Pubkey>)
    requires Ascending(Identity, s)
    ensures Ascending(Identity, Filter(p, s))
  {
    hide Leq;
    if s != [] {
      var n := |s| - 1;
      var front := Filter(p, s[..n]);
      FilterAscending(p, s[..n]);
      FilterMembers(p, s[..n]);
      forall i | 0 <= i < |front| ensures Leq(Identity(front[i]), Identity(s[n])) {
        assert front[i] in s[..n];
        var l :| 0 <= l < n && s[l] == front[i];
        assert Leq(Identity(s[l]), Identity(s[n]));
      }
    }
  }

  lemma FourByKey(payer: Option<Pubkey>, a: seq<Pubkey>, b: seq<Pubkey>, c: seq<Pubkey>, d: seq<Pubkey>)
    requires Ascending(Identity, b) && Ascending(Identity, c) && Ascending(Identity, d)
    requires if payer.Some? then a != [] && a[0] == payer.value && Ascending(Identity, a[1..])
             else Ascending(Identity, a)
    requires |a| + |b| <= 0xFF && |d| <= 0xFF
    ensures ByKey(payer, Header(|a| + |b|, |b|, |d|), a + b + c + d)
  {
    hide Leq;
    var keys, header := a + b + c + d, Header(|a| + |b|, |b|, |d|);
    forall i, j | 0 <= i < j < |keys| && SameClass(header, |keys|, i, j) && payer != Some(keys[i])
      ensures Leq(keys[i], keys[j])
    {
      var x, y, z := |a|, |a| + |b|, |a| + |b| + |c|;
      if j < x {
        if payer.Some? {
          assert Leq(Identity(a[1..][i - 1]), Identity(a[1..][j - 1]));
        } else {
          assert Leq(Identity(a[i]), Identity(a[j]));
        }
      } else if x <= i && j < y {
        assert Leq(Identity(b[i - x]), Identity(b[j - x]));
      } else if y <= i && j < z {
        assert Leq(Identity(c[i - y]), Identity(c[j - y]));
      } else {
        assert Leq(Identity(d[i - z]), Identity(d[j - z]));
      }
    }
  }

  function InClass(m: KeyMap, signer: bool, writable: bool): Pubkey -> bool
  {
    (k: Pubkey) => k in m && m[k].isSigner == signer && m[k].isWritable == writable
  }

  /** `keys` lists, once each, the keys of one privilege class. */
  ghost predicate Lists(payer: Option<Pubkey>, m: KeyMap, signer: bool, writable: bool, keys: seq<Pubkey>)
  {
    && Distinct(keys)
    && forall k :: k in keys <==> InWhole(payer, m, signer, writable, k)
  }

  predicate InWhole(payer: Option<Pubkey>, m: KeyMap, signer: bool, writable: bool, k: Pubkey)
  {
    k in KeysWith(payer, m) && MetaOf(payer, m, k).isSigner == signer && MetaOf(payer, m, k).isWritable == writable
  }

  lemma ClassLists(payer: Option<Pubkey>, m: KeyMap, others: KeyMap, order: seq<Pubkey>, signer: bool, writable: bool)
    requires others == (if payer.Some? then m - {payer.value} else m) && order == SortedSet(others.Keys)
    ensures var first := if payer.Some? && signer && writable then [payer.value] else [];
            Lists(payer, m, signer, writable, first + Filter(InClass(others, signer, writable), order))
  {
    hide Filter, SortedSet, Ascending, Distinct, DistinctKeys, InClass, InWhole;
    SortedSetEnumerates(others.Keys);
    var first := if payer.Some? && signer && writable then [payer.value] else [];
    var members := Filter(InClass(others, signer, writable), order);
    FilterMembers(InClass(others, signer, writable), order);
    DistinctIdentity(order);
    FilterDistinct(InClass(others, signer, writable), order);
    ClassMembers(payer, m, others, signer, writable, first, members);
    DistinctJoin(first, members);
  }

  lemma DistinctIdentity(keys: seq<Pubkey>)
    requires DistinctKeys(Identity, keys)
    ensures Distinct(keys)
  {
    forall i, j | 0 <= i < j < |keys| ensures keys[i] != keys[j] {
      assert Identity(keys[i]) != Identity(keys[j]);
    }
  }

  lemma ClassMembers(payer: Option<Pubkey>, m: KeyMap, others: KeyMap, signer: bool, writable: bool,
                     first: seq<Pubkey>, members: seq<Pubkey>)
    requires others == if payer.Some? then m - {payer.value} else m
    requires first == if payer.Some? && signer && writable then [payer.value] else []
    requires forall k :: k in members <==> k in others.Keys && InClass(others, signer, writable)(k)
    ensures forall k :: k in first + members <==> InWhole(payer, m, signer, writable, k)
    ensures forall k :: k in first ==> k !in members
  {
    forall k ensures k in first + members <==> InWhole(payer, m, signer, writable, k) {
      assert k in first <==> payer == Some(k) && signer && writable;
      assert k in members <==> k in others && others[k].isSigner == signer && others[k].isWritable == writable;
    }
  }

  lemma ClassesArranged(payer: Option<Pubkey>, m: KeyMap, others: KeyMap, order: seq<Pubkey>)
    requires others == (if payer.Some? then m - {payer.value} else m) && order == SortedSet(others.Keys)
    ensures var a := (if payer.Some? then [payer.value] else []) + Filter(InClass(others, true, true), order);
            var b, c, d := Filter(InClass(others, true, false), order), Filter(InClass(others, false, true), order),
                           Filter(InClass(others, false, false), order);
            && |SignerKeys(payer, m)| == |a| + |b| && |ReadonlyKeys(payer, m)| == |d|
            && (|a| + |b| <= 0xFF && |d| <= 0xFF ==>
                  && Arranged(payer, m, Header(|a| + |b|, |b|, |d|), a + b + c + d)
                  && ByKey(payer, Header(|a| + |b|, |b|, |d|), a + b + c + d))
  {
    hide Filter, SortedSet, Lists, Arranged, ByKey, InClass, SignerKeys, ReadonlyKeys, Ascending;
    var a := (if payer.Some? then [payer.value] else []) + Filter(InClass(others, true, true), order);
    var b, c, d := Filter(InClass(others, true, false), order), Filter(InClass(others, false, true), order),
                   Filter(InClass(others, false, false), order);
    ClassLists(payer, m, others, order, true, true);
    ClassLists(payer, m, others, order, true, false);
    ClassLists(payer, m, others, order, false, true);
    ClassLists(payer, m, others, order, false, false);
    assert [] + b == b && [] + c == c && [] + d == d;
    FourClasses(payer, m, a, b, c, d);
    if |a| + |b| <= 0xFF && |d| <= 0xFF {
      InOrder(payer, m, a, b, c, d);
      ClassesAscend(others, order);
      FirstAside(payer, Filter(InClass(others, true, true), order));
      FourByKey(payer, a, b, c, d);
    }
  }

  lemma ClassesAscend(others: KeyMap, order: seq<Pubkey>)
    requires order == SortedSet(others.Keys)
    ensures forall signer, writable :: Ascending(Identity, Filter(InClass(others, signer, writable), order))
  {
    hide Filter, SortedSet, InClass, Ascending;
    SortedSetEnumerates(others.Keys);
    forall signer, writable ensures Ascending(Identity, Filter(InClass(others, signer, writable), order)) {
      FilterAscending(InClass(others, signer, writable), order);
    }
  }

  lemma FirstAside(payer: Option<Pubkey>, keys: seq<Pubkey>)
    ensures var a := (if payer.Some? then [payer.value] else []) + keys;
            if payer.Some? then a != [] && a[0] == payer.value && a[1..] == keys else a == keys
  {
  }

  lemma FourClasses(payer: Option<Pubkey>, m: KeyMap, a: seq<Pubkey>, b: seq<Pubkey>, c: seq<Pubkey>, d: seq<Pubkey>)
    requires Lists(payer, m, true, true, a) && Lists(payer, m, true, false, b)
    requires Lists(payer, m, false, true, c) && Lists(payer, m, false, false, d)
    ensures Distinct(a + b + c + d) && Elements(a + b + c + d) == KeysWith(payer, m)
    ensures |SignerKeys(payer, m)| == |a| + |b| && |ReadonlyKeys(payer, m)| == |d|
  {
    hide Distinct, KeysWith, MetaOf;
    DistinctJoin(a, b);
    DistinctJoin(a + b, c);
    DistinctJoin(a + b + c, d);
    DistinctCount(a + b);
    DistinctCount(d);
    assert Elements(a + b) == SignerKeys(payer, m);
    assert Elements(d) == ReadonlyKeys(payer, m);
  }

  lemma InOrder(payer: Option<Pubkey>, m: KeyMap, a: seq<Pubkey>, b: seq<Pubkey>, c: seq<Pubkey>, d: seq<Pubkey>)
    requires Lists(payer, m, true, true, a) && Lists(payer, m, true, false, b)
    requires Lists(payer, m, false, true, c) && Lists(payer, m, false, false, d)
    requires payer.Some? ==> a != [] && a[0] == payer.value
    requires |a| + |b| <= 0xFF && |d| <= 0xFF
    ensures Arranged(payer, m, Header(|a| + |b|, |b|, |d|), a + b + c + d)
  {
    hide Distinct, KeysWith, MetaOf;
    var keys, header := a + b + c + d, Header(|a| + |b|, |b|, |d|);
    FourClasses(payer, m, a, b, c, d);
    forall p | 0 <= p < |keys|
      ensures SignerByHeader(header, p) == MetaOf(payer, m, keys[p]).isSigner
      ensures WritableByHeader(header, |keys|, p) == MetaOf(payer, m, keys[p]).isWritable
    {
      var list := if p < |a| then a else if p < |a| + |b| then b else if p < |a| + |b| + |c| then c else d;
      assert keys[p] in list;
    }
  }

  lemma NothingDrained(m: KeyMap, t: LookupTable, filter: KeyMeta -> bool, order: seq<Pubkey>)
    ensures DrainsUpTo(m, t, filter, order, 0, [])
  {
  }

  lemma AllDrained(m: KeyMap, t: LookupTable, filter: KeyMeta -> bool, order: seq<Pubkey>, keys: seq<Pubkey>)
    requires order == SortedSet(m.Keys) && DrainsUpTo(m, t, filter, order, |order|, keys)
    ensures Drains(m, t, filter, keys)
  {
    SortedSetEnumerates(m.Keys);
    assert order[..|order|] == order;
  }
}
