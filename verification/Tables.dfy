/** Database tables keyed by (network, slot, account), and what replacing all
    the rows of one (network, slot) does to them. */
module Tables {
  import opened Bytes
  import opened Sorting
  import opened MapSums

  type RowKey = (string, u64, Bytes32)

  type Table<R> = map<RowKey, R>

  type Entry<R> = (Bytes32, R)

  function EntryKey<R>(e: Entry<R>): Bytes32 { e.0 }

  /** `DELETE ... WHERE network = ? AND snapshot_slot = ?` */
  function Clear<R>(table: Table<R>, network: string, slot: u64): Table<R>
  {
    map k | k in table && !(k.0 == network && k.1 == slot) :: table[k]
  }

  /** Inserts (or, on a key conflict, overwrites) the entries one by one. */
  function Upsert<R>(table: Table<R>, network: string, slot: u64, entries: seq<Entry<R>>): Table<R>
  {
    if entries == [] then table
    else
      var last := entries[|entries| - 1];
      Upsert(table, network, slot, entries[..|entries| - 1])[(network, slot, last.0) := last.1]
  }

  function Replace<R>(table: Table<R>, network: string, slot: u64, entries: seq<Entry<R>>): Table<R>
  {
    Upsert(Clear(table, network, slot), network, slot, entries)
  }

  /** The rows of (network, slot) are exactly `entries`. */
  ghost predicate Holds<R>(table: Table<R>, network: string, slot: u64, entries: seq<Entry<R>>)
  {
    && (forall k :: k in table && k.0 == network && k.1 == slot ==>
                      exists i :: 0 <= i < |entries| && entries[i].0 == k.2)
    && (forall i :: 0 <= i < |entries| ==>
                      (network, slot, entries[i].0) in table
                      && table[(network, slot, entries[i].0)] == entries[i].1)
  }

  /** Rows of every other (network, slot) are the same in both tables. */
  ghost predicate SameElsewhere<R>(a: Table<R>, b: Table<R>, network: string, slot: u64)
  {
    forall k: RowKey :: k.0 != network || k.1 != slot ==>
                          (k in a <==> k in b) && (k in a && k in b ==> a[k] == b[k])
  }

  /** Over distinct accounts, upserting adds exactly the entries. */
  lemma {:induction false} UpsertHolds<R>(table: Table<R>, network: string, slot: u64, entries: seq<Entry<R>>)
    requires Holds(table, network, slot, [])
    requires DistinctKeys(EntryKey, entries)
    ensures Holds(Upsert(table, network, slot, entries), network, slot, entries)
    ensures SameElsewhere(table, Upsert(table, network, slot, entries), network, slot)
  {
    if entries != [] {
      var n := |entries| - 1;
      var init, last := entries[..n], entries[n];
      UpsertHolds(table, network, slot, init);
      UpsertStep(Upsert(table, network, slot, init), network, slot, init, last);
      assert entries == init + [last];
    }
  }

  lemma UpsertStep<R>(t: Table<R>, network: string, slot: u64, init: seq<Entry<R>>, last: Entry<R>)
    requires Holds(t, network, slot, init)
    requires DistinctKeys(EntryKey, init + [last])
    ensures Holds(t[(network, slot, last.0) := last.1], network, slot, init + [last])
  {
    var r, all := t[(network, slot, last.0) := last.1], init + [last];
    forall i | 0 <= i < |init| ensures all[i] == init[i] && init[i].0 != last.0 {
      assert EntryKey(all[i]) != EntryKey(all[|init|]);
    }
    forall k | k in r && k.0 == network && k.1 == slot
      ensures exists i :: 0 <= i < |all| && all[i].0 == k.2
    {
      if k.2 == last.0 {
        assert all[|init|].0 == k.2;
      } else {
        assert k in t;
        var i :| 0 <= i < |init| && init[i].0 == k.2;
        assert all[i].0 == k.2;
      }
    }
  }

  /** After a replacement the rows of that (network, slot) are exactly the new
      entries, and no other row has changed. */
  lemma ReplaceHolds<R>(table: Table<R>, network: string, slot: u64, entries: seq<Entry<R>>)
    requires DistinctKeys(EntryKey, entries)
    ensures Holds(Replace(table, network, slot, entries), network, slot, entries)
    ensures SameElsewhere(table, Replace(table, network, slot, entries), network, slot)
  {
    UpsertHolds(Clear(table, network, slot), network, slot, entries);
  }

  lemma HoldsElsewhere<R>(a: Table<R>, b: Table<R>, network: string, slot: u64,
                          network': string, slot': u64, entries: seq<Entry<R>>)
    requires SameElsewhere(a, b, network, slot) && (network' != network || slot' != slot)
    requires Holds(a, network', slot', entries)
    ensures Holds(b, network', slot', entries)
  {
  }

  lemma UpsertAppend<R>(table: Table<R>, network: string, slot: u64, init: seq<Entry<R>>, last: Entry<R>)
    ensures Upsert(table, network, slot, init + [last])
            == Upsert(table, network, slot, init)[(network, slot, last.0) := last.1]
  {
    assert (init + [last])[..|init|] == init;
  }

  lemma {:induction false} UpsertConcat<R>(table: Table<R>, network: string, slot: u64, a: seq<Entry<R>>,
                                           b: seq<Entry<R>>)
    ensures Upsert(table, network, slot, a + b) == Upsert(Upsert(table, network, slot, a), network, slot, b)
  {
    if b == [] {
      assert a + b == a;
    } else {
      var n := |b| - 1;
      UpsertConcat(table, network, slot, a, b[..n]);
      assert a + b == (a + b[..n]) + [b[n]];
      UpsertAppend(table, network, slot, a + b[..n], b[n]);
      assert b == b[..n] + [b[n]];
      UpsertAppend(Upsert(table, network, slot, a), network, slot, b[..n], b[n]);
    }
  }

  // ----- sums over the rows of one (network, slot)

  function InSlot<R>(network: string, slot: u64, amount: R -> nat): (RowKey, R) -> nat
  {
    (k: RowKey, row: R) => if k.0 == network && k.1 == slot then amount(row) else 0
  }

  /** The sum over all rows held for (network, slot). */
  ghost function HeldSum<R>(table: Table<R>, network: string, slot: u64, amount: R -> nat): nat
  {
    WSum(table, InSlot(network, slot, amount))
  }

  function EntryAmount<R>(amount: R -> nat): Entry<R> -> nat { (e: Entry<R>) => amount(e.1) }

  function RowKeyOf<R>(network: string, slot: u64): Entry<R> -> RowKey { (e: Entry<R>) => (network, slot, e.0) }

  /** Rows that are exactly `entries`, without repeats, sum to the entries. */
  lemma HeldSumIs<R>(table: Table<R>, network: string, slot: u64, entries: seq<Entry<R>>, amount: R -> nat)
    requires Holds(table, network, slot, entries) && DistinctKeys(EntryKey, entries)
    ensures HeldSum(table, network, slot, amount) == Sum(Map(EntryAmount(amount), entries))
  {
    hide WSum, Sum;
    var w, keys := InSlot(network, slot, amount), Map(RowKeyOf<R>(network, slot), entries);
    forall i | 0 <= i < |entries| ensures keys[i] == (network, slot, entries[i].0) {
    }
    forall i, j | 0 <= i < j < |keys| ensures keys[i] != keys[j] {
      assert EntryKey(entries[i]) != EntryKey(entries[j]);
    }
    forall k | k in table && w(k, table[k]) > 0 ensures k in keys {
      var i :| 0 <= i < |entries| && entries[i].0 == k.2;
      assert keys[i] == k;
    }
    WSumAsList(table, w, keys);
    forall i | 0 <= i < |entries| ensures Map(At(table, w), keys)[i] == Map(EntryAmount(amount), entries)[i] {
      assert At(table, w)(keys[i]) == w(keys[i], table[keys[i]]);
    }
    assert Map(At(table, w), keys) == Map(EntryAmount(amount), entries);
  }
}
