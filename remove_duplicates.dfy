/**
 * The duplicate clean-up script of backend/src/utils/remove-duplicates.ts.
 * Transactions with the same user, title and date form a group; in every
 * group with more than one member the member with the smallest amount is
 * kept (the first of them, after the stable ascending sort) and every other
 * member is deleted by id.
 */
module RemoveDuplicates {
  import opened CivilTime
  import opened TransactionModel
  import opened TransactionJobs

  /** The `_id` of the `$group` stage. */
  datatype GroupKey = GroupKey(userId: nat, title: string, date: DateTime)

  function KeyOf(t: Transaction): GroupKey {
    GroupKey(t.userId, t.title, t.date)
  }

  /** The collection's `_id` index: no two documents share an id. */
  predicate UniqueIds(records: seq<Transaction>) {
    forall i, j :: 0 <= i < |records| && 0 <= j < |records| && i != j ==> records[i].id != records[j].id
  }

  /** The members of one group, in collection order (the `$push` of the group stage). */
  function Members(records: seq<Transaction>, key: GroupKey): (r: seq<Transaction>)
    ensures |r| <= |records|
    ensures forall t {:trigger t in r} :: t in r <==> t in records && KeyOf(t) == key
  {
    if records == [] then []
    else
      var rest := Members(records[1..], key);
      assert records == [records[0]] + records[1..];
      if KeyOf(records[0]) == key then [records[0]] + rest else rest
  }

  /**
   * The position of the first smallest amount: what `items[0]` is after
   * `items.sort((a, b) => a.amount - b.amount)`, a stable sort.
   */
  function FirstSmallest(items: seq<Transaction>): (k: nat)
    requires |items| > 0
    ensures k < |items|
    ensures forall j :: 0 <= j < |items| ==> items[k].amount <= items[j].amount
    ensures forall j :: 0 <= j < k ==> items[j].amount > items[k].amount
  {
    if |items| == 1 then 0
    else
      var k := FirstSmallest(items[..|items| - 1]);
      if items[|items| - 1].amount < items[k].amount then |items| - 1 else k
  }

  /** The scan that finds the kept member. */
  method KeptIndex(items: seq<Transaction>) returns (keep: nat)
    requires |items| > 0
    ensures keep == FirstSmallest(items)
  {
    keep := 0;
    var i := 1;
    while i < |items|
      invariant 1 <= i <= |items| && keep < i
      invariant forall j :: 0 <= j < i ==> items[keep].amount <= items[j].amount
      invariant forall j :: 0 <= j < keep ==> items[j].amount > items[keep].amount
    {
      if items[i].amount < items[keep].amount {
        keep := i;
      }
      i := i + 1;
    }
    FirstSmallestUnique(items, keep);
  }

  /** The first smallest position is the only position with both of its properties. */
  lemma FirstSmallestUnique(items: seq<Transaction>, k: nat)
    requires k < |items|
    requires forall j :: 0 <= j < |items| ==> items[k].amount <= items[j].amount
    requires forall j :: 0 <= j < k ==> items[j].amount > items[k].amount
    ensures k == FirstSmallest(items)
  {
  }

  /** The member its group keeps. */
  function Keeper(records: seq<Transaction>, key: GroupKey): (t: Transaction)
    requires |Members(records, key)| > 0
    ensures KeyOf(t) == key
  {
    var items := Members(records, key);
    assert items[FirstSmallest(items)] in items;
    items[FirstSmallest(items)]
  }

  /** `deleteMany({ _id: { $in: ids } })`. */
  function DeleteIds(records: seq<Transaction>, ids: set<nat>): (r: seq<Transaction>)
    ensures |r| <= |records|
    ensures forall t :: t in r <==> t in records && t.id !in ids
  {
    if records == [] then []
    else
      var rest := DeleteIds(records[1..], ids);
      assert records == [records[0]] + records[1..];
      if records[0].id in ids then rest else [records[0]] + rest
  }

  /** Deleting two id sets one after the other is deleting their union. */
  lemma {:induction false} DeleteTwice(records: seq<Transaction>, a: set<nat>, b: set<nat>)
    ensures DeleteIds(DeleteIds(records, a), b) == DeleteIds(records, a + b)
  {
    if records != [] {
      DeleteTwice(records[1..], a, b);
    }
  }

  /** The ids the clean-up deletes from the groups in `groups`: every member but the kept one. */
  function Doomed(records: seq<Transaction>, groups: set<GroupKey>): set<nat> {
    set i | 0 <= i < |records| && DoomedAt(records, groups, i) :: records[i].id
  }

  /** A record is doomed when its group is among `groups` and it is not the group's keeper. */
  predicate DoomedAt(records: seq<Transaction>, groups: set<GroupKey>, i: nat)
    requires i < |records|
  {
    assert records[i] in Members(records, KeyOf(records[i]));
    KeyOf(records[i]) in groups && records[i] != Keeper(records, KeyOf(records[i]))
  }

  /** A record of a group in `groups` that its group does not keep. */
  predicate DoomedRecord(records: seq<Transaction>, groups: set<GroupKey>, t: Transaction) {
    t in records && KeyOf(t) in groups && (assert t in Members(records, KeyOf(t)); t != Keeper(records, KeyOf(t)))
  }

  /** Membership in `Doomed`, record by record. */
  lemma DoomedIff(records: seq<Transaction>, groups: set<GroupKey>, id: nat)
    ensures id in Doomed(records, groups) <==>
              exists t :: DoomedRecord(records, groups, t) && t.id == id
  {
    if exists t :: DoomedRecord(records, groups, t) && t.id == id {
      var t :| DoomedRecord(records, groups, t) && t.id == id;
      var i :| 0 <= i < |records| && records[i] == t;
      assert DoomedAt(records, groups, i);
    }
  }

  /** No group, nothing doomed. */
  lemma DoomedNone(records: seq<Transaction>)
    ensures Doomed(records, {}) == {}
  {
  }

  /** The duplicate groups: the keys shared by more than one record (`count > 1`). */
  function DuplicateGroups(records: seq<Transaction>): (g: set<GroupKey>)
    ensures forall k :: k in g <==> |Members(records, k)| > 1
  {
    var keys := set t | t in records :: KeyOf(t);
    assert forall k :: |Members(records, k)| > 0 ==> k in keys by {
      forall k | |Members(records, k)| > 0 ensures k in keys {
        assert Members(records, k)[0] in Members(records, k);
      }
    }
    set k | k in keys && |Members(records, k)| > 1
  }

  /** The collection after the clean-up. */
  function Survivors(records: seq<Transaction>): seq<Transaction> {
    DeleteIds(records, Doomed(records, DuplicateGroups(records)))
  }

  /** The ids deleted for one group: those of `items.slice(1)`. */
  function RemovedIn(items: seq<Transaction>, keep: nat): set<nat>
    requires keep < |items|
  {
    set i | 0 <= i < |items| && i != keep :: items[i].id
  }

  /** With unique ids, a group's removed ids are the doomed ids of that group. */
  lemma RemovedInIsDoomed(records: seq<Transaction>, g: GroupKey, groups: set<GroupKey>)
    requires UniqueIds(records) && |Members(records, g)| > 0
    ensures Doomed(records, groups + {g}) == Doomed(records, groups) + RemovedIn(Members(records, g), FirstSmallest(Members(records, g)))
  {
    forall id | id in Doomed(records, groups) ensures id in Doomed(records, groups + {g}) {
      DoomedIff(records, groups, id);
      DoomedIff(records, groups + {g}, id);
    }
    RemovedAreDoomed(records, g, groups);
    NewlyDoomedAreRemoved(records, g, groups);
  }

  lemma RemovedAreDoomed(records: seq<Transaction>, g: GroupKey, groups: set<GroupKey>)
    requires UniqueIds(records) && |Members(records, g)| > 0
    ensures RemovedIn(Members(records, g), FirstSmallest(Members(records, g))) <= Doomed(records, groups + {g})
  {
    var items := Members(records, g);
    var keep := FirstSmallest(items);
    forall id | id in RemovedIn(items, keep) ensures id in Doomed(records, groups + {g}) {
      var i :| 0 <= i < |items| && i != keep && items[i].id == id;
      var t := items[i];
      assert t in items;
      MembersDistinct(records, g, i, keep);
      assert t in records && KeyOf(t) == g;
      assert t != Keeper(records, KeyOf(t));
      DoomedIff(records, groups + {g}, id);
    }
  }

  lemma NewlyDoomedAreRemoved(records: seq<Transaction>, g: GroupKey, groups: set<GroupKey>)
    requires |Members(records, g)| > 0
    ensures Doomed(records, groups + {g}) <= Doomed(records, groups) + RemovedIn(Members(records, g), FirstSmallest(Members(records, g)))
  {
    var items := Members(records, g);
    var keep := FirstSmallest(items);
    forall id | id in Doomed(records, groups + {g})
      ensures id in Doomed(records, groups) + RemovedIn(items, keep)
    {
      var i :| 0 <= i < |records| && DoomedAt(records, groups + {g}, i) && records[i].id == id;
      var t := records[i];
      if KeyOf(t) in groups {
        assert DoomedAt(records, groups, i);
      } else {
        assert t in items;
        var k :| 0 <= k < |items| && items[k] == t;
        assert k != keep;
        assert t.id in RemovedIn(items, keep);
      }
    }
  }

  /** Distinct positions of a group hold distinct records. */
  lemma MembersDistinct(records: seq<Transaction>, g: GroupKey, i: nat, j: nat)
    requires UniqueIds(records) && i < |Members(records, g)| && j < |Members(records, g)| && i != j
    ensures Members(records, g)[i] != Members(records, g)[j]
    ensures Members(records, g)[i].id != Members(records, g)[j].id
  {
    MembersUniqueIds(records, g);
  }

  /** A group inherits the unique ids of the collection. */
  lemma {:induction false} MembersUniqueIds(records: seq<Transaction>, g: GroupKey)
    requires UniqueIds(records)
    ensures UniqueIds(Members(records, g))
  {
    if records != [] {
      assert UniqueIds(records[1..]);
      MembersUniqueIds(records[1..], g);
      var rest := Members(records[1..], g);
      if KeyOf(records[0]) == g {
        forall t | t in rest ensures t.id != records[0].id {
          assert t in records[1..];
          var k :| 0 <= k < |records[1..]| && records[1..][k] == t;
          assert records[k + 1] == t;
        }
        var m := [records[0]] + rest;
        forall i, j | 0 <= i < |m| && 0 <= j < |m| && i != j ensures m[i].id != m[j].id {
          if i == 0 {
            assert m[j] in rest;
          } else if j == 0 {
            assert m[i] in rest;
          } else {
            assert m[i] == rest[i - 1] && m[j] == rest[j - 1];
          }
        }
      }
    }
  }

  /**
   * The script: for every duplicate group, the kept member is found and the
   * others are deleted by id. The groups are visited in no particular order,
   * as the group stage returns them.
   */
  method RemoveDuplicateTransactions(store: TransactionStore)
    requires store.Valid() && UniqueIds(store.records)
    modifies store
    ensures store.records == Survivors(old(store.records))
    ensures store.nextId == old(store.nextId) && store.Valid()
  {
    var snapshot := store.records;
    var groups := DuplicateGroups(snapshot);
    CleanGroups(store, snapshot, groups);
    CleanedAll(snapshot, groups, store.records, store.nextId);
  }

  /** The loop over the groups of the aggregation, each cleaned in turn. */
  method CleanGroups(store: TransactionStore, snapshot: seq<Transaction>, groups: set<GroupKey>)
    requires store.records == snapshot && UniqueIds(snapshot)
    requires forall g :: g in groups ==> |Members(snapshot, g)| > 1
    modifies store
    ensures CleanedUpTo(snapshot, groups, store.records)
    ensures store.nextId == old(store.nextId)
  {
    var remaining := groups;
    ghost var done: set<GroupKey> := {};
    CleanedNone(snapshot);
    while remaining != {}
      invariant done + remaining == groups && done !! remaining
      invariant CleanedUpTo(snapshot, done, store.records)
      invariant store.nextId == old(store.nextId)
      decreases |remaining|
    {
      var g :| g in remaining;
      CleanGroup(store, snapshot, g, done);
      PickStep(groups, done, remaining, g);
      done := done + {g};
      remaining := remaining - {g};
    }
  }

  /** Moving one group from the remaining ones to the done ones keeps the partition of the groups. */
  lemma PickStep<K>(groups: set<K>, done: set<K>, remaining: set<K>, g: K)
    requires done + remaining == groups && done !! remaining && g in remaining
    ensures (done + {g}) + (remaining - {g}) == groups && (done + {g}) !! (remaining - {g})
    ensures |remaining - {g}| < |remaining|
  {
    assert (done + {g}) + (remaining - {g}) == done + remaining;
  }

  /** The collection once the groups in `done` are cleaned. */
  predicate CleanedUpTo(snapshot: seq<Transaction>, done: set<GroupKey>, records: seq<Transaction>) {
    records == DeleteIds(snapshot, Doomed(snapshot, done))
  }

  /** Before any group is cleaned the collection is the snapshot. */
  lemma CleanedNone(snapshot: seq<Transaction>)
    ensures CleanedUpTo(snapshot, {}, snapshot)
  {
    DoomedNone(snapshot);
    NothingToDelete(snapshot, Doomed(snapshot, {}));
  }

  /** Once every duplicate group is cleaned, the survivors are left, and the store is still valid. */
  lemma CleanedAll(snapshot: seq<Transaction>, done: set<GroupKey>, records: seq<Transaction>, nextId: nat)
    requires StoreValid(snapshot, nextId) && done == DuplicateGroups(snapshot)
    requires CleanedUpTo(snapshot, done, records)
    ensures records == Survivors(snapshot) && StoreValid(records, nextId)
  {
    DeleteKeepsStoreValid(snapshot, nextId, Doomed(snapshot, done));
  }

  /** Deleting records keeps the store valid. */
  lemma DeleteKeepsStoreValid(records: seq<Transaction>, nextId: nat, ids: set<nat>)
    requires StoreValid(records, nextId)
    ensures StoreValid(DeleteIds(records, ids), nextId)
  {
    var r := DeleteIds(records, ids);
    forall j | 0 <= j < |r| ensures r[j].id < nextId && DatesValid(r[j]) {
      assert r[j] in records;
    }
  }

  /** One group: sort out the kept member and delete the others, if there are any. */
  method CleanGroup(store: TransactionStore, snapshot: seq<Transaction>, g: GroupKey, ghost done: set<GroupKey>)
    requires UniqueIds(snapshot) && |Members(snapshot, g)| > 1
    requires CleanedUpTo(snapshot, done, store.records)
    modifies store
    ensures CleanedUpTo(snapshot, done + {g}, store.records)
    ensures store.nextId == old(store.nextId)
  {
    var items := Members(snapshot, g);
    var keep := KeptIndex(items);
    var remove := RemovedIn(items, keep);
    GroupStep(snapshot, done, g);
    if |remove| > 0 {
      DeleteMany(store, remove);
    } else {
      NothingToDelete(store.records, remove);
    }
  }

  /** `TransactionModel.deleteMany({ _id: { $in: ids } })` on the store. */
  method DeleteMany(store: TransactionStore, ids: set<nat>)
    modifies store
    ensures store.records == DeleteIds(old(store.records), ids) && store.nextId == old(store.nextId)
  {
    store.records := DeleteIds(store.records, ids);
  }

  /** Deleting one more group's removed ids extends the deletion to that group. */
  lemma GroupStep(records: seq<Transaction>, done: set<GroupKey>, g: GroupKey)
    requires UniqueIds(records) && |Members(records, g)| > 1
    ensures var items := Members(records, g);
            DeleteIds(DeleteIds(records, Doomed(records, done)), RemovedIn(items, FirstSmallest(items)))
            == DeleteIds(records, Doomed(records, done + {g}))
  {
    var items := Members(records, g);
    RemovedInIsDoomed(records, g, done);
    DeleteTwice(records, Doomed(records, done), RemovedIn(items, FirstSmallest(items)));
  }

  /** Deleting no ids keeps every record. */
  lemma {:induction false} NothingToDelete(records: seq<Transaction>, ids: set<nat>)
    requires |ids| == 0
    ensures DeleteIds(records, ids) == records
  {
    if records != [] {
      NothingToDelete(records[1..], ids);
    }
  }

  // ---------------------------------------------------------------- what the clean-up leaves

  /** The kept member has the smallest amount of its group. */
  lemma KeeperIsSmallest(records: seq<Transaction>, k: GroupKey, t: Transaction)
    requires t in records && KeyOf(t) == k
    ensures |Members(records, k)| > 0 && Keeper(records, k) in records
    ensures Keeper(records, k).amount <= t.amount
  {
    var items := Members(records, k);
    assert t in items;
    var j :| 0 <= j < |items| && items[j] == t;
    assert items[FirstSmallest(items)] in items;
  }

  /**
   * Of every group, exactly its kept member survives: a group of one is left
   * alone, and a larger group loses every other member.
   */
  lemma SurvivorsOfGroup(records: seq<Transaction>, t: Transaction)
    requires UniqueIds(records) && t in records
    ensures |Members(records, KeyOf(t))| > 0
    ensures t in Survivors(records) <==> t == Keeper(records, KeyOf(t))
  {
    var k := KeyOf(t);
    var items := Members(records, k);
    assert t in items;
    var groups := DuplicateGroups(records);
    DoomedIff(records, groups, t.id);
    if t == Keeper(records, k) {
      forall u | DoomedRecord(records, groups, u) ensures u.id != t.id || t != Keeper(records, k) {
        if u.id == t.id {
          SameIdSameRecord(records, u, t);
        }
      }
    } else {
      var j :| 0 <= j < |items| && items[j] == t;
      assert j != FirstSmallest(items);
      assert |Members(records, k)| > 1;
      assert DoomedRecord(records, groups, t);
    }
  }

  /** With unique ids, two records of the collection with the same id are the same record. */
  lemma SameIdSameRecord(records: seq<Transaction>, a: Transaction, b: Transaction)
    requires UniqueIds(records) && a in records && b in records && a.id == b.id
    ensures a == b
  {
    var i :| 0 <= i < |records| && records[i] == a;
    var j :| 0 <= j < |records| && records[j] == b;
  }

  /** Deleting keeps ids unique. */
  lemma {:induction false} DeleteKeepsUniqueIds(records: seq<Transaction>, ids: set<nat>)
    requires UniqueIds(records)
    ensures UniqueIds(DeleteIds(records, ids))
  {
    if records != [] {
      assert UniqueIds(records[1..]);
      DeleteKeepsUniqueIds(records[1..], ids);
      var rest := DeleteIds(records[1..], ids);
      if records[0].id !in ids {
        forall t | t in rest ensures t.id != records[0].id {
          assert t in records[1..];
          var k :| 0 <= k < |records[1..]| && records[1..][k] == t;
          assert records[k + 1] == t;
        }
        var m := [records[0]] + rest;
        forall i, j | 0 <= i < |m| && 0 <= j < |m| && i != j ensures m[i].id != m[j].id {
          if i == 0 {
            assert m[j] in rest;
          } else if j == 0 {
            assert m[i] in rest;
          } else {
            assert m[i] == rest[i - 1] && m[j] == rest[j - 1];
          }
        }
      }
    }
  }

  /** Running the clean-up a second time deletes nothing. */
  lemma CleanupIdempotent(records: seq<Transaction>)
    requires UniqueIds(records)
    ensures Survivors(Survivors(records)) == Survivors(records)
  {
    var s := Survivors(records);
    DeleteKeepsUniqueIds(records, Doomed(records, DuplicateGroups(records)));
    forall k ensures |Members(s, k)| <= 1 {
      var items := Members(s, k);
      if |items| > 1 {
        assert items[0] in items && items[1] in items;
        SurvivorsOfGroup(records, items[0]);
        SurvivorsOfGroup(records, items[1]);
        MembersDistinct(s, k, 0, 1);
      }
    }
    assert DuplicateGroups(s) == {};
    DoomedNone(s);
    NothingToDelete(s, Doomed(s, DuplicateGroups(s)));
  }
}
