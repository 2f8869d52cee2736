/** Reconciling a set of credentials with a store that may fail (kit/secret/sync.go, store.go). */
module SecretSync {
  import opened Wrappers
  import opened Sorting

  type Key = string
  type Secret = string

  /** What the store can do, which names it refuses, and which operations fail. */
  datatype Behaviour = Behaviour(comparer: bool, provisioner: bool, reserved: set<Key>,
                                 badSet: set<Key>, badDelete: set<Key>, badCompare: set<Key>,
                                 badList: bool, badEnsure: bool)

  datatype Options = Options(dryRun: bool, prune: bool, provision: bool)

  class Store {
    const b: Behaviour
    var values: map<Key, Secret>

    constructor (b: Behaviour, values: map<Key, Secret>)
      ensures this.b == b && this.values == values
    {
      this.b, this.values := b, values;
    }

    method Set(k: Key, v: Secret) returns (ok: bool)
      modifies this
      ensures ok <==> k !in b.badSet
      ensures values == if ok then old(values)[k := v] else old(values)
    {
      ok := k !in b.badSet;
      if ok {
        values := values[k := v];
      }
    }

    method Delete(k: Key) returns (ok: bool)
      modifies this
      ensures ok <==> k !in b.badDelete
      ensures values == if ok then old(values) - {k} else old(values)
    {
      ok := k !in b.badDelete;
      if ok {
        values := values - {k};
      }
    }

    /** The names held, in no particular order. */
    method List() returns (r: Option<seq<Key>>)
      ensures r.None? <==> b.badList
      ensures r.Some? ==> multiset(r.value) == multiset(values.Keys)
    {
      if b.badList {
        return None;
      }
      var out := Elements(values.Keys);
      return Some(out);
    }
  }

  // ----- What a sync is for -----

  datatype Fate = BeSet | BeUnchanged | BeSkipped | BeFailed

  /** What happens to a desired key, from the store as it was. */
  function FateOf(b: Behaviour, before: map<Key, Secret>, dryRun: bool, k: Key, v: Secret): Fate {
    if k in b.reserved then BeSkipped
    else if b.comparer && k !in b.badCompare && k in before && before[k] == v then BeUnchanged
    else if dryRun then BeSet
    else if k in b.badSet then BeFailed
    else BeSet
  }

  /** Keys a prune goes after. */
  predicate Unwanted(b: Behaviour, before: map<Key, Secret>, desired: map<Key, Secret>, k: Key) {
    k in before && k !in desired && k !in b.reserved
  }

  datatype Report = Report(written: seq<Key>, kept: seq<Key>, skipped: seq<Key>, deleted: seq<Key>,
                           failed: set<Key>, provisioned: bool)

  datatype SyncError = CannotProvision | EnsureFailed | Cancelled | ListFailed | Incomplete

  /** The desired keys seen so far are each in the one list their fate names. */
  ghost predicate Accounted(b: Behaviour, before: map<Key, Secret>, desired: map<Key, Secret>, dryRun: bool,
                            done: set<Key>, r: Report) {
    && NoRepeats(r.written) && NoRepeats(r.kept) && NoRepeats(r.skipped)
    && (forall k :: k in r.written <==> k in done && k in desired && FateOf(b, before, dryRun, k, desired[k]).BeSet?)
    && (forall k :: k in r.kept <==> k in done && k in desired && FateOf(b, before, dryRun, k, desired[k]).BeUnchanged?)
    && (forall k :: k in r.skipped <==>
          k in done && k in desired && FateOf(b, before, dryRun, k, desired[k]).BeSkipped?)
    && (forall k :: k in desired ==> (k in r.failed <==>
          k in done && FateOf(b, before, dryRun, k, desired[k]).BeFailed?))
  }

  /** The names a prune deleted, or failed to, among `live`. */
  ghost predicate Pruned(b: Behaviour, before: map<Key, Secret>, desired: map<Key, Secret>, dryRun: bool,
                         live: set<Key>, r: Report) {
    && NoRepeats(r.deleted)
    && (forall k :: k in r.deleted <==> k in live && Unwanted(b, before, desired, k) && (dryRun || k !in b.badDelete))
    && (forall k :: k !in desired ==>
          (k in r.failed <==> k in live && Unwanted(b, before, desired, k) && !dryRun && k in b.badDelete))
  }

  /** The store afterwards: written where it says so, emptied where it says so, otherwise untouched. */
  ghost predicate StoreFits(before: map<Key, Secret>, desired: map<Key, Secret>, dryRun: bool, r: Report,
                            after: map<Key, Secret>) {
    if dryRun then after == before
    else forall k ::
        if k in r.written && k in desired then k in after && after[k] == desired[k]
        else if k in r.deleted then k !in after
        else (k in after <==> k in before) && (k in after && k in before ==> after[k] == before[k])
  }

  /** One desired key, from reservation to write. */
  method SyncKey(store: Store, k: Key, v: Secret, dryRun: bool) returns (fate: Fate)
    modifies store
    ensures fate == FateOf(store.b, old(store.values), dryRun, k, v)
    ensures store.values == if fate.BeSet? && !dryRun then old(store.values)[k := v] else old(store.values)
  {
    if k in store.b.reserved {
      return BeSkipped;
    }
    var same, checked := AlreadyCorrect(store, k, v);
    if checked && same {
      return BeUnchanged;
    }
    if dryRun {
      return BeSet;
    }
    var ok := store.Set(k, v);
    return if ok then BeSet else BeFailed;
  }

  /** A comparison that fails counts as not asked, so that the value is written. */
  method AlreadyCorrect(store: Store, k: Key, v: Secret) returns (same: bool, checked: bool)
    ensures checked <==> store.b.comparer && k !in store.b.badCompare
    ensures same <==> checked && k in store.values && store.values[k] == v
  {
    if !store.b.comparer {
      return false, false;
    }
    if k in store.b.badCompare {
      return false, false;
    }
    return k in store.values && store.values[k] == v, true;
  }

  function Note(r: Report, k: Key, fate: Fate): Report {
    match fate
    case BeSet => r.(written := r.written + [k])
    case BeUnchanged => r.(kept := r.kept + [k])
    case BeSkipped => r.(skipped := r.skipped + [k])
    case BeFailed => r.(failed := r.failed + {k})
  }

  lemma KeyAccounted(b: Behaviour, before: map<Key, Secret>, desired: map<Key, Secret>, dryRun: bool,
                     done: set<Key>, r: Report, k: Key)
    requires Accounted(b, before, desired, dryRun, done, r) && k in desired && k !in done
    ensures Accounted(b, before, desired, dryRun, done + {k}, Note(r, k, FateOf(b, before, dryRun, k, desired[k])))
  {
  }

  /** A key that has had no turn is as it was at first, so its fate can be judged on either store. */
  lemma KeyUntouched(b: Behaviour, before: map<Key, Secret>, desired: map<Key, Secret>, dryRun: bool,
                     done: set<Key>, r: Report, k: Key, now: map<Key, Secret>)
    requires Accounted(b, before, desired, dryRun, done, r) && k in desired && k !in done
    requires StoreFits(before, desired, dryRun, r, now) && r.deleted == []
    ensures FateOf(b, before, dryRun, k, desired[k]) == FateOf(b, now, dryRun, k, desired[k])
  {
    assert k !in r.written && k !in r.deleted;
  }

  lemma KeyStored(before: map<Key, Secret>, desired: map<Key, Secret>, dryRun: bool, r: Report, k: Key,
                  fate: Fate, now: map<Key, Secret>)
    requires k in desired && StoreFits(before, desired, dryRun, r, now) && r.deleted == []
    ensures StoreFits(before, desired, dryRun, Note(r, k, fate),
                      if fate.BeSet? && !dryRun then now[k := desired[k]] else now)
  {
    var r' := Note(r, k, fate);
    assert r'.deleted == [] && (r'.written == r.written || r'.written == r.written + [k]);
  }

  /** `Set.Keys` (kit/secret/set.go). */
  method SortedKeys(s: set<Key>) returns (keys: seq<Key>)
    ensures Sorted(keys) && Lists(keys, s) && |keys| == |s|
  {
    keys := Elements(s);
    SortSorts(keys);
    keys := Sort(keys);
    ListsSet(keys, s);
    ListCount(keys, s);
  }

  ghost predicate Lists(keys: seq<Key>, s: set<Key>) {
    NoRepeats(keys) && forall k :: k in keys <==> k in s
  }

  lemma ListCount(keys: seq<Key>, s: set<Key>)
    requires Lists(keys, s)
    ensures |keys| == |s|
  {
    DoneCount(keys, |keys|, s);
  }

  /** Where the write loop stands once the keys in `seen` have had their turn. */
  ghost predicate Underway(b: Behaviour, before: map<Key, Secret>, desired: map<Key, Secret>, dryRun: bool,
                           seen: set<Key>, r: Report, now: map<Key, Secret>) {
    && Accounted(b, before, desired, dryRun, seen, r)
    && StoreFits(before, desired, dryRun, r, now)
    && Sorted(r.written) && Sorted(r.kept) && Sorted(r.skipped)
    && r.failed <= desired.Keys && r.deleted == []
  }

  lemma SortedGrows(s: seq<Key>, k: Key)
    requires Sorted(s) && forall x <- s :: AtMost(x, k)
    ensures Sorted(s + [k])
  {
    forall i | 0 <= i < |s| ensures AtMost(s[i], k) {
      assert s[i] in s;
    }
  }

  lemma NoteSorted(r: Report, k: Key, fate: Fate)
    requires Sorted(r.written) && Sorted(r.kept) && Sorted(r.skipped)
    requires forall x :: x in r.written || x in r.kept || x in r.skipped ==> AtMost(x, k)
    ensures Sorted(Note(r, k, fate).written) && Sorted(Note(r, k, fate).kept) && Sorted(Note(r, k, fate).skipped)
  {
    SortedGrows(r.written, k);
    SortedGrows(r.kept, k);
    SortedGrows(r.skipped, k);
  }

  /** One turn of the write loop. */
  method SettleKey(store: Store, k: Key, desired: map<Key, Secret>, dryRun: bool,
                   ghost before: map<Key, Secret>, ghost seen: set<Key>, r: Report) returns (r': Report)
    requires k in desired && k !in seen && Underway(store.b, before, desired, dryRun, seen, r, store.values)
    requires forall x <- seen :: AtMost(x, k)
    modifies store
    ensures Underway(store.b, before, desired, dryRun, seen + {k}, r', store.values)
    ensures r'.provisioned == r.provisioned
  {
    KeyUntouched(store.b, before, desired, dryRun, seen, r, k, store.values);
    KeyAccounted(store.b, before, desired, dryRun, seen, r, k);
    KeyStored(before, desired, dryRun, r, k, FateOf(store.b, before, dryRun, k, desired[k]), store.values);
    var fate := SyncKey(store, k, desired[k], dryRun);
    NoteSorted(r, k, fate);
    return Note(r, k, fate);
  }

  /** The first `n` of `keys` have had their turn. */
  ghost predicate Done(keys: seq<Key>, n: nat, seen: set<Key>)
    requires n <= |keys|
  {
    && (forall j :: 0 <= j < |keys| ==> (keys[j] in seen <==> j < n))
    && (forall k <- seen :: k in keys)
  }

  /** The context had not ended before any of the first `n` keys. */
  ghost predicate Lasts(cancelled: nat -> bool, n: nat) {
    forall m: nat :: m < n ==> !cancelled(m)
  }

  /** The context ended before a key, and no sooner; the keys that had their turn come first in order. */
  ghost predicate CutShort(desired: map<Key, Secret>, cancelled: nat -> bool, seen: set<Key>) {
    && seen <= desired.Keys && |seen| < |desired|
    && cancelled(|seen|) && Lasts(cancelled, |seen|)
    && forall x <- seen, y <- desired :: y !in seen ==> AtMost(x, y)
  }

  lemma {:induction false} DoneCount(keys: seq<Key>, n: nat, seen: set<Key>)
    requires n <= |keys| && NoRepeats(keys) && Done(keys, n, seen)
    ensures |seen| == n
    decreases n
  {
    if n == 0 {
      assert forall k :: k !in seen;
      assert seen == {};
    } else {
      DoneCount(keys, n - 1, seen - {keys[n - 1]});
    }
  }

  lemma DoneFirst(keys: seq<Key>, n: nat, seen: set<Key>)
    requires n <= |keys| && NoRepeats(keys) && Sorted(keys) && Done(keys, n, seen)
    ensures |seen| == n && forall x <- seen, y <- keys :: y !in seen ==> AtMost(x, y)
  {
    DoneCount(keys, n, seen);
  }

  lemma CutHere(keys: seq<Key>, n: nat, seen: set<Key>, desired: map<Key, Secret>, cancelled: nat -> bool)
    requires n < |keys| == |desired| && Lists(keys, desired.Keys) && Sorted(keys) && Done(keys, n, seen)
    requires cancelled(n) && Lasts(cancelled, n)
    ensures CutShort(desired, cancelled, seen) && !Lasts(cancelled, |desired|)
  {
    DoneFirst(keys, n, seen);
    forall x, y | x in seen && y in desired && y !in seen ensures AtMost(x, y) {
      assert y in keys;
    }
  }

  lemma NextKey(keys: seq<Key>, n: nat, seen: set<Key>, desired: map<Key, Secret>)
    requires n < |keys| && Lists(keys, desired.Keys) && Sorted(keys) && Done(keys, n, seen)
    ensures keys[n] in desired && keys[n] !in seen && forall x <- seen :: AtMost(x, keys[n])
    ensures Done(keys, n + 1, seen + {keys[n]})
  {
    assert keys[n] in keys;
  }

  lemma AllDone(keys: seq<Key>, seen: set<Key>, desired: map<Key, Secret>)
    requires Lists(keys, desired.Keys) && Done(keys, |keys|, seen)
    ensures seen == desired.Keys
  {
    assert forall k <- desired :: k in keys;
  }

  /** The store could be asked about `k`, and holds exactly the desired value. */
  ghost predicate Confirmed(b: Behaviour, before: map<Key, Secret>, desired: map<Key, Secret>, k: Key)
    requires k in desired
  {
    b.comparer && k !in b.badCompare && k in before && before[k] == desired[k]
  }

  /** Names the store reserves are never written or deleted, and keep what they hold. */
  ghost predicate RespectsReserved(b: Behaviour, before: map<Key, Secret>, r: Report, after: map<Key, Secret>) {
    forall k <- b.reserved ::
      && k !in r.written && k !in r.deleted
      && (k in after <==> k in before) && (k in after && k in before ==> after[k] == before[k])
  }

  /** Which list each desired key ends in, and what was deleted, once the writes are done. */
  ghost predicate EndsInLists(b: Behaviour, before: map<Key, Secret>, desired: map<Key, Secret>, o: Options, r: Report,
                        err: Option<SyncError>) {
    && (forall k <- desired ::
          && (k in r.skipped <==> k in b.reserved)
          && (k in r.kept <==> k !in b.reserved && Confirmed(b, before, desired, k))
          && (k !in b.reserved && !Confirmed(b, before, desired, k) ==>
                && (k in r.written || k in r.failed)
                && (k in r.failed <==> !o.dryRun && k in b.badSet)
                && (k in r.written <==> o.dryRun || k !in b.badSet)))
    && (forall k :: k in r.written || k in r.kept || k in r.skipped ==> k in desired)
    && (o.prune && err != Some(ListFailed) ==>
          forall k :: k in r.deleted <==> && k in before && k !in desired && k !in b.reserved
                                          && (o.dryRun || k !in b.badDelete))
    && (o.prune && err != Some(ListFailed) ==>
          forall k :: k !in desired ==>
            (k in r.failed <==> k in before && k !in b.reserved && !o.dryRun && k in b.badDelete))
    && (!o.prune ==> r.deleted == [] && r.failed <= desired.Keys)
  }

  /** What a cancelled sync has done so far, it has done as it should. */
  ghost predicate ListsSoFar(b: Behaviour, before: map<Key, Secret>, desired: map<Key, Secret>, r: Report) {
    && (forall k <- r.kept :: k in desired && k !in b.reserved && Confirmed(b, before, desired, k))
    && (forall k <- r.skipped :: k in desired && k in b.reserved)
    && (forall k <- r.written :: k in desired && k !in b.reserved && !Confirmed(b, before, desired, k))
  }

  lemma AccountedRespects(b: Behaviour, before: map<Key, Secret>, desired: map<Key, Secret>, dryRun: bool,
                          done: set<Key>, r: Report, after: map<Key, Secret>)
    requires Accounted(b, before, desired, dryRun, done, r) && StoreFits(before, desired, dryRun, r, after)
    requires forall k <- r.deleted :: k !in b.reserved
    ensures RespectsReserved(b, before, r, after) && ListsSoFar(b, before, desired, r)
  {
  }

  /** The write loop. `cancelled(n)` is the context having ended before the `n`-th key. */
  method SyncDesired(store: Store, desired: map<Key, Secret>, dryRun: bool, cancelled: nat -> bool, r0: Report)
    returns (r: Report, done: bool, ghost seen: set<Key>)
    requires r0.written == r0.kept == r0.skipped == r0.deleted == [] && r0.failed == {}
    modifies store
    ensures done <==> Lasts(cancelled, |desired|)
    ensures Underway(store.b, old(store.values), desired, dryRun, seen, r, store.values)
    ensures if done then seen == desired.Keys else CutShort(desired, cancelled, seen)
    ensures r.provisioned == r0.provisioned
    ensures RespectsReserved(store.b, old(store.values), r, store.values)
    ensures ListsSoFar(store.b, old(store.values), desired, r)
  {
    r, seen := r0, {};
    ghost var before := store.values;
    var keys := SortedKeys(desired.Keys);
    assert |keys| == |desired|;
    for i := 0 to |keys|
      invariant Done(keys, i, seen) && Lasts(cancelled, i)
      invariant Underway(store.b, before, desired, dryRun, seen, r, store.values)
      invariant r.provisioned == r0.provisioned
    {
      if cancelled(i) {
        CutHere(keys, i, seen, desired, cancelled);
        AccountedRespects(store.b, before, desired, dryRun, seen, r, store.values);
        return r, false, seen;
      }
      var k := keys[i];
      NextKey(keys, i, seen, desired);
      r := SettleKey(store, k, desired, dryRun, before, seen, r);
      seen := seen + {k};
    }
    AllDone(keys, seen, desired);
    AccountedRespects(store.b, before, desired, dryRun, seen, r, store.values);
    return r, true, seen;
  }

  /** What a prune does with one live name. */
  function PruneNote(b: Behaviour, desired: map<Key, Secret>, dryRun: bool, r: Report, k: Key): Report {
    if k in desired || k in b.reserved then r
    else if !dryRun && k in b.badDelete then r.(failed := r.failed + {k})
    else r.(deleted := r.deleted + [k])
  }

  lemma NamePruned(b: Behaviour, before: map<Key, Secret>, desired: map<Key, Secret>, dryRun: bool,
                   seen: set<Key>, r: Report, k: Key, now: map<Key, Secret>)
    requires Pruned(b, before, desired, dryRun, seen, r) && k !in seen && (k in before || k in desired)
    requires StoreFits(before, desired, dryRun, r, now)
    ensures var r' := PruneNote(b, desired, dryRun, r, k);
            && Pruned(b, before, desired, dryRun, seen + {k}, r')
            && StoreFits(before, desired, dryRun, r', if r'.deleted != r.deleted && !dryRun then now - {k} else now)
            && r'.failed * desired.Keys == r.failed * desired.Keys
  {
  }

  /** Where the prune loop stands once the names in `seen` have had their turn. */
  ghost predicate Pruning(b: Behaviour, before: map<Key, Secret>, desired: map<Key, Secret>, dryRun: bool,
                          seen: set<Key>, r0: Report, r: Report, now: map<Key, Secret>) {
    && Pruned(b, before, desired, dryRun, seen, r)
    && StoreFits(before, desired, dryRun, r, now)
    && r.failed * desired.Keys == r0.failed
    && r.written == r0.written && r.kept == r0.kept && r.skipped == r0.skipped && r.provisioned == r0.provisioned
  }

  /** One turn of the prune loop. */
  method PruneName(store: Store, k: Key, desired: map<Key, Secret>, dryRun: bool,
                   ghost before: map<Key, Secret>, ghost seen: set<Key>, ghost r0: Report, r: Report)
    returns (r': Report)
    requires k !in seen && (k in before || k in desired)
    requires Pruning(store.b, before, desired, dryRun, seen, r0, r, store.values)
    modifies store
    ensures Pruning(store.b, before, desired, dryRun, seen + {k}, r0, r', store.values)
  {
    NamePruned(store.b, before, desired, dryRun, seen, r, k, store.values);
    if k in desired || k in store.b.reserved {
      return r;
    }
    if dryRun {
      return r.(deleted := r.deleted + [k]);
    }
    var ok := store.Delete(k);
    if !ok {
      return r.(failed := r.failed + {k});
    }
    return r.(deleted := r.deleted + [k]);
  }

  /** `prune`: removes what the store holds and nobody wants. */
  method Prune(store: Store, desired: map<Key, Secret>, dryRun: bool, ghost before: map<Key, Secret>, r0: Report)
    returns (r: Report, listed: bool)
    requires r0.deleted == [] && r0.failed <= desired.Keys
    requires StoreFits(before, desired, dryRun, r0, store.values)
    modifies store
    ensures listed <==> !store.b.badList
    ensures !listed ==> r == r0 && store.values == old(store.values)
    ensures r.written == r0.written && r.kept == r0.kept && r.skipped == r0.skipped && r.provisioned == r0.provisioned
    ensures r.failed * desired.Keys == r0.failed
    ensures listed ==> Pruned(store.b, before, desired, dryRun, before.Keys, r)
    ensures listed ==> forall k ::
              k in r.deleted <==> && k in before && k !in desired && k !in store.b.reserved
                                  && (dryRun || k !in store.b.badDelete)
    ensures listed ==> forall k :: k !in desired ==>
              (k in r.failed <==> k in before && k !in store.b.reserved && !dryRun && k in store.b.badDelete)
    ensures StoreFits(before, desired, dryRun, r, store.values)
  {
    r := r0;
    var live := store.List();
    if live.None? {
      return r, false;
    }
    var names := live.value;
    ListsSet(names, store.values.Keys);
    HeldIsKnown(before, desired, dryRun, r0, store.values);
    ghost var held := store.values.Keys;
    ghost var seen: set<Key> := {};
    for i := 0 to |names|
      invariant seen <= held && forall j :: 0 <= j < |names| ==> (names[j] in seen <==> j < i)
      invariant Pruning(store.b, before, desired, dryRun, seen, r0, r, store.values)
    {
      var k := names[i];
      assert k in names;
      r := PruneName(store, k, desired, dryRun, before, seen, r0, r);
      seen := seen + {k};
    }
    assert forall k <- held :: k in names;
    assert seen == held;
    return r, true;
  }

  /** After the writes the store holds what it held, and desired keys. */
  lemma HeldIsKnown(before: map<Key, Secret>, desired: map<Key, Secret>, dryRun: bool, r: Report, now: map<Key, Secret>)
    requires StoreFits(before, desired, dryRun, r, now) && r.deleted == []
    ensures forall k :: k !in desired ==> (k in now <==> k in before)
    ensures forall k :: k in now ==> k in before || k in desired
  {
  }

  /** The target environment is there, or need not be. */
  predicate Ready(b: Behaviour, o: Options) {
    o.provision ==> b.provisioner && (o.dryRun || !b.badEnsure)
  }

  /** What a sync promises of its report, its error and the store, whatever fails. */
  ghost predicate Synced(b: Behaviour, before: map<Key, Secret>, desired: map<Key, Secret>, o: Options,
                         cancelled: nat -> bool, r: Report, err: Option<SyncError>, after: map<Key, Secret>) {
    && (err == Some(CannotProvision) <==> o.provision && !b.provisioner)
    && (err == Some(EnsureFailed) <==> o.provision && b.provisioner && !o.dryRun && b.badEnsure)
    && (err == Some(Cancelled) <==> Ready(b, o) && !Lasts(cancelled, |desired|))
    && (err == Some(ListFailed) <==> Ready(b, o) && Lasts(cancelled, |desired|) && o.prune && b.badList)
    && (err == Some(Incomplete) ==> r.failed != {})
    && (err == None ==> r.failed == {})
    && (r.provisioned <==> o.provision && b.provisioner && (o.dryRun || !b.badEnsure))
    && (!Ready(b, o) ==> r == Report([], [], [], [], {}, false))
    && Sorted(r.written) && Sorted(r.kept) && Sorted(r.skipped)
    && StoreFits(before, desired, o.dryRun, r, after)
    && (err == Some(Cancelled) ==>
          exists seen :: CutShort(desired, cancelled, seen) && Underway(b, before, desired, o.dryRun, seen, r, after))
    && (WroteAll(err) ==> Accounted(b, before, desired, o.dryRun, desired.Keys, r))
    && (WroteAll(err) && (!o.prune || err == Some(ListFailed)) ==> r.deleted == [] && r.failed <= desired.Keys)
    && (WroteAll(err) && o.prune && err != Some(ListFailed) ==> Pruned(b, before, desired, o.dryRun, before.Keys, r))
  }

  /** The write loop got to its end. */
  predicate WroteAll(err: Option<SyncError>) {
    err.None? || err.value.Incomplete? || err.value.ListFailed?
  }

  lemma EarlyEndRespects(b: Behaviour, before: map<Key, Secret>, desired: map<Key, Secret>, dryRun: bool, r: Report,
                         after: map<Key, Secret>)
    requires r.written == [] && r.kept == [] && r.skipped == [] && r.deleted == []
    requires StoreFits(before, desired, dryRun, r, after)
    ensures RespectsReserved(b, before, r, after) && ListsSoFar(b, before, desired, r)
  {
  }

  lemma SyncedRespects(b: Behaviour, before: map<Key, Secret>, desired: map<Key, Secret>, o: Options,
                       c: nat -> bool, r: Report, err: Option<SyncError>, after: map<Key, Secret>)
    requires Synced(b, before, desired, o, c, r, err, after)
    ensures RespectsReserved(b, before, r, after) && ListsSoFar(b, before, desired, r)
    ensures WroteAll(err) ==> EndsInLists(b, before, desired, o, r, err)
  {
    if WroteAll(err) {
      AccountedRespects(b, before, desired, o.dryRun, desired.Keys, r, after);
    } else if err == Some(Cancelled) {
      var seen :| CutShort(desired, c, seen) && Underway(b, before, desired, o.dryRun, seen, r, after);
      AccountedRespects(b, before, desired, o.dryRun, seen, r, after);
    } else {
      EarlyEndRespects(b, before, desired, o.dryRun, r, after);
    }
  }

  /** `Sync`. */
  method Sync(store: Store, desired: map<Key, Secret>, o: Options, cancelled: nat -> bool)
    returns (r: Report, err: Option<SyncError>)
    modifies store
    ensures Synced(store.b, old(store.values), desired, o, cancelled, r, err, store.values)
    ensures RespectsReserved(store.b, old(store.values), r, store.values)
    ensures ListsSoFar(store.b, old(store.values), desired, r)
    ensures WroteAll(err) ==> EndsInLists(store.b, old(store.values), desired, o, r, err)
  {
    r, err := SyncInOrder(store, desired, o, cancelled);
    SyncedRespects(store.b, old(store.values), desired, o, cancelled, r, err, store.values);
  }

  /** Its body: provision, write, prune. */
  method SyncInOrder(store: Store, desired: map<Key, Secret>, o: Options, cancelled: nat -> bool)
    returns (r: Report, err: Option<SyncError>)
    modifies store
    ensures Synced(store.b, old(store.values), desired, o, cancelled, r, err, store.values)
  {
    r := Report([], [], [], [], {}, false);
    if o.provision {
      if !store.b.provisioner {
        return r, Some(CannotProvision);
      }
      if !o.dryRun && store.b.badEnsure {
        return r, Some(EnsureFailed);
      }
      r := r.(provisioned := true);
    }
    ghost var before := store.values;
    var done;
    ghost var seen;
    r, done, seen := SyncDesired(store, desired, o.dryRun, cancelled, r);
    if !done {
      return r, Some(Cancelled);
    }
    if o.prune {
      var listed;
      r, listed := Prune(store, desired, o.dryRun, before, r);
      if !listed {
        return r, Some(ListFailed);
      }
    }
    if r.failed != {} {
      return r, Some(Incomplete);
    }
    return r, None;
  }

  /** What gets written, kept and skipped does not depend on pruning. */
  lemma WritesForetold(b: Behaviour, before: map<Key, Secret>, desired: map<Key, Secret>, dry: Report, wet: Report,
                       k: Key)
    requires Accounted(b, before, desired, true, desired.Keys, dry)
    requires Accounted(b, before, desired, false, desired.Keys, wet)
    ensures k in desired ==> (k in dry.written <==> k in wet.written || k in wet.failed)
    ensures k in dry.kept <==> k in wet.kept
    ensures k in dry.skipped <==> k in wet.skipped
  {
  }

  /**
   * A rehearsal and the real run, with the same options otherwise: whenever both got through their
   * writes and their listing, the rehearsal names exactly the keys the real run set or failed to set,
   * kept and skipped, and exactly the names it deleted or failed to delete; none without a prune.
   */
  lemma DryRunPredicts(b: Behaviour, before: map<Key, Secret>, desired: map<Key, Secret>, o: Options,
                       c: nat -> bool, dry: Report, dryErr: Option<SyncError>, store: map<Key, Secret>,
                       c': nat -> bool, wet: Report, wetErr: Option<SyncError>, store': map<Key, Secret>)
    requires Synced(b, before, desired, o.(dryRun := true), c, dry, dryErr, store) && WroteAll(dryErr)
    requires Synced(b, before, desired, o.(dryRun := false), c', wet, wetErr, store') && WroteAll(wetErr)
    ensures store == before
    ensures dryErr == Some(ListFailed) <==> wetErr == Some(ListFailed)
    ensures forall k <- desired :: k in dry.written <==> k in wet.written || k in wet.failed
    ensures forall k :: k in dry.kept <==> k in wet.kept
    ensures forall k :: k in dry.skipped <==> k in wet.skipped
    ensures o.prune && dryErr != Some(ListFailed) ==>
              forall k :: k in dry.deleted <==> k !in desired && (k in wet.deleted || k in wet.failed)
    ensures !o.prune || dryErr == Some(ListFailed) ==> dry.deleted == wet.deleted == [] && wet.failed <= desired.Keys
  {
    forall k
      ensures k in desired ==> (k in dry.written <==> k in wet.written || k in wet.failed)
      ensures k in dry.kept <==> k in wet.kept
      ensures k in dry.skipped <==> k in wet.skipped
    {
      WritesForetold(b, before, desired, dry, wet, k);
    }
  }

  // ----- Counting -----

  /** `Report.Accounted` (kit/secret/store.go). */
  function AccountedCount(r: Report): nat {
    |r.written| + |r.kept| + |r.skipped| + |r.failed|
  }

  /** The desired keys that meet `fate`. */
  ghost function Meeting(b: Behaviour, before: map<Key, Secret>, desired: map<Key, Secret>, dryRun: bool,
                         fate: Fate): set<Key> {
    set k | k in desired && FateOf(b, before, dryRun, k, desired[k]) == fate
  }

  lemma DisjointCount(a: set<Key>, b: set<Key>, c: set<Key>)
    requires a !! b && a + b == c
    ensures |c| == |a| + |b|
  {
    assert |a + b| == |a| + |b|;
  }

  lemma FourCount(s: set<Key>, u: set<Key>, k: set<Key>, f: set<Key>, all: set<Key>)
    requires s !! u !! k !! f && s + u + k + f == all
    ensures |s| + |u| + |k| + |f| == |all|
  {
    DisjointCount(s, u, s + u);
    DisjointCount(s + u, k, s + u + k);
    DisjointCount(s + u + k, f, all);
  }

  lemma FatesPartition(b: Behaviour, before: map<Key, Secret>, desired: map<Key, Secret>, dryRun: bool)
    ensures |Meeting(b, before, desired, dryRun, BeSet)| + |Meeting(b, before, desired, dryRun, BeUnchanged)|
            + |Meeting(b, before, desired, dryRun, BeSkipped)| + |Meeting(b, before, desired, dryRun, BeFailed)|
            == |desired|
  {
    var s, u := Meeting(b, before, desired, dryRun, BeSet), Meeting(b, before, desired, dryRun, BeUnchanged);
    var k, f := Meeting(b, before, desired, dryRun, BeSkipped), Meeting(b, before, desired, dryRun, BeFailed);
    FatesCover(b, before, desired, dryRun);
    FourCount(s, u, k, f, desired.Keys);
    assert |desired.Keys| == |desired|;
  }

  lemma FatesCover(b: Behaviour, before: map<Key, Secret>, desired: map<Key, Secret>, dryRun: bool)
    ensures Meeting(b, before, desired, dryRun, BeSet) !! Meeting(b, before, desired, dryRun, BeUnchanged)
            !! Meeting(b, before, desired, dryRun, BeSkipped) !! Meeting(b, before, desired, dryRun, BeFailed)
    ensures Meeting(b, before, desired, dryRun, BeSet) + Meeting(b, before, desired, dryRun, BeUnchanged)
            + Meeting(b, before, desired, dryRun, BeSkipped) + Meeting(b, before, desired, dryRun, BeFailed)
            == desired.Keys
  {
    forall x ensures x in desired ==> exists fate :: x in Meeting(b, before, desired, dryRun, fate) {
      if x in desired {
        assert x in Meeting(b, before, desired, dryRun, FateOf(b, before, dryRun, x, desired[x]));
      }
    }
  }

  /** Which lists an accounted report is made of. */
  lemma ListsMeet(b: Behaviour, before: map<Key, Secret>, desired: map<Key, Secret>, dryRun: bool, r: Report)
    requires Accounted(b, before, desired, dryRun, desired.Keys, r)
    ensures Lists(r.written, Meeting(b, before, desired, dryRun, BeSet))
    ensures Lists(r.kept, Meeting(b, before, desired, dryRun, BeUnchanged))
    ensures Lists(r.skipped, Meeting(b, before, desired, dryRun, BeSkipped))
    ensures r.failed * desired.Keys == Meeting(b, before, desired, dryRun, BeFailed)
  {
  }

  lemma SplitCount(s: set<Key>, d: set<Key>)
    ensures |s| == |s * d| + |s - d| && (|s - d| == 0 <==> s <= d)
  {
    DisjointCount(s * d, s - d, s);
    assert s - d == {} <==> s <= d;
  }

  /** Beside the desired keys the count holds the names whose deletion failed. */
  lemma AccountedCounts(b: Behaviour, before: map<Key, Secret>, desired: map<Key, Secret>, dryRun: bool, r: Report)
    requires Accounted(b, before, desired, dryRun, desired.Keys, r)
    ensures AccountedCount(r) == |desired| + |r.failed - desired.Keys|
    ensures AccountedCount(r) == |desired| <==> r.failed <= desired.Keys
  {
    ListsMeet(b, before, desired, dryRun, r);
    ListCount(r.written, Meeting(b, before, desired, dryRun, BeSet));
    ListCount(r.kept, Meeting(b, before, desired, dryRun, BeUnchanged));
    ListCount(r.skipped, Meeting(b, before, desired, dryRun, BeSkipped));
    FatesPartition(b, before, desired, dryRun);
    SplitCount(r.failed, desired.Keys);
  }

  /** The count is that of the desired keys exactly when the prune failed to delete nothing. */
  lemma CountIsExactIff(b: Behaviour, before: map<Key, Secret>, desired: map<Key, Secret>, o: Options,
                        c: nat -> bool, r: Report, err: Option<SyncError>, store: map<Key, Secret>)
    requires Synced(b, before, desired, o, c, r, err, store) && WroteAll(err)
    ensures AccountedCount(r) == |desired| <==>
              !(o.prune && !o.dryRun && err != Some(ListFailed)
                && exists k <- before :: Unwanted(b, before, desired, k) && k in b.badDelete)
  {
    AccountedCounts(b, before, desired, o.dryRun, r);
  }

  /** Each desired key is in exactly one of the four lists. */
  lemma ExactlyOneFate(b: Behaviour, before: map<Key, Secret>, desired: map<Key, Secret>, dryRun: bool, r: Report,
                       k: Key)
    requires Accounted(b, before, desired, dryRun, desired.Keys, r) && k in desired
    ensures k in r.written || k in r.kept || k in r.skipped || k in r.failed
    ensures !(k in r.written && k in r.kept) && !(k in r.written && k in r.skipped)
    ensures !(k in r.written && k in r.failed)
    ensures !(k in r.kept && k in r.skipped) && !(k in r.kept && k in r.failed) && !(k in r.skipped && k in r.failed)
  {
  }
}
