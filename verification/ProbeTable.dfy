/**
 Open addressing with linear probing, on the two parallel arrays of the inode set seen as
 sequences: which keys a table holds, and why a search may stop at the first free slot
 (src/file/bc_io_file_inode.c:41-49, 118-132, 149-180).
 */
module ProbeTable {
  import opened BitMask

  datatype Key = Key(device: nat, inode: nat)

  const GOLDEN: nat := 0x9E37_79B9_7F4A_7C15
  const MULTIPLIER: nat := 0xff51_afd7_ed55_8ccd

  /** The 64-bit mixing steps of the hash, before it is masked. */
  function Mix(key: Key): nat {
    var a := Wrap(key.device * GOLDEN);
    var b := BitXor(a, Wrap(key.inode + GOLDEN + Wrap(a * 64) + a / 4));
    var c := Wrap(BitXor(b, b / 0x2_0000_0000) * MULTIPLIER);
    BitXor(c, c / 0x2_0000_0000)
  }

  /** The slot at which the search for a key starts. */
  function Home(key: Key, capacity: nat): (slot: nat)
    requires PowerOfTwo(capacity)
    ensures slot < capacity && slot == Mix(key) % capacity
  {
    MaskIsModulo(Mix(key), capacity);
    BitAnd(Mix(key), capacity - 1)
  }

  /** The slot probed after `slot`. */
  function Next(slot: nat, capacity: nat): (next: nat)
    requires PowerOfTwo(capacity) && slot < capacity
    ensures next == if slot + 1 == capacity then 0 else slot + 1
  {
    MaskIsModulo(slot + 1, capacity);
    ModuloIsUnique(slot + 1, capacity, if slot + 1 == capacity then 1 else 0, if slot + 1 == capacity then 0 else slot + 1);
    BitAnd(slot + 1, capacity - 1)
  }

  /** Going round from `from`, slot `j` comes strictly before slot `to`. */
  predicate Before(from: nat, j: nat, to: nat) {
    if from <= to then from <= j < to else j >= from || j < to
  }

  /** How many probes it takes from `from` to `to`. */
  function Distance(from: nat, to: nat, capacity: nat): int {
    if from <= to then to - from else to - from + capacity
  }

  /** Every key can be reached from its home slot without crossing a free slot. */
  ghost predicate Chained(entries: seq<Key>, used: seq<bool>)
    requires |entries| == |used| && PowerOfTwo(|used|)
  {
    forall i, j :: 0 <= i < |used| && 0 <= j < |used| && used[i] && Before(Home(entries[i], |used|), j, i) ==> used[j]
  }

  ghost predicate Distinct(entries: seq<Key>, used: seq<bool>)
    requires |entries| == |used|
  {
    forall i, j :: 0 <= i < j < |used| && used[i] && used[j] ==> entries[i] != entries[j]
  }

  ghost predicate Table(entries: seq<Key>, used: seq<bool>) {
    |entries| == |used| && PowerOfTwo(|used|) && Chained(entries, used) && Distinct(entries, used)
  }

  ghost function Members(entries: seq<Key>, used: seq<bool>): set<Key>
    requires |entries| == |used|
  {
    set i | 0 <= i < |used| && used[i] :: entries[i]
  }

  ghost function CountUsed(used: seq<bool>): nat {
    if used == [] then 0 else CountUsed(used[..|used| - 1]) + if used[|used| - 1] then 1 else 0
  }

  // ---------- searching ----------

  /** All slots from the key's home up to `slot` are taken by other keys. */
  ghost predicate Passed(entries: seq<Key>, used: seq<bool>, key: Key, slot: nat)
    requires |entries| == |used| && PowerOfTwo(|used|)
  {
    forall j :: 0 <= j < |used| && Before(Home(key, |used|), j, slot) ==> used[j] && entries[j] != key
  }

  /** `slot` is the first free one from the key's home on. */
  ghost predicate FirstFree(used: seq<bool>, key: Key, slot: nat)
    requires PowerOfTwo(|used|)
  {
    slot < |used| && !used[slot] && forall j :: 0 <= j < |used| && Before(Home(key, |used|), j, slot) ==> used[j]
  }

  /** A search that reaches a free slot has not missed the key. */
  lemma FreeSlotEndsSearch(entries: seq<Key>, used: seq<bool>, key: Key, slot: nat)
    requires Table(entries, used) && slot < |used| && !used[slot] && Passed(entries, used, key, slot)
    ensures key !in Members(entries, used)
  {
    forall i | 0 <= i < |used| && used[i]
      ensures entries[i] != key
    {
      var home := Home(key, |used|);
      if entries[i] == key {
        assert !Before(home, slot, i);
        assert Before(home, i, slot);
      }
    }
  }

  /** One more probe: the walk gets closer to any free slot it has not reached. */
  lemma ProbeAdvances(entries: seq<Key>, used: seq<bool>, key: Key, slot: nat, free: nat)
    requires |entries| == |used| && PowerOfTwo(|used|) && slot < |used| && free < |used|
    requires Passed(entries, used, key, slot) && used[slot] && entries[slot] != key && !used[free]
    requires Distance(Home(key, |used|), slot, |used|) <= Distance(Home(key, |used|), free, |used|)
    ensures Passed(entries, used, key, Next(slot, |used|))
    ensures Distance(Home(key, |used|), slot, |used|) + 1 == Distance(Home(key, |used|), Next(slot, |used|), |used|)
    ensures Distance(Home(key, |used|), Next(slot, |used|), |used|) <= Distance(Home(key, |used|), free, |used|)
  {
    var n := |used|;
    var home, next := Home(key, n), Next(slot, n);
    assert Distance(home, slot, n) < Distance(home, free, n) < n;
    forall j | 0 <= j < n && Before(home, j, next)
      ensures used[j] && entries[j] != key
    {
      assert j == slot || Before(home, j, slot);
    }
  }

  // ---------- counting ----------

  lemma {:induction false} CountAll(used: seq<bool>)
    ensures CountUsed(used) <= |used|
    ensures CountUsed(used) < |used| ==> exists i :: 0 <= i < |used| && !used[i]
  {
    if used != [] {
      var init := used[..|used| - 1];
      CountAll(init);
      if CountUsed(init) < |init| {
        var i :| 0 <= i < |init| && !init[i];
        assert !used[i];
      }
    }
  }

  lemma {:induction false} CountSet(used: seq<bool>, slot: nat)
    requires slot < |used| && !used[slot]
    ensures CountUsed(used[slot := true]) == CountUsed(used) + 1
  {
    var n := |used| - 1;
    if slot == n {
      assert used[slot := true][..n] == used[..n];
    } else {
      assert used[slot := true][..n] == used[..n][slot := true];
      CountSet(used[..n], slot);
    }
  }

  lemma {:induction false} CountNone(used: seq<bool>)
    requires forall i :: 0 <= i < |used| ==> !used[i]
    ensures CountUsed(used) == 0
  {
    if used != [] {
      CountNone(used[..|used| - 1]);
    }
  }

  // ---------- placing ----------

  /** A key put into the free slot its search ends at extends the table by exactly that key. */
  lemma PlaceKey(entries: seq<Key>, used: seq<bool>, key: Key, slot: nat)
    requires Table(entries, used) && FirstFree(used, key, slot)
    requires key !in Members(entries, used)
    ensures Table(entries[slot := key], used[slot := true])
    ensures Members(entries[slot := key], used[slot := true]) == Members(entries, used) + {key}
    ensures CountUsed(used[slot := true]) == CountUsed(used) + 1
  {
    CountSet(used, slot);
    PlaceKeepsMembers(entries, used, key, slot);
  }

  lemma PlaceKeepsMembers(entries: seq<Key>, used: seq<bool>, key: Key, slot: nat)
    requires |entries| == |used| && slot < |used| && !used[slot]
    ensures Members(entries[slot := key], used[slot := true]) == Members(entries, used) + {key}
  {
    var entries', used' := entries[slot := key], used[slot := true];
    forall k | k in Members(entries, used) + {key}
      ensures k in Members(entries', used')
    {
      if k == key {
        assert used'[slot] && entries'[slot] == k;
      } else {
        var i :| 0 <= i < |used| && used[i] && entries[i] == k;
        assert used'[i] && entries'[i] == k;
      }
    }
  }
}
