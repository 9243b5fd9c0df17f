/**
 The inode set (src/file/bc_io_file_inode.c): an open-addressing hash table of
 (device, inode) pairs that grows at three-quarters load, proved to be a mathematical set.
 */
module InodeSet {
  import opened BitMask
  import opened ProbeTable

  const DEFAULT_CAPACITY: nat := 8192
  const ENTRY_SIZE: nat := 16
  const HIGHEST_POWER: nat := 0x8000_0000_0000_0000

  // ---------- rounding a capacity up ----------

  /** The least power of two that is at least two and at least `value`. */
  method RoundUpToPowerOfTwo(value: nat) returns (result: nat)
    requires value <= HIGHEST_POWER
    ensures PowerOfTwo(result) && 2 <= result && value <= result
    ensures forall p :: PowerOfTwo(p) && 2 <= p && value <= p ==> result <= p
  {
    if value < 2 {
      return 2;
    }
    result := 1;
    while result < value
      invariant PowerOfTwo(result)
      invariant forall p :: PowerOfTwo(p) && value <= p ==> result <= p
      decreases value - result
    {
      forall p | PowerOfTwo(p) && value <= p ensures result * 2 <= p {
        PowersAreApart(result, p);
      }
      DoublePower(result);
      result := Wrap(result * 2);
    }
  }

  /** The values the rounding loop goes through, shifted left in a 64-bit register. */
  function Shifted(k: nat): nat {
    if k == 0 then 1 else Wrap(2 * Shifted(k - 1))
  }

  function Pow2(k: nat): nat {
    if k == 0 then 1 else 2 * Pow2(k - 1)
  }

  lemma {:induction false} Pow2Sum(a: nat, b: nat)
    ensures Pow2(a + b) == Pow2(a) * Pow2(b)
  {
    if a > 0 {
      Pow2Sum(a - 1, b);
      assert a + b - 1 == a - 1 + b;
    }
  }

  lemma Pow2Of16()
    ensures Pow2(16) == 0x1_0000
  {
    assert Pow2(4) == 16;
    Pow2Sum(4, 4);
    Pow2Sum(8, 8);
  }

  lemma Pow2Of48()
    ensures Pow2(48) == 0x1_0000_0000_0000
  {
    Pow2Of16();
    Pow2Sum(16, 16);
    Pow2Sum(32, 16);
  }

  lemma Pow2Of63()
    ensures Pow2(63) == HIGHEST_POWER
  {
    Pow2Of48();
    Pow2Of16();
    Pow2Sum(48, 15);
    assert Pow2(16) == 2 * Pow2(15);
  }

  lemma {:induction false} ShiftedIsPower(k: nat)
    ensures k <= 63 ==> Shifted(k) == Pow2(k) <= HIGHEST_POWER
    ensures k > 63 ==> Shifted(k) == 0
  {
    Pow2Of63();
    if 0 < k {
      ShiftedIsPower(k - 1);
      assert Wrap(2 * HIGHEST_POWER) == 0 && Wrap(0) == 0;
      hide Wrap;
      if k <= 63 {
        Pow2IsMonotone(k, 63);
      } else if k == 64 {
        assert Shifted(63) == HIGHEST_POWER;
      }
    }
  }

  lemma {:induction false} Pow2IsMonotone(j: nat, k: nat)
    requires j <= k
    ensures Pow2(j) <= Pow2(k)
    decreases k
  {
    if j < k {
      Pow2IsMonotone(j, k - 1);
    }
  }

  /** The rounding loop ends exactly for values up to 2^63; above, the register becomes zero first. */
  lemma RoundingEnds(value: nat)
    ensures (exists k :: Shifted(k) >= value) <==> value <= HIGHEST_POWER
  {
    Pow2Of63();
    ShiftedIsPower(63);
    assert Shifted(63) == HIGHEST_POWER;
    if k: nat :| Shifted(k) >= value {
      ShiftedIsPower(k);
    }
  }

  // ---------- buckets ----------

  /** Whether the bucket size in bytes can be computed without wrapping. */
  predicate BucketsFit(capacity: nat): (fits: bool)
    ensures fits <==> 17 * capacity <= 0xFFFF_FFFF_FFFF_FFFF
  {
    ENTRY_SIZE * capacity + capacity <= SIZE_MAX
  }

  /** One zeroed block for both arrays; fails when its size wraps or there is no memory. */
  method AllocateBuckets(capacity: nat, memory: bool)
    returns (ok: bool, entries: array<Key>, occupied: array<bool>)
    ensures ok <==> 17 * capacity <= 0xFFFF_FFFF_FFFF_FFFF && memory
    ensures fresh(entries) && fresh(occupied)
    ensures ok ==> entries.Length == occupied.Length == capacity
    ensures ok ==> forall i :: 0 <= i < capacity ==> !occupied[i]
  {
    var entriesSize := ENTRY_SIZE * capacity;
    ok := entriesSize <= SIZE_MAX && entriesSize + capacity <= SIZE_MAX && memory;
    var n := if ok then capacity else 0;
    entries := new Key[n](_ => Key(0, 0));
    occupied := new bool[n](_ => false);
  }

  /** Puts a key the table does not hold into the first free slot from its home, comparing no keys. */
  method Reinsert(entries: array<Key>, occupied: array<bool>, key: Key)
    requires Table(entries[..], occupied[..]) && key !in Members(entries[..], occupied[..])
    requires CountUsed(occupied[..]) < occupied.Length
    modifies entries, occupied
    ensures Table(entries[..], occupied[..])
    ensures Members(entries[..], occupied[..]) == old(Members(entries[..], occupied[..])) + {key}
    ensures CountUsed(occupied[..]) == old(CountUsed(occupied[..])) + 1
  {
    var slot := FindFree(entries, occupied, key);
    Put(entries, occupied, key, slot);
  }

  /** Writes a new key into the free slot its search ended at. */
  method Put(entries: array<Key>, occupied: array<bool>, key: Key, slot: nat)
    requires Table(entries[..], occupied[..]) && key !in Members(entries[..], occupied[..])
    requires FirstFree(occupied[..], key, slot)
    modifies entries, occupied
    ensures Table(entries[..], occupied[..])
    ensures Members(entries[..], occupied[..]) == old(Members(entries[..], occupied[..])) + {key}
    ensures CountUsed(occupied[..]) == old(CountUsed(occupied[..])) + 1
  {
    PlaceKey(entries[..], occupied[..], key, slot);
    ghost var entries', used' := entries[..][slot := key], occupied[..][slot := true];
    entries[slot] := key;
    occupied[slot] := true;
    assert entries[..] == entries' && occupied[..] == used';
  }

  method FindFree(entries: array<Key>, occupied: array<bool>, key: Key) returns (slot: nat)
    requires Table(entries[..], occupied[..]) && key !in Members(entries[..], occupied[..])
    requires CountUsed(occupied[..]) < occupied.Length
    ensures FirstFree(occupied[..], key, slot)
  {
    var n := occupied.Length;
    ghost var used := occupied[..];
    CountAll(used);
    ghost var free :| 0 <= free < n && !used[free];
    slot := Home(key, n);
    while occupied[slot]
      invariant slot < n && Passed(entries[..], used, key, slot)
      invariant ProbeTable.Distance(Home(key, n), slot, n) <= ProbeTable.Distance(Home(key, n), free, n)
      decreases ProbeTable.Distance(Home(key, n), free, n) - ProbeTable.Distance(Home(key, n), slot, n)
    {
      assert entries[slot] in Members(entries[..], used);
      ProbeAdvances(entries[..], used, key, slot, free);
      slot := Next(slot, n);
    }
  }

  // ---------- the set ----------

  class InodeSet {
    var entries: array<Key>
    var occupied: array<bool>
    var capacity: nat
    var size: nat

    // the abstract value, and what the growth bounds refer to
    ghost var members: set<Key>
    ghost var initialCapacity: nat
    ghost var peakSize: nat
    ghost var slotsScanned: nat

    ghost predicate Valid()
      reads this, entries, occupied
    {
      && entries.Length == occupied.Length == capacity
      && Table(entries[..], occupied[..])
      && members == Members(entries[..], occupied[..])
      && size == CountUsed(occupied[..]) == |members|
      && Bounded()
    }

    /** The set as its callers see it. */
    ghost function View(): Abstract
      reads this
    {
      Abstract(members, capacity)
    }

    /** Load factor, sizes that do not wrap, and the cost of growing. */
    ghost predicate Bounded()
      reads this
    {
      && 2 <= initialCapacity <= capacity
      && size * 4 <= capacity * 3
      && BucketsFit(capacity)
      && size <= peakSize
      && (capacity == initialCapacity || 3 * capacity < 8 * (peakSize + 1))
      && slotsScanned == capacity - initialCapacity
    }

    constructor (capacity: nat, entries: array<Key>, occupied: array<bool>)
      requires PowerOfTwo(capacity) && 2 <= capacity && BucketsFit(capacity)
      requires entries.Length == occupied.Length == capacity
      requires forall i :: 0 <= i < capacity ==> !occupied[i]
      ensures Valid() && members == {} && size == peakSize == 0
      ensures this.capacity == initialCapacity == capacity && this.entries == entries && this.occupied == occupied
    {
      this.capacity := capacity;
      this.size := 0;
      this.entries := entries;
      this.occupied := occupied;
      members := {};
      initialCapacity, peakSize, slotsScanned := capacity, 0, 0;
      new;
      CountNone(occupied[..]);
    }

    /**
     bc_io_file_inode_set_create: the requested capacity, or the default for zero, rounded
     up to a power of two. `wanted` is the rounded capacity.
     */
    static method Create(requested: nat, structMemory: bool, bucketMemory: bool)
      returns (created: InodeSet?, ghost wanted: nat)
      requires requested <= HIGHEST_POWER
      ensures PowerOfTwo(wanted) && 2 <= wanted
      ensures var least := if requested == 0 then 8192 else requested;
              least <= wanted && forall p :: PowerOfTwo(p) && 2 <= p && least <= p ==> wanted <= p
      ensures created == null <==> !(structMemory && bucketMemory && BucketsFit(wanted))
      ensures created != null ==> created.Valid() && created.members == {} && created.capacity == wanted && created.peakSize == 0
      ensures created != null ==> fresh(created) && fresh(created.entries) && fresh(created.occupied)
    {
      var capacity := RoundUpToPowerOfTwo(if requested == 0 then DEFAULT_CAPACITY else requested);
      wanted := capacity;
      if !structMemory {
        return null, wanted;
      }
      var ok, entries, occupied := AllocateBuckets(capacity, bucketMemory);
      if !ok {
        return null, wanted;
      }
      created := new InodeSet(capacity, entries, occupied);
    }

    /** Doubles the table and moves every key. */
    method Grow(memory: bool) returns (ok: bool)
      requires Valid() && (size + 1) * 4 > capacity * 3
      modifies this
      ensures Valid() && members == old(members) && size == old(size)
      ensures peakSize == old(peakSize) && initialCapacity == old(initialCapacity)
      ensures ok <==> memory && BucketsFit(2 * old(capacity))
      ensures ok ==> capacity == 2 * old(capacity) && fresh(entries) && fresh(occupied)
      ensures !ok ==> capacity == old(capacity) && entries == old(entries) && occupied == old(occupied)
    {
      hide Members, CountUsed, Chained, Distinct;
      var newCapacity := Wrap(capacity * 2);
      DoublePower(capacity);
      var newEntries, newOccupied;
      ok, newEntries, newOccupied := AllocateBuckets(newCapacity, memory);
      if !ok {
        return;
      }
      Rehash(entries, occupied, newEntries, newOccupied);
      slotsScanned := slotsScanned + capacity;
      entries := newEntries;
      occupied := newOccupied;
      capacity := newCapacity;
    }

    /** The probe loop of insert and contains: stops at the key or at the first free slot. */
    method Find(key: Key) returns (found: bool, slot: nat)
      requires Valid()
      ensures found <==> key in members
      ensures found ==> slot < capacity && occupied[slot] && entries[slot] == key
      ensures !found ==> FirstFree(occupied[..], key, slot)
    {
      ghost var keys, used := entries[..], occupied[..];
      CountAll(used);
      ghost var free :| 0 <= free < capacity && !used[free];
      slot := Home(key, capacity);
      while occupied[slot]
        invariant slot < capacity && Passed(keys, used, key, slot)
        invariant Distance(Home(key, capacity), slot, capacity) <= Distance(Home(key, capacity), free, capacity)
        decreases Distance(Home(key, capacity), free, capacity) - Distance(Home(key, capacity), slot, capacity)
      {
        if entries[slot] == key {
          assert keys[slot] in Members(keys, used);
          return true, slot;
        }
        ProbeAdvances(keys, used, key, slot, free);
        slot := Next(slot, capacity);
      }
      FreeSlotEndsSearch(keys, used, key, slot);
      return false, slot;
    }

    /**
     bc_io_file_inode_set_insert. The load is checked before the presence of the key, so a
     call that needs to grow and cannot fails even for a key that is already in the set;
     a failing call leaves the set alone.
     */
    method Insert(key: Key, memory: bool) returns (ok: bool, present: bool)
      requires Valid()
      modifies this, entries, occupied
      ensures Valid() && initialCapacity == old(initialCapacity)
      ensures ok <==> (old(size) + 1) * 4 <= old(capacity) * 3 || (memory && BucketsFit(2 * old(capacity)))
      ensures ok ==> (present <==> key in old(members)) && members == old(members) + {key}
      ensures !ok ==> members == old(members)
      ensures capacity == if ok && (old(size) + 1) * 4 > old(capacity) * 3 then 2 * old(capacity) else old(capacity)
      ensures peakSize == if |members| > old(peakSize) then |members| else old(peakSize)
      ensures entries == old(entries) || fresh(entries)
      ensures occupied == old(occupied) || fresh(occupied)
    {
      hide Table, Members, CountUsed, FirstFree, BucketsFit;
      present := false;
      ok := EnsureRoom(memory);
      if !ok {
        return;
      }
      var slot;
      present, slot := Find(key);
      if !present {
        Store(key, slot);
      }
    }

    /** Whether one more key would exceed three-quarters load, in 64-bit arithmetic that does not wrap. */
    method NeedsGrowth() returns (full: bool)
      requires Valid()
      ensures full <==> (size + 1) * 4 > capacity * 3
    {
      full := Wrap(Wrap(size + 1) * 4) > Wrap(capacity * 3);
    }

    method EnsureRoom(memory: bool) returns (ok: bool)
      requires Valid()
      modifies this
      ensures Valid() && members == old(members) && size == old(size) && initialCapacity == old(initialCapacity)
      ensures ok <==> (old(size) + 1) * 4 <= old(capacity) * 3 || (memory && BucketsFit(2 * old(capacity)))
      ensures capacity == if ok && (old(size) + 1) * 4 > old(capacity) * 3 then 2 * old(capacity) else old(capacity)
      ensures if capacity == old(capacity) then entries == old(entries) && occupied == old(occupied)
              else fresh(entries) && fresh(occupied)
      ensures ok ==> (size + 1) * 4 <= capacity * 3
      ensures peakSize == old(peakSize)
    {
      ok := true;
      var full := NeedsGrowth();
      if full {
        ok := Grow(memory);
      }
    }

    /** Takes the free slot at which the search for a new key ended. */
    method Store(key: Key, slot: nat)
      requires Valid() && key !in members && (size + 1) * 4 <= capacity * 3
      requires FirstFree(occupied[..], key, slot)
      modifies this`size, this`members, this`peakSize, entries, occupied
      ensures Valid() && members == old(members) + {key}
      ensures peakSize == if |members| > old(peakSize) then |members| else old(peakSize)
    {
      hide Chained, Distinct, Home, Mix;
      size := size + 1;
      members := members + {key};
      peakSize := if peakSize < size then size else peakSize;
      Put(entries, occupied, key, slot);
    }

    /** bc_io_file_inode_set_contains. */
    method Contains(key: Key) returns (present: bool)
      requires Valid()
      ensures present <==> key in members
    {
      var slot;
      present, slot := Find(key);
    }

    /** bc_io_file_inode_set_clear: wipes the occupancy only; the old keys stay in the slots. */
    method Clear()
      requires Valid()
      modifies this`size, this`members, occupied
      ensures Valid() && members == {} && size == 0 && capacity == old(capacity)
    {
      forall i | 0 <= i < capacity {
        occupied[i] := false;
      }
      size := 0;
      members := {};
      CountNone(occupied[..]);
    }

    /** bc_io_file_inode_set_get_size. */
    method GetSize() returns (n: nat)
      requires Valid()
      ensures n == |members|
    {
      n := size;
    }
  }

  /** Reinserts every key of a table into an empty, larger one without comparing keys. */
  method Rehash(entries: array<Key>, occupied: array<bool>, newEntries: array<Key>, newOccupied: array<bool>)
    requires Table(entries[..], occupied[..])
    requires newEntries != entries && newOccupied != occupied
    requires newEntries.Length == newOccupied.Length >= occupied.Length && PowerOfTwo(newOccupied.Length)
    requires forall i :: 0 <= i < newOccupied.Length ==> !newOccupied[i]
    modifies newEntries, newOccupied
    ensures Table(newEntries[..], newOccupied[..])
    ensures Members(newEntries[..], newOccupied[..]) == Members(entries[..], occupied[..])
    ensures CountUsed(newOccupied[..]) == CountUsed(occupied[..])
  {
    ghost var keys, used := entries[..], occupied[..];
    CountNone(newOccupied[..]);
    var index := 0;
    while index < occupied.Length
      invariant 0 <= index <= occupied.Length
      invariant entries[..] == keys && occupied[..] == used
      invariant Table(newEntries[..], newOccupied[..])
      invariant Members(newEntries[..], newOccupied[..]) == Members(keys[..index], used[..index])
      invariant CountUsed(newOccupied[..]) == CountUsed(used[..index])
    {
      PrefixGrows(keys, used, index);
      if occupied[index] {
        assert entries[index] == keys[index] && used[index];
        Reinsert(newEntries, newOccupied, entries[index]);
      }
      index := index + 1;
    }
    assert keys[..index] == keys && used[..index] == used;
  }

  /** One more slot: its key, if any, is not among the keys of the slots before it. */
  lemma PrefixGrows(entries: seq<Key>, used: seq<bool>, index: nat)
    requires Table(entries, used) && index < |used|
    ensures CountUsed(used[..index + 1]) == CountUsed(used[..index]) + if used[index] then 1 else 0
    ensures CountUsed(used[..index]) <= index
    ensures Members(entries[..index + 1], used[..index + 1])
         == Members(entries[..index], used[..index]) + if used[index] then {entries[index]} else {}
    ensures used[index] ==> entries[index] !in Members(entries[..index], used[..index])
  {
    assert used[..index + 1][..index] == used[..index];
    CountAll(used[..index]);
    var before := Members(entries[..index], used[..index]);
    var added := if used[index] then {entries[index]} else {};
    forall k | k in before || k in added
      ensures k in Members(entries[..index + 1], used[..index + 1])
    {
      var i := if used[index] && k == entries[index] then index
               else (var i :| 0 <= i < index && used[i] && entries[i] == k; i);
      assert used[..index + 1][i] && entries[..index + 1][i] == k;
    }
  }

  // ---------- whole runs ----------

  /** The least power of two that is at least two and at least `value`. */
  function LeastPower(value: nat): (p: nat)
    ensures PowerOfTwo(p) && 2 <= p && value <= p
  {
    if value <= 2 then 2
    else
      var half := LeastPower((value + 1) / 2);
      DoublePower(half);
      2 * half
  }

  lemma {:induction false} LeastPowerIsLeast(value: nat, q: nat)
    requires PowerOfTwo(q) && 2 <= q && value <= q
    ensures LeastPower(value) <= q
    decreases value
  {
    if value > 2 {
      LeastPowerIsLeast((value + 1) / 2, q / 2);
    }
  }

  /** The capacity a set is created with; zero asks for the default. */
  function CapacityFor(requested: nat): (capacity: nat)
    ensures requested == 0 ==> capacity == 8192
    ensures PowerOfTwo(capacity) && 2 <= capacity && requested <= capacity
  {
    DefaultIsAPower();
    LeastPower(if requested == 0 then DEFAULT_CAPACITY else requested)
  }

  lemma DefaultIsAPower()
    ensures LeastPower(DEFAULT_CAPACITY) == 8192
  {
    assert PowerOfTwo(16);
    assert PowerOfTwo(256);
    assert PowerOfTwo(4096);
    LeastPowerIsLeast(8192, 8192);
  }

  /** Calls on a set; `memory` says whether an allocation made by the call would succeed. */
  datatype Command = DoInsert(key: Key, memory: bool) | DoContains(key: Key) | DoClear | DoGetSize
  datatype Reply = Inserted(present: bool) | NotInserted | Contained(present: bool) | Cleared | Size(size: nat)

  /** What a caller can know of a set: a mathematical set, and how many slots it has. */
  datatype Abstract = Abstract(members: set<Key>, capacity: nat)

  /** One more key would exceed three-quarters load. */
  predicate Full(a: Abstract) {
    (|a.members| + 1) * 4 > a.capacity * 3
  }

  /** An insertion is refused exactly when the table would have to grow and cannot, present key or not. */
  predicate Refused(a: Abstract, command: Command) {
    command.DoInsert? && Full(a) && !(command.memory && BucketsFit(2 * a.capacity))
  }

  /** The one reply to a call. */
  function Answer(a: Abstract, command: Command): Reply {
    match command
    case DoInsert(key, _) => if Refused(a, command) then NotInserted else Inserted(key in a.members)
    case DoContains(key) => Contained(key in a.members)
    case DoClear => Cleared
    case DoGetSize => Size(|a.members|)
  }

  function Following(a: Abstract, command: Command): Abstract {
    match command
    case DoInsert(key, _) =>
      if Refused(a, command) then a
      else Abstract(a.members + {key}, if Full(a) then 2 * a.capacity else a.capacity)
    case DoClear => a.(members := {})
    case _ => a
  }

  function After(start: Abstract, commands: seq<Command>): Abstract {
    if commands == [] then start
    else Following(After(start, commands[..|commands| - 1]), commands[|commands| - 1])
  }

  function Answers(start: Abstract, commands: seq<Command>): (replies: seq<Reply>)
    ensures |replies| == |commands|
  {
    if commands == [] then []
    else
      var init := commands[..|commands| - 1];
      Answers(start, init) + [Answer(After(start, init), commands[|commands| - 1])]
  }

  /** The largest size the mathematical set had. */
  function Peak(start: Abstract, commands: seq<Command>): nat {
    if commands == [] then |start.members|
    else
      var before, now := Peak(start, commands[..|commands| - 1]), |After(start, commands).members|;
      if now > before then now else before
  }

  method Execute(s: InodeSet, command: Command) returns (reply: Reply)
    requires s.Valid()
    modifies s, s.entries, s.occupied
    ensures s.Valid() && s.initialCapacity == old(s.initialCapacity)
    ensures reply == Answer(old(s.View()), command) && s.View() == Following(old(s.View()), command)
    ensures s.peakSize == if |s.members| > old(s.peakSize) then |s.members| else old(s.peakSize)
    ensures (s.entries == old(s.entries) || fresh(s.entries)) && (s.occupied == old(s.occupied) || fresh(s.occupied))
  {
    match command
    case DoInsert(key, memory) =>
      var ok, present := s.Insert(key, memory);
      reply := if ok then Inserted(present) else NotInserted;
    case DoContains(key) =>
      var present := s.Contains(key);
      reply := Contained(present);
    case DoClear =>
      s.Clear();
      reply := Cleared;
    case DoGetSize =>
      var n := s.GetSize();
      reply := Size(n);
  }

  /** Creating a set when there is memory for it. */
  method CreateEmpty(requested: nat) returns (s: InodeSet?)
    requires requested <= HIGHEST_POWER
    ensures s == null <==> !BucketsFit(CapacityFor(requested))
    ensures s != null ==> fresh(s) && fresh(s.entries) && fresh(s.occupied)
    ensures s != null ==> s.Valid() && s.View() == Abstract({}, CapacityFor(requested))
    ensures s != null ==> s.initialCapacity == s.capacity && s.peakSize == 0
  {
    ghost var wanted;
    s, wanted := InodeSet.Create(requested, true, true);
    LeastPowerIsLeast(if requested == 0 then DEFAULT_CAPACITY else requested, wanted);
  }

  /**
   A set created empty gives, over every sequence of calls, exactly the replies of the
   abstract set, and its memory and rehashing stay bounded by the largest size that set ever had.
   */
  method Replay(requested: nat, commands: seq<Command>)
    returns (s: InodeSet?, replies: seq<Reply>)
    requires requested <= HIGHEST_POWER
    ensures s == null <==> !BucketsFit(CapacityFor(requested))
    ensures s != null ==>
              var start := Abstract({}, CapacityFor(requested));
              && replies == Answers(start, commands)
              && s.Valid() && s.View() == After(start, commands)
              && s.slotsScanned < s.capacity
              && (s.capacity == start.capacity || 3 * s.capacity < 8 * (Peak(start, commands) + 1))
  {
    hide Table, Members, CountUsed, Answer, Following, PowerOfTwo, LeastPower, CapacityFor, BucketsFit;
    replies := [];
    s := CreateEmpty(requested);
    if s == null {
      return;
    }
    ghost var start := s.View();
    var i := 0;
    while i < |commands|
      invariant 0 <= i <= |commands|
      invariant s.Valid() && fresh(s) && fresh(s.entries) && fresh(s.occupied) && s.initialCapacity == start.capacity
      invariant replies == Answers(start, commands[..i]) && s.View() == After(start, commands[..i])
      invariant s.peakSize == Peak(start, commands[..i])
    {
      assert commands[..i + 1][..i] == commands[..i];
      var reply := Execute(s, commands[i]);
      replies := replies + [reply];
      i := i + 1;
    }
    assert commands[..i] == commands;
  }

  // ---------- when insertions are refused ----------

  /** Load factor and growth as the abstract set sees them. */
  ghost predicate Roomy(start: Abstract, commands: seq<Command>) {
    var a := After(start, commands);
    && 2 <= a.capacity && |a.members| * 4 <= a.capacity * 3
    && |a.members| <= Peak(start, commands)
    && (a.capacity == start.capacity || 3 * a.capacity < 8 * (Peak(start, commands) + 1))
  }

  lemma {:induction false} RunStaysRoomy(start: Abstract, commands: seq<Command>)
    requires start.members == {} && 2 <= start.capacity
    ensures Roomy(start, commands)
  {
    if commands != [] {
      RunStaysRoomy(start, commands[..|commands| - 1]);
    }
  }

  /** A table of this many slots can be doubled without its size wrapping. */
  predicate Doubles(capacity: nat) {
    BucketsFit(2 * capacity)
  }

  /**
   Reply number `i` is a refusal exactly when the call is an insertion that finds the table full and
   either gets no memory or a size that wraps.
   */
  lemma RefusalsHaveACause(start: Abstract, commands: seq<Command>, i: nat)
    requires i < |commands|
    ensures Answers(start, commands)[i] == Answer(After(start, commands[..i]), commands[i])
    ensures Answers(start, commands)[i] == NotInserted <==> Refused(After(start, commands[..i]), commands[i])
  {
    AnswerAt(start, commands, i);
    RefusalIsRefused(After(start, commands[..i]), commands[i]);
  }

  lemma RefusalIsRefused(a: Abstract, command: Command)
    ensures Answer(a, command) == NotInserted <==> Refused(a, command)
  {
  }

  lemma {:induction false} AnswerAt(start: Abstract, commands: seq<Command>, i: nat)
    requires i < |commands|
    ensures Answers(start, commands)[i] == Answer(After(start, commands[..i]), commands[i])
  {
    hide Answer, After;
    var n := |commands| - 1;
    if i < n {
      AnswerAt(start, commands[..n], i);
      assert commands[..n][..i] == commands[..i];
    }
  }

  /**
   With memory granted, no insertion is refused as long as the table that the set needs at its
   largest, of up to 8 (peak + 1) / 3 slots, could still be doubled.
   */
  lemma {:induction false} NothingRefusedWithMemory(start: Abstract, commands: seq<Command>, peak: nat)
    requires start.members == {} && 2 <= start.capacity && Doubles(start.capacity)
    requires forall c :: c in commands && c.DoInsert? ==> c.memory
    requires Peak(start, commands) <= peak && Doubles(8 * (peak + 1) / 3)
    ensures NotInserted !in Answers(start, commands)
  {
    if commands != [] {
      var init, c := commands[..|commands| - 1], commands[|commands| - 1];
      NothingRefusedWithMemory(start, init, peak);
      RunStaysRoomy(start, init);
      var a := After(start, init);
      assert c in commands;
      assert !Refused(a, c) by {
        hide After, Peak, Answers;
        if a.capacity != start.capacity {
          NeededCapacityDoubles(a.capacity, peak);
        }
      }
    }
  }

  lemma NeededCapacityDoubles(capacity: nat, peak: nat)
    requires 3 * capacity < 8 * (peak + 1) && Doubles(8 * (peak + 1) / 3)
    ensures Doubles(capacity)
  {
    assert capacity <= 8 * (peak + 1) / 3;
  }

  /** With no refusal the members are those of the plain set fed with the same calls. */
  function Plainly(commands: seq<Command>): set<Key> {
    if commands == [] then {}
    else
      var before := Plainly(commands[..|commands| - 1]);
      match commands[|commands| - 1]
      case DoInsert(key, _) => before + {key}
      case DoClear => {}
      case _ => before
  }

  lemma {:induction false} UnrefusedIsAPlainSet(start: Abstract, commands: seq<Command>)
    requires start.members == {} && NotInserted !in Answers(start, commands)
    ensures After(start, commands).members == Plainly(commands)
  {
    if commands != [] {
      var init, c := commands[..|commands| - 1], commands[|commands| - 1];
      var last := Answer(After(start, init), c);
      assert Answers(start, commands) == Answers(start, init) + [last];
      assert last in Answers(start, commands);
      UnrefusedIsAPlainSet(start, init);
    }
  }

  /**
   The load is checked before the key is looked up: on two slots, inserting the same key again
   doubles the table, and without memory for that fails although the key is a member.
   */
  method InsertingAgainNeedsRoom(key: Key, memory: bool)
    returns (s: InodeSet?, first: bool, second: bool, present: bool, member: bool)
    ensures s != null && s.Valid() && s.members == {key} && first && member
    ensures if memory then second && present && s.capacity == 4 else !second && s.capacity == 2
  {
    ghost var wanted;
    s, wanted := InodeSet.Create(2, true, true);
    assert PowerOfTwo(2);
    first, present := s.Insert(key, true);
    second, present := s.Insert(key, memory);
    member := s.Contains(key);
  }
}
