/** The fake-IP allocator and its use of the journal (src/virtual_dns.rs). */
module VirtualDns {
  import opened Base
  import opened Addresses
  import opened Journal

  // ---------------------------------------------------------------- the recency list

  /** The LRU cache as the list of its entries, the least recently used one first. */
  type Recency = seq<Entry>

  ghost predicate Distinct(lru: Recency) {
    forall i, j :: 0 <= i < j < |lru| ==> lru[i].ip != lru[j].ip && lru[i].name != lru[j].name
  }

  ghost function Entries(lru: Recency): set<Entry> {
    set e | e in lru
  }

  function IndexOf(lru: Recency, ip: Ip): (index: Option<nat>)
    ensures index.Some? ==> index.value < |lru| && lru[index.value].ip == ip
    ensures index.None? ==> forall e :: e in lru ==> e.ip != ip
  {
    if lru == [] then None
    else if lru[|lru| - 1].ip == ip then Some(|lru| - 1)
    else IndexOf(lru[..|lru| - 1], ip)
  }

  ghost predicate Mapped(lru: Recency, ip: Ip) {
    exists i :: 0 <= i < |lru| && lru[i].ip == ip
  }

  function Without(lru: Recency, i: nat): Recency
    requires i < |lru|
  {
    lru[..i] + lru[i + 1..]
  }

  /** The last position at which an address was used, or -1. */
  ghost function LastUse(uses: seq<Ip>, ip: Ip): (last: int)
    ensures -1 <= last < |uses|
    ensures last >= 0 ==> uses[last] == ip
    ensures forall k :: last < k < |uses| ==> uses[k] != ip
  {
    if uses == [] then -1
    else if uses[|uses| - 1] == ip then |uses| - 1
    else LastUse(uses[..|uses| - 1], ip)
  }

  lemma LastUseAppend(uses: seq<Ip>, used: Ip, ip: Ip)
    ensures LastUse(uses + [used], ip) == if used == ip then |uses| else LastUse(uses, ip)
  {
    assert (uses + [used])[..|uses|] == uses;
  }

  /** The list is in the order of last use. */
  ghost predicate ByRecency(lru: Recency, uses: seq<Ip>) {
    && (forall i :: 0 <= i < |lru| ==> LastUse(uses, lru[i].ip) >= 0)
    && (forall i, j :: 0 <= i < j < |lru| ==> LastUse(uses, lru[i].ip) < LastUse(uses, lru[j].ip))
  }

  ghost predicate Inverse(lru: Recency, names: map<Name, Ip>) {
    && (forall e :: e in lru ==> e.name in names && names[e.name] == e.ip)
    && (forall name :: name in names ==> Entry(names[name], name) in lru)
  }

  /** The two directions of the mapping agree, and stay inside the pool. */
  ghost predicate Consistent(pool: Pool, lru: Recency, names: map<Name, Ip>, uses: seq<Ip>) {
    && Distinct(lru)
    && Inverse(lru, names)
    && ByRecency(lru, uses)
    && (forall e :: e in lru ==> InPool(pool, e.ip) && CanonicalEntry(e) == e)
  }

  lemma WithoutOrder(lru: Recency, uses: seq<Ip>, i: nat)
    requires Distinct(lru) && ByRecency(lru, uses) && i < |lru|
    ensures Distinct(Without(lru, i)) && ByRecency(Without(lru, i), uses)
  {
    hide LastUse;
    var rest := Without(lru, i);
    assert forall k :: 0 <= k < |rest| ==> rest[k] == lru[if k < i then k else k + 1];
  }

  lemma WithoutEntries(lru: Recency, i: nat)
    requires Distinct(lru) && i < |lru|
    ensures forall e :: e in Without(lru, i) <==> e in lru && e != lru[i]
    ensures forall e :: e in Without(lru, i) ==> e.ip != lru[i].ip && e.name != lru[i].name
  {
    var rest := Without(lru, i);
    assert forall k :: 0 <= k < |rest| ==> rest[k] == lru[if k < i then k else k + 1];
    forall e | e in lru && e != lru[i]
      ensures e in rest
    {
      var k :| 0 <= k < |lru| && lru[k] == e;
      assert rest[if k < i then k else k - 1] == e;
    }
  }

  lemma WithoutKeeps(pool: Pool, lru: Recency, names: map<Name, Ip>, uses: seq<Ip>, i: nat)
    requires Consistent(pool, lru, names, uses) && i < |lru|
    ensures Consistent(pool, Without(lru, i), names - {lru[i].name}, uses)
    ensures forall e :: e in Without(lru, i) <==> e in lru && e != lru[i]
    ensures forall e :: e in Without(lru, i) ==> e.ip != lru[i].ip && e.name != lru[i].name
  {
    hide Distinct, ByRecency, Without, CanonicalEntry;
    WithoutOrder(lru, uses, i);
    WithoutEntries(lru, i);
  }

  lemma AppendOrder(lru: Recency, uses: seq<Ip>, entry: Entry)
    requires Distinct(lru) && ByRecency(lru, uses)
    requires forall e :: e in lru ==> e.ip != entry.ip && e.name != entry.name
    ensures Distinct(lru + [entry]) && ByRecency(lru + [entry], uses + [entry.ip])
  {
    hide LastUse;
    var more := lru + [entry];
    forall i | 0 <= i < |more|
      ensures LastUse(uses + [entry.ip], more[i].ip) == if i < |lru| then LastUse(uses, lru[i].ip) else |uses|
    {
      LastUseAppend(uses, entry.ip, more[i].ip);
    }
  }

  lemma AppendKeeps(pool: Pool, lru: Recency, names: map<Name, Ip>, uses: seq<Ip>, entry: Entry)
    requires Consistent(pool, lru, names, uses)
    requires InPool(pool, entry.ip) && CanonicalEntry(entry) == entry
    requires entry.name !in names
    requires forall e :: e in lru ==> e.ip != entry.ip
    ensures Consistent(pool, lru + [entry], names[entry.name := entry.ip], uses + [entry.ip])
  {
    hide Distinct, ByRecency, CanonicalEntry;
    AppendOrder(lru, uses, entry);
    assert forall e :: e in lru + [entry] <==> e in lru || e == entry;
  }

  /** Moving an entry to the recent end records a use and changes nothing else. */
  lemma TouchKeeps(pool: Pool, lru: Recency, names: map<Name, Ip>, uses: seq<Ip>, i: nat)
    requires Consistent(pool, lru, names, uses) && i < |lru|
    ensures Consistent(pool, Without(lru, i) + [lru[i]], names, uses + [lru[i].ip])
    ensures Entries(Without(lru, i) + [lru[i]]) == Entries(lru)
  {
    hide Consistent;
    assert InPool(pool, lru[i].ip) && CanonicalEntry(lru[i]) == lru[i] && lru[i].name in names && names[lru[i].name] == lru[i].ip by {
      EntryFacts(pool, lru, names, uses, i);
    }
    WithoutKeeps(pool, lru, names, uses, i);
    AppendKeeps(pool, Without(lru, i), names - {lru[i].name}, uses, lru[i]);
    assert (names - {lru[i].name})[lru[i].name := lru[i].ip] == names;
  }

  lemma EntryFacts(pool: Pool, lru: Recency, names: map<Name, Ip>, uses: seq<Ip>, i: nat)
    requires Consistent(pool, lru, names, uses) && i < |lru|
    ensures InPool(pool, lru[i].ip) && CanonicalEntry(lru[i]) == lru[i]
    ensures lru[i].name in names && names[lru[i].name] == lru[i].ip
  {
  }

  // ---------------------------------------------------------------- live mappings and replay

  /** How a replayed journal relates to the live mappings. Names that replay refuses are missing,
      and where such a name took over an address, the replay may still show its former name. */
  ghost predicate Mirrors(pool: Pool, replay: set<Entry>, live: set<Entry>) {
    && (forall e :: e in replay ==> Storable(pool, e))
    && (forall e :: e in live && Storable(pool, e) ==> e in replay)
    && (forall e :: e in replay && e !in live ==> exists f :: f in live && f.ip == e.ip && !Storable(pool, f))
  }

  /** Replay gives back exactly the live mappings if and only if it accepts all their names. */
  lemma MirrorsExactly(pool: Pool, replay: set<Entry>, live: set<Entry>)
    requires Mirrors(pool, replay, live)
    ensures replay == live <==> forall e :: e in live ==> 1 <= |e.name| <= 253 && InPool(pool, e.ip)
  {
    if forall e :: e in live ==> Storable(pool, e) {
      assert replay == live;
    }
  }

  lemma StorableMeans(pool: Pool, record: Entry)
    ensures Storable(pool, CanonicalEntry(record)) <==>
      1 <= |Canonical(record.name)| <= 253 && InPool(pool, record.ip)
  {
  }

  lemma MirrorsAssign(pool: Pool, replay: set<Entry>, live: set<Entry>, entry: Entry)
    requires Mirrors(pool, replay, live)
    requires CanonicalEntry(entry) == entry
    requires forall e :: e in live ==> e.name != entry.name
    ensures Mirrors(pool, ReplayOne(pool, replay, entry), Assign(live, entry))
  {
    hide CanonicalEntry;
    var replay', live' := ReplayOne(pool, replay, entry), Assign(live, entry);
    forall e | e in replay' && e !in live'
      ensures exists f :: f in live' && f.ip == e.ip && !Storable(pool, f)
    {
      if e.ip == entry.ip {
        assert entry in live';
      } else {
        assert e in replay;
        var f :| f in live && f.ip == e.ip && !Storable(pool, f);
        assert f in live';
      }
    }
  }

  /** Replaying a compacted journal of live mappings drops just the refused names. */
  lemma {:induction false} ReplayOfLive(pool: Pool, lru: Recency)
    requires Distinct(lru)
    requires forall e :: e in lru ==> CanonicalEntry(e) == e
    ensures Replay(pool, lru) == set e | e in lru && Storable(pool, e)
  {
    hide CanonicalEntry, Storable;
    if lru != [] {
      var front, last := lru[..|lru| - 1], lru[|lru| - 1];
      assert lru == front + [last];
      ReplayOfLive(pool, front);
      assert forall e :: e in front ==> e.ip != last.ip && e.name != last.name;
    }
  }

  lemma MirrorsSnapshot(pool: Pool, lru: Recency)
    requires Distinct(lru)
    requires forall e :: e in lru ==> CanonicalEntry(e) == e
    ensures Mirrors(pool, Replay(pool, lru), Entries(lru))
  {
    ReplayOfLive(pool, lru);
  }

  /** The journal, with its count of records, stands for the live mappings. */
  ghost predicate Faithful(pool: Pool, disk: Disk, journalRecords: nat, live: set<Entry>) {
    && Sound(pool, disk)
    && journalRecords == |Records(pool, disk).value|
    && Mirrors(pool, Replay(pool, Records(pool, disk).value), live)
  }

  lemma FaithfulSnapshot(pool: Pool, cursor: Ip, lru: Recency)
    requires InPool(pool, cursor) && Distinct(lru)
    requires forall e :: e in lru ==> CanonicalEntry(e) == e
    ensures Faithful(pool, Snapshot(pool, cursor, lru), |lru|, Entries(lru))
  {
    hide Sound, Records, Mirrors, Replay, Snapshot;
    SnapshotLoads(pool, cursor, lru);
    MirrorsSnapshot(pool, lru);
  }

  lemma FaithfulAppend(pool: Pool, disk: Disk, journalRecords: nat, live: set<Entry>, entry: Entry)
    requires Faithful(pool, disk, journalRecords, live)
    requires CanonicalEntry(entry) == entry
    requires forall e :: e in live ==> e.name != entry.name
    ensures Faithful(pool, Appended(disk, entry, NoFault), journalRecords + 1, Assign(live, entry))
  {
    hide Sound, Records, Mirrors, Replay, Appended;
    AppendReplays(pool, disk, entry);
    ReplayAppend(pool, Records(pool, disk).value, entry);
    MirrorsAssign(pool, Replay(pool, Records(pool, disk).value), live, entry);
  }

  // ---------------------------------------------------------------- the allocator

  /** What can go wrong while one mapping is made persistent. */
  datatype Faults = Faults(metadata: bool, append: AppendFault, rewrite: RewriteFault, repair: RewriteFault)

  class FakeIpAllocator {
    const pool: Pool
    var lru: Recency
    var nameToIp: map<Name, Ip>
    var nextAddr: Ip
    var persistence: PersistentCache?
    ghost var uses: seq<Ip>

    ghost predicate Valid()
      reads this
    {
      && ValidPool(pool)
      && InPool(pool, nextAddr)
      && Consistent(pool, lru, nameToIp, uses)
    }

    /** Whenever persistence is on and not dirty, the journal stands for the live mappings. */
    ghost predicate Synced(live: set<Entry>)
      reads this, persistence
    {
      persistence != null && !persistence.dirty ==>
        Faithful(pool, persistence.disk, persistence.journalRecords, live)
    }

    constructor (pool: Pool)
      requires ValidPool(pool)
      ensures Valid() && this.pool == pool && lru == [] && nextAddr == pool.network && persistence == null && uses == []
    {
      this.pool := pool;
      nextAddr := pool.network;
      nameToIp := map[];
      lru := [];
      persistence := null;
      uses := [];
    }

    /** `touch_ip` and `resolve_ip`: a lookup that makes the mapping the most recent one. */
    method Resolve(ip: Ip) returns (name: Option<Name>)
      requires Valid()
      modifies `lru, `uses
      ensures Valid()
      ensures Entries(lru) == old(Entries(lru))
      ensures name.Some? <==> Mapped(old(lru), ip)
      ensures name.Some? ==>
        && uses == old(uses) + [ip]
        && lru != [] && lru[|lru| - 1] == Entry(ip, name.value)
      ensures name.None? ==> lru == old(lru) && uses == old(uses)
    {
      hide Consistent;
      var index := IndexOf(lru, ip);
      if index.None? {
        return None;
      }
      var entry := lru[index.value];
      TouchKeeps(pool, lru, nameToIp, uses, index.value);
      lru := Without(lru, index.value) + [entry];
      uses := uses + [ip];
      return Some(entry.name);
    }

    /** `resolve_virtual_domain`: an address of the pool without a mapping is an error. */
    method ResolveVirtualDomain(destination: Ip) returns (r: Result<Option<Name>, ()>)
      requires Valid()
      modifies `lru, `uses
      ensures Valid() && Entries(lru) == old(Entries(lru))
      ensures r == Ok(None) <==> !InPool(pool, destination)
      ensures r.Err? <==> InPool(pool, destination) && !Mapped(old(lru), destination)
      ensures r.Ok? && r.value.Some? ==> Entry(destination, r.value.value) in lru
      ensures uses == old(uses) + if r.Ok? && r.value.Some? then [destination, destination] else []
    {
      hide Distinct, ByRecency, CanonicalEntry;
      var touched := Resolve(destination);
      assert Entry(destination, if touched.Some? then touched.value else []) in Entries(lru) <==> touched.Some?;
      var domain := Resolve(destination);
      if domain.Some? {
        return Ok(domain);
      }
      if InPool(pool, destination) {
        return Err(());
      }
      return Ok(None);
    }

    /** The circular scan for a free address: it stops within one round of the pool, at the first
        free address from the cursor, or back at the cursor when there is none. */
    method FindFree() returns (free: bool, ghost steps: nat)
      requires Valid()
      modifies `nextAddr
      ensures Valid()
      ensures steps < Size(pool)
      ensures forall k: nat :: k < steps ==> Mapped(lru, Around(pool, old(nextAddr), k))
      ensures free ==> nextAddr == Around(pool, old(nextAddr), steps) && !Mapped(lru, nextAddr)
      ensures !free ==> nextAddr == old(nextAddr) && forall ip :: InPool(pool, ip) ==> Mapped(lru, ip)
    {
      hide Consistent;
      var startedAt := nextAddr;
      steps := 0;
      while true
        invariant InPool(pool, nextAddr) && steps < Size(pool)
        invariant nextAddr == Around(pool, startedAt, steps)
        invariant forall k: nat :: k < steps ==> Mapped(lru, Around(pool, startedAt, k))
        decreases Size(pool) - steps
      {
        if IndexOf(lru, nextAddr).None? {
          return true, steps;
        }
        assert Mapped(lru, nextAddr);
        nextAddr := Advance(pool, nextAddr);
        AroundMeetsAll(pool, startedAt, startedAt);
        if nextAddr == startedAt {
          forall ip | InPool(pool, ip)
            ensures Mapped(lru, ip)
          {
            AroundMeetsAll(pool, startedAt, ip);
          }
          return false, steps;
        }
        steps := steps + 1;
      }
    }

    method RewritePersistence(fault: RewriteFault) returns (ok: bool)
      requires Valid() && persistence != null
      modifies persistence
      ensures ok == fault.NoRewriteFault?
      ensures ok ==>
        && !persistence.dirty
        && persistence.disk == Snapshot(pool, nextAddr, lru)
        && persistence.journalRecords == |lru|
        && Faithful(pool, persistence.disk, persistence.journalRecords, Entries(lru))
      ensures !ok ==>
        && persistence.dirty == old(persistence.dirty)
        && persistence.journalRecords == old(persistence.journalRecords)
        && persistence.disk == if fault.KeepsFile? then old(persistence.disk) else Missing
    {
      hide Faithful, Snapshot;
      ok := persistence.Rewrite(pool, nextAddr, lru, fault);
      FaithfulSnapshot(pool, nextAddr, lru);
    }

    method RetryDirtyPersistence(fault: RewriteFault)
      requires Valid()
      modifies persistence
      ensures old(Synced(Entries(lru))) ==> Synced(Entries(lru))
      ensures persistence != null && fault.NoRewriteFault? ==> !persistence.dirty
    {
      hide Faithful, Consistent;
      if persistence != null && persistence.dirty {
        var _ := RewritePersistence(fault);
      }
    }

    /** Records a new mapping, after it was made. Whatever fails, the journal stands for the live
        mappings again or is marked dirty; and it is compacted once too much of it is stale. */
    method PersistMapping(entry: Entry, faults: Faults, ghost before: set<Entry>)
      requires Valid()
      requires Entries(lru) == Assign(before, entry) && CanonicalEntry(entry) == entry
      requires forall e :: e in before ==> e.name != entry.name
      modifies persistence
      ensures old(Synced(before)) ==> Synced(Entries(lru))
      ensures persistence != null && !persistence.dirty ==>
        persistence.journalRecords < |lru| + 1024 || persistence.journalRecords < 2 * |lru|
      ensures persistence != null ==>
        var disk, records := old(persistence.disk), old(persistence.journalRecords) + 1;
        var anew := old(persistence.dirty) || disk.Missing? || (!faults.metadata && disk.lines == []);
        var stale := records >= |lru| + 1024 && records >= 2 * |lru|;
        var fails := if anew then !faults.rewrite.NoRewriteFault?
                     else faults.metadata || !faults.append.NoFault? || (stale && !faults.rewrite.NoRewriteFault?);
        && (persistence.dirty <==> fails && !faults.repair.NoRewriteFault?)
        && (!persistence.dirty && (anew || stale || fails) ==>
              persistence.disk == Snapshot(pool, nextAddr, lru) && persistence.journalRecords == |lru|)
        && (!anew && !stale && !fails ==>
              persistence.disk == Appended(disk, entry, NoFault) && persistence.journalRecords == records)
    {
      hide Faithful, Consistent, Snapshot;
      if persistence == null {
        return;
      }
      var needsRewrite := persistence.NeedsRewrite(faults.metadata);
      var ok := false;
      if needsRewrite == Ok(true) {
        ok := RewritePersistence(faults.rewrite);
      } else if needsRewrite == Ok(false) {
        if Faithful(pool, persistence.disk, persistence.journalRecords, before) {
          FaithfulAppend(pool, persistence.disk, persistence.journalRecords, before, entry);
        }
        ok := persistence.AppendMapping(entry, faults.append);
        if ok && persistence.ShouldCompact(|lru|) {
          ok := RewritePersistence(faults.rewrite);
        }
      }
      if !ok {
        persistence.dirty := true;
        var _ := RewritePersistence(faults.repair);
      }
    }

    /** The address of a name. A known name keeps its address. A new name gets the first free
        address from the cursor; only in a full pool does it take over an address, and then one
        which has been used less recently than every other. */
    method FindOrAllocate(name: Name, faults: Faults) returns (ip: Ip)
      requires Valid()
      modifies this, persistence
      ensures Valid() && persistence == old(persistence)
      ensures old(Synced(Entries(lru))) ==> Synced(Entries(lru))
      ensures persistence != null && faults.repair.NoRewriteFault? ==> !persistence.dirty
      ensures lru != [] && lru[|lru| - 1] == Entry(ip, Canonical(name))
      ensures uses == old(uses) + [ip]
      ensures nextAddr == if Mapped(old(lru), ip) then old(nextAddr) else ip
      ensures Canonical(name) in old(nameToIp) ==>
        ip == old(nameToIp)[Canonical(name)] && Entries(lru) == old(Entries(lru))
      ensures Canonical(name) !in old(nameToIp) ==>
        Entries(lru) == Assign(old(Entries(lru)), Entry(ip, Canonical(name)))
      ensures Canonical(name) !in old(nameToIp) && !Mapped(old(lru), ip) ==>
        exists steps: nat ::
          && steps < Size(pool) && ip == Around(pool, old(nextAddr), steps)
          && forall k: nat :: k < steps ==> Mapped(old(lru), Around(pool, old(nextAddr), k))
      ensures Canonical(name) !in old(nameToIp) && Mapped(old(lru), ip) ==>
        forall other :: InPool(pool, other) && other != ip ==>
          Mapped(old(lru), other) && UsedSince(old(uses), ip, other)
    {
      hide Faithful, Consistent, Canonical, LastUse, Around;
      var insertName := Canonical(name);
      CanonicalIdempotent(name);
      if insertName in nameToIp {
        ip := nameToIp[insertName];
        KnownName(pool, lru, nameToIp, uses, insertName);
        var resolved := Resolve(ip);
        SameName(pool, lru, nameToIp, uses, ip, insertName);
        RetryDirtyPersistence(faults.repair);
        return;
      }
      ghost var before := Entries(lru);
      UnknownName(pool, lru, nameToIp, uses, insertName);
      var free, steps := FindFree();
      if free {
        ip := nextAddr;
        InsertKeeps(pool, lru, nameToIp, uses, Entry(ip, insertName));
        lru := lru + [Entry(ip, insertName)];
      } else {
        ip := lru[0].ip;
        RecycleKeeps(pool, lru, nameToIp, uses, insertName);
        nameToIp := nameToIp - {lru[0].name};
        lru := lru[1..] + [Entry(ip, insertName)];
      }
      nameToIp := nameToIp[insertName := ip];
      uses := uses + [ip];
      PersistMapping(Entry(ip, insertName), faults, before);
    }

    method ForgetName(name: Name)
      requires Valid()
      modifies `lru, `nameToIp
      ensures Valid() && name !in nameToIp
      ensures forall e :: e in lru <==> e in old(lru) && e.name != name
      ensures name !in old(nameToIp) ==> lru == old(lru)
    {
      hide Consistent, IndexOf, Without;
      if name in nameToIp {
        KnownName(pool, lru, nameToIp, uses, name);
        DropName(pool, lru, nameToIp, uses, name);
        lru := Without(lru, IndexOf(lru, nameToIp[name]).value);
        nameToIp := nameToIp - {name};
      } else {
        UnknownName(pool, lru, nameToIp, uses, name);
      }
    }

    method ForgetIp(ip: Ip)
      requires Valid()
      modifies `lru, `nameToIp
      ensures Valid() && nameToIp.Keys <= old(nameToIp).Keys
      ensures forall e :: e in lru <==> e in old(lru) && e.ip != ip
      ensures !Mapped(old(lru), ip) ==> lru == old(lru)
    {
      hide IndexOf, Without, ByRecency, CanonicalEntry;
      var index := IndexOf(lru, ip);
      if index.Some? {
        WithoutKeeps(pool, lru, nameToIp, uses, index.value);
        DropIp(lru, index.value);
        nameToIp := nameToIp - {lru[index.value].name};
        lru := Without(lru, index.value);
      }
    }

    /** Replays one record: the name's and the address's former mappings give way. */
    method RestoreMapping(record: Entry) returns (ok: bool)
      requires Valid()
      modifies `lru, `nameToIp, `uses
      ensures Valid()
      ensures ok == (1 <= |Canonical(record.name)| <= 253 && InPool(pool, record.ip))
      ensures Entries(lru) == ReplayOne(pool, old(Entries(lru)), record)
      ensures ok && CanonicalEntry(record) == record && Unused(old(lru), record) ==> lru == old(lru) + [record]
      ensures old(uses) <= uses
    {
      hide Consistent, Canonical;
      var entry := CanonicalEntry(record);
      CanonicalIdempotent(record.name);
      if !Storable(pool, entry) {
        return false;
      }
      ghost var before := lru;
      UnusedName(pool, lru, nameToIp, uses, entry);
      ForgetName(entry.name);
      ForgetIp(entry.ip);
      InsertKeeps(pool, lru, nameToIp, uses, entry);
      AssignEntries(before, lru, entry);
      lru := lru + [entry];
      nameToIp := nameToIp[entry.name := entry.ip];
      uses := uses + [entry.ip];
      return true;
    }

    method RestoreAll(mappings: seq<Entry>) returns (clean: bool)
      requires Valid() && lru == []
      modifies `lru, `nameToIp, `uses
      ensures Valid()
      ensures Entries(lru) == Replay(pool, mappings)
      ensures clean == Clean(pool, mappings)
      ensures Restorable(pool, mappings) ==> lru == mappings
      ensures old(uses) <= uses
    {
      hide Consistent, CanonicalEntry, ReplayOne, Replay, Clean, Restorable, Unused, Storable, Entries;
      clean := true;
      assert mappings[..0] == [];
      NothingReplayed(pool);
      for i := 0 to |mappings|
        invariant Valid()
        invariant Entries(lru) == Replay(pool, mappings[..i])
        invariant clean == Clean(pool, mappings[..i])
        invariant Restorable(pool, mappings) ==> lru == mappings[..i]
        invariant old(uses) <= uses
      {
        assert mappings[..i + 1] == mappings[..i] + [mappings[i]];
        ReplayAppend(pool, mappings[..i], mappings[i]);
        CleanAppend(pool, mappings[..i], mappings[i]);
        RestorableNext(pool, mappings, i);
        StorableMeans(pool, mappings[i]);
        var restored := RestoreMapping(mappings[i]);
        if !restored {
          clean := false;
        }
      }
      assert mappings[..|mappings|] == mappings;
    }

    /** Turns persistence on. A usable journal replaces the live mappings by its own; an unusable
        one empties them; without one they are kept. Whether it succeeds or not, the journal stands for
        the live mappings exactly if the file in place is sound: always after a rewrite, and otherwise
        as far as the loaded file is readable and ends with a newline. */
    method EnablePersistence(cache: PersistentCache, openFails: bool, fault: RewriteFault) returns (r: Result<nat, ()>)
      requires Valid()
      modifies this, cache
      ensures Valid()
      ensures openFails ==>
        r.Err? && persistence == old(persistence) && lru == old(lru) && nextAddr == old(nextAddr) && uses == old(uses)
      ensures !openFails ==> persistence == cache && !cache.dirty
      ensures !openFails && old(cache.disk).Missing? ==>
        nextAddr == if lru == [] then UpperHalfStart(pool) else old(nextAddr)
      ensures !openFails && old(cache.disk).File? && !Compatible(pool, old(cache.disk)) ==> nextAddr == UpperHalfStart(pool)
      ensures !openFails && Compatible(pool, old(cache.disk)) ==> nextAddr == old(cache.disk).lines[0].cursor
      ensures !openFails ==> Enabled(pool, old(lru), old(uses), old(cache.disk), lru, uses)
      ensures r.Ok? ==> r.value == |lru|
      ensures !openFails ==> (r.Ok? <==> !NeedsRepair(pool, old(cache.disk)) || fault.NoRewriteFault?)
      ensures !openFails ==>
        cache.disk == (if !NeedsRepair(pool, old(cache.disk)) || fault.KeepsFile? then old(cache.disk)
                       else if fault.NoRewriteFault? then Snapshot(pool, nextAddr, lru)
                       else Missing)
      ensures !openFails ==> (Synced(Entries(lru)) <==> Sound(pool, cache.disk))
      ensures !openFails ==> (Synced(Entries(lru)) <==> Trusted(pool, old(cache.disk), fault))
      ensures r.Ok? ==> (Synced(Entries(lru)) <==> !TornButClean(pool, old(cache.disk)))
    {
      hide Consistent, Faithful, Mirrors, Canonical, Records, Replay, AllMappings, Mappings, Clean, Restorable;
      hide UpperHalfStart, Snapshot, Sound, Compatible;
      ghost var disk := cache.disk;
      FaithfulLoad(pool, disk);
      TrustedMeans(pool, disk, fault);
      var loaded := cache.Load(pool, openFails);
      if loaded.Err? {
        return Err(());
      }
      var rewrite := true;
      match loaded.value {
        case NoFile =>
          if lru == [] {
            nextAddr := UpperHalfStart(pool);
          }
        case Incompatible =>
          ClearMappings();
          nextAddr := UpperHalfStart(pool);
        case Loaded(cursor, mappings, repairNeeded) =>
          LoadedRecords(pool, disk);
          ClearMappings();
          nextAddr := cursor;
          var clean := RestoreAll(mappings);
          rewrite := repairNeeded || !clean;
      }
      persistence := cache;
      if rewrite {
        SnapshotLoads(pool, nextAddr, lru);
        UnfaithfulWhenUnsound(pool, disk, cache.journalRecords, Entries(lru));
        UnfaithfulWhenUnsound(pool, Missing, cache.journalRecords, Entries(lru));
        var ok := RewritePersistence(fault);
        if !ok {
          return Err(());
        }
      }
      return Ok(|lru|);
    }

    method ClearMappings()
      requires Valid()
      modifies `lru, `nameToIp, `nextAddr
      ensures Valid() && lru == [] && nextAddr == pool.network
    {
      lru := [];
      nameToIp := map[];
      nextAddr := pool.network;
    }
  }

  /** The mappings after a file was loaded: kept if there is none, emptied if it is incompatible, and
      otherwise those of its records. */
  ghost predicate Enabled(pool: Pool, lru: Recency, uses: seq<Ip>, disk: Disk, lru': Recency, uses': seq<Ip>) {
    && (disk.Missing? ==> lru' == lru && uses' == uses)
    && (disk.File? && !Compatible(pool, disk) ==> lru' == [] && uses' == uses)
    && (Compatible(pool, disk) ==>
          && Entries(lru') == Replay(pool, Records(pool, disk).value)
          && (Restorable(pool, Records(pool, disk).value) ==> lru' == Records(pool, disk).value)
          && uses <= uses')
  }

  ghost predicate Clean(pool: Pool, records: seq<Entry>) {
    forall i :: 0 <= i < |records| ==> Storable(pool, CanonicalEntry(records[i]))
  }

  lemma CleanAppend(pool: Pool, records: seq<Entry>, record: Entry)
    ensures Clean(pool, records + [record]) <==> Clean(pool, records) && Storable(pool, CanonicalEntry(record))
  {
    hide CanonicalEntry, Storable;
    var more := records + [record];
    assert more[|records|] == record;
    assert forall i :: 0 <= i < |records| ==> more[i] == records[i];
  }

  /** Records that replay keeps as they are. */
  ghost predicate Restorable(pool: Pool, records: seq<Entry>) {
    && Distinct(records)
    && forall e :: e in records ==> Storable(pool, e) && CanonicalEntry(e) == e
  }

  /** The loader has the file rewritten unless every line is a record that replay accepts. */
  ghost predicate NeedsRepair(pool: Pool, disk: Disk) {
    !(Compatible(pool, disk) && AllMappings(disk.lines[1..]) && Clean(pool, Records(pool, disk).value))
  }

  /** A journal that needs no repair by the loader's rules but that an append would damage. */
  ghost predicate TornButClean(pool: Pool, disk: Disk) {
    !NeedsRepair(pool, disk) && !disk.terminated
  }

  /** Whether enabling persistence leaves a journal that stands for the live mappings. */
  ghost predicate Trusted(pool: Pool, disk: Disk, fault: RewriteFault) {
    if !NeedsRepair(pool, disk) then disk.terminated
    else fault.NoRewriteFault? || (fault.KeepsFile? && Sound(pool, disk))
  }

  lemma TrustedMeans(pool: Pool, disk: Disk, fault: RewriteFault)
    ensures !NeedsRepair(pool, disk) ==> (Sound(pool, disk) <==> disk.terminated)
    ensures Trusted(pool, disk, fault) <==>
      || (NeedsRepair(pool, disk) && fault.NoRewriteFault?)
      || ((!NeedsRepair(pool, disk) || fault.KeepsFile?) && Sound(pool, disk))
    ensures !Sound(pool, Missing)
    ensures NeedsRepair(pool, disk) <==>
      !Compatible(pool, disk) || !AllMappings(disk.lines[1..]) || !Clean(pool, Records(pool, disk).value)
    ensures Sound(pool, disk) ==> Compatible(pool, disk)
    ensures Compatible(pool, disk) ==>
      && disk.File? && |disk.lines| > 0 && disk.lines[0].Header? && InPool(pool, disk.lines[0].cursor)
      && Records(pool, disk).Some?
  {
    hide Clean, Mappings;
    if Compatible(pool, disk) && AllMappings(disk.lines[1..]) {
      AllReadable(disk.lines);
    }
  }

  lemma AllReadable(lines: seq<Line>)
    requires |lines| > 0 && lines[0].Header? && AllMappings(lines[1..])
    ensures Readable(lines)
  {
    forall i | 0 <= i < |lines|
      ensures !lines[i].Unreadable?
    {
      assert i > 0 ==> lines[i] == lines[1..][i - 1];
    }
  }

  lemma UnfaithfulWhenUnsound(pool: Pool, disk: Disk, journalRecords: nat, live: set<Entry>)
    ensures Faithful(pool, disk, journalRecords, live) ==> Sound(pool, disk)
  {
  }

  lemma LoadedRecords(pool: Pool, disk: Disk)
    requires Compatible(pool, disk)
    ensures Records(pool, disk) == Some(Mappings(disk.lines[1..]))
  {
  }

  lemma {:induction false} ReplayStorable(pool: Pool, records: seq<Entry>)
    ensures forall e :: e in Replay(pool, records) ==> Storable(pool, e)
  {
    hide CanonicalEntry, Storable;
    if records != [] {
      ReplayStorable(pool, records[..|records| - 1]);
    }
  }

  /** What a load replays is what the file stands for, if it is sound. */
  lemma FaithfulLoad(pool: Pool, disk: Disk)
    ensures Compatible(pool, disk) ==>
      && Records(pool, disk).Some?
      && (var records := Records(pool, disk).value;
          Faithful(pool, disk, |records|, Replay(pool, records)) <==> Sound(pool, disk))
  {
    hide Replay, Storable;
    if Compatible(pool, disk) {
      ReplayStorable(pool, Records(pool, disk).value);
    }
  }

  lemma NothingReplayed(pool: Pool)
    ensures Replay(pool, []) == Entries([]) && Clean(pool, [])
  {
  }

  lemma RestorableNext(pool: Pool, records: seq<Entry>, i: nat)
    requires i < |records|
    ensures Restorable(pool, records) ==>
      && Unused(records[..i], records[i])
      && Storable(pool, CanonicalEntry(records[i])) && CanonicalEntry(records[i]) == records[i]
  {
    hide CanonicalEntry, Storable;
    assert records[i] in records;
  }

  ghost predicate Unused(lru: Recency, entry: Entry) {
    forall e :: e in lru ==> e.ip != entry.ip && e.name != entry.name
  }

  lemma UnusedName(pool: Pool, lru: Recency, names: map<Name, Ip>, uses: seq<Ip>, entry: Entry)
    requires Consistent(pool, lru, names, uses)
    ensures Unused(lru, entry) ==> entry.name !in names && !Mapped(lru, entry.ip)
  {
    if entry.name in names {
      assert Entry(names[entry.name], entry.name) in lru;
    }
  }

  lemma AssignEntries(before: Recency, rest: Recency, entry: Entry)
    requires forall e :: e in rest <==> e in before && e.ip != entry.ip && e.name != entry.name
    ensures Entries(rest + [entry]) == Assign(Entries(before), entry)
  {
  }

  lemma DropName(pool: Pool, lru: Recency, names: map<Name, Ip>, uses: seq<Ip>, name: Name)
    requires Consistent(pool, lru, names, uses) && name in names && IndexOf(lru, names[name]).Some?
    ensures var i := IndexOf(lru, names[name]).value;
      && Consistent(pool, Without(lru, i), names - {name}, uses)
      && forall e :: e in Without(lru, i) <==> e in lru && e.name != name
  {
    hide IndexOf, CanonicalEntry, ByRecency, Without;
    var i := IndexOf(lru, names[name]).value;
    var k :| 0 <= k < |lru| && lru[k] == Entry(names[name], name);
    assert k == i;
    WithoutKeeps(pool, lru, names, uses, i);
  }

  lemma DropIp(lru: Recency, i: nat)
    requires Distinct(lru) && i < |lru|
    ensures forall e :: e in Without(lru, i) <==> e in lru && e.ip != lru[i].ip
  {
    WithoutEntries(lru, i);
    assert forall e :: e in lru && e.ip == lru[i].ip ==> e == lru[i];
  }

  /** Whether `other` was used after the last use of `ip`. */
  ghost predicate UsedSince(uses: seq<Ip>, ip: Ip, other: Ip) {
    exists k :: LastUse(uses, ip) < k < |uses| && uses[k] == other
  }

  lemma KnownName(pool: Pool, lru: Recency, names: map<Name, Ip>, uses: seq<Ip>, name: Name)
    requires Consistent(pool, lru, names, uses) && name in names
    ensures Entry(names[name], name) in lru && Mapped(lru, names[name])
  {
    var i :| 0 <= i < |lru| && lru[i] == Entry(names[name], name);
  }

  lemma SameName(pool: Pool, lru: Recency, names: map<Name, Ip>, uses: seq<Ip>, ip: Ip, name: Name)
    requires Consistent(pool, lru, names, uses) && lru != [] && lru[|lru| - 1].ip == ip
    requires name in names && names[name] == ip
    ensures lru[|lru| - 1].name == name
  {
    var i :| 0 <= i < |lru| && lru[i] == Entry(ip, name);
  }

  lemma UnknownName(pool: Pool, lru: Recency, names: map<Name, Ip>, uses: seq<Ip>, name: Name)
    requires Consistent(pool, lru, names, uses) && name !in names
    ensures forall e :: e in lru ==> e.name != name
  {
  }

  lemma InsertKeeps(pool: Pool, lru: Recency, names: map<Name, Ip>, uses: seq<Ip>, entry: Entry)
    requires Consistent(pool, lru, names, uses)
    requires InPool(pool, entry.ip) && CanonicalEntry(entry) == entry
    requires entry.name !in names && !Mapped(lru, entry.ip)
    ensures Consistent(pool, lru + [entry], names[entry.name := entry.ip], uses + [entry.ip])
    ensures Entries(lru + [entry]) == Assign(Entries(lru), entry)
  {
    hide Distinct, ByRecency, CanonicalEntry;
    AppendKeeps(pool, lru, names, uses, entry);
  }

  /** In a full pool the least recently used address goes to the new name. */
  lemma RecycleKeeps(pool: Pool, lru: Recency, names: map<Name, Ip>, uses: seq<Ip>, name: Name)
    requires ValidPool(pool) && Consistent(pool, lru, names, uses)
    requires name !in names && Canonical(name) == name
    requires forall ip :: InPool(pool, ip) ==> Mapped(lru, ip)
    ensures lru != []
    ensures var entry := Entry(lru[0].ip, name);
      && Consistent(pool, lru[1..] + [entry], (names - {lru[0].name})[name := entry.ip], uses + [entry.ip])
      && Entries(lru[1..] + [entry]) == Assign(Entries(lru), entry)
    ensures Mapped(lru, lru[0].ip) && InPool(pool, lru[0].ip)
    ensures forall other :: InPool(pool, other) && other != lru[0].ip ==> UsedSince(uses, lru[0].ip, other)
  {
    hide Canonical, LastUse, Consistent, Assign, Entries, UsedSince;
    assert InPool(pool, pool.network);
    var i :| 0 <= i < |lru| && lru[i].ip == pool.network;
    var entry := Entry(lru[0].ip, name);
    EntryFacts(pool, lru, names, uses, 0);
    WithoutKeeps(pool, lru, names, uses, 0);
    assert Without(lru, 0) == lru[1..];
    AppendKeeps(pool, lru[1..], names - {lru[0].name}, uses, entry);
    UnknownName(pool, lru, names, uses, name);
    AssignEntries(lru, lru[1..], entry);
    LeastRecent(pool, lru, names, uses);
  }

  lemma LeastRecent(pool: Pool, lru: Recency, names: map<Name, Ip>, uses: seq<Ip>)
    requires Consistent(pool, lru, names, uses) && lru != []
    requires forall ip :: InPool(pool, ip) ==> Mapped(lru, ip)
    ensures forall other :: InPool(pool, other) && other != lru[0].ip ==> UsedSince(uses, lru[0].ip, other)
  {
    forall other | InPool(pool, other) && other != lru[0].ip
      ensures UsedSince(uses, lru[0].ip, other)
    {
      var j :| 0 <= j < |lru| && lru[j].ip == other;
      assert LastUse(uses, lru[0].ip) < LastUse(uses, other);
      assert uses[LastUse(uses, other)] == other;
    }
  }

  // ---------------------------------------------------------------- whole runs

  datatype Event = Query(name: Name, faults: Faults) | Lookup(ip: Ip) | Enable(disk: Disk, openFails: bool, fault: RewriteFault)

  datatype View = View(lru: Recency, uses: seq<Ip>)

  /** A query answered with `ip`: a known name keeps its address, and an address goes to another name
      only after every other address of the pool was used since its last use. */
  ghost predicate Allocated(pool: Pool, before: View, name: Name, ip: Ip, after: View) {
    && after.uses == before.uses + [ip] && InPool(pool, ip)
    && Entries(after.lru) == Assign(Entries(before.lru), Entry(ip, name))
    && (forall e :: e in before.lru && e.name == name ==> e.ip == ip)
    && (forall e, other :: e in before.lru && e.ip == ip && e.name != name && InPool(pool, other) && other != ip ==>
          UsedSince(before.uses, ip, other))
  }

  ghost predicate Step(pool: Pool, before: View, event: Event, answer: Option<Ip>, after: View) {
    match event
    case Query(name, _) => answer.Some? && Allocated(pool, before, Canonical(name), answer.value, after)
    case Lookup(ip) =>
      && answer.None? && Entries(after.lru) == Entries(before.lru)
      && before.uses <= after.uses && forall k :: |before.uses| <= k < |after.uses| ==> after.uses[k] == ip
    case Enable(disk, openFails, _) =>
      && answer.None? && (openFails ==> after == before)
      && (!openFails ==> Enabled(pool, before.lru, before.uses, disk, after.lru, after.uses))
  }

  ghost predicate Trace(pool: Pool, events: seq<Event>, answers: seq<Option<Ip>>, views: seq<View>) {
    && |views| == |events| + 1 && |answers| == |events|
    && forall i :: 0 <= i < |events| ==> Step(pool, views[i], events[i], answers[i], views[i + 1])
  }

  lemma TraceStep(
    pool: Pool, events: seq<Event>, i: nat, answers: seq<Option<Ip>>, views: seq<View>, answer: Option<Ip>, view: View)
    requires i < |events| && Trace(pool, events[..i], answers, views) && Step(pool, views[i], events[i], answer, view)
    ensures Trace(pool, events[..i + 1], answers + [answer], views + [view])
  {
    hide Step;
    var more, given, seen := events[..i + 1], answers + [answer], views + [view];
    forall k | 0 <= k < |more|
      ensures Step(pool, seen[k], more[k], given[k], seen[k + 1])
    {
      if k < i {
        assert more[k] == events[..i][k] && given[k] == answers[k] && seen[k] == views[k] && seen[k + 1] == views[k + 1];
      }
    }
  }

  /** Enabling persistence replaces the mappings if there is a file to load. */
  predicate Reloads(event: Event) {
    event.Enable? && !event.openFails && event.disk.File?
  }

  /** A mapping is lost only once every other address of the pool has been used after it. */
  lemma {:induction false} MappingsSurvive(
    pool: Pool, events: seq<Event>, answers: seq<Option<Ip>>, views: seq<View>, i: nat, j: nat, entry: Entry, other: Ip)
    requires Trace(pool, events, answers, views) && i <= j < |views|
    requires forall k :: i <= k < j ==> !Reloads(events[k])
    requires entry in views[i].lru && views[i].uses != [] && views[i].uses[|views[i].uses| - 1] == entry.ip
    requires InPool(pool, other) && other != entry.ip
    ensures views[i].uses <= views[j].uses
    ensures entry in views[j].lru || UsedAfter(views[j].uses, |views[i].uses|, other)
  {
    hide Step, UsedAfter;
    if i < j {
      MappingsSurvive(pool, events, answers, views, i, j - 1, entry, other);
      assert Step(pool, views[j - 1], events[j - 1], answers[j - 1], views[j]);
      SurvivesStep(pool, views[j - 1], events[j - 1], answers[j - 1], views[j], views[i].uses, entry, other);
    }
  }

  ghost predicate UsedAfter(uses: seq<Ip>, from: nat, ip: Ip) {
    exists k :: from <= k < |uses| && uses[k] == ip
  }

  lemma SurvivesStep(pool: Pool, before: View, event: Event, answer: Option<Ip>, after: View, start: seq<Ip>, entry: Entry, other: Ip)
    requires Step(pool, before, event, answer, after) && !Reloads(event)
    requires start != [] && start[|start| - 1] == entry.ip && start <= before.uses
    requires InPool(pool, other) && other != entry.ip
    requires entry in before.lru || UsedAfter(before.uses, |start|, other)
    ensures start <= after.uses
    ensures entry in after.lru || UsedAfter(after.uses, |start|, other)
  {
    hide Canonical, InPool;
    assert before.uses <= after.uses;
    if event.Query? && entry in before.lru && entry.ip == answer.value && entry.name != Canonical(event.name) {
      assert UsedSince(before.uses, entry.ip, other);
      var k :| LastUse(before.uses, entry.ip) < k < |before.uses| && before.uses[k] == other;
      assert before.uses[|start| - 1] == entry.ip;
      assert |start| <= k;
    }
    if UsedAfter(before.uses, |start|, other) {
      var k :| |start| <= k < |before.uses| && before.uses[k] == other;
      assert after.uses[k] == other;
    } else {
      assert entry in Entries(before.lru) && entry in Entries(after.lru);
    }
  }

  lemma KnownKeepsEntries(pool: Pool, lru: Recency, names: map<Name, Ip>, uses: seq<Ip>, ip: Ip, name: Name)
    requires Consistent(pool, lru, names, uses) && name in names && names[name] == ip
    ensures Assign(Entries(lru), Entry(ip, name)) == Entries(lru)
    ensures forall e :: e in lru && (e.name == name || e.ip == ip) ==> e == Entry(ip, name)
  {
    hide CanonicalEntry, ByRecency;
    assert Entry(ip, name) in lru;
    var i :| 0 <= i < |lru| && lru[i] == Entry(ip, name);
  }

  /** Over any run of queries and lookups, with any faults and with persistence enabled at any time,
      the two directions of the mapping stay inverse; every query is answered as above; and the
      journal stands for the mappings whenever it is not dirty, if the journals enabled do. */
  method Run(dns: FakeIpAllocator, events: seq<Event>) returns (answers: seq<Option<Ip>>, ghost views: seq<View>)
    requires dns.Valid() && dns.Synced(Entries(dns.lru))
    modifies dns, dns.persistence
    ensures dns.Valid()
    ensures Trace(dns.pool, events, answers, views)
    ensures views[0] == View(old(dns.lru), old(dns.uses)) && views[|events|] == View(dns.lru, dns.uses)
    ensures AllTrusted(dns.pool, events) ==> dns.Synced(Entries(dns.lru))
    ensures dns.persistence == old(dns.persistence) || fresh(dns.persistence)
  {
    hide Consistent, Faithful, Canonical, Trace, Step, Trusted;
    answers, views := [], [View(dns.lru, dns.uses)];
    assert Trace(dns.pool, events[..0], answers, views) by { TraceStart(dns.pool, events[..0], views); }
    for i := 0 to |events|
      invariant dns.Valid()
      invariant |views| == i + 1 && |answers| == i && Trace(dns.pool, events[..i], answers, views)
      invariant views[0] == View(old(dns.lru), old(dns.uses)) && views[i] == View(dns.lru, dns.uses)
      invariant AllTrusted(dns.pool, events) ==> dns.Synced(Entries(dns.lru))
      invariant dns.persistence == old(dns.persistence) || fresh(dns.persistence)
    {
      ghost var before := View(dns.lru, dns.uses);
      var answer := Perform(dns, events[i]);
      TraceStep(dns.pool, events, i, answers, views, answer, View(dns.lru, dns.uses));
      answers, views := answers + [answer], views + [View(dns.lru, dns.uses)];
    }
    assert events[..|events|] == events;
  }

  ghost predicate AllTrusted(pool: Pool, events: seq<Event>) {
    forall i :: 0 <= i < |events| ==> KeepsSync(pool, events[i])
  }

  ghost predicate KeepsSync(pool: Pool, event: Event) {
    event.Enable? && !event.openFails ==> Trusted(pool, event.disk, event.fault)
  }

  method Perform(dns: FakeIpAllocator, event: Event) returns (answer: Option<Ip>)
    requires dns.Valid()
    modifies dns, dns.persistence
    ensures dns.Valid()
    ensures Step(dns.pool, View(old(dns.lru), old(dns.uses)), event, answer, View(dns.lru, dns.uses))
    ensures old(dns.Synced(Entries(dns.lru))) && KeepsSync(dns.pool, event) ==> dns.Synced(Entries(dns.lru))
    ensures dns.persistence == old(dns.persistence) || fresh(dns.persistence)
  {
    hide Consistent, Faithful, Canonical, Trusted, UsedSince, Assign, Around, Entries;
    answer := None;
    match event
    case Lookup(ip) => var _ := dns.ResolveVirtualDomain(ip);
    case Enable(disk, openFails, fault) =>
      var cache := new PersistentCache(disk);
      var _ := dns.EnablePersistence(cache, openFails, fault);
    case Query(name, faults) =>
      ghost var lru, names, uses := dns.lru, dns.nameToIp, dns.uses;
      var ip := dns.FindOrAllocate(name, faults);
      EntryFacts(dns.pool, dns.lru, dns.nameToIp, dns.uses, |dns.lru| - 1);
      QueryAllocates(dns.pool, lru, names, uses, Canonical(name), ip, dns.lru);
      answer := Some(ip);
  }

  lemma QueryAllocates(pool: Pool, lru: Recency, names: map<Name, Ip>, uses: seq<Ip>, name: Name, ip: Ip, after: Recency)
    requires Consistent(pool, lru, names, uses) && InPool(pool, ip)
    requires name in names ==> ip == names[name] && Entries(after) == Entries(lru)
    requires name !in names ==> Entries(after) == Assign(Entries(lru), Entry(ip, name))
    requires name !in names && Mapped(lru, ip) ==>
      forall other :: InPool(pool, other) && other != ip ==> Mapped(lru, other) && UsedSince(uses, ip, other)
    ensures Allocated(pool, View(lru, uses), name, ip, View(after, uses + [ip]))
  {
    hide Consistent, UsedSince, InPool, Assign, Entries;
    if name in names {
      KnownKeepsEntries(pool, lru, names, uses, ip, name);
    } else {
      UnknownName(pool, lru, names, uses, name);
      assert forall e :: e in lru && e.ip == ip ==> Mapped(lru, ip);
    }
  }

  lemma TraceStart(pool: Pool, events: seq<Event>, views: seq<View>)
    requires events == [] && |views| == 1
    ensures Trace(pool, events, [], views)
  {
  }

  /** A new process that loads the journal of a running one has exactly its mappings if and only if
      replay accepts all their names; after a compaction also in the same order of use and with the
      same cursor. */
  method Restart(running: FakeIpAllocator) returns (restarted: FakeIpAllocator)
    requires running.Valid() && running.persistence != null && !running.persistence.dirty
    requires running.Synced(Entries(running.lru))
    ensures fresh(restarted) && restarted.Valid()
    ensures Entries(restarted.lru) == Entries(running.lru) <==>
      forall e :: e in running.lru ==> 1 <= |e.name| <= 253
    ensures
      && running.persistence.disk == Snapshot(running.pool, running.nextAddr, running.lru)
      && (forall e :: e in running.lru ==> 1 <= |e.name| <= 253) ==>
      restarted.lru == running.lru && restarted.nextAddr == running.nextAddr
  {
    hide Canonical, Mirrors, Replay, Records, Snapshot, Storable, ByRecency, Inverse, Faithful;
    restarted := new FakeIpAllocator(running.pool);
    var disk := running.persistence.disk;
    var cache := new PersistentCache(disk);
    FaithfulFacts(running.pool, disk, running.persistence.journalRecords, Entries(running.lru));
    var r := restarted.EnablePersistence(cache, false, NoRewriteFault);
    MirrorsExactly(running.pool, Replay(running.pool, Records(running.pool, disk).value), Entries(running.lru));
    SnapshotLoads(running.pool, running.nextAddr, running.lru);
    SnapshotCursor(running.pool, running.nextAddr, running.lru);
  }

  lemma FaithfulFacts(pool: Pool, disk: Disk, journalRecords: nat, live: set<Entry>)
    requires Faithful(pool, disk, journalRecords, live)
    ensures Compatible(pool, disk) && Records(pool, disk).Some?
    ensures Mirrors(pool, Replay(pool, Records(pool, disk).value), live)
  {
  }

  lemma SnapshotCursor(pool: Pool, cursor: Ip, lru: Recency)
    ensures var disk := Snapshot(pool, cursor, lru); disk.File? && disk.lines != [] && disk.lines[0] == Header(VERSION, pool, cursor)
  {
  }

  // ---------------------------------------------------------------- where persistence falls short

  /** Enabling persistence can fail after it is switched on, with an unusable journal in place and
      not marked dirty. Appends then succeed, and no later load will accept them. */
  lemma AppendsToUnusableJournalAreLost(pool: Pool, disk: Disk, entry: Entry)
    requires disk.File? && disk.lines != [] && !Compatible(pool, disk)
    ensures Records(pool, Appended(disk, entry, NoFault)).None?
  {
  }

  /** A clean journal without its final newline is not repaired, and the next append loses both
      its own record and the last one. */
  lemma AppendToTornJournalLosesTwo(pool: Pool, cursor: Ip, first: Entry, second: Entry)
    requires InPool(pool, cursor)
    ensures var torn := File([Header(VERSION, pool, cursor), Mapping(first)], false);
      && Records(pool, torn) == Some([first])
      && Records(pool, Appended(torn, second, NoFault)) == Some([])
  {
    var torn := File([Header(VERSION, pool, cursor), Mapping(first)], false);
    assert torn.lines[1..] == [Mapping(first)];
    assert Mappings([Mapping(first)]) == [first];
    assert Appended(torn, second, NoFault).lines[1..] == [Garbage];
    assert Mappings([Garbage]) == [];
  }
}
