/** The append-only journal of fake-IP mappings (src/virtual_dns/persistence.rs).

    The journal is a sequence of lines. A write that is cut short can leave a final line without
    its newline; the next append then continues that line instead of starting one.
 */
module Journal {
  import opened Base
  import opened Addresses

  type Name = seq<Byte>

  datatype Entry = Entry(ip: Ip, name: Name)

  const VERSION: Byte := 1
  const COMPACT_STALE_RECORDS: nat := 1024

  /** `Garbage` is text that is no record, `Unreadable` a line that is no text at all. */
  datatype Line =
    | Header(version: Byte, pool: Pool, cursor: Ip)
    | Mapping(entry: Entry)
    | Garbage
    | Unreadable

  datatype Disk = Missing | File(lines: seq<Line>, terminated: bool)

  // ---------------------------------------------------------------- names

  const DOT: Byte := 46

  function TrimDots(name: Name): Name {
    if name != [] && name[|name| - 1] == DOT then TrimDots(name[..|name| - 1]) else name
  }

  function LowerByte(b: Byte): Byte {
    if 65 <= b <= 90 then b + 32 else b
  }

  function Lower(name: Name): (lower: Name)
    ensures |lower| == |name|
    ensures forall i :: 0 <= i < |name| ==> lower[i] == LowerByte(name[i])
  {
    if name == [] then [] else Lower(name[..|name| - 1]) + [LowerByte(name[|name| - 1])]
  }

  /** Names differing in case and trailing dots are the same name. */
  function Canonical(name: Name): Name {
    Lower(TrimDots(name))
  }

  lemma {:induction false} TrimmedDots(name: Name)
    ensures var trimmed := TrimDots(name); trimmed == [] || trimmed[|trimmed| - 1] != DOT
    ensures TrimDots(name) <= name
    ensures forall i :: |TrimDots(name)| <= i < |name| ==> name[i] == DOT
  {
    if name != [] && name[|name| - 1] == DOT {
      TrimmedDots(name[..|name| - 1]);
    }
  }

  /** Each byte is the same, or the same ASCII letter in the other case. */
  predicate CaseEqual(a: Name, b: Name) {
    |a| == |b| && forall i :: 0 <= i < |a| ==>
      a[i] == b[i] || (65 <= a[i] <= 90 && b[i] == a[i] + 32) || (65 <= b[i] <= 90 && a[i] == b[i] + 32)
  }

  /** Two names are one exactly if, trailing dots aside, they differ in the case of letters only. */
  lemma SameCanonical(a: Name, b: Name)
    ensures Canonical(a) == Canonical(b) <==> CaseEqual(TrimDots(a), TrimDots(b))
  {
    hide Lower, TrimDots;
    var x, y := TrimDots(a), TrimDots(b);
    if Canonical(a) == Canonical(b) {
      forall i | 0 <= i < |x|
        ensures x[i] == y[i] || (65 <= x[i] <= 90 && y[i] == x[i] + 32) || (65 <= y[i] <= 90 && x[i] == y[i] + 32)
      {
        assert Lower(x)[i] == Lower(y)[i];
      }
    }
  }

  lemma CanonicalIdempotent(name: Name)
    ensures Canonical(Canonical(name)) == Canonical(name)
  {
    var trimmed := TrimDots(name);
    TrimmedDots(name);
    assert TrimDots(Lower(trimmed)) == Lower(trimmed);
    assert Lower(Lower(trimmed)) == Lower(trimmed);
  }

  /** What replay accepts. */
  predicate Storable(pool: Pool, entry: Entry) {
    1 <= |entry.name| <= 253 && InPool(pool, entry.ip)
  }

  // ---------------------------------------------------------------- replay

  /** Assigning an address to a name ends every other use of the two. */
  function Assign(live: set<Entry>, entry: Entry): set<Entry> {
    (set e | e in live && e.ip != entry.ip && e.name != entry.name) + {entry}
  }

  function CanonicalEntry(entry: Entry): Entry {
    Entry(entry.ip, Canonical(entry.name))
  }

  function ReplayOne(pool: Pool, live: set<Entry>, record: Entry): set<Entry> {
    if Storable(pool, CanonicalEntry(record)) then Assign(live, CanonicalEntry(record)) else live
  }

  /** The mappings that replaying `records` on an empty cache leaves. */
  function Replay(pool: Pool, records: seq<Entry>): set<Entry> {
    if records == [] then {}
    else ReplayOne(pool, Replay(pool, records[..|records| - 1]), records[|records| - 1])
  }

  lemma ReplayAppend(pool: Pool, records: seq<Entry>, record: Entry)
    ensures Replay(pool, records + [record]) == ReplayOne(pool, Replay(pool, records), record)
  {
    assert (records + [record])[..|records|] == records;
  }

  /** The mapping records of the lines after the header, up to an unreadable line. */
  function Mappings(lines: seq<Line>): seq<Entry> {
    if lines == [] || lines[0].Unreadable? then []
    else (if lines[0].Mapping? then [lines[0].entry] else []) + Mappings(lines[1..])
  }

  predicate AllMappings(lines: seq<Line>) {
    forall i :: 0 <= i < |lines| ==> lines[i].Mapping?
  }

  lemma AllMappingsAppend(lines: seq<Line>, line: Line)
    ensures AllMappings(lines + [line]) <==> AllMappings(lines) && line.Mapping?
  {
    var more := lines + [line];
    assert more[|lines|] == line;
    assert forall i :: 0 <= i < |lines| ==> more[i] == lines[i];
  }

  predicate Readable(lines: seq<Line>) {
    forall i :: 0 <= i < |lines| ==> !lines[i].Unreadable?
  }

  lemma {:induction false} MappingsAppend(lines: seq<Line>, line: Line)
    ensures Readable(lines) && line.Mapping? ==> Mappings(lines + [line]) == Mappings(lines) + [line.entry]
    ensures !Readable(lines) || !line.Mapping? ==> Mappings(lines + [line]) == Mappings(lines)
  {
    if lines != [] {
      assert (lines + [line])[1..] == lines[1..] + [line];
      MappingsAppend(lines[1..], line);
    }
  }

  predicate Compatible(pool: Pool, disk: Disk) {
    && disk.File?
    && |disk.lines| > 0
    && disk.lines[0].Header?
    && disk.lines[0].version == VERSION
    && disk.lines[0].pool == pool
    && InPool(pool, disk.lines[0].cursor)
  }

  /** The records a load of the journal finds, if it accepts the journal. */
  function Records(pool: Pool, disk: Disk): Option<seq<Entry>> {
    if Compatible(pool, disk) then Some(Mappings(disk.lines[1..])) else None
  }

  /** A journal that appends extend: accepted, readable, and ending with a newline. */
  predicate Sound(pool: Pool, disk: Disk) {
    Compatible(pool, disk) && Readable(disk.lines) && disk.terminated
  }

  // ---------------------------------------------------------------- writing

  /** How an append fails: before writing, inside the line, before its newline, or after it. */
  datatype AppendFault = NoFault | NothingWritten | PartOfLine | WithoutNewline | WholeLine

  function Appended(disk: Disk, record: Entry, fault: AppendFault): Disk {
    if fault.NothingWritten? then disk
    else
      var terminated := fault.NoFault? || fault.WholeLine?;
      if disk.Missing? || disk.lines == [] then
        File([if fault.PartOfLine? then Garbage else Mapping(record)], terminated)
      else if disk.terminated then
        File(disk.lines + [if fault.PartOfLine? then Garbage else Mapping(record)], terminated)
      else
        File(disk.lines[..|disk.lines| - 1] + [if disk.lines[|disk.lines| - 1].Unreadable? then Unreadable else Garbage], terminated)
  }

  /** How a rewrite fails: with the old file in place, or with it already removed. */
  datatype RewriteFault = NoRewriteFault | KeepsFile | RemovesFile

  function MappingLines(entries: seq<Entry>): (lines: seq<Line>)
    ensures |lines| == |entries|
    ensures forall i :: 0 <= i < |entries| ==> lines[i] == Mapping(entries[i])
  {
    if entries == [] then [] else MappingLines(entries[..|entries| - 1]) + [Mapping(entries[|entries| - 1])]
  }

  /** A compacted journal. */
  function Snapshot(pool: Pool, cursor: Ip, entries: seq<Entry>): Disk {
    File([Header(VERSION, pool, cursor)] + MappingLines(entries), true)
  }

  lemma {:induction false} MappingsOfLines(lines: seq<Line>)
    requires AllMappings(lines)
    ensures |Mappings(lines)| == |lines|
    ensures forall i :: 0 <= i < |lines| ==> lines[i] == Mapping(Mappings(lines)[i])
  {
    if lines != [] {
      MappingsOfLines(lines[1..]);
    }
  }

  /** Loading a compacted journal finds exactly what was written. */
  lemma SnapshotLoads(pool: Pool, cursor: Ip, entries: seq<Entry>)
    requires InPool(pool, cursor)
    ensures Sound(pool, Snapshot(pool, cursor, entries))
    ensures Records(pool, Snapshot(pool, cursor, entries)) == Some(entries)
    ensures forall other :: other != pool ==> Records(other, Snapshot(pool, cursor, entries)) == None
  {
    var lines := Snapshot(pool, cursor, entries).lines;
    assert lines[1..] == MappingLines(entries);
    MappingsOfLines(lines[1..]);
    assert Mappings(lines[1..]) == entries;
  }

  /** A successful append is found by a later load if and only if the journal was sound. */
  lemma AppendReplays(pool: Pool, disk: Disk, record: Entry)
    ensures Sound(pool, disk) ==> Sound(pool, Appended(disk, record, NoFault))
    ensures disk.Missing? || disk.lines == [] ==> Appended(disk, record, NoFault) == File([Mapping(record)], true)
    ensures Sound(pool, disk) <==>
      && Records(pool, disk).Some?
      && Records(pool, Appended(disk, record, NoFault)) == Some(Records(pool, disk).value + [record])
  {
    if Compatible(pool, disk) {
      var lines := disk.lines;
      if disk.terminated {
        assert (lines + [Mapping(record)])[1..] == lines[1..] + [Mapping(record)];
        MappingsAppend(lines[1..], Mapping(record));
        assert Readable(lines) <==> Readable(lines[1..]);
      } else if |lines| > 1 {
        var last := lines[|lines| - 1];
        var front := lines[1..|lines| - 1];
        var merged := Appended(disk, record, NoFault).lines;
        assert lines[1..] == front + [last];
        assert merged[1..] == front + [merged[|merged| - 1]];
        MappingsAppend(front, last);
        MappingsAppend(front, merged[|merged| - 1]);
      }
    }
  }

  // ---------------------------------------------------------------- the cache file

  lemma NoLines(lines: seq<Line>)
    requires |lines| > 0
    ensures AllMappings(lines[1..1])
    ensures Mappings(lines[|lines|..]) == []
    ensures forall records: seq<Entry> :: records + Mappings(lines[|lines|..]) == records
    ensures [] + Mappings(lines[1..]) == Mappings(lines[1..])
  {
  }

  /** One turn of the load loop. */
  lemma NextLine(lines: seq<Line>, i: nat, found: seq<Entry>)
    requires 1 <= i < |lines|
    ensures AllMappings(lines[1..i + 1]) <==> AllMappings(lines[1..i]) && lines[i].Mapping?
    ensures !lines[i].Mapping? ==> !AllMappings(lines[1..])
    ensures found + Mappings(lines[i..])
         == if lines[i].Unreadable? then found
            else if lines[i].Mapping? then found + [lines[i].entry] + Mappings(lines[i + 1..])
            else found + Mappings(lines[i + 1..])
  {
    assert lines[i..][1..] == lines[i + 1..];
    assert lines[1..i + 1] == lines[1..i] + [lines[i]];
    AllMappingsAppend(lines[1..i], lines[i]);
    assert lines[1..][i - 1] == lines[i];
    if lines[i].Mapping? {
      assert found + ([lines[i].entry] + Mappings(lines[i + 1..])) == found + [lines[i].entry] + Mappings(lines[i + 1..]);
    } else {
      assert [] + Mappings(lines[i + 1..]) == Mappings(lines[i + 1..]);
    }
  }

  datatype LoadResult =
    | NoFile
    | Incompatible
    | Loaded(cursor: Ip, mappings: seq<Entry>, repairNeeded: bool)

  class PersistentCache {
    var disk: Disk
    var journalRecords: nat
    var dirty: bool

    constructor (disk: Disk)
      ensures this.disk == disk && journalRecords == 0 && !dirty
    {
      this.disk := disk;
      journalRecords := 0;
      dirty := false;
    }

    /** Reads the whole journal; asks for a repair unless every line after the header is a record. */
    method Load(pool: Pool, openFails: bool) returns (r: Result<LoadResult, ()>)
      modifies `journalRecords, `dirty
      ensures !dirty
      ensures r.Err? <==> openFails
      ensures r.Ok? ==>
        && (r.value.NoFile? <==> disk.Missing?)
        && (r.value.Loaded? <==> Compatible(pool, disk))
        && (r.value.Loaded? <==>
              && disk.File? && disk.lines != [] && disk.lines[0].Header?
              && var Header(version, cached, cursor) := disk.lines[0];
                 && version == 1 && cached.network == pool.network && cached.broadcast == pool.broadcast
                 && cursor.v6 == pool.network.v6 && pool.network.value <= cursor.value <= pool.broadcast.value)
        && (r.value.Loaded? ==>
              && r.value.cursor == disk.lines[0].cursor
              && r.value.mappings == Mappings(disk.lines[1..])
              && r.value.repairNeeded == !AllMappings(disk.lines[1..])
              && journalRecords == |r.value.mappings|)
    {
      journalRecords := 0;
      dirty := false;
      if openFails {
        return Err(());
      }
      if disk.Missing? {
        return Ok(NoFile);
      }
      var lines := disk.lines;
      if !Compatible(pool, disk) {
        return Ok(Incompatible);
      }
      hide Mappings, AllMappings;
      var mappings: seq<Entry> := [];
      var repairNeeded := false;
      NoLines(lines);
      var i := 1;
      while i < |lines|
        invariant 1 <= i <= |lines|
        invariant mappings + Mappings(lines[i..]) == Mappings(lines[1..])
        invariant repairNeeded == !AllMappings(lines[1..i])
        invariant journalRecords == |mappings| && !dirty
      {
        NextLine(lines, i, mappings);
        if lines[i].Unreadable? {
          return Ok(Loaded(lines[0].cursor, mappings, true));
        }
        if lines[i].Mapping? {
          journalRecords := journalRecords + 1;
          mappings := mappings + [lines[i].entry];
        } else {
          repairNeeded := true;
        }
        i := i + 1;
      }
      assert lines[1..i] == lines[1..];
      return Ok(Loaded(lines[0].cursor, mappings, repairNeeded));
    }

    method NeedsRewrite(metadataFails: bool) returns (r: Result<bool, ()>)
      ensures r == if dirty then Ok(true)
                   else if metadataFails && disk.File? then Err(())
                   else Ok(disk.Missing? || disk.lines == [])
    {
      if dirty {
        return Ok(true);
      }
      if disk.Missing? {
        return Ok(true);
      }
      if metadataFails {
        return Err(());
      }
      return Ok(disk.lines == []);
    }

    method AppendMapping(record: Entry, fault: AppendFault) returns (ok: bool)
      modifies this
      ensures ok == fault.NoFault?
      ensures disk == Appended(old(disk), record, fault)
      ensures if ok then journalRecords == old(journalRecords) + 1 && !dirty
              else journalRecords == old(journalRecords) && dirty == old(dirty)
    {
      disk := Appended(disk, record, fault);
      if !fault.NoFault? {
        return false;
      }
      journalRecords := journalRecords + 1;
      dirty := false;
      return true;
    }

    predicate ShouldCompact(live: nat)
      reads this
    {
      Compactable(journalRecords, live)
    }

    /** Replaces the file by a compacted one, written aside first. */
    method Rewrite(pool: Pool, cursor: Ip, entries: seq<Entry>, fault: RewriteFault) returns (ok: bool)
      modifies this
      ensures ok == fault.NoRewriteFault?
      ensures ok ==> disk == Snapshot(pool, cursor, entries) && journalRecords == |entries| && !dirty
      ensures !ok ==> journalRecords == old(journalRecords) && dirty == old(dirty)
      ensures !ok ==> disk == if fault.KeepsFile? then old(disk) else Missing
    {
      var lines := [Header(VERSION, pool, cursor)];
      var records := 0;
      for i := 0 to |entries|
        invariant lines == [Header(VERSION, pool, cursor)] + MappingLines(entries[..i])
        invariant records == i
        invariant unchanged(this)
      {
        assert entries[..i + 1][..i] == entries[..i];
        lines := lines + [Mapping(entries[i])];
        records := records + 1;
      }
      assert entries[..|entries|] == entries;
      match fault
      case KeepsFile => return false;
      case RemovesFile =>
        disk := Missing;
        return false;
      case NoRewriteFault =>
        disk := File(lines, true);
        journalRecords := records;
        dirty := false;
        return true;
    }
  }

  predicate Compactable(records: nat, live: nat) {
    && (if records >= live then records - live else 0) >= COMPACT_STALE_RECORDS
    && records >= live * 2
  }
}
