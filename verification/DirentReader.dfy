/**
 The directory reader (src/file/bc_io_dirent_reader.c): a decoder of the variable-length
 records that getdents64 puts into the reader's buffer, batch by batch.
 */
module DirentReader {
  import opened Bytes

  const BUFFER_SIZE: nat := 8192
  const NAME_OFFSET: nat := 19

  /** One linux_dirent64 record; the two length bytes are part of its data. */
  datatype Record = Record(
    inode: bytes, offset: bytes, lengthLow: byte, lengthHigh: byte, dType: byte, name: bytes, padding: bytes)

  function LengthField(low: byte, high: byte): nat {
    low as nat + 256 * (high as nat)
  }

  function Encode(r: Record): bytes {
    r.inode + r.offset + [r.lengthLow, r.lengthHigh, r.dType] + r.name + [NUL] + r.padding
  }

  /** A record as the kernel writes it: fixed-size header, a name without NUL, and the right length. */
  ghost predicate WellFormed(r: Record) {
    |r.inode| == 8 && |r.offset| == 8 && r.name != [] && NUL !in r.name
    && LengthField(r.lengthLow, r.lengthHigh) == |Encode(r)|
  }

  function EncodeAll(records: seq<Record>): bytes {
    if records == [] then [] else Encode(records[0]) + EncodeAll(records[1..])
  }

  /** Answers of getdents64 to come; when there are none left it reports the end of the directory. */
  datatype Answer = Batch(records: seq<Record>) | Failure(errno: int)

  ghost predicate WellFormedAnswer(a: Answer) {
    a.Batch? ==>
      a.records != [] && (forall r :: r in a.records ==> WellFormed(r)) && |EncodeAll(a.records)| <= BUFFER_SIZE
  }

  /** The entries "." and "..", which the reader leaves out. */
  predicate IsDotEntry(name: bytes) {
    name == [DOT] || name == [DOT, DOT]
  }

  // ---------- what reading a directory must yield ----------

  /** What a caller of `next` gets to see. */
  datatype Item = Entry(name: bytes, dType: byte) | Error(errno: int)

  function Visible(records: seq<Record>): seq<Item> {
    if records == [] then []
    else (if IsDotEntry(records[0].name) then [] else [Entry(records[0].name, records[0].dType)])
         + Visible(records[1..])
  }

  /** All entries but "." and "..", in order, and each failed system call where it happens. */
  function Items(records: seq<Record>, answers: seq<Answer>): seq<Item> {
    Visible(records) + ItemsOfAnswers(answers)
  }

  function ItemsOfAnswers(answers: seq<Answer>): seq<Item> {
    if answers == [] then []
    else (match answers[0] case Batch(records) => Visible(records) case Failure(errno) => [Error(errno)])
         + ItemsOfAnswers(answers[1..])
  }

  /** The first record contributes its item, or nothing when it is a dot entry. */
  lemma ItemsStep(records: seq<Record>, answers: seq<Answer>)
    requires records != []
    ensures Items(records, answers)
         == (if IsDotEntry(records[0].name) then [] else [Entry(records[0].name, records[0].dType)])
            + Items(records[1..], answers)
  {
  }

  // ---------- decoding one record ----------

  /** The fields of a record can be read back at their fixed places. */
  lemma DecodesRecord(r: Record)
    requires WellFormed(r)
    ensures var data := Encode(r);
            && |data| >= 19 + |r.name| + 1 && r.name != [] && 0 !in r.name
            && LengthField(data[16], data[17]) == |data| && data[18] == r.dType
            && data[19..19 + |r.name|] == r.name && data[19 + |r.name|] == 0
  {
    var header := r.inode + r.offset + [r.lengthLow, r.lengthHigh, r.dType];
    assert Encode(r) == header + r.name + [NUL] + r.padding;
    assert header[16] == r.lengthLow && header[17] == r.lengthHigh && header[18] == r.dType;
    assert Encode(r)[..NAME_OFFSET] == header;
  }

  /** A record of 24 bytes for a file "A", byte by byte, as getdents64 writes it. */
  lemma KnownRecord()
    ensures var r := Record([1, 0, 0, 0, 0, 0, 0, 0], [2, 0, 0, 0, 0, 0, 0, 0], 24, 0, 8, [65], [0, 0, 0]);
            && WellFormed(r)
            && Encode(r) == [1, 0, 0, 0, 0, 0, 0, 0, 2, 0, 0, 0, 0, 0, 0, 0, 24, 0, 8, 65, 0, 0, 0, 0]
    ensures LengthField(24, 0) == 24 && LengthField(24, 1) == 280
    ensures IsDotEntry([46]) && IsDotEntry([46, 46]) && !IsDotEntry([46, 46, 46]) && !IsDotEntry([46, 65]) && !IsDotEntry([65])
  {
  }

  /** The byte comparisons of the reader recognise exactly the two dot entries. */
  lemma RecognisesDots(data: bytes, name: bytes)
    requires name != [] && NUL !in name && |data| > |name| && data[..|name|] == name && data[|name|] == NUL
    ensures |name| == 1 || |data| > 2
    ensures IsDotEntry(name) <==>
              data[0] == DOT && (data[1] == NUL || (data[1] == DOT && data[2] == NUL))
  {
    assert data[0] == name[0];
    if |name| > 1 {
      assert data[1] == name[1] && name[1] in name;
      if |name| > 2 {
        assert data[2] == name[2] && name[2] in name;
      }
    }
  }

  // ---------- the code ----------

  /** An open directory: what getdents64 will still answer for it. */
  class Directory {
    var answers: seq<Answer>

    constructor (answers: seq<Answer>)
      ensures this.answers == answers
    {
      this.answers := answers;
    }

    /** Fills the start of `buffer`; zero bytes mean the end of the directory. */
    method GetDents(buffer: array<byte>) returns (bytesRead: int, errno: int)
      requires buffer.Length == BUFFER_SIZE && forall a :: a in answers ==> WellFormedAnswer(a)
      modifies this, buffer
      ensures answers == if old(answers) == [] then [] else old(answers)[1..]
      ensures bytesRead < 0 <==> old(answers) != [] && old(answers)[0].Failure?
      ensures bytesRead < 0 ==> errno == old(answers)[0].errno && buffer[..] == old(buffer[..])
      ensures bytesRead == 0 ==> old(answers) == []
      ensures old(answers) == [] ==> bytesRead == 0 && buffer[..] == old(buffer[..])
      ensures bytesRead > 0 ==>
                old(answers) != [] && old(answers)[0].Batch? && bytesRead <= BUFFER_SIZE
                && buffer[..bytesRead] == EncodeAll(old(answers)[0].records)
    {
      if answers == [] {
        return 0, 0;
      }
      var a := answers[0];
      assert a in answers;
      answers := answers[1..];
      match a
      case Failure(e) =>
        return -1, e;
      case Batch(records) =>
        var data := EncodeAll(records);
        EncodeAllIsNonEmpty(records);
        Copy(buffer, 0, data);
        assert buffer[..|data|] == data;
        return |data|, 0;
    }
  }

  lemma EncodeAllIsNonEmpty(records: seq<Record>)
    requires records != []
    ensures |EncodeAll(records)| > 0
  {
  }

  /** bc_core_length: the distance to the first NUL from `from` on, unless the buffer has none. */
  method Length(buffer: array<byte>, from: nat) returns (ok: bool, length: nat)
    requires from <= buffer.Length
    ensures ok <==> exists i :: from <= i < buffer.Length && buffer[i] == NUL
    ensures ok ==> from + length < buffer.Length && buffer[from + length] == NUL
    ensures ok ==> forall i :: from <= i < from + length ==> buffer[i] != NUL
  {
    length := 0;
    while from + length < buffer.Length
      invariant from + length <= buffer.Length
      invariant forall i :: from <= i < from + length ==> buffer[i] != NUL
    {
      if buffer[from + length] == NUL {
        return true, length;
      }
      length := length + 1;
    }
    return false, 0;
  }

  /** Reads a NUL-terminated name; a record's name always is one, so EINVAL is never reported. */
  method ReadName(buffer: array<byte>, from: nat, ghost expected: bytes) returns (name: bytes)
    requires NUL !in expected && from + |expected| < buffer.Length
    requires buffer[from..from + |expected|] == expected && buffer[from + |expected|] == NUL
    ensures name == expected
  {
    var ok, length := Length(buffer, from);
    assert ok;
    assert forall i :: 0 <= i < |expected| ==> expected[i] == buffer[from + i] && expected[i] in expected;
    assert length >= |expected|;
    name := buffer[from..from + length];
  }

  /** Where the fields of a record lie in the buffer that holds it. */
  lemma FieldsInPlace(memory: bytes, at: nat, r: Record)
    requires WellFormed(r) && at + |Encode(r)| <= |memory| && memory[at..at + |Encode(r)|] == Encode(r)
    ensures var start := at + NAME_OFFSET;
            && start + |r.name| < |memory| && r.name != [] && NUL !in r.name
            && LengthField(memory[at + 16], memory[at + 17]) == |Encode(r)| && memory[at + 18] == r.dType
            && memory[start..start + |r.name|] == r.name && memory[start + |r.name|] == NUL
  {
    hide Encode, WellFormed, LengthField;
    DecodesRecord(r);
    var n, data := |Encode(r)|, memory[at..at + |Encode(r)|];
    SliceOfSlice(memory, at, n, NAME_OFFSET, |r.name|);
    assert data[16] == memory[at + 16] && data[17] == memory[at + 17] && data[18] == memory[at + 18];
    assert data[NAME_OFFSET + |r.name|] == memory[at + (NAME_OFFSET + |r.name|)];
  }

  lemma SliceOfSlice(memory: bytes, at: nat, n: nat, from: nat, count: nat)
    requires at + n <= |memory| && from + count <= n
    ensures memory[at..at + n][from..from + count] == memory[at + from..at + from + count]
  {
    var whole := memory[at..at + n];
    var part, direct := whole[from..from + count], memory[at + from..at + from + count];
    forall i | 0 <= i < count ensures part[i] == direct[i] {
      assert part[i] == whole[from + i] == memory[at + (from + i)];
    }
    assert part == direct;
  }

  /** Decodes the record that starts at `at`; dot entries are recognised but not reported. */
  method DecodeAt(buffer: array<byte>, at: nat, ghost r: Record)
    returns (found: bool, name: bytes, dType: byte, recordLength: nat)
    requires WellFormed(r) && at + |Encode(r)| <= buffer.Length
    requires buffer[at..at + |Encode(r)|] == Encode(r)
    ensures recordLength == |Encode(r)|
    ensures found <==> !IsDotEntry(r.name)
    ensures found ==> name == r.name && dType == r.dType
  {
    hide Encode, WellFormed, LengthField;
    assert buffer[at..at + |Encode(r)|] == buffer[..][at..at + |Encode(r)|];
    FieldsInPlace(buffer[..], at, r);
    recordLength := LengthField(buffer[at + 16], buffer[at + 17]);
    dType := buffer[at + 18];
    var start := at + NAME_OFFSET;
    assert buffer[..][start..start + |r.name|] == buffer[start..start + |r.name|];
    var dots := StartsWithDotEntry(buffer, start, r.name);
    if dots {
      return false, [], dType, recordLength;
    }
    name := ReadName(buffer, start, r.name);
    found := true;
  }

  method StartsWithDotEntry(buffer: array<byte>, start: nat, ghost name: bytes) returns (dots: bool)
    requires name != [] && NUL !in name && start + |name| < buffer.Length
    requires buffer[start..start + |name|] == name && buffer[start + |name|] == NUL
    ensures dots <==> IsDotEntry(name)
  {
    ghost var data := buffer[start..];
    assert data[..|name|] == buffer[start..start + |name|];
    RecognisesDots(data, name);
    dots := buffer[start] == DOT
            && (buffer[start + 1] == NUL || (buffer[start + 1] == DOT && buffer[start + 2] == NUL));
  }

  datatype Outcome = Found(name: bytes, nameLength: nat, dType: byte) | EndOfDirectory | Failed

  class Reader {
    var directory: Directory
    var lastErrno: int
    var bufferUsed: int
    var cursor: nat
    const buffer: array<byte>

    /** The records of the current batch that have not been returned yet. */
    ghost var records: seq<Record>

    ghost predicate Valid()
      reads this, buffer, directory
    {
      && buffer.Length == BUFFER_SIZE
      && cursor <= bufferUsed <= BUFFER_SIZE
      && (forall r :: r in records ==> WellFormed(r))
      && buffer[cursor..bufferUsed] == EncodeAll(records)
      && (forall a :: a in directory.answers ==> WellFormedAnswer(a))
    }

    /** What the remaining calls have to yield. */
    ghost function Remaining(): seq<Item>
      reads this, directory
    {
      Items(records, directory.answers)
    }

    constructor (directory: Directory)
      requires forall a :: a in directory.answers ==> WellFormedAnswer(a)
      ensures Valid() && fresh(buffer) && this.directory == directory
      ensures Remaining() == ItemsOfAnswers(directory.answers)
    {
      this.directory := directory;
      lastErrno := 0;
      bufferUsed := 0;
      cursor := 0;
      buffer := new byte[BUFFER_SIZE](_ => 0);
      records := [];
    }

    /** bc_io_dirent_reader_reset: whatever was left of the old directory is forgotten. */
    method Reset(next: Directory)
      requires Valid() && forall a :: a in next.answers ==> WellFormedAnswer(a)
      modifies this
      ensures Valid() && directory == next && lastErrno == 0
      ensures Remaining() == ItemsOfAnswers(next.answers)
    {
      directory := next;
      lastErrno := 0;
      bufferUsed := 0;
      cursor := 0;
      records := [];
    }

    /** Refills an exhausted buffer; the result tells whether there are records to decode. */
    method Refill() returns (more: bool, ok: bool)
      requires Valid() && records == []
      modifies this, buffer, directory
      ensures Valid() && directory == old(directory)
      ensures ok && more ==> Remaining() == old(Remaining()) && records != []
                             && |directory.answers| < |old(directory.answers)|
      ensures ok && !more ==> old(Remaining()) == [] == Remaining() && records == []
      ensures !ok ==> old(Remaining()) == [Error(lastErrno)] + Remaining()
    {
      ghost var before := directory.answers;
      var bytesRead, errno := directory.GetDents(buffer);
      if bytesRead < 0 {
        lastErrno := errno;
        return false, false;
      }
      if bytesRead == 0 {
        return false, true;
      }
      bufferUsed := bytesRead;
      cursor := 0;
      records := before[0].records;
      assert before[0] in before;
      return true, true;
    }

    method Next() returns (outcome: Outcome)
      requires Valid()
      modifies this, buffer, directory
      ensures Valid() && directory == old(directory)
      ensures match outcome
              case Found(name, nameLength, dType) =>
                nameLength == |name| && old(Remaining()) == [Entry(name, dType)] + Remaining()
              case EndOfDirectory => old(Remaining()) == [] == Remaining()
              case Failed => old(Remaining()) == [Error(lastErrno)] + Remaining()
    {
      while true
        invariant Valid() && directory == old(directory)
        invariant Remaining() == old(Remaining())
        decreases |directory.answers|, |records|
      {
        if cursor as int >= bufferUsed {
          NoBytesNoRecords(records);
          var more, ok := Refill();
          if !ok {
            return Failed;
          }
          if !more {
            return EndOfDirectory;
          }
        }
        ItemsStep(records, directory.answers);
        var found, name, dType := DecodeRecord();
        if found {
          return Found(name, |name|, dType);
        }
      }
      assert false;
    }

    /** Steps over the record at the cursor and reports it, unless it is a dot entry. */
    method DecodeRecord() returns (found: bool, name: bytes, dType: byte)
      requires Valid() && records != []
      modifies this`cursor, this`records
      ensures Valid() && records == old(records)[1..]
      ensures found <==> !IsDotEntry(old(records)[0].name)
      ensures found ==> name == old(records)[0].name && dType == old(records)[0].dType
    {
      hide Encode, EncodeAll, WellFormed, Visible, ItemsOfAnswers;
      ghost var r, rest := records[0], records[1..];
      assert r in records;
      ghost var data, n := buffer[cursor..bufferUsed], |Encode(r)|;
      FirstRecordLeads(data, records);
      ghost var memory := buffer[..];
      assert data == memory[cursor..bufferUsed];
      SliceOfSlice(memory, cursor, |data|, 0, n);
      SliceOfSlice(memory, cursor, |data|, n, |data| - n);
      assert buffer[cursor..cursor + n] == data[..n] && buffer[cursor + n..bufferUsed] == data[n..];
      var recordLength;
      found, name, dType, recordLength := DecodeAt(buffer, cursor, r);
      cursor := cursor + recordLength;
      records := rest;
    }
  }

  /** The bytes of several records are those of the first one and then those of the others. */
  lemma FirstRecordLeads(data: bytes, records: seq<Record>)
    requires records != [] && data == EncodeAll(records)
    ensures var n := |Encode(records[0])|;
            n <= |data| && data[..n] == Encode(records[0]) && data[n..] == EncodeAll(records[1..])
  {
  }

  lemma NoBytesNoRecords(records: seq<Record>)
    ensures EncodeAll(records) == [] ==> records == []
  {
  }

  // ---------- whole directories ----------

  /** The result of one call of `next` as an item, or None at the end of the directory. */
  method NextItem(reader: Reader) returns (item: Option<Item>)
    requires reader.Valid()
    modifies reader, reader.buffer, reader.directory
    ensures reader.Valid() && reader.directory == old(reader.directory)
    ensures old(reader.Remaining()) == (if item.Some? then [item.value] else []) + reader.Remaining()
    ensures item == None ==> reader.Remaining() == []
  {
    var outcome := reader.Next();
    match outcome
    case EndOfDirectory => item := None;
    case Found(name, nameLength, dType) => item := Some(Entry(name, dType));
    case Failed => item := Some(Error(reader.lastErrno));
  }

  lemma AppendItem(items: seq<Item>, item: Item, rest: seq<Item>)
    ensures items + ([item] + rest) == (items + [item]) + rest
  {
  }

  /** Calls `next` until the end of the directory: exactly the items, in order. */
  method ReadDirectory(reader: Reader) returns (items: seq<Item>)
    requires reader.Valid()
    modifies reader, reader.buffer, reader.directory
    ensures reader.Valid() && items == old(reader.Remaining()) && reader.Remaining() == []
  {
    items := [];
    ghost var all := reader.Remaining();
    ghost var rest := all;
    var item := Some(Error(0));
    while item.Some?
      invariant reader.Valid() && reader.directory == old(reader.directory)
      invariant rest == reader.Remaining() && items + rest == all
      invariant item == None ==> rest == []
      decreases item.Some?, |rest|
    {
      item := NextItem(reader);
      rest := reader.Remaining();
      if item.Some? {
        AppendItem(items, item.value, rest);
        items := items + [item.value];
      }
    }
  }

  /** All records of a directory, however the kernel cuts them into batches. */
  function AllRecords(answers: seq<Answer>): seq<Record> {
    if answers == [] then []
    else (if answers[0].Batch? then answers[0].records else []) + AllRecords(answers[1..])
  }

  lemma {:induction false} VisibleConcat(a: seq<Record>, b: seq<Record>)
    ensures Visible(a + b) == Visible(a) + Visible(b)
  {
    if a == [] {
      assert a + b == b;
    } else {
      assert (a + b)[1..] == a[1..] + b;
      VisibleConcat(a[1..], b);
    }
  }

  /** Without failures the batch boundaries do not show. */
  lemma {:induction false} BatchesDoNotShow(answers: seq<Answer>)
    requires forall a :: a in answers ==> a.Batch?
    ensures ItemsOfAnswers(answers) == Visible(AllRecords(answers))
  {
    if answers != [] {
      BatchesDoNotShow(answers[1..]);
      VisibleConcat(answers[0].records, AllRecords(answers[1..]));
    }
  }

  /** The visible items are the records that are not dot entries: none is lost, none is added. */
  lemma {:induction false} VisibleIsEverythingElse(records: seq<Record>, name: bytes, dType: byte)
    ensures multiset(Visible(records))[Entry(name, dType)]
         == if IsDotEntry(name) then 0 else CountRecords(records, name, dType)
  {
    if records != [] {
      VisibleIsEverythingElse(records[1..], name, dType);
      var head := if IsDotEntry(records[0].name) then [] else [Entry(records[0].name, records[0].dType)];
      assert Visible(records) == head + Visible(records[1..]);
    }
  }

  function CountRecords(records: seq<Record>, name: bytes, dType: byte): nat {
    if records == [] then 0
    else (if records[0].name == name && records[0].dType == dType then 1 else 0) + CountRecords(records[1..], name, dType)
  }
}
