/** The manifest: one text line a record, replayed at start to rebuild the level lists. */
module Manifests {
  import opened SortedMap
  import opened Seqs
  import opened Decimal
  import opened Text
  import opened TableBuilder

  datatype ManifestRecord =
    | AddTable(level: Level, path: string, minKey: string, maxKey: string, fileSize: nat)
    | RemoveTable(path: string)

  function LevelName(level: Level): string {
    match level
    case L0 => "L0"
    case L1 => "L1"
    case L2 => "L2"
  }

  function LevelNamed(name: string): Option<Level> {
    if name == "L0" then Some(L0)
    else if name == "L1" then Some(L1)
    else if name == "L2" then Some(L2)
    else None
  }

  function Fields(r: ManifestRecord): seq<string> {
    match r
    case AddTable(level, path, minKey, maxKey, fileSize) =>
      ["ADD", LevelName(level), path, minKey, maxKey, Digits(fileSize)]
    case RemoveTable(path) => ["REMOVE", path]
  }

  function Line(r: ManifestRecord): string {
    Join(Fields(r), '|')
  }

  function Serialize(r: ManifestRecord): string {
    Line(r) + "\n"
  }

  function Deserialize(line: string): Option<ManifestRecord> {
    var parts := SplitOn(Trim(line), '|');
    if parts[0] == "ADD" then
      if |parts| != 6 then None
      else
        match (LevelNamed(parts[1]), ParseUnsigned(parts[5]))
        case (Some(level), Some(size)) => Some(AddTable(level, parts[2], parts[3], parts[4], size))
        case _ => None
    else if parts[0] == "REMOVE" then
      if |parts| != 2 then None else Some(RemoveTable(parts[1]))
    else None
  }

  function ParseLines(lines: seq<string>): seq<ManifestRecord> {
    if lines == [] then []
    else
      var n := |lines| - 1;
      ParseLines(lines[..n]) + match Deserialize(lines[n]) case Some(r) => [r] case None => []
  }

  /** load_log and load_checkpoint: lines that do not parse are passed over. */
  function Load(text: string): seq<ManifestRecord> {
    ParseLines(Lines(text))
  }

  /** The record has no field the line format cannot carry. */
  ghost predicate Clean(r: ManifestRecord) {
    && AllFree(Fields(r), '|')
    && AllFree(Fields(r), '\n')
    && (r.AddTable? ==> r.fileSize <= U64_MAX)
    && (r.RemoveTable? ==> r.path == "" || !IsWhitespace(r.path[|r.path| - 1]))
  }

  lemma {:induction false} JoinEnds(parts: seq<string>, sep: char)
    requires |parts| > 1 && parts[0] != "" && parts[|parts| - 1] != ""
    ensures var s, last := Join(parts, sep), parts[|parts| - 1];
            s != "" && s[0] == parts[0][0] && s[|s| - 1] == last[|last| - 1]
  {
    if |parts| == 2 {
      assert parts[1..] == [parts[1]] && Join(parts[1..], sep) == parts[1];
    } else {
      JoinLast(parts[1..], sep);
    }
  }

  lemma {:induction false} JoinLast(parts: seq<string>, sep: char)
    requires parts != [] && parts[|parts| - 1] != ""
    ensures var s, last := Join(parts, sep), parts[|parts| - 1]; s != "" && s[|s| - 1] == last[|last| - 1]
  {
    if |parts| > 1 {
      JoinLast(parts[1..], sep);
    }
  }

  /** A line begins with its keyword and ends with a character trimming and line ends leave alone. */
  lemma {:induction false} LineIsTrimmed(r: ManifestRecord)
    requires r.RemoveTable? ==> r.path == "" || !IsWhitespace(r.path[|r.path| - 1])
    ensures Trim(Line(r)) == Line(r) && CutReturn(Line(r)) == Line(r)
  {
    if r == RemoveTable("") {
      assert ["REMOVE", ""][1..] == [""] && Line(r) == "REMOVE|";
      return;
    }
    if r.AddTable? {
      DigitsValue(r.fileSize);
      assert IsDigit(Digits(r.fileSize)[|Digits(r.fileSize)| - 1]);
    }
    JoinEnds(Fields(r), '|');
  }

  function TotalCount(parts: seq<string>, c: char): nat {
    if parts == [] then 0 else Count(parts[0], c) + TotalCount(parts[1..], c)
  }

  lemma {:induction false} JoinCount(parts: seq<string>, sep: char)
    requires parts != []
    ensures Count(Join(parts, sep), sep) == TotalCount(parts, sep) + |parts| - 1
  {
    if |parts| > 1 {
      var rest := Join(parts[1..], sep);
      JoinCount(parts[1..], sep);
      CountConcat(parts[0] + [sep], rest, sep);
      CountConcat(parts[0], [sep], sep);
    } else {
      assert TotalCount(parts[1..], sep) == 0;
    }
  }

  lemma {:induction false} TotalCountFree(parts: seq<string>, c: char)
    ensures TotalCount(parts, c) == 0 <==> AllFree(parts, c)
  {
    if parts != [] {
      FreeIsCountZero(parts[0], c);
      TotalCountFree(parts[1..], c);
      assert parts == [parts[0]] + parts[1..];
    }
  }

  /** An ADD line reads back as the record exactly when no field holds the separator. */
  lemma {:induction false} AddLineExact(r: ManifestRecord)
    requires r.AddTable? && r.fileSize <= U64_MAX
    ensures Deserialize(Line(r)) == Some(r) <==> AllFree(Fields(r), '|')
  {
    hide SplitOn, Join, ParseUnsigned, Digits, Trim;
    LineIsTrimmed(r);
    if AllFree(Fields(r), '|') {
      SplitJoin(Fields(r), '|');
      ParseUnsignedDigits(r.fileSize);
    } else {
      SplitOnCount(Line(r), '|');
      JoinCount(Fields(r), '|');
      TotalCountFree(Fields(r), '|');
      assert |SplitOn(Line(r), '|')| > 6;
    }
  }

  lemma {:induction false} CleanLineReadsBack(r: ManifestRecord)
    requires Clean(r)
    ensures Deserialize(Line(r)) == Some(r)
  {
    if r.AddTable? {
      AddLineExact(r);
    } else {
      LineIsTrimmed(r);
      SplitJoin(Fields(r), '|');
    }
  }

  lemma {:induction false} JoinFree(parts: seq<string>, sep: char, c: char)
    requires AllFree(parts, c) && sep != c
    ensures Free(Join(parts, sep), c)
  {
    if |parts| > 1 {
      JoinFree(parts[1..], sep, c);
    }
  }

  /** Appending a clean record to a closed log adds exactly that record to what is loaded. */
  lemma {:induction false} LoadAppend(text: string, r: ManifestRecord)
    requires Closed(text) && Clean(r)
    ensures Closed(text + Serialize(r)) && Load(text + Serialize(r)) == Load(text) + [r]
  {
    JoinFree(Fields(r), '|', '\n');
    LinesAppend(text, Line(r));
    LineIsTrimmed(r);
    CleanLineReadsBack(r);
    assert text + Serialize(r) == text + Line(r) + "\n";
    var lines := Lines(text) + [Line(r)];
    assert lines[..|lines| - 1] == Lines(text);
  }

  lemma {:induction false} ReadAddClean(line: string)
    requires Free(line, '\n') && Deserialize(line).Some? && Deserialize(line).value.AddTable?
    ensures Clean(Deserialize(line).value)
  {
    var r, parts := Deserialize(line).value, SplitOn(Trim(line), '|');
    TrimExact(line, '\n');
    SplitKeepsFree(Trim(line), '|', '\n');
    SplitPartsFree(Trim(line), '|');
    DigitsValue(r.fileSize);
    hide SplitOn, Trim, Digits, LevelNamed;
    assert Free(parts[2], '|') && Free(parts[3], '|') && Free(parts[4], '|');
    assert Free(parts[2], '\n') && Free(parts[3], '\n') && Free(parts[4], '\n');
    assert Free(Digits(r.fileSize), '|') && Free(Digits(r.fileSize), '\n');
  }

  lemma {:induction false} ReadRemoveClean(line: string)
    requires Free(line, '\n') && Deserialize(line).Some? && Deserialize(line).value.RemoveTable?
    ensures Clean(Deserialize(line).value)
  {
    var t, path := Trim(line), Deserialize(line).value.path;
    var parts := SplitOn(t, '|');
    TrimExact(line, '\n');
    SplitKeepsFree(t, '|', '\n');
    SplitPartsFree(t, '|');
    JoinSplit(t, '|');
    hide SplitOn, Trim, IsWhitespace;
    assert parts[1] == path && |parts| == 2;
    if path != "" {
      JoinLast(parts, '|');
    }
  }

  /** Whatever a text holds, what is loaded from it is clean. */
  lemma {:induction false} LoadedClean(lines: seq<string>)
    requires AllFree(lines, '\n')
    ensures AllClean(ParseLines(lines))
  {
    hide Clean, Deserialize;
    if lines != [] {
      var n := |lines| - 1;
      LoadedClean(lines[..n]);
      if Deserialize(lines[n]).Some? {
        if Deserialize(lines[n]).value.AddTable? {
          ReadAddClean(lines[n]);
        } else {
          ReadRemoveClean(lines[n]);
        }
      }
    }
  }

  /** Appending a record to a closed log adds exactly that record to what is loaded if and only if it is clean. */
  lemma {:induction false} LoadAppendExactly(text: string, r: ManifestRecord)
    requires Closed(text)
    ensures Load(text + Serialize(r)) == Load(text) + [r] <==> Clean(r)
  {
    if Clean(r) {
      LoadAppend(text, r);
    }
    if Load(text + Serialize(r)) == Load(text) + [r] {
      LinesFree(text + Serialize(r));
      LoadedClean(Lines(text + Serialize(r)));
      assert (Load(text) + [r])[|Load(text)|] == r;
      assert r in Load(text + Serialize(r));
    }
  }

  function FileText(records: seq<ManifestRecord>): string {
    if records == [] then "" else FileText(records[..|records| - 1]) + Serialize(records[|records| - 1])
  }

  ghost predicate AllClean(records: seq<ManifestRecord>) {
    forall r :: r in records ==> Clean(r)
  }

  /** A whole file of clean records reads back as those records. */
  lemma {:induction false} LoadText(records: seq<ManifestRecord>)
    requires AllClean(records)
    ensures Closed(FileText(records)) && Load(FileText(records)) == records
  {
    if records == [] {
      LoadEmpty();
    } else {
      var prefix, r := records[..|records| - 1], records[|records| - 1];
      LoadText(prefix);
      LoadAppend(FileText(prefix), r);
      InitLast(records);
    }
  }

  lemma {:induction false} LoadEmpty()
    ensures Load("") == []
  {
    assert Lines("") == [];
  }

  datatype Levels = Levels(l0: seq<SSTable>, l1: seq<SSTable>, l2: seq<SSTable>)

  function Push(d: Levels, t: SSTable): Levels {
    match t.level
    case L0 => d.(l0 := d.l0 + [t])
    case L1 => d.(l1 := d.l1 + [t])
    case L2 => d.(l2 := d.l2 + [t])
  }

  function AddRecord(t: SSTable): ManifestRecord {
    AddTable(t.level, t.path, t.minKey, t.maxKey, t.fileSize)
  }

  /** load_table_metadata: index and filter come from the file, the rest from the record. */
  function LoadedTable(r: ManifestRecord, file: StoredFile): SSTable
    requires r.AddTable?
  {
    SSTable(r.path, file.blocks, file.bloom, r.level, r.minKey, r.maxKey, r.fileSize)
  }

  /** Start-up: REMOVE records are ignored, an ADD record whose file is gone is skipped. */
  function Replay(records: seq<ManifestRecord>, disk: map<string, StoredFile>): Levels {
    if records == [] then Levels([], [], [])
    else
      var d, r := Replay(records[..|records| - 1], disk), records[|records| - 1];
      if r.AddTable? && r.path in disk then Push(d, LoadedTable(r, disk[r.path])) else d
  }

  lemma {:induction false} ReplayAppend(records: seq<ManifestRecord>, r: ManifestRecord, disk: map<string, StoredFile>)
    ensures Replay(records + [r], disk) ==
            if r.AddTable? && r.path in disk then Push(Replay(records, disk), LoadedTable(r, disk[r.path]))
            else Replay(records, disk)
  {
    assert (records + [r])[..|records|] == records;
  }

  predicate NeverNamed(records: seq<ManifestRecord>, path: string) {
    forall i :: 0 <= i < |records| ==> records[i].path != path
  }

  /** A file no record names does not change what is rebuilt. */
  lemma {:induction false} ReplayNewFile(records: seq<ManifestRecord>, disk: map<string, StoredFile>, path: string, file: StoredFile)
    requires NeverNamed(records, path)
    ensures Replay(records, disk[path := file]) == Replay(records, disk)
  {
    if records != [] {
      ReplayNewFile(records[..|records| - 1], disk, path, file);
    }
  }

  function DropPath(ts: seq<SSTable>, path: string): seq<SSTable> {
    if ts == [] then []
    else DropPath(ts[..|ts| - 1], path) + if ts[|ts| - 1].path == path then [] else [ts[|ts| - 1]]
  }

  function DropPaths(d: Levels, path: string): Levels {
    Levels(DropPath(d.l0, path), DropPath(d.l1, path), DropPath(d.l2, path))
  }

  lemma {:induction false} DropPathAppend(ts: seq<SSTable>, t: SSTable, path: string)
    ensures DropPath(ts + [t], path) == if t.path == path then DropPath(ts, path) else DropPath(ts, path) + [t]
  {
    assert (ts + [t])[..|ts|] == ts;
  }

  lemma {:induction false} DropPathsPush(d: Levels, t: SSTable, path: string)
    ensures DropPaths(Push(d, t), path) == if t.path == path then DropPaths(d, path) else Push(DropPaths(d, path), t)
  {
    match t.level
    case L0 => DropPathAppend(d.l0, t, path);
    case L1 => DropPathAppend(d.l1, t, path);
    case L2 => DropPathAppend(d.l2, t, path);
  }

  /** Deleting a file takes exactly its table out of what is rebuilt. */
  lemma {:induction false} ReplayLostFile(records: seq<ManifestRecord>, disk: map<string, StoredFile>, path: string)
    ensures Replay(records, disk - {path}) == DropPaths(Replay(records, disk), path)
  {
    if records != [] {
      var n := |records| - 1;
      ReplayLostFile(records[..n], disk, path);
      var r := records[n];
      if r.AddTable? && r.path in disk {
        DropPathsPush(Replay(records[..n], disk), LoadedTable(r, disk[r.path]), path);
      }
    }
  }
}
