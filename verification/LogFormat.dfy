/** The log as bytes: lines written by the manager, appended and served by the file servers
    (grpc_server.go), and scanned on restore (exactly_once.go). */
module LogFormat {
  import opened Wal
  import opened ExactlyOnce
  import opened Appends
  import TaskRuns
  import TaskTheorems

  /** How a record is written on a line, and what a line reads as. */
  datatype Format = Format(encode: Record -> string, decode: string -> Line)

  /** Lines hold no newline and read back; no unfinished line reads as a record. */
  ghost predicate Sound(f: Format) {
    && f.decode("") == Blank
    && (forall r :: '\n' !in f.encode(r) && f.decode(f.encode(r)) == Entry(r))
    && (forall r: Record, k: nat :: k < |f.encode(r)| ==> !f.decode(f.encode(r)[..k]).Entry?)
  }

  /** What logRecord leaves in the buffer: one line per record. */
  function Written(f: Format, records: seq<Record>): string {
    if records == [] then "" else f.encode(records[0]) + "\n" + Written(f, records[1..])
  }

  function FirstNewline(bytes: string): (i: nat)
    ensures i <= |bytes| && '\n' !in bytes[..i] && (i < |bytes| ==> bytes[i] == '\n')
  {
    if bytes == "" || bytes[0] == '\n' then 0
    else
      var i := 1 + FirstNewline(bytes[1..]);
      assert bytes[..i] == [bytes[0]] + bytes[1..][..i - 1];
      i
  }

  /** The lines a scanner splits the bytes into; the last one need not end in a newline. */
  function Scan(bytes: string): seq<string> {
    if bytes == "" then []
    else
      var cut := FirstNewline(bytes);
      if cut == |bytes| then [bytes] else [bytes[..cut]] + Scan(bytes[cut + 1..])
  }

  function Parsed(f: Format, bytes: string): seq<Line> {
    var lines := Scan(bytes);
    seq(|lines|, i requires 0 <= i < |lines| => f.decode(lines[i]))
  }

  function RecordsIn(f: Format, bytes: string): seq<Record> {
    Records(Parsed(f, bytes))
  }

  // ---- Reading back what was written ----

  lemma FirstNewlineAt(line: string, rest: string)
    requires '\n' !in line
    ensures FirstNewline(line + "\n" + rest) == |line|
  {
    var bytes := line + "\n" + rest;
    var cut := FirstNewline(bytes);
    assert bytes[|line|] == '\n' && bytes[..|line|] == line;
    assert forall i :: 0 <= i < cut ==> bytes[i] in bytes[..cut];
    assert forall i :: 0 <= i < |line| ==> bytes[i] in line;
  }

  lemma ScanLine(line: string, rest: string)
    requires '\n' !in line
    ensures Scan(line + "\n" + rest) == [line] + Scan(rest)
  {
    var bytes := line + "\n" + rest;
    FirstNewlineAt(line, rest);
    assert bytes[..|line|] == line && bytes[|line| + 1..] == rest;
  }

  lemma ScanLast(line: string)
    requires '\n' !in line
    ensures Scan(line) == if line == "" then [] else [line]
  {
    assert forall i :: 0 <= i < |line| ==> line[i] in line;
  }

  lemma ParseLine(f: Format, line: string, rest: string)
    requires '\n' !in line
    ensures RecordsIn(f, line + "\n" + rest) ==
            (if f.decode(line).Entry? then [f.decode(line).record] else []) + RecordsIn(f, rest)
  {
    ScanLine(line, rest);
    var one := [f.decode(line)];
    assert Parsed(f, line + "\n" + rest) == one + Parsed(f, rest);
    RecordsAppend(one, Parsed(f, rest));
    OneLine(f.decode(line));
  }

  lemma OneLine(line: Line)
    ensures Records([line]) == if line.Entry? then [line.record] else []
  {
    assert [line][..0] == [];
  }

  lemma ParseRecord(f: Format, r: Record, rest: string)
    requires Sound(f)
    ensures RecordsIn(f, f.encode(r) + "\n" + rest) == [r] + RecordsIn(f, rest)
  {
    ParseLine(f, f.encode(r), rest);
  }

  lemma WrittenThen(f: Format, records: seq<Record>, rest: string)
    requires records != []
    ensures Written(f, records) + rest == f.encode(records[0]) + "\n" + (Written(f, records[1..]) + rest)
  {
  }

  lemma {:induction false} ReadBackThen(f: Format, records: seq<Record>, rest: string)
    requires Sound(f)
    ensures RecordsIn(f, Written(f, records) + rest) == records + RecordsIn(f, rest)
  {
    if records == [] {
      assert Written(f, records) + rest == rest;
    } else {
      WrittenThen(f, records, rest);
      ParseRecord(f, records[0], Written(f, records[1..]) + rest);
      ReadBackThen(f, records[1..], rest);
    }
  }

  lemma NothingReadsBack(f: Format)
    ensures RecordsIn(f, "") == []
  {
    assert Parsed(f, "") == [];
  }

  /** Scanning what was written gives the records back. */
  lemma ReadBack(f: Format, records: seq<Record>)
    requires Sound(f)
    ensures RecordsIn(f, Written(f, records)) == records
  {
    ReadBackThen(f, records, "");
    assert Written(f, records) + "" == Written(f, records);
    NothingReadsBack(f);
  }

  lemma {:induction false} WrittenAppend(f: Format, a: seq<Record>, b: seq<Record>)
    ensures Written(f, a + b) == Written(f, a) + Written(f, b)
  {
    if a == [] {
      assert a + b == b;
    } else {
      assert (a + b)[1..] == a[1..] + b;
      WrittenAppend(f, a[1..], b);
    }
  }

  lemma TornLine(f: Format, r: Record, n: nat)
    requires Sound(f) && n <= |f.encode(r)|
    ensures RecordsIn(f, f.encode(r)[..n]) == if n == |f.encode(r)| then [r] else []
  {
    var line := f.encode(r)[..n];
    ScanLast(line);
    if n == |f.encode(r)| {
      assert line == f.encode(r);
      assert line != "";
    }
    if line == "" {
      NothingReadsBack(f);
    } else {
      assert Parsed(f, line) == [f.decode(line)];
      OneLine(f.decode(line));
    }
  }

  /** Cut the bytes anywhere: what is read is a prefix of the records. */
  lemma {:induction false} TornLog(f: Format, records: seq<Record>, n: nat) returns (kept: nat)
    requires Sound(f) && n <= |Written(f, records)|
    ensures kept <= |records| && RecordsIn(f, Written(f, records)[..n]) == records[..kept]
  {
    if records == [] {
      kept := 0;
      NothingReadsBack(f);
    } else {
      var line, more := f.encode(records[0]), Written(f, records[1..]);
      if n <= |line| {
        assert Written(f, records)[..n] == line[..n];
        TornLine(f, records[0], n);
        kept := if n == |line| then 1 else 0;
      } else {
        var left := n - |line| - 1;
        assert Written(f, records)[..n] == line + "\n" + more[..left];
        ParseLine(f, line, more[..left]);
        kept := TornLog(f, records[1..], left);
        kept := kept + 1;
        assert records[..kept] == [records[0]] + records[1..][..kept - 1];
      }
    }
  }

  /** Crash recovery down to the byte: wherever the written log is cut off, every output of a
      restored tuple is pending, or acknowledged in what is left. */
  lemma CrashRecoveryFromBytes(name: string, steps: seq<TaskRuns.Step>, f: Format, n: nat)
    requires Sound(f) && TaskRuns.Legal(TaskRuns.Init(name, false), steps)
    requires forall step :: step in steps ==> TaskTheorems.Addressed(step)
    requires n <= |Written(f, TaskRuns.Exec(TaskRuns.Init(name, false), steps).Log())|
    ensures var s := TaskRuns.Exec(TaskRuns.Init(name, false), steps);
            var survivor := RecordsIn(f, Written(f, s.Log())[..n]);
            var r := Fresh(false, false).Restored(survivor);
            forall id :: id in r.received ==>
              && id in s.outputs
              && forall o :: o in s.outputs[id] ==> o.id in r.sent || ACK(o.id) in survivor
  {
    var s := TaskRuns.Exec(TaskRuns.Init(name, false), steps);
    var kept := TornLog(f, s.Log(), n);
    TaskTheorems.CrashRecoveryLosesNoOutput(name, steps, kept);
  }

  lemma TornTailJoinsTheNextLine(f: Format, leftover: string, records: seq<Record>)
    requires Sound(f) && '\n' !in leftover && records != []
    ensures var joined := f.decode(leftover + f.encode(records[0]));
            RecordsIn(f, leftover + Written(f, records)) ==
            (if joined.Entry? then [joined.record] else []) + records[1..]
  {
    var line, more := f.encode(records[0]), Written(f, records[1..]);
    assert leftover + Written(f, records) == leftover + line + "\n" + more;
    ParseLine(f, leftover + line, more);
    ReadBack(f, records[1..]);
  }

  /** No record reads out of an unfinished line run into a whole one. */
  ghost predicate JoinsUnreadable(f: Format) {
    forall r: Record, s: Record, k: nat :: 0 < k < |f.encode(r)| ==> !f.decode(f.encode(r)[..k] + f.encode(s)).Entry?
  }

  /** Appending after a line cut at k: nothing is lost if and only if nothing of the line is left, and
      otherwise exactly the first appended record is. */
  lemma TornTailSwallowsTheNextRecord(f: Format, r: Record, k: nat, records: seq<Record>)
    requires Sound(f) && JoinsUnreadable(f) && k < |f.encode(r)| && records != []
    ensures RecordsIn(f, f.encode(r)[..k] + Written(f, records)) == records <==> k == 0
    ensures k > 0 ==> RecordsIn(f, f.encode(r)[..k] + Written(f, records)) == records[1..]
  {
    var leftover := f.encode(r)[..k];
    if k == 0 {
      assert leftover + Written(f, records) == Written(f, records);
      ReadBack(f, records);
    } else {
      assert forall i :: 0 <= i < k ==> leftover[i] in f.encode(r);
      TornTailJoinsTheNextLine(f, leftover, records);
    }
  }

  // ---- Storing and serving ----

  datatype Stored = Missing | Present(content: string)

  /** The files one after the other, a newline after each but the last; missing ones are skipped. */
  function Served(files: seq<Stored>): string {
    if files == [] then ""
    else
      (match files[0]
       case Missing => ""
       case Present(content) => content + (if |files| > 1 then "\n" else ""))
      + Served(files[1..])
  }

  /** Log and output files are kept as one file each; other appends are files of their own. */
  predicate IsLog(filename: string) {
    "wal-" <= filename || "out-" <= filename
  }

  function OnDisk(disk: map<string, string>, path: string): Stored {
    if path in disk then Present(disk[path]) else Missing
  }

  function FilesOf(disk: map<string, string>, meta: FileMetadata): seq<Stored> {
    [OnDisk(disk, meta.fileName)] + Parts(disk, meta.appends)
  }

  function Parts(disk: map<string, string>, appends: seq<AppendInfo>): seq<Stored> {
    seq(|appends|, i requires 0 <= i < |appends| => OnDisk(disk, appends[i].appendId))
  }

  // ---- Reading after an append ----

  /** The files one after the other, each with a newline. */
  function Lines(files: seq<Stored>): string {
    if files == [] then ""
    else WithNewline(files[0]) + Lines(files[1..])
  }

  /** What a file adds to what is served when others follow it. */
  function WithNewline(file: Stored): string {
    if file.Present? then file.content + "\n" else ""
  }

  lemma ServedFirstOf(files: seq<Stored>)
    requires |files| > 1
    ensures Served(files) == WithNewline(files[0]) + Served(files[1..])
  {
  }

  lemma FirstOfConcat(a: seq<Stored>, b: seq<Stored>)
    requires a != []
    ensures (a + b)[0] == a[0] && (a + b)[1..] == a[1..] + b
  {
  }

  lemma Regrouped(first: string, lines: string, rest: string)
    ensures first + (lines + rest) == first + lines + rest
  {
  }

  /** Files that others follow are served with a newline each. */
  lemma {:induction false} ServedSplit(a: seq<Stored>, b: seq<Stored>)
    requires b != []
    ensures Served(a + b) == Lines(a) + Served(b)
  {
    if a == [] {
      assert a + b == b;
    } else {
      FirstOfConcat(a, b);
      ServedFirstOf(a + b);
      ServedSplit(a[1..], b);
      Regrouped(WithNewline(a[0]), Lines(a[1..]), Served(b));
    }
  }

  lemma ServedAlone(content: string)
    ensures Served([Present(content)]) == content && Served([Missing]) == ""
  {
    assert Served([Present(content)][1..]) == "";
    assert Served([Missing][1..]) == "";
  }

  /** What comes between what is served and a file put behind it: a newline if there is a last file. */
  function Separator(files: seq<Stored>): string {
    if files != [] && files[|files| - 1].Present? then "\n" else ""
  }

  lemma ServedWithOneMore(files: seq<Stored>, data: string)
    requires files != []
    ensures Served(files + [Present(data)]) == Served(files) + Separator(files) + data
  {
    var init, last := files[..|files| - 1], files[|files| - 1];
    assert files == init + [last];
    ServedSplit(files, [Present(data)]);
    ServedSplit(init, [last]);
    LinesAppend(init, [last]);
    OneLineEach(last);
    ServedAlone(data);
    if last.Present? {
      ServedAlone(last.content);
    } else {
      ServedAlone("");
    }
  }

  lemma {:induction false} LinesAppend(a: seq<Stored>, b: seq<Stored>)
    ensures Lines(a + b) == Lines(a) + Lines(b)
  {
    if a == [] {
      assert a + b == b;
    } else {
      assert (a + b)[1..] == a[1..] + b;
      LinesAppend(a[1..], b);
    }
  }

  lemma OneLineEach(file: Stored)
    ensures Lines([file]) == WithNewline(file)
  {
    assert Lines([file][1..]) == "";
  }

  /** The append is new to the file, and neither the file nor another append is stored under its ID. */
  ghost predicate NewTo(meta: FileMetadata, info: AppendInfo) {
    info.appendId != meta.fileName && !Known(meta.appends, info.appendId)
  }

  /** The file's parts once the append is stored and recorded. */
  function FilesWith(disk: map<string, string>, meta: FileMetadata, info: AppendInfo, data: string): seq<Stored> {
    FilesOf(disk[info.appendId := data], meta.(appends := Recorded(meta.appends, info)))
  }

  lemma PartsAfterAppend(disk: map<string, string>, xs: seq<AppendInfo>, info: AppendInfo, data: string, i: nat)
    requires !Known(xs, info.appendId) && i <= |xs| && Recorded(xs, info) == xs[..i] + [info] + xs[i..]
    ensures Parts(disk[info.appendId := data], Recorded(xs, info)) ==
            Parts(disk, xs)[..i] + [Present(data)] + Parts(disk, xs)[i..]
  {
    PartsWithInsert(disk[info.appendId := data], xs[..i], info, xs[i..]);
    PartsElsewhere(disk, xs, info.appendId, data);
    assert Parts(disk[info.appendId := data], xs[..i]) == Parts(disk, xs)[..i];
    assert Parts(disk[info.appendId := data], xs[i..]) == Parts(disk, xs)[i..];
  }

  /** The new data stands among the file's parts where its append stands in the list. */
  lemma FilesAfterAppend(disk: map<string, string>, meta: FileMetadata, info: AppendInfo, data: string) returns (i: nat)
    requires NewTo(meta, info)
    ensures i <= |meta.appends|
    ensures forall j :: 0 <= j < i ==> !Precedes(info, meta.appends[j])
    ensures i < |meta.appends| ==> Precedes(info, meta.appends[i])
    ensures FilesWith(disk, meta, info, data) ==
            FilesOf(disk, meta)[..i + 1] + [Present(data)] + FilesOf(disk, meta)[i + 1..]
  {
    i := InsertionPoint(meta.appends, info);
    PartsAfterAppend(disk, meta.appends, info, data, i);
    InsertBehindBase(OnDisk(disk, meta.fileName), Parts(disk, meta.appends), Present(data), i);
  }

  lemma InsertBehindBase(base: Stored, parts: seq<Stored>, part: Stored, i: nat)
    requires i <= |parts|
    ensures var all := [base] + parts;
            [base] + (parts[..i] + [part] + parts[i..]) == all[..i + 1] + [part] + all[i + 1..]
  {
  }

  lemma PartsWithInsert(disk: map<string, string>, a: seq<AppendInfo>, x: AppendInfo, b: seq<AppendInfo>)
    ensures Parts(disk, a + [x] + b) == Parts(disk, a) + [OnDisk(disk, x.appendId)] + Parts(disk, b)
  {
  }

  lemma PartsElsewhere(disk: map<string, string>, xs: seq<AppendInfo>, path: string, data: string)
    requires !Known(xs, path)
    ensures Parts(disk[path := data], xs) == Parts(disk, xs)
  {
    forall i | 0 <= i < |xs| ensures xs[i].appendId != path {
    }
  }

  lemma ServedOneThen(data: string, back: seq<Stored>)
    requires back != []
    ensures Served([Present(data)] + back) == data + "\n" + Served(back)
  {
    ServedSplit([Present(data)], back);
    OneLineEach(Present(data));
  }

  /** What a part put between others is served with. */
  lemma ServedBetween(front: seq<Stored>, data: string, back: seq<Stored>)
    requires back != []
    ensures Served(front + ([Present(data)] + back)) == Lines(front) + (data + "\n" + Served(back))
  {
    ServedSplit(front, [Present(data)] + back);
    ServedOneThen(data, back);
  }

  lemma ServedWithPart(files: seq<Stored>, k: nat, data: string)
    requires k < |files|
    ensures Served(files) == Lines(files[..k]) + Served(files[k..])
    ensures Served(files[..k] + [Present(data)] + files[k..]) == Lines(files[..k]) + (data + "\n" + Served(files[k..]))
  {
    assert files == files[..k] + files[k..];
    ServedSplit(files[..k], files[k..]);
    ServedBetween(files[..k], data, files[k..]);
    assert files[..k] + [Present(data)] + files[k..] == files[..k] + ([Present(data)] + files[k..]);
  }

  lemma ServedWithLast(files: seq<Stored>, k: nat, data: string)
    requires k == |files| > 0
    ensures Served(files[..k] + [Present(data)] + files[k..]) == Served(files) + Separator(files) + data
  {
    assert files[..k] + [Present(data)] + files[k..] == files + [Present(data)];
    ServedWithOneMore(files, data);
  }

  /** Read after append: the bytes of the parts before the new one and behind it stay, with the new data between
      them; an append with no later one of its client to precede comes last. */
  lemma ReadAfterAppend(disk: map<string, string>, meta: FileMetadata, info: AppendInfo, data: string) returns (i: nat)
    requires NewTo(meta, info)
    ensures i <= |meta.appends|
    ensures var before, after := FilesOf(disk, meta), FilesWith(disk, meta, info, data);
            if i == |meta.appends| then
              Served(after) == Served(before) + Separator(before) + data
            else
              && Served(before) == Lines(before[..i + 1]) + Served(before[i + 1..])
              && Served(after) == Lines(before[..i + 1]) + (data + "\n" + Served(before[i + 1..]))
    ensures (forall a :: a in meta.appends ==> !Precedes(info, a)) ==> i == |meta.appends|
  {
    i := FilesAfterAppend(disk, meta, info, data);
    if i == |meta.appends| {
      ServedWithLast(FilesOf(disk, meta), i + 1, data);
    } else {
      ServedWithPart(FilesOf(disk, meta), i + 1, data);
    }
  }

  /** A log has no listed appends: reading it after an append gives the old bytes and the new ones. */
  lemma LogReadAfterAppend(disk: map<string, string>, meta: FileMetadata, data: string)
    requires meta.appends == [] && meta.fileName in disk
    ensures Served(FilesOf(disk[meta.fileName := disk[meta.fileName] + data], meta)) == Served(FilesOf(disk, meta)) + data
  {
    ServedAlone(disk[meta.fileName]);
    ServedAlone(disk[meta.fileName] + data);
    assert FilesOf(disk, meta) == [Present(disk[meta.fileName])];
  }

  /** Writing under a name that is none of a file's does not change what is served of it. */
  lemma OtherFilesReadTheSame(disk: map<string, string>, meta: FileMetadata, path: string, data: string)
    requires path != meta.fileName && !Known(meta.appends, path)
    ensures FilesOf(disk[path := data], meta) == FilesOf(disk, meta)
  {
    PartsElsewhere(disk, meta.appends, path, data);
  }

  class FileServer {
    const metadata: Metadata
    var disk: map<string, string>

    constructor (metadata: Metadata)
      ensures this.metadata == metadata && disk == map[]
    {
      this.metadata, disk := metadata, map[];
    }

    /** A log append extends the log's one file; any other becomes a file of its own, listed in the
        metadata. An append to an unknown file changes nothing. */
    method AppendTransfer(info: AppendInfo, data: string) returns (outcome: Outcome)
      requires metadata.Valid()
      modifies this, metadata
      ensures metadata.Valid()
      ensures outcome == FileDoesNotExist <==> info.fileName !in old(metadata.files)
      ensures outcome == FileDoesNotExist ==> disk == old(disk) && metadata.files == old(metadata.files)
      ensures outcome == Done && IsLog(info.fileName) ==>
        && metadata.files == old(metadata.files)
        && disk == old(disk)[info.fileName :=
                     (if info.fileName in old(disk) then old(disk)[info.fileName] else "") + data]
      ensures outcome == Done && !IsLog(info.fileName) ==>
        var meta := old(metadata.files)[info.fileName];
        && metadata.files == old(metadata.files)[info.fileName := meta.(appends := Recorded(meta.appends, info))]
        && disk == old(disk)[info.appendId := data]
    {
      if info.fileName !in metadata.files {
        return FileDoesNotExist;
      }
      if "wal-" <= info.fileName || "out-" <= info.fileName {
        var content := if info.fileName in disk then disk[info.fileName] else "";
        disk := disk[info.fileName := content + data];
        return Done;
      }
      disk := disk[info.appendId := data];
      outcome := metadata.AppendToFile(info.fileName, info);
    }

    method GetFile(filename: string) returns (found: bool, sent: string)
      ensures found <==> filename in metadata.files
      ensures found ==> sent == Served(FilesOf(disk, metadata.files[filename]))
    {
      sent := "";
      if filename !in metadata.files {
        return false, sent;
      }
      var files := FilesOf(disk, metadata.files[filename]);
      for i := 0 to |files|
        invariant sent + Served(files[i..]) == Served(files)
      {
        assert files[i..][1..] == files[i + 1..];
        if files[i].Present? {
          sent := sent + files[i].content;
          if i < |files| - 1 {
            sent := sent + "\n";
          }
        }
      }
      found := true;
    }
  }

  function Flattened(parts: seq<seq<Record>>): seq<Record> {
    if parts == [] then [] else parts[0] + Flattened(parts[1..])
  }

  /** Each flushed buffer as a file of its own. */
  function AsFiles(f: Format, parts: seq<seq<Record>>): seq<Stored> {
    seq(|parts|, i requires 0 <= i < |parts| => Present(Written(f, parts[i])))
  }

  lemma ServedFirst(f: Format, parts: seq<seq<Record>>)
    requires parts != []
    ensures Served(AsFiles(f, parts)) ==
            Written(f, parts[0]) + ((if |parts| > 1 then "\n" else "") + Served(AsFiles(f, parts[1..])))
  {
    assert AsFiles(f, parts)[1..] == AsFiles(f, parts[1..]);
  }

  lemma SeparatorReadsAsNothing(f: Format, rest: string)
    requires Sound(f)
    ensures RecordsIn(f, "\n" + rest) == RecordsIn(f, rest)
  {
    ParseLine(f, "", rest);
    assert "" + "\n" + rest == "\n" + rest;
  }

  /** The separators between files do not show: what is served reads back as all the records. */
  lemma {:induction false} SeparatorsAreSkipped(f: Format, parts: seq<seq<Record>>)
    requires Sound(f)
    ensures RecordsIn(f, Served(AsFiles(f, parts))) == Flattened(parts)
  {
    if parts == [] {
      NothingReadsBack(f);
    } else {
      var rest := Served(AsFiles(f, parts[1..]));
      var tail := (if |parts| > 1 then "\n" else "") + rest;
      ServedFirst(f, parts);
      ReadBackThen(f, parts[0], tail);
      SeparatorsAreSkipped(f, parts[1..]);
      if |parts| > 1 {
        SeparatorReadsAsNothing(f, rest);
      } else {
        assert tail == rest;
      }
    }
  }

  /** One file that grows by direct appends and separate files served with separators read back alike. */
  lemma BothLayoutsReadAlike(f: Format, parts: seq<seq<Record>>)
    requires Sound(f)
    ensures Served([Present(Written(f, Flattened(parts)))]) == Written(f, Flattened(parts))
    ensures RecordsIn(f, Served([Present(Written(f, Flattened(parts)))])) == RecordsIn(f, Served(AsFiles(f, parts)))
  {
    var whole := Written(f, Flattened(parts));
    assert Served([Present(whole)]) == whole;
    ReadBack(f, Flattened(parts));
    SeparatorsAreSkipped(f, parts);
  }
}
