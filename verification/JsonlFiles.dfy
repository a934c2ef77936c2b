/** The payload files of an incremental: written row by row while they are hashed, read back line by line in
    bounded batches.  A row is its compact rendering; a digest is the bytes it is computed over. */
module JsonlFiles {
  import opened Wrappers

  datatype Operation = Upsert | Delete | ReplaceSet

  function Token(op: Operation): string {
    match op
    case Upsert => "upsert"
    case Delete => "delete"
    case ReplaceSet => "replace_set"
  }

  /** `incremental_file_name` */
  function FileName(table: string, op: Operation): string {
    table + "." + Token(op) + ".jsonl"
  }

  /** A string without dots after the last one is determined by the whole. */
  lemma LastDot(t: string, a: string, u: string, b: string)
    requires t + "." + a == u + "." + b && '.' !in a && '.' !in b
    ensures t == u && a == b
  {
    var s := t + "." + a;
    assert s[|t|] == '.' && (u + "." + b)[|u|] == '.';
    assert t == s[..|t|] && u == s[..|u|] && a == s[|t| + 1..] && b == s[|u| + 1..];
  }

  /** Two operations share a file only if they are the same one: a token holds no dot, so the last dot before
      the extension separates it from the table, whatever the table is called. */
  lemma FileNamesDiffer(t: string, o: Operation, u: string, q: Operation)
    requires FileName(t, o) == FileName(u, q)
    ensures t == u && o == q
  {
    var stem, other := t + "." + Token(o), u + "." + Token(q);
    assert |FileName(t, o)| == |stem| + 6 && |FileName(u, q)| == |other| + 6;
    assert stem == FileName(t, o)[..|stem|] && other == FileName(u, q)[..|other|];
    LastDot(t, Token(o), u, Token(q));
    assert Token(o)[0] == Token(q)[0];
  }

  /** The names that readers of an artifact look for. */
  lemma FileNamesAre(table: string)
    ensures FileName(table, Upsert) == table + ".upsert.jsonl"
    ensures FileName(table, Delete) == table + ".delete.jsonl"
    ensures FileName(table, ReplaceSet) == table + ".replace_set.jsonl"
  {
  }

  // --- The layout -----------------------------------------------------------------------------

  /** Each row followed by a line feed. */
  function Layout(rows: seq<string>): string {
    if rows == [] then "" else Layout(rows[..|rows| - 1]) + rows[|rows| - 1] + "\n"
  }

  /** The rows with a separator between them. */
  function Join(rows: seq<string>, separator: string): string {
    if rows == [] then ""
    else if |rows| == 1 then rows[0]
    else Join(rows[..|rows| - 1], separator) + separator + rows[|rows| - 1]
  }

  /** Streaming writes what joining the buffered lines and ending them with a line feed would. */
  lemma {:induction false} StreamingEqualsJoining(rows: seq<string>)
    requires rows != []
    ensures Layout(rows) == Join(rows, "\n") + "\n"
  {
    if |rows| == 1 {
      assert Layout(rows[..0]) == "";
    } else {
      StreamingEqualsJoining(rows[..|rows| - 1]);
    }
  }

  // --- Writing --------------------------------------------------------------------------------

  datatype PayloadFile = PayloadFile(fileName: string, table: string, op: Operation, rowCount: nat, digest: string)
  datatype OperationCount = OperationCount(table: string, op: Operation, count: nat)

  class JsonlOpWriter {
    const table: string
    const op: Operation
    /** `None` until the first row opens the file */
    var fileName: Option<string>
    /** what the file holds */
    var file: string
    /** what the hasher has been fed */
    var hashed: string
    var rowCount: nat
    /** the rows written so far */
    ghost var rows: seq<string>

    ghost predicate Valid()
      reads this
    {
      && fileName == (if rows == [] then None else Some(FileName(table, op)))
      && file == hashed == Layout(rows)
      && rowCount == |rows|
    }

    constructor (table: string, op: Operation)
      ensures Valid() && rows == [] && this.table == table && this.op == op
    {
      this.table, this.op := table, op;
      fileName, file, hashed, rowCount, rows := None, "", "", 0, [];
    }

    /** The inner writer takes some of the bytes or fails; only what it has taken is hashed. */
    method WriteAll(buffer: string) returns (ok: bool)
      modifies this`file, this`hashed
      ensures old(file) == old(hashed) ==> file == hashed
      ensures ok ==> file == old(file) + buffer && hashed == old(hashed) + buffer
    {
      var done := 0;
      while done < |buffer|
        invariant done <= |buffer|
        invariant file == old(file) + buffer[..done] && hashed == old(hashed) + buffer[..done]
      {
        var failed: bool := *;
        if failed {
          return false;
        }
        var n: nat :| 0 < n <= |buffer| - done;
        assert buffer[..done + n] == buffer[..done] + buffer[done..done + n];
        file := file + buffer[done..done + n];
        hashed := hashed + buffer[done..done + n];
        done := done + n;
      }
      assert buffer[..done] == buffer;
      ok := true;
    }

    method WriteRow(row: string) returns (ok: bool)
      requires Valid()
      modifies this
      ensures file == hashed
      ensures ok ==> Valid() && rows == old(rows) + [row]
    {
      if fileName == None {
        fileName := Some(FileName(table, op));
      }
      ok := WriteAll(row);
      if !ok {
        return;
      }
      ok := WriteAll("\n");
      rowCount := rowCount + 1;
      rows := rows + [row];
      assert Layout(rows) == Layout(rows[..|rows| - 1]) + row + "\n";
    }

    /** Nothing is recorded for an operation without rows. */
    method Finish(files: seq<PayloadFile>, digests: map<string, string>, operations: seq<OperationCount>)
      returns (f: seq<PayloadFile>, d: map<string, string>, o: seq<OperationCount>)
      requires Valid()
      ensures (f, d, o) == Recorded(table, op, rows, files, digests, operations)
    {
      if fileName == None {
        return files, digests, operations;
      }
      d := digests[fileName.value := hashed];
      o := operations + [OperationCount(table, op, rowCount)];
      f := files + [PayloadFile(fileName.value, table, op, rowCount, hashed)];
    }
  }

  /** What finishing an operation that has written `rows` records. */
  function Recorded(
    table: string, op: Operation, rows: seq<string>,
    files: seq<PayloadFile>, digests: map<string, string>, operations: seq<OperationCount>)
    : (seq<PayloadFile>, map<string, string>, seq<OperationCount>)
  {
    if rows == [] then (files, digests, operations)
    else (files + [PayloadFile(FileName(table, op), table, op, |rows|, Layout(rows))],
          digests[FileName(table, op) := Layout(rows)],
          operations + [OperationCount(table, op, |rows|)])
  }

  /** One operation of a build with its rows. */
  datatype Job = Job(table: string, op: Operation, rows: seq<string>)

  function RecordedAll(jobs: seq<Job>): (seq<PayloadFile>, map<string, string>, seq<OperationCount>) {
    if jobs == [] then ([], map[], [])
    else
      var (f, d, o) := RecordedAll(jobs[..|jobs| - 1]);
      var last := jobs[|jobs| - 1];
      Recorded(last.table, last.op, last.rows, f, d, o)
  }

  /** No operation occurs twice. */
  predicate OncePerFile(jobs: seq<Job>) {
    forall i, j | 0 <= i < j < |jobs| :: jobs[i].table != jobs[j].table || jobs[i].op != jobs[j].op
  }

  /** A job with rows, and what its file must be. */
  predicate Describes(f: PayloadFile, job: Job) {
    job.rows != [] && f == PayloadFile(FileName(job.table, job.op), job.table, job.op, |job.rows|, Layout(job.rows))
  }

  function Files(jobs: seq<Job>): seq<PayloadFile> {
    RecordedAll(jobs).0
  }

  function Digests(jobs: seq<Job>): map<string, string> {
    RecordedAll(jobs).1
  }

  lemma {:induction false} FromJob(jobs: seq<Job>, i: nat) returns (j: nat)
    requires i < |Files(jobs)|
    ensures j < |jobs| && Describes(Files(jobs)[i], jobs[j])
  {
    var n := |jobs| - 1;
    if i < |Files(jobs[..n])| {
      j := FromJob(jobs[..n], i);
    } else {
      j := n;
    }
  }

  lemma {:induction false} HasFile(jobs: seq<Job>, j: nat) returns (i: nat)
    requires j < |jobs| && jobs[j].rows != []
    ensures i < |Files(jobs)| && Describes(Files(jobs)[i], jobs[j])
  {
    var n := |jobs| - 1;
    if j < n {
      i := HasFile(jobs[..n], j);
    } else {
      i := |Files(jobs[..n])|;
    }
  }

  predicate OneToOne(f: seq<PayloadFile>, d: map<string, string>) {
    && |d| == |f|
    && (forall i | 0 <= i < |f| :: f[i].fileName in d && d[f[i].fileName] == f[i].digest)
    && (forall i, j | 0 <= i < j < |f| :: f[i].fileName != f[j].fileName)
  }

  /** Over a whole build the recorded digests are one to one with the listed files, and each digest is that
      of its file's bytes. */
  lemma {:induction false} DigestsMatchFiles(jobs: seq<Job>)
    requires OncePerFile(jobs)
    ensures OneToOne(Files(jobs), Digests(jobs))
    ensures forall name | name in Digests(jobs) :: NameIn(Files(jobs), name)
  {
    if jobs != [] {
      var n := |jobs| - 1;
      DigestsMatchFiles(jobs[..n]);
      if jobs[n].rows != [] {
        var f, d := Files(jobs[..n]), Digests(jobs[..n]);
        var file := PayloadFile(FileName(jobs[n].table, jobs[n].op), jobs[n].table, jobs[n].op, |jobs[n].rows|, Layout(jobs[n].rows));
        forall i | 0 <= i < |f| ensures f[i].fileName != file.fileName {
          var j := FromJob(jobs[..n], i);
          if f[i].fileName == file.fileName {
            FileNamesDiffer(jobs[j].table, jobs[j].op, jobs[n].table, jobs[n].op);
          }
        }
        OneMoreFile(f, d, file);
      }
    }
  }

  predicate NameIn(files: seq<PayloadFile>, name: string) {
    exists i | 0 <= i < |files| :: files[i].fileName == name
  }

  lemma OneMoreFile(f: seq<PayloadFile>, d: map<string, string>, file: PayloadFile)
    requires OneToOne(f, d) && forall name | name in d :: NameIn(f, name)
    requires !NameIn(f, file.fileName)
    ensures OneToOne(f + [file], d[file.fileName := file.digest])
    ensures forall name | name in d[file.fileName := file.digest] :: NameIn(f + [file], name)
  {
    forall name | name in d[file.fileName := file.digest] ensures NameIn(f + [file], name) {
      NameStays(f, file, name);
    }
  }

  lemma NameStays(f: seq<PayloadFile>, file: PayloadFile, name: string)
    ensures NameIn(f + [file], name) <==> NameIn(f, name) || name == file.fileName
  {
    var g := f + [file];
    if NameIn(f, name) {
      var i :| 0 <= i < |f| && f[i].fileName == name;
      assert g[i].fileName == name;
    }
    assert g[|f|].fileName == file.fileName;
  }

  predicate IsFileOf(f: PayloadFile, jobs: seq<Job>) {
    exists j | 0 <= j < |jobs| :: Describes(f, jobs[j])
  }

  predicate HasFileIn(job: Job, files: seq<PayloadFile>) {
    exists i | 0 <= i < |files| :: Describes(files[i], job)
  }

  /** Exactly the operations that had rows have a file, with their rows in it. */
  lemma FilesAreJobs(jobs: seq<Job>)
    ensures forall f | f in Files(jobs) :: IsFileOf(f, jobs)
    ensures forall job | job in jobs && job.rows != [] :: HasFileIn(job, Files(jobs))
  {
    var files := Files(jobs);
    forall f | f in files ensures IsFileOf(f, jobs) {
      var i :| 0 <= i < |files| && files[i] == f;
      var j := FromJob(jobs, i);
    }
    forall job | job in jobs && job.rows != [] ensures HasFileIn(job, files) {
      var j :| 0 <= j < |jobs| && jobs[j] == job;
      var i := HasFile(jobs, j);
    }
  }

  // --- Reading --------------------------------------------------------------------------------

  function WithoutReturn(line: string): string {
    if line != "" && line[|line| - 1] == '\r' then line[..|line| - 1] else line
  }

  /** `BufRead::lines`: split at line feeds, drop a carriage return before one, no line after the last. */
  function Lines(text: string): seq<string> {
    if text == "" then []
    else
      var end := FirstFeed(text);
      if end == |text| then [text] else [WithoutReturn(text[..end])] + Lines(text[end + 1..])
  }

  function FirstFeed(text: string): (end: nat)
    ensures end <= |text| && (end < |text| ==> text[end] == '\n')
    ensures forall i | 0 <= i < end :: text[i] != '\n'
  {
    if text == "" || text[0] == '\n' then 0 else 1 + FirstFeed(text[1..])
  }

  predicate Blank(line: string) {
    forall i | 0 <= i < |line| :: line[i] in {' ', '\t', '\n', '\r'}
  }

  /** The records of a file: its lines, without the blank ones. */
  function Records(lines: seq<string>): seq<string> {
    if lines == [] then []
    else Records(lines[..|lines| - 1]) + if Blank(lines[|lines| - 1]) then [] else [lines[|lines| - 1]]
  }

  /** The records are the lines that are not blank, each as often as it stands there. */
  lemma {:induction false} RecordsAre(lines: seq<string>)
    ensures forall l :: multiset(Records(lines))[l] == if Blank(l) then 0 else multiset(lines)[l]
  {
    if lines != [] {
      var n := |lines| - 1;
      RecordsAre(lines[..n]);
      assert lines == lines[..n] + [lines[n]];
    }
  }

  /** A carriage return belongs to the line end only if a line feed follows it. */
  lemma LineEnds(row: string, rest: string)
    requires row != "" && forall i | 0 <= i < |row| :: row[i] != '\n' && row[i] != '\r'
    ensures Lines(row + "\r\n" + rest) == [row] + Lines(rest)
    ensures Lines(row + "\r") == [row + "\r"]
  {
    var line := row + "\r";
    FeedAfter(line, rest);
    var text := line + "\n" + rest;
    assert row + "\r\n" + rest == text;
    assert text[..|line|] == line && text[|line| + 1..] == rest && line[..|row|] == row;
    assert FirstFeed(line) == |line|;
  }

  /** What a compact rendering is like: one line, not blank, not ending in a carriage return. */
  predicate OneLine(row: string) {
    !Blank(row) && row[|row| - 1] != '\r' && forall i | 0 <= i < |row| :: row[i] != '\n'
  }

  lemma FeedAfter(row: string, rest: string)
    requires forall i | 0 <= i < |row| :: row[i] != '\n'
    ensures FirstFeed(row + "\n" + rest) == |row|
  {
    var text := row + "\n" + rest;
    assert text[|row|] == '\n';
    assert forall i | 0 <= i < |row| :: text[i] == row[i];
  }

  lemma {:induction false} LayoutJoins(a: seq<string>, b: seq<string>)
    ensures Layout(a + b) == Layout(a) + Layout(b)
  {
    if b == [] {
      assert a + b == a;
    } else {
      var n := |b| - 1;
      LayoutJoins(a, b[..n]);
      assert (a + b)[..|a| + n] == a + b[..n] && (a + b)[|a| + n] == b[n];
      LastLine(Layout(a), Layout(b[..n]), b[n]);
    }
  }

  lemma LastLine(front: string, middle: string, row: string)
    ensures (front + middle) + row + "\n" == front + (middle + row + "\n")
  {
  }

  lemma LayoutFromFront(rows: seq<string>)
    requires rows != []
    ensures Layout(rows) == rows[0] + "\n" + Layout(rows[1..])
  {
    assert rows == [rows[0]] + rows[1..];
    LayoutJoins([rows[0]], rows[1..]);
    assert Layout([rows[0]][..0]) == "";
  }

  lemma {:induction false} LinesOfLayout(rows: seq<string>)
    requires forall i | 0 <= i < |rows| :: OneLine(rows[i])
    ensures Lines(Layout(rows)) == rows
  {
    if rows != [] {
      LayoutFromFront(rows);
      var rest := Layout(rows[1..]);
      FeedAfter(rows[0], rest);
      var text := rows[0] + "\n" + rest;
      assert text[..|rows[0]|] == rows[0] && text[|rows[0]| + 1..] == rest;
      assert text != "";
      LinesOfLayout(rows[1..]);
    }
  }

  lemma {:induction false} AllRecords(rows: seq<string>)
    requires forall i | 0 <= i < |rows| :: !Blank(rows[i])
    ensures Records(rows) == rows
  {
    if rows != [] {
      AllRecords(rows[..|rows| - 1]);
    }
  }

  /** What was written is what is read back, row for row. */
  lemma RoundTrip(rows: seq<string>)
    requires forall i | 0 <= i < |rows| :: OneLine(rows[i])
    ensures Records(Lines(Layout(rows))) == rows
  {
    LinesOfLayout(rows);
    AllRecords(rows);
  }

  function Concat(batches: seq<seq<string>>): seq<string> {
    if batches == [] then [] else Concat(batches[..|batches| - 1]) + batches[|batches| - 1]
  }

  /** `stream_jsonl_batched_sized`: the records in order, in batches of `size` and a shorter last one. */
  method StreamBatched(text: string, size: nat) returns (batches: seq<seq<string>>, total: nat)
    requires size > 0
    ensures Concat(batches) == Records(Lines(text)) && total == |Records(Lines(text))|
    ensures forall i | 0 <= i < |batches| :: 0 < |batches[i]| <= size
    ensures forall i | 0 <= i < |batches| - 1 :: |batches[i]| == size
  {
    var lines := Lines(text);
    var batch: seq<string> := [];
    batches, total := [], 0;
    for i := 0 to |lines|
      invariant Concat(batches) + batch == Records(lines[..i])
      invariant total == |Concat(batches)|
      invariant forall j | 0 <= j < |batches| :: |batches[j]| == size
      invariant |batch| < size
    {
      assert lines[..i + 1][..i] == lines[..i];
      if !Blank(lines[i]) {
        batch := batch + [lines[i]];
        assert Concat(batches) + batch == Records(lines[..i + 1]);
        if |batch| >= size {
          batches, total, batch := batches + [batch], total + |batch|, [];
        }
      }
    }
    assert lines[..|lines|] == lines;
    if batch != [] {
      batches, total := batches + [batch], total + |batch|;
    }
  }
}
