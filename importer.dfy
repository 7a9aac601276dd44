/**
 * The mortality CSV importer of whodata.py: the file map, the conversion
 * of empty fields to NULL, and the row loop that sends rows to the
 * database in batches of TAMANO_LOTE, committing after each batch and
 * rolling back the pending batch when a file fails.
 */
module Importer {
  import opened Wrappers
  import opened Collections
  import opened Strings

  // ------------------------------------------------------------- batches

  /** `TAMANO_LOTE`: rows per INSERT batch. */
  const BatchSize: nat := 1000

  /** The elements in groups of `BatchSize`, in order; only the last group may be shorter. */
  function Chunks<T>(xs: seq<T>): seq<seq<T>>
    decreases |xs|
  {
    if |xs| == 0 then []
    else if |xs| <= BatchSize then [xs]
    else [xs[..BatchSize]] + Chunks(xs[BatchSize..])
  }

  function Flatten<T>(xss: seq<seq<T>>): seq<T>
    decreases |xss|
  {
    if |xss| == 0 then [] else xss[0] + Flatten(xss[1..])
  }

  /** Groups that are all full. */
  predicate AllFull<T>(cs: seq<seq<T>>) {
    forall i :: 0 <= i < |cs| ==> |cs[i]| == BatchSize
  }

  /** Regrouping loses no element and repeats none: every row is sent exactly once, in order. */
  lemma {:induction false} FlattenChunks<T>(xs: seq<T>)
    ensures Flatten(Chunks(xs)) == xs
    decreases |xs|
  {
    if |xs| > BatchSize {
      FlattenChunks(xs[BatchSize..]);
      assert xs == xs[..BatchSize] + xs[BatchSize..];
      assert Chunks(xs)[1..] == Chunks(xs[BatchSize..]);
    }
  }

  /** Every group but the last holds exactly `BatchSize` elements, and none is empty or larger. */
  lemma {:induction false} ChunkSizes<T>(xs: seq<T>)
    ensures forall i :: 0 <= i < |Chunks(xs)| ==> 0 < |Chunks(xs)[i]| <= BatchSize
    ensures |xs| > 0 ==> AllFull(Chunks(xs)[..|Chunks(xs)| - 1])
    decreases |xs|
  {
    if |xs| > BatchSize {
      var rest := xs[BatchSize..];
      ChunkSizes(rest);
      var c := Chunks(xs);
      assert forall i :: 1 <= i < |c| ==> c[i] == Chunks(rest)[i - 1];
      var d := c[..|c| - 1];
      assert forall i :: 1 <= i < |d| ==> d[i] == c[i];
    }
  }

  lemma ChunksStep<T>(xs: seq<T>)
    requires BatchSize <= |xs|
    ensures Chunks(xs) == [xs[..BatchSize]] + Chunks(xs[BatchSize..])
  {
    if |xs| == BatchSize {
      assert xs[..BatchSize] == xs;
      assert xs[BatchSize..] == [];
    }
  }

  /** Groups taken after whole groups: the earlier groups followed by the new ones. */
  lemma {:induction false} ChunksAfterWhole<T>(a: seq<T>, b: seq<T>)
    requires AllFull(Chunks(a))
    ensures Chunks(a + b) == Chunks(a) + Chunks(b)
    decreases |a|
  {
    if |a| > 0 {
      assert |Chunks(a)[0]| == BatchSize;
      ChunksStep(a);
      ChunksStep(a + b);
      assert (a + b)[..BatchSize] == a[..BatchSize];
      assert (a + b)[BatchSize..] == a[BatchSize..] + b;
      var rest := Chunks(a[BatchSize..]);
      assert forall i :: 0 <= i < |rest| ==> rest[i] == Chunks(a)[i + 1];
      ChunksAfterWhole(a[BatchSize..], b);
    } else {
      assert a + b == b;
    }
  }

  // ---------------------------------------------------------------- rows

  /** A field to insert: `None` is SQL NULL. */
  type Field = Option<string>
  type Row = seq<Field>

  /** `[None if val == '' else val for val in row]`. */
  function ProcessRow(row: seq<string>): (r: Row)
    ensures |r| == |row|
    ensures forall i :: 0 <= i < |row| ==> (r[i] == None <==> row[i] == "")
    ensures forall i :: 0 <= i < |row| ==> row[i] != "" ==> r[i] == Some(row[i])
  {
    seq(|row|, i requires 0 <= i < |row| => if row[i] == "" then None else Some(row[i]))
  }

  /** Reading NULL back as the empty string recovers the CSV row. */
  lemma ProcessRowRoundTrip(row: seq<string>)
    ensures forall i :: 0 <= i < |row| ==> ProcessRow(row)[i].GetOr("") == row[i]
  {
  }

  function ProcessAll(rows: seq<seq<string>>): (r: seq<Row>)
    ensures |r| == |rows| && forall i :: 0 <= i < |rows| ==> r[i] == ProcessRow(rows[i])
  {
    seq(|rows|, i requires 0 <= i < |rows| => ProcessRow(rows[i]))
  }

  /** `f"INSERT INTO {table} VALUES ({', '.join(['%s'] * n)})"`. */
  function InsertSql(table: string, n: nat): string {
    "INSERT INTO " + table + " VALUES (" + Join(Repeat("%s", n), ", ") + ")"
  }

  lemma {:induction false} PlaceholderMarks(n: nat)
    ensures Occurrences(Join(Repeat("%s", n), ", "), '%') == n
    decreases n
  {
    if n > 1 {
      PlaceholderMarks(n - 1);
      assert Repeat("%s", n)[1..] == Repeat("%s", n - 1);
      OccurrencesAppend("%s" + ", ", Join(Repeat("%s", n - 1), ", "), '%');
      OccurrencesAppend("%s", ", ", '%');
    } else if n == 1 {
      assert Join(Repeat("%s", 1), ", ") == "%s";
    }
  }

  /** The statement carries one placeholder per header column. */
  lemma InsertPlaceholders(table: string, n: nat)
    requires '%' !in table
    ensures Occurrences(InsertSql(table, n), '%') == n
  {
    var j := Join(Repeat("%s", n), ", ");
    PlaceholderMarks(n);
    var pre := "INSERT INTO " + table + " VALUES (";
    assert '%' !in "INSERT INTO " && '%' !in " VALUES (";
    OccurrencesInside(pre, j, ")", '%');
  }

  // ---------------------------------------------------------- connection

  /** A batch the server takes: the statement has one placeholder per table column, and every row fills them. */
  predicate BatchFits(batch: seq<Row>, n: nat, arity: nat) {
    n == arity && forall j :: 0 <= j < |batch| ==> |batch[j]| == n
  }

  /**
   * The database side of the importer: the rows the Mortalidad table holds
   * for good, the rows sent since the last commit, and the batches the
   * server accepted. A batch is accepted when the statement has as many
   * placeholders as the table has columns and every row fills them.
   */
  class Connection {
    var arity: nat
    var committed: seq<Row>
    var pending: seq<Row>
    var statements: seq<seq<Row>>

    constructor(arity: nat, committed: seq<Row>)
      ensures this.arity == arity && this.committed == committed
      ensures pending == [] && statements == []
    {
      this.arity := arity;
      this.committed := committed;
      pending := [];
      statements := [];
    }

    predicate Accepts(n: nat, batch: seq<Row>)
      reads this
    {
      BatchFits(batch, n, arity)
    }

    /** `cursor.executemany(sql_insert, batch)` for a statement with `n` placeholders. */
    method ExecuteMany(n: nat, batch: seq<Row>) returns (ok: bool)
      modifies this
      ensures ok <==> old(Accepts(n, batch))
      ensures arity == old(arity) && committed == old(committed)
      ensures ok ==> pending == old(pending) + batch && statements == old(statements) + [batch]
      ensures !ok ==> pending == old(pending) && statements == old(statements)
    {
      ok := Accepts(n, batch);
      if ok {
        pending := pending + batch;
        statements := statements + [batch];
      }
    }

    method Commit()
      modifies this
      ensures committed == old(committed) + old(pending) && pending == []
      ensures arity == old(arity) && statements == old(statements)
    {
      committed := committed + pending;
      pending := [];
    }

    method Rollback()
      modifies this
      ensures pending == [] && committed == old(committed)
      ensures arity == old(arity) && statements == old(statements)
    {
      pending := [];
    }
  }

  // ---------------------------------------------------------- one file

  /** What a file's loop ends in: every row imported, or a failure after some committed rows. */
  datatype FileOutcome = Skipped | Imported(count: nat) | Failed(count: nat)

  /** The number of leading batches the server accepts. */
  function AcceptedPrefix(batches: seq<seq<Row>>, n: nat, arity: nat): (k: nat)
    ensures k <= |batches|
    decreases |batches|
  {
    if |batches| == 0 then 0
    else if BatchFits(batches[0], n, arity) then 1 + AcceptedPrefix(batches[1..], n, arity)
    else 0
  }

  /** The server takes the batches before the prefix's end and refuses the one at its end. */
  lemma {:induction false} AcceptedPrefixSpec(batches: seq<seq<Row>>, n: nat, arity: nat)
    ensures forall i :: 0 <= i < AcceptedPrefix(batches, n, arity) ==> BatchFits(batches[i], n, arity)
    ensures AcceptedPrefix(batches, n, arity) < |batches| ==> !BatchFits(batches[AcceptedPrefix(batches, n, arity)], n, arity)
    decreases |batches|
  {
    if |batches| > 0 && BatchFits(batches[0], n, arity) {
      AcceptedPrefixSpec(batches[1..], n, arity);
      assert forall i :: 1 <= i < |batches| ==> batches[i] == batches[1..][i - 1];
    }
  }

  /** The batches of a file's rows that end up committed. */
  function CommittedBatches(header: seq<string>, rows: seq<seq<string>>, arity: nat): seq<seq<Row>> {
    var batches := Chunks(ProcessAll(rows));
    batches[..AcceptedPrefix(batches, |header|, arity)]
  }

  /** The outcome of importing a file with the given header and data rows. */
  function OutcomeOf(header: seq<string>, rows: seq<seq<string>>, arity: nat): FileOutcome {
    var batches := Chunks(ProcessAll(rows));
    if AcceptedPrefix(batches, |header|, arity) == |batches| then Imported(|rows|)
    else Failed(|Flatten(CommittedBatches(header, rows, arity))|)
  }

  lemma AcceptedPrefixIs(batches: seq<seq<Row>>, n: nat, arity: nat, k: nat)
    requires k <= |batches|
    requires forall i :: 0 <= i < k ==> BatchFits(batches[i], n, arity)
    requires k < |batches| ==> !BatchFits(batches[k], n, arity)
    ensures AcceptedPrefix(batches, n, arity) == k
  {
    AcceptedPrefixSpec(batches, n, arity);
  }

  /** An element of a group is an element of the regrouped sequence. */
  lemma {:induction false} ChunkMember<T>(xs: seq<T>, i: nat, j: nat)
    requires i < |Chunks(xs)| && j < |Chunks(xs)[i]|
    ensures Chunks(xs)[i][j] in xs
    decreases |xs|
  {
    if |xs| > BatchSize && i > 0 {
      ChunkMember(xs[BatchSize..], i - 1, j);
    }
  }

  /** A file whose header matches the table and whose rows all fill the header is imported whole. */
  lemma FitImportsAll(header: seq<string>, rows: seq<seq<string>>, arity: nat)
    requires |header| == arity && forall i :: 0 <= i < |rows| ==> |rows[i]| == arity
    ensures OutcomeOf(header, rows, arity) == Imported(|rows|)
    ensures Flatten(CommittedBatches(header, rows, arity)) == ProcessAll(rows)
  {
    var procs := ProcessAll(rows);
    var batches := Chunks(procs);
    FlattenChunks(procs);
    forall i | 0 <= i < |batches| ensures BatchFits(batches[i], |header|, arity) {
      forall j | 0 <= j < |batches[i]| ensures |batches[i][j]| == arity {
        ChunkMember(procs, i, j);
      }
    }
    AcceptedPrefixIs(batches, |header|, arity, |batches|);
    assert batches[..|batches|] == batches;
  }

  /**
   * A file with data rows is imported whole exactly when its header has the
   * table's width and every row fills the header; any other file stops at
   * the first batch holding a row that does not.
   */
  lemma ImportedExactlyWhenFit(header: seq<string>, rows: seq<seq<string>>, arity: nat)
    requires |rows| > 0
    ensures OutcomeOf(header, rows, arity).Imported? <==>
      (|header| == arity && forall i :: 0 <= i < |rows| ==> |rows[i]| == arity)
  {
    var procs := ProcessAll(rows);
    var batches := Chunks(procs);
    if |header| == arity && forall i :: 0 <= i < |rows| ==> |rows[i]| == arity {
      FitImportsAll(header, rows, arity);
    } else if AcceptedPrefix(batches, |header|, arity) == |batches| {
      AcceptedPrefixSpec(batches, |header|, arity);
      assert BatchFits(batches[0], |header|, arity);
      FlattenChunks(procs);
      FlattenAllFit(batches, arity);
      forall i | 0 <= i < |rows| ensures |rows[i]| == arity {
        assert procs[i] in Flatten(batches);
      }
    }
  }

  lemma {:induction false} FlattenAllFit(batches: seq<seq<Row>>, arity: nat)
    requires forall i :: 0 <= i < |batches| ==> BatchFits(batches[i], arity, arity)
    ensures forall x :: x in Flatten(batches) ==> |x| == arity
    decreases |batches|
  {
    if |batches| > 0 {
      assert forall i :: 1 <= i < |batches| ==> batches[i] == batches[1..][i - 1];
      FlattenAllFit(batches[1..], arity);
      forall x | x in batches[0] ensures |x| == arity {
        var j :| 0 <= j < |batches[0]| && batches[0][j] == x;
      }
    }
  }

  /** `executemany` followed by `commit`, the pair the row loop runs for every batch. */
  method SendBatch(conn: Connection, n: nat, batch: seq<Row>) returns (ok: bool)
    requires conn.pending == []
    modifies conn
    ensures ok <==> BatchFits(batch, n, old(conn.arity))
    ensures conn.pending == [] && conn.arity == old(conn.arity)
    ensures ok ==> conn.committed == old(conn.committed) + batch && conn.statements == old(conn.statements) + [batch]
    ensures !ok ==> conn.committed == old(conn.committed) && conn.statements == old(conn.statements)
  {
    ok := conn.ExecuteMany(n, batch);
    if ok {
      conn.Commit();
    }
  }

  /** What the row loop has done so far: the first `flushed` groups of `procs`, which make up `done`, are committed. */
  ghost predicate Sent(conn: Connection, procs: seq<Row>, done: seq<Row>, flushed: nat, n: nat,
                       committed0: seq<Row>, statements0: seq<seq<Row>>)
    reads conn
  {
    && flushed <= |Chunks(procs)| && Chunks(done) == Chunks(procs)[..flushed] && AllFull(Chunks(done))
    && (forall k :: 0 <= k < flushed ==> BatchFits(Chunks(procs)[k], n, conn.arity))
    && conn.pending == []
    && conn.statements == statements0 + Chunks(procs)[..flushed]
    && conn.committed == committed0 + done
  }

  /** Lines 110-115: a full buffer is sent and committed; a refused one rolls the file back. */
  method Flush(conn: Connection, n: nat, batch: seq<Row>, ghost procs: seq<Row>, ghost done: seq<Row>,
               ghost flushed: nat, ghost committed0: seq<Row>, ghost statements0: seq<seq<Row>>)
    returns (ok: bool)
    requires Sent(conn, procs, done, flushed, n, committed0, statements0)
    requires |done| + |batch| <= |procs| && |batch| == BatchSize
    requires done == procs[..|done|] && batch == procs[|done|..|done| + |batch|]
    modifies conn
    ensures conn.arity == old(conn.arity) && conn.pending == []
    ensures ok ==> Sent(conn, procs, done + batch, flushed + 1, n, committed0, statements0)
    ensures !ok ==> Sent(conn, procs, done, flushed, n, committed0, statements0)
    ensures !ok ==> AcceptedPrefix(Chunks(procs), n, conn.arity) == flushed < |Chunks(procs)|
    ensures !ok ==> Flatten(Chunks(procs)[..flushed]) == done
  {
    FullBatch(procs, done, batch, flushed);
    ok := SendBatch(conn, n, batch);
    if !ok {
      conn.Rollback();
      FailedAt(procs, done, flushed, n, conn.arity);
    } else {
      assert Chunks(procs)[..flushed + 1] == Chunks(procs)[..flushed] + [batch];
    }
  }

  /** The row loop of one file: each row is processed and buffered, and a full buffer is sent and committed. */
  method ImportRows(conn: Connection, header: seq<string>, rows: seq<seq<string>>) returns (outcome: FileOutcome)
    requires conn.pending == []
    modifies conn
    ensures conn.pending == [] && conn.arity == old(conn.arity)
    ensures conn.statements == old(conn.statements) + CommittedBatches(header, rows, old(conn.arity))
    ensures conn.committed == old(conn.committed) + Flatten(CommittedBatches(header, rows, old(conn.arity)))
    ensures outcome == OutcomeOf(header, rows, old(conn.arity))
  {
    var n := |header|;
    ghost var arity := conn.arity;
    ghost var procs := ProcessAll(rows);
    ghost var done: seq<Row> := [];
    ghost var flushed: nat := 0;
    var batch: seq<Row> := [];
    var total: nat := 0;
    var i := 0;
    while i < |rows|
      invariant 0 <= i <= |rows| && total + |batch| == i && |batch| < BatchSize
      invariant done == procs[..total] && batch == procs[total..i]
      invariant conn.arity == arity
      invariant Sent(conn, procs, done, flushed, n, old(conn.committed), old(conn.statements))
      decreases |rows| - i
    {
      batch := batch + [ProcessRow(rows[i])];
      i := i + 1;
      if |batch| >= BatchSize {
        var ok := Flush(conn, n, batch, procs, done, flushed, old(conn.committed), old(conn.statements));
        if !ok {
          assert CommittedBatches(header, rows, arity) == Chunks(procs)[..flushed];
          return Failed(total);
        }
        done := done + batch;
        total := total + |batch|;
        flushed := flushed + 1;
        batch := [];
      }
    }
    var ok := FlushLast(conn, n, batch, procs, done, flushed, old(conn.committed), old(conn.statements));
    if ok {
      assert CommittedBatches(header, rows, arity) == Chunks(procs);
      FlattenChunks(procs);
      outcome := Imported(|rows|);
    } else {
      assert CommittedBatches(header, rows, arity) == Chunks(procs)[..flushed];
      outcome := Failed(total);
    }
  }

  /** Lines 118-121: the rows left in the buffer after the last row, if any, are sent and committed. */
  method FlushLast(conn: Connection, n: nat, batch: seq<Row>, ghost procs: seq<Row>, ghost done: seq<Row>,
                   ghost flushed: nat, ghost committed0: seq<Row>, ghost statements0: seq<seq<Row>>)
    returns (ok: bool)
    requires Sent(conn, procs, done, flushed, n, committed0, statements0)
    requires |done| + |batch| == |procs| && |batch| < BatchSize
    requires done == procs[..|done|] && batch == procs[|done|..]
    modifies conn
    ensures conn.arity == old(conn.arity) && conn.pending == []
    ensures ok ==> AcceptedPrefix(Chunks(procs), n, conn.arity) == |Chunks(procs)|
    ensures ok ==> conn.statements == statements0 + Chunks(procs) && conn.committed == committed0 + procs
    ensures !ok ==> AcceptedPrefix(Chunks(procs), n, conn.arity) == flushed < |Chunks(procs)|
    ensures !ok ==> Flatten(Chunks(procs)[..flushed]) == done
    ensures !ok ==> Sent(conn, procs, done, flushed, n, committed0, statements0)
  {
    LastBatch(procs, done, batch, flushed);
    ok := true;
    if |batch| > 0 {
      ok := SendBatch(conn, n, batch);
      if !ok {
        conn.Rollback();
        FailedAt(procs, done, flushed, n, conn.arity);
        return;
      }
    }
    assert procs == done + batch;
    AcceptedPrefixIs(Chunks(procs), n, conn.arity, |Chunks(procs)|);
    assert Chunks(procs)[..|Chunks(procs)|] == Chunks(procs);
  }

  /** A buffer that fills up is the next group of the file's rows. */
  lemma FullBatch<T>(procs: seq<T>, done: seq<T>, batch: seq<T>, flushed: nat)
    requires |done| + |batch| <= |procs| && |batch| == BatchSize
    requires done == procs[..|done|] && batch == procs[|done|..|done| + |batch|]
    requires AllFull(Chunks(done)) && flushed <= |Chunks(procs)| && Chunks(done) == Chunks(procs)[..flushed]
    ensures flushed < |Chunks(procs)| && Chunks(procs)[flushed] == batch
    ensures Chunks(done + batch) == Chunks(procs)[..flushed + 1] && AllFull(Chunks(done + batch))
  {
    var rest := procs[|done|..];
    assert procs == done + rest;
    ChunksAfterWhole(done, rest);
    ChunksStep(rest);
    assert rest[..BatchSize] == batch;
    ChunksAfterWhole(done, batch);
    assert Chunks(batch) == [batch];
  }

  /** After the last row, what is left in the buffer is the last group, if any. */
  lemma LastBatch<T>(procs: seq<T>, done: seq<T>, batch: seq<T>, flushed: nat)
    requires |done| + |batch| == |procs| && |batch| < BatchSize
    requires done == procs[..|done|] && batch == procs[|done|..]
    requires AllFull(Chunks(done)) && flushed <= |Chunks(procs)| && Chunks(done) == Chunks(procs)[..flushed]
    ensures |batch| == 0 ==> flushed == |Chunks(procs)|
    ensures |batch| > 0 ==> flushed + 1 == |Chunks(procs)| && Chunks(procs)[flushed] == batch
    ensures |batch| > 0 ==> Chunks(procs) == Chunks(procs)[..flushed] + [batch]
  {
    assert procs == done + batch;
    ChunksAfterWhole(done, batch);
    if |batch| > 0 {
      assert Chunks(batch) == [batch];
    }
  }

  /** When the server refuses the next batch, the file stops with exactly the groups before it committed. */
  lemma FailedAt(procs: seq<Row>, done: seq<Row>, flushed: nat, n: nat, arity: nat)
    requires flushed < |Chunks(procs)| && Chunks(done) == Chunks(procs)[..flushed]
    requires forall k :: 0 <= k < flushed ==> BatchFits(Chunks(procs)[k], n, arity)
    requires !BatchFits(Chunks(procs)[flushed], n, arity)
    ensures AcceptedPrefix(Chunks(procs), n, arity) == flushed
    ensures Flatten(Chunks(procs)[..flushed]) == done
  {
    AcceptedPrefixIs(Chunks(procs), n, arity, flushed);
    FlattenChunks(done);
  }

  // ------------------------------------------------------------ file map

  /** The ICD-7, ICD-8 and ICD-9 files, always in the map. */
  const FixedFiles: seq<string> := ["Mortlcd07.csv", "Mortlcd08.csv", "Mortlcd09.csv"]

  /** `os.path.basename`: what follows the last `/`. */
  function Basename(path: string): (b: string)
    ensures '/' !in b && |b| <= |path| && b == path[|path| - |b|..]
    ensures '/' !in path ==> b == path
    decreases |path|
  {
    if |path| == 0 then ""
    else if path[|path| - 1] == '/' then ""
    else Basename(path[..|path| - 1]) + [path[|path| - 1]]
  }

  /** A dictionary key stored once, at the position it was first stored. */
  function AddKey(keys: seq<string>, k: string): seq<string> {
    if k in keys then keys else keys + [k]
  }

  /** The file names of the ICD-10 parts, in glob order. */
  function PartNames(paths: seq<string>): (r: seq<string>)
    ensures |r| == |paths| && forall i :: 0 <= i < |paths| ==> r[i] == Basename(paths[i])
  {
    seq(|paths|, i requires 0 <= i < |paths| => Basename(paths[i]))
  }

  function AddKeys(keys: seq<string>, ks: seq<string>): seq<string>
    decreases |ks|
  {
    if |ks| == 0 then keys else AddKey(AddKeys(keys, ks[..|ks| - 1]), ks[|ks| - 1])
  }

  /** The ICD-10 part files found: the capitalised pattern, or the lowercase one when that finds nothing. */
  function PartsFound(upper: seq<string>, lower: seq<string>): seq<string> {
    if |upper| > 0 then upper else lower
  }

  /** `mapeo_archivos_tabla`'s keys, in insertion order; every value is the Mortalidad table. */
  function FileMapOf(upper: seq<string>, lower: seq<string>): seq<string> {
    AddKeys(FixedFiles, PartNames(PartsFound(upper, lower)))
  }

  /** The loop of lines 46-47 over the glob results. */
  method BuildFileMap(upper: seq<string>, lower: seq<string>) returns (files: seq<string>)
    ensures files == FileMapOf(upper, lower)
  {
    var parts := upper;
    if |parts| == 0 {
      parts := lower;
    }
    files := FixedFiles;
    for i := 0 to |parts|
      invariant files == AddKeys(FixedFiles, PartNames(parts)[..i])
    {
      assert PartNames(parts)[..i + 1][..i] == PartNames(parts)[..i];
      var name := Basename(parts[i]);
      if name !in files {
        files := files + [name];
      }
    }
    assert PartNames(parts)[..|parts|] == PartNames(parts);
  }

  /** The map holds each name once, starts with the fixed files, and holds every part found and nothing else. */
  lemma {:induction false} AddKeysSpec(keys: seq<string>, ks: seq<string>)
    requires Distinct(keys)
    ensures Distinct(AddKeys(keys, ks))
    ensures |AddKeys(keys, ks)| >= |keys| && AddKeys(keys, ks)[..|keys|] == keys
    ensures forall x :: x in AddKeys(keys, ks) <==> x in keys || x in ks
    decreases |ks|
  {
    if |ks| > 0 {
      var n := |ks| - 1;
      AddKeysSpec(keys, ks[..n]);
      var prev := AddKeys(keys, ks[..n]);
      assert ks == ks[..n] + [ks[n]];
      if ks[n] !in prev {
        DistinctAppend(prev, [ks[n]]);
        assert (prev + [ks[n]])[..|keys|] == prev[..|keys|];
      }
    }
  }

  lemma FileMapSpec(upper: seq<string>, lower: seq<string>)
    ensures Distinct(FileMapOf(upper, lower))
    ensures |FileMapOf(upper, lower)| >= 3 && FileMapOf(upper, lower)[..3] == FixedFiles
    ensures forall x :: x in FileMapOf(upper, lower) <==> x in FixedFiles || x in PartNames(PartsFound(upper, lower))
  {
    assert Distinct(FixedFiles);
    AddKeysSpec(FixedFiles, PartNames(PartsFound(upper, lower)));
  }

  // ----------------------------------------------------------- all files

  /** A file on disk: its header and data rows, or no header line at all. */
  datatype CsvFile = CsvFile(header: seq<string>, rows: seq<seq<string>>) | NoHeader

  /** The outcome for a file name, given the files on disk. */
  function FileOutcomeOf(disk: map<string, CsvFile>, name: string, arity: nat): FileOutcome {
    if name !in disk then Skipped
    else match disk[name]
      case NoHeader => Failed(0)
      case CsvFile(header, rows) => OutcomeOf(header, rows, arity)
  }

  /** The rows a file leaves committed. */
  function FileRows(disk: map<string, CsvFile>, arity: nat, name: string): seq<Row> {
    if name in disk && disk[name].CsvFile? then Flatten(FileBatches(disk, arity, name)) else []
  }

  /** The batches a file leaves committed. */
  function FileBatches(disk: map<string, CsvFile>, arity: nat, name: string): seq<seq<Row>> {
    if name in disk && disk[name].CsvFile? then CommittedBatches(disk[name].header, disk[name].rows, arity) else []
  }

  /** The rows the files leave committed, file after file. */
  function AllRows(disk: map<string, CsvFile>, arity: nat, files: seq<string>): seq<Row>
    decreases |files|
  {
    if |files| == 0 then [] else AllRows(disk, arity, files[..|files| - 1]) + FileRows(disk, arity, files[|files| - 1])
  }

  /** The batches the files leave committed, file after file. */
  function AllBatches(disk: map<string, CsvFile>, arity: nat, files: seq<string>): seq<seq<Row>>
    decreases |files|
  {
    if |files| == 0 then [] else AllBatches(disk, arity, files[..|files| - 1]) + FileBatches(disk, arity, files[|files| - 1])
  }

  lemma AllStep(disk: map<string, CsvFile>, arity: nat, files: seq<string>, i: nat)
    requires i < |files|
    ensures AllRows(disk, arity, files[..i + 1]) == AllRows(disk, arity, files[..i]) + FileRows(disk, arity, files[i])
    ensures AllBatches(disk, arity, files[..i + 1]) == AllBatches(disk, arity, files[..i]) + FileBatches(disk, arity, files[i])
  {
    assert files[..i + 1][..i] == files[..i];
  }

  /** One file of the loop: skipped when missing from disk, rolled back when it has no header line. */
  method ImportFile(conn: Connection, disk: map<string, CsvFile>, name: string) returns (outcome: FileOutcome)
    requires conn.pending == []
    modifies conn
    ensures conn.pending == [] && conn.arity == old(conn.arity)
    ensures outcome == FileOutcomeOf(disk, name, old(conn.arity))
    ensures conn.committed == old(conn.committed) + FileRows(disk, old(conn.arity), name)
    ensures conn.statements == old(conn.statements) + FileBatches(disk, old(conn.arity), name)
  {
    if name !in disk {
      return Skipped;
    }
    match disk[name]
    case NoHeader =>
      conn.Rollback();
      outcome := Failed(0);
    case CsvFile(header, rows) =>
      outcome := ImportRows(conn, header, rows);
  }

  /** The file loop: every file of the map in turn, whatever became of the ones before. */
  method ImportAll(conn: Connection, files: seq<string>, disk: map<string, CsvFile>) returns (outcomes: seq<FileOutcome>)
    requires conn.pending == []
    modifies conn
    ensures conn.pending == [] && conn.arity == old(conn.arity)
    ensures |outcomes| == |files|
    ensures forall i :: 0 <= i < |files| ==> outcomes[i] == FileOutcomeOf(disk, files[i], old(conn.arity))
    ensures conn.committed == old(conn.committed) + AllRows(disk, old(conn.arity), files)
    ensures conn.statements == old(conn.statements) + AllBatches(disk, old(conn.arity), files)
  {
    ghost var arity := conn.arity;
    outcomes := [];
    for i := 0 to |files|
      invariant conn.pending == [] && conn.arity == arity
      invariant |outcomes| == i
      invariant forall k :: 0 <= k < i ==> outcomes[k] == FileOutcomeOf(disk, files[k], arity)
      invariant conn.committed == old(conn.committed) + AllRows(disk, arity, files[..i])
      invariant conn.statements == old(conn.statements) + AllBatches(disk, arity, files[..i])
    {
      AllStep(disk, arity, files, i);
      AppendAssoc(old(conn.committed), AllRows(disk, arity, files[..i]), FileRows(disk, arity, files[i]));
      AppendAssoc(old(conn.statements), AllBatches(disk, arity, files[..i]), FileBatches(disk, arity, files[i]));
      var outcome := ImportFile(conn, disk, files[i]);
      outcomes := outcomes + [outcome];
    }
    assert files[..|files|] == files;
  }
}
