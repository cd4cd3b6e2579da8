/** The load phase: every worker lists the CSV files it holds, one load task
    per (worker, file) is pinned to that worker, and each task checks the
    file's columns, keeps only the required ones and appends the rows to the
    destination table in batches. Parsing, the database driver and the
    worker pool are reduced to the inputs they would supply. */
module InsertDask {
  import opened Wrappers
  import opened Seqs
  import opened PyText

  const TableName: string := "view_cdr_sms_mt_last_month_1024_arquivos_v3"

  /** `chunksize` given to `to_sql`. */
  const InsertBatchSize: nat := 5000

  /** The columns every loaded file must have. */
  const RequiredColumns: set<string> := {
    "idCDR", "brandID", "idSubscription", "subscriptionID", "msisdn",
    "originator", "destination", "startDate", "parseDay", "parseDate",
    "trafficUnits", "trafficUnitsRatedSession", "packageID", "ratingPackRef",
    "destinationPattern"
  }

  // ---------------------------------------------------------------------
  // Connection string

  datatype DbConfig = DbConfig(server: string, database: string, username: string, password: string)

  const UrlScheme: string := "mssql+pyodbc://"
  const DriverQuery: string := "driver=ODBC+Driver+17+for+SQL+Server"

  /** The SQLAlchemy URL built from the configuration; no part is escaped. */
  function ConnectionString(cfg: DbConfig): (url: string)
    ensures StartsWith(url, UrlScheme) && EndsWith(url, "?" + DriverQuery)
    ensures |url| == |UrlScheme| + |cfg.username| + 1 + |cfg.password| + 1 + |cfg.server| + 1
                     + |cfg.database| + 1 + |DriverQuery|
  {
    UrlScheme + cfg.username + ":" + cfg.password + "@" + cfg.server + "/" + cfg.database
      + "?" + DriverQuery
  }

  /** Split `s` at the first `c`. */
  function Cut(s: string, c: char): Option<(string, string)>
  {
    if c in s then var i := IndexOf(s, c); Some((s[..i], s[i + 1..])) else None
  }

  lemma CutCons(a: string, c: char, b: string)
    requires c !in a
    ensures Cut(a + [c] + b, c) == Some((a, b))
  {
    var s := a + [c] + b;
    assert s[|a|] == c;
    assert forall k :: 0 <= k < |a| ==> s[k] == a[k];
    var i := IndexOf(s, c);
    assert i == |a|;
    assert s[..i] == a && s[i + 1..] == b;
  }

  /** `user:password@` followed by the rest of the URL. */
  function ParseCredentials(s: string): Option<(string, string, string)>
  {
    match Cut(s, ':')
    case None => None
    case Some((user, r1)) =>
      match Cut(r1, '@')
      case None => None
      case Some((pass, r2)) => Some((user, pass, r2))
  }

  /** `server/database?driver=...` */
  function ParseLocation(s: string): Option<(string, string)>
  {
    match Cut(s, '/')
    case None => None
    case Some((server, r3)) =>
      match Cut(r3, '?')
      case None => None
      case Some((db, query)) => if query == DriverQuery then Some((server, db)) else None
  }

  /** Reads a URL of the shape above back into its parts, each part ending at
      the first occurrence of the delimiter that follows it. */
  function ParseConnectionString(url: string): Option<DbConfig>
  {
    if !StartsWith(url, UrlScheme) then None
    else
      match ParseCredentials(url[|UrlScheme|..])
      case None => None
      case Some((user, pass, rest)) =>
        match ParseLocation(rest)
        case None => None
        case Some((server, db)) => Some(DbConfig(server, db, user, pass))
  }

  lemma ParseCredentialsCons(user: string, pass: string, rest: string)
    requires ':' !in user && '@' !in pass
    ensures ParseCredentials(user + ":" + pass + "@" + rest) == Some((user, pass, rest))
  {
    assert user + ":" + pass + "@" + rest == user + [':'] + (pass + ['@'] + rest);
    CutCons(user, ':', pass + ['@'] + rest);
    CutCons(pass, '@', rest);
  }

  lemma ParseLocationCons(server: string, db: string)
    requires '/' !in server && '?' !in db
    ensures ParseLocation(server + "/" + db + "?" + DriverQuery) == Some((server, db))
  {
    assert server + "/" + db + "?" + DriverQuery == server + ['/'] + (db + ['?'] + DriverQuery);
    CutCons(server, '/', db + ['?'] + DriverQuery);
    CutCons(db, '?', DriverQuery);
  }

  /** The URL's parts, grouped as the parser reads them. */
  lemma ConnectionStringShape(cfg: DbConfig)
    ensures ConnectionString(cfg) ==
      UrlScheme + (cfg.username + ":" + cfg.password + "@" + (cfg.server + "/" + cfg.database + "?" + DriverQuery))
  {
  }

  lemma StripScheme(r0: string)
    ensures StartsWith(UrlScheme + r0, UrlScheme) && (UrlScheme + r0)[|UrlScheme|..] == r0
  {
  }

  /** The URL determines the configuration as long as no part contains the
      delimiter that ends it. */
  lemma ConnectionStringRoundTrip(cfg: DbConfig)
    requires ':' !in cfg.username && '@' !in cfg.password
    requires '/' !in cfg.server && '?' !in cfg.database
    ensures ParseConnectionString(ConnectionString(cfg)) == Some(cfg)
  {
    var location := cfg.server + "/" + cfg.database + "?" + DriverQuery;
    var r0 := cfg.username + ":" + cfg.password + "@" + location;
    assert ParseCredentials(r0) == Some((cfg.username, cfg.password, location)) by {
      ParseCredentialsCons(cfg.username, cfg.password, location);
    }
    assert ParseLocation(location) == Some((cfg.server, cfg.database)) by {
      ParseLocationCons(cfg.server, cfg.database);
    }
    ConnectionStringShape(cfg);
    StripScheme(r0);
  }

  /** Because nothing is escaped, an '@' in the password makes two different
      configurations give the same URL. */
  lemma ConnectionStringNotInjective()
    ensures ConnectionString(DbConfig("h", "db", "u", "p@s")) == ConnectionString(DbConfig("s@h", "db", "u", "p"))
    ensures DbConfig("h", "db", "u", "p@s") != DbConfig("s@h", "db", "u", "p")
  {
  }

  // ---------------------------------------------------------------------
  // Column check, projection and batched append

  /** A frame as `read_csv(..., dtype=str)` leaves it: header names and rows of text cells. */
  datatype Frame = Frame(columns: seq<string>, rows: seq<seq<string>>)

  /** Header names are distinct (the reader renames repeats) and every row has one cell per column. */
  ghost predicate WellFormed(f: Frame)
  {
    && Distinct(f.columns)
    && forall i :: 0 <= i < |f.rows| ==> |f.rows[i]| == |f.columns|
  }

  /** A row written to the database: column name to text value. */
  type Row = map<string, string>

  /** `required_columns - set(df.columns)` */
  function Missing(required: set<string>, f: Frame): (m: set<string>)
    ensures forall c :: c in m <==> c in required && c !in f.columns
  {
    required - set c | c in f.columns
  }

  /** Row `i` of `df[list(required_columns)]`. */
  function ProjectRow(f: Frame, i: nat, required: set<string>): Row
    requires WellFormed(f) && i < |f.rows|
    requires Missing(required, f) == {}
  {
    map c | c in required :: f.rows[i][IndexOf(f.columns, c)]
  }

  /** The rows of `df[list(required_columns)]`, in file order. */
  function Projected(f: Frame, required: set<string>): (rows: seq<Row>)
    requires WellFormed(f) && Missing(required, f) == {}
    ensures |rows| == |f.rows|
    ensures forall i :: 0 <= i < |rows| ==> rows[i].Keys == required
  {
    seq(|f.rows|, i requires 0 <= i < |f.rows| => ProjectRow(f, i, required))
  }

  /** The projection keeps every row, gives each exactly the required columns
      (all others are dropped), and copies each kept cell's text unchanged. */
  lemma ProjectedFaithful(f: Frame, required: set<string>)
    requires WellFormed(f) && Missing(required, f) == {}
    ensures |Projected(f, required)| == |f.rows|
    ensures forall i :: 0 <= i < |f.rows| ==> Projected(f, required)[i].Keys == required
    ensures forall i, k :: 0 <= i < |f.rows| && 0 <= k < |f.columns| && f.columns[k] in required ==>
      Projected(f, required)[i][f.columns[k]] == f.rows[i][k]
  {
    forall i, k | 0 <= i < |f.rows| && 0 <= k < |f.columns| && f.columns[k] in required
      ensures Projected(f, required)[i][f.columns[k]] == f.rows[i][k]
    {
      var j := IndexOf(f.columns, f.columns[k]);
      assert f.columns[j] == f.columns[k];
      assert j == k;
    }
  }

  /** The destination table, which the load only ever appends to. */
  class Table {
    const name: string
    var rows: seq<Row>

    constructor (name: string, rows: seq<Row>)
      ensures this.name == name && this.rows == rows
    {
      this.name, this.rows := name, rows;
    }

    /** One INSERT of a batch. */
    method Append(batch: seq<Row>)
      modifies this
      ensures rows == old(rows) + batch
    {
      rows := rows + batch;
    }
  }

  /** `to_sql(..., if_exists='append', chunksize=size)`: the rows are inserted
      in consecutive batches of `size` rows, the last one possibly shorter;
      the returned batches are the ones written, in order. */
  method AppendInBatches(dest: Table, rows: seq<Row>, size: nat) returns (batches: seq<seq<Row>>)
    requires size > 0
    modifies dest
    ensures batches == Chunks(rows, size)
    ensures dest.rows == old(dest.rows) + rows
  {
    batches := [];
    var i := 0;
    while i < |rows|
      invariant 0 <= i <= |rows|
      invariant Chunks(rows, size) == batches + Chunks(rows[i..], size)
      invariant dest.rows == old(dest.rows) + rows[..i]
      decreases |rows| - i
    {
      var end := if i + size < |rows| then i + size else |rows|;
      var batch := rows[i..end];
      assert Chunks(rows[i..], size) == [batch] + Chunks(rows[end..], size) by {
        if end < |rows| {
          assert rows[i..][..size] == batch;
          assert rows[i..][size..] == rows[end..];
        } else {
          assert rows[i..] == batch;
          assert rows[end..] == [];
        }
      }
      dest.Append(batch);
      assert rows[..end] == rows[..i] + batch;
      batches := batches + [batch];
      i := end;
    }
    assert rows[..i] == rows;
  }

  /** What one file's load did. */
  datatype LoadOutcome =
    | ReadFailed                          // the file could not be read: caught, nothing written
    | MissingColumns(missing: set<string>) // skipped: these required columns are absent
    | Inserted(batches: seq<seq<Row>>)     // the batches appended, in order

  /** `process_file`: `frame` is what reading the file produced (None: the
      read raised, which is caught). If any required column is absent the
      file is skipped and the table is untouched; otherwise the projected
      rows are appended in batches of 5000. `dest` is the table `to_sql`
      names, which is always the same one. */
  method ProcessFile(frame: Option<Frame>, required: set<string>, dest: Table) returns (outcome: LoadOutcome)
    requires dest.name == TableName
    requires frame.Some? ==> WellFormed(frame.value)
    modifies dest
    ensures frame.None? ==> outcome == ReadFailed && dest.rows == old(dest.rows)
    ensures frame.Some? && Missing(required, frame.value) != {} ==>
      outcome == MissingColumns(Missing(required, frame.value)) && dest.rows == old(dest.rows)
    ensures frame.Some? && Missing(required, frame.value) == {} ==>
      && outcome == Inserted(Chunks(Projected(frame.value, required), InsertBatchSize))
      && dest.rows == old(dest.rows) + Projected(frame.value, required)
  {
    if frame.None? {
      return ReadFailed;
    }
    var f := frame.value;
    var missing := Missing(required, f);
    if missing != {} {
      return MissingColumns(missing);
    }
    var rows := Projected(f, required);
    var batches := AppendInBatches(dest, rows, InsertBatchSize);
    outcome := Inserted(batches);
  }

  /** Every batch written holds at most 5000 rows, all but the last exactly
      5000, and together they are all the projected rows, in order. */
  lemma InsertedBatches(f: Frame, required: set<string>)
    requires WellFormed(f) && Missing(required, f) == {}
    ensures var bs := Chunks(Projected(f, required), InsertBatchSize);
      && Concat(bs) == Projected(f, required)
      && (forall k :: 0 <= k < |bs| ==> 0 < |bs[k]| <= InsertBatchSize)
      && (forall k :: 0 <= k < |bs| - 1 ==> |bs[k]| == InsertBatchSize)
  {
    ConcatChunks(Projected(f, required), InsertBatchSize);
  }

  // ---------------------------------------------------------------------
  // Local file listing and the pinned fan-out

  /** `os.path.join(local_dir, name)` on the workers' Windows paths. */
  function LocalJoin(dir: string, name: string): (path: string)
    ensures StartsWith(path, dir) && EndsWith(path, name)
    ensures |dir| + |name| <= |path| <= |dir| + 1 + |name|
  {
    if dir == [] || EndsWith(dir, "\\") || EndsWith(dir, "/") then
      assert (dir + name)[..|dir|] == dir && (dir + name)[|dir|..] == name;
      dir + name
    else
      assert (dir + "\\" + name)[..|dir|] == dir && (dir + "\\" + name)[|dir| + 1..] == name;
      dir + "\\" + name
  }

  predicate IsCsv(name: string)
  {
    EndsWith(name, ".csv")
  }

  /** `listar_arquivos(local_dir)` given what `os.listdir(local_dir)` returns. */
  function ListCsvFiles(localDir: string, names: seq<string>): (paths: seq<string>)
    ensures |paths| <= |names|
    ensures forall k :: 0 <= k < |paths| ==> StartsWith(paths[k], localDir) && EndsWith(paths[k], ".csv")
  {
    var csv := Filter(names, IsCsv);
    forall k | 0 <= k < |csv|
      ensures EndsWith(LocalJoin(localDir, csv[k]), ".csv")
    {
      EndsWithTransitive(LocalJoin(localDir, csv[k]), csv[k], ".csv");
    }
    Map(csv, (n: string) => LocalJoin(localDir, n))
  }

  /** One path per listed ".csv" name, in listing order, and nothing else. */
  lemma ListCsvFilesIff(localDir: string, names: seq<string>, p: string)
    ensures p in ListCsvFiles(localDir, names) <==>
      exists n :: n in names && IsCsv(n) && p == LocalJoin(localDir, n)
  {
    var csv := Filter(names, IsCsv);
    if p in ListCsvFiles(localDir, names) {
      var k :| 0 <= k < |csv| && p == LocalJoin(localDir, csv[k]);
      FilterMembership(names, IsCsv, csv[k]);
    }
    if exists n :: n in names && IsCsv(n) && p == LocalJoin(localDir, n) {
      var n :| n in names && IsCsv(n) && p == LocalJoin(localDir, n);
      FilterMembership(names, IsCsv, n);
      var k :| 0 <= k < |csv| && csv[k] == n;
      assert ListCsvFiles(localDir, names)[k] == p;
    }
  }

  /** A load task: `process_file` on one path, with the database settings and
      the required columns, restricted to the listed workers. */
  datatype LoadTask = LoadTask(file: string, config: DbConfig, required: set<string>, workers: seq<string>)

  /** What `client.run(listar_arquivos, local_dir)` returns: each worker's
      address with its list of paths, in the dictionary's order. */
  type Assignment = seq<(string, seq<string>)>

  function TasksFor(worker: string, files: seq<string>, config: DbConfig, required: set<string>): seq<LoadTask>
  {
    Map(files, (f: string) => LoadTask(f, config, required, [worker]))
  }

  /** The submissions of the nested loop, in submission order. */
  function FanOut(assignment: Assignment, config: DbConfig, required: set<string>): seq<LoadTask>
  {
    Concat(Map(assignment, (p: (string, seq<string>)) => TasksFor(p.0, p.1, config, required)))
  }

  function FileLists(assignment: Assignment): seq<seq<string>>
  {
    Map(assignment, (p: (string, seq<string>)) => p.1)
  }

  /** The nested loop of `process_files_and_save_to_db`: for each worker, for
      each of its files, one submission pinned to that worker. */
  method SubmitLoadTasks(assignment: Assignment, config: DbConfig, required: set<string>)
    returns (futures: seq<LoadTask>)
    ensures futures == FanOut(assignment, config, required)
  {
    futures := [];
    for i := 0 to |assignment|
      invariant futures == FanOut(assignment[..i], config, required)
    {
      var (worker, files) := assignment[i];
      ghost var before := futures;
      for j := 0 to |files|
        invariant futures == before + TasksFor(worker, files[..j], config, required)
      {
        var task := LoadTask(files[j], config, required, [worker]);
        assert TasksFor(worker, files[..j + 1], config, required) == TasksFor(worker, files[..j], config, required) + [task];
        futures := futures + [task];
      }
      assert files[..|files|] == files;
      assert assignment[..i + 1] == assignment[..i] + [assignment[i]];
      ghost var g := (p: (string, seq<string>)) => TasksFor(p.0, p.1, config, required);
      assert Map(assignment[..i + 1], g) == Map(assignment[..i], g) + [TasksFor(worker, files, config, required)];
      ConcatAppend(Map(assignment[..i], g), [TasksFor(worker, files, config, required)]);
    }
    assert assignment[..|assignment|] == assignment;
  }

  /** The number of submissions is the total number of listed files. */
  lemma {:induction false} FanOutCount(assignment: Assignment, config: DbConfig, required: set<string>)
    ensures |FanOut(assignment, config, required)| == TotalLength(FileLists(assignment))
  {
    if assignment != [] {
      FanOutCount(assignment[1..], config, required);
      assert FileLists(assignment)[1..] == FileLists(assignment[1..]);
      assert Map(assignment, (p: (string, seq<string>)) => TasksFor(p.0, p.1, config, required))[1..]
          == Map(assignment[1..], (p: (string, seq<string>)) => TasksFor(p.0, p.1, config, required));
    }
  }

  /** A task is submitted exactly when its file is in some worker's list, and
      then it is pinned to that worker alone and carries the shared settings
      and required columns. */
  lemma FanOutMembership(assignment: Assignment, config: DbConfig, required: set<string>, t: LoadTask)
    ensures t in FanOut(assignment, config, required) <==>
      && t.config == config && t.required == required
      && exists i :: 0 <= i < |assignment| && t.workers == [assignment[i].0] && t.file in assignment[i].1
  {
    var tasks := Map(assignment, (p: (string, seq<string>)) => TasksFor(p.0, p.1, config, required));
    ConcatMembership(tasks, t);
    forall i | 0 <= i < |assignment|
      ensures t in tasks[i] <==>
        t.config == config && t.required == required && t.workers == [assignment[i].0] && t.file in assignment[i].1
    {
      var files := assignment[i].1;
      if t.config == config && t.required == required && t.workers == [assignment[i].0] && t.file in files {
        var j :| 0 <= j < |files| && files[j] == t.file;
        assert tasks[i][j] == t;
      }
    }
  }

  /** With distinct workers, each listing its files once, no (worker, file)
      pair is submitted twice. */
  lemma FanOutSubmitsEachPairOnce(assignment: Assignment, config: DbConfig, required: set<string>)
    requires forall i, j :: 0 <= i < j < |assignment| ==> assignment[i].0 != assignment[j].0
    requires forall i :: 0 <= i < |assignment| ==> Distinct(assignment[i].1)
    ensures Distinct(FanOut(assignment, config, required))
  {
    var tasks: seq<seq<LoadTask>> := Map(assignment, (p: (string, seq<string>)) => TasksFor(p.0, p.1, config, required));
    forall i | 0 <= i < |tasks| ensures Distinct(tasks[i]) {
      var files := assignment[i].1;
      assert forall a, b :: 0 <= a < b < |files| ==> tasks[i][a].file == files[a] && tasks[i][b].file == files[b];
    }
    forall i, j, x: LoadTask | 0 <= i < j < |tasks| && x in tasks[i] ensures x !in tasks[j] {
      assert x.workers == [assignment[i].0];
      assert forall y :: y in tasks[j] ==> y.workers == [assignment[j].0];
    }
    DistinctConcat(tasks);
  }

  /** The driver's load wave: every worker lists its local directory, then one
      task per (worker, CSV path) is submitted, pinned to that worker, with the
      database settings and the fifteen required columns.
      `listings` pairs each worker with what `os.listdir` returns there. */
  method LoadWave(localDir: string, config: DbConfig, listings: seq<(string, seq<string>)>)
    returns (futures: seq<LoadTask>)
    ensures futures == FanOut(Map(listings, (p: (string, seq<string>)) => (p.0, ListCsvFiles(localDir, p.1))),
                              config, RequiredColumns)
  {
    var assignment := Map(listings, (p: (string, seq<string>)) => (p.0, ListCsvFiles(localDir, p.1)));
    futures := SubmitLoadTasks(assignment, config, RequiredColumns);
  }
}
