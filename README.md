# CDR download and load pipeline — a Dafny model of its decision layer

The system fetches telecom call-detail-record (CDR) archives from an SFTP
server and loads the extracted CSV files into SQL Server, with both phases
spread over a Dask worker pool. This project models the sequential decisions
underneath that plumbing and proves what they do:

- **Download phase** (`Donwload_Dask.py`, modules `ArchiveFilter` and `DownloadDask`):
  - the archive-name predicate `should_download_zip`: affix tests, Python's `split('_')` and the inclusive date-range test under Python's string order;
  - the member predicate `should_extract_file`: any tag occurs as a substring;
  - the chunk loop that fills an in-memory `BytesIO` buffer and rewinds it;
  - the loop that picks which archive members are extracted;
  - the per-directory loop of `process_directory`;
  - the directory filter and `posixpath.join` of `list_mvno_subfolders`;
  - the driver's one-task-per-sub-directory submission loop.
- **Load phase** (`Insert_Dask.py`, module `InsertDask`):
  - the SQLAlchemy connection string;
  - the required-column check of `process_file`, the projection to exactly the required columns, and the append-only insert in batches of 5000 rows;
  - the `.csv` filter of `listar_arquivos`;
  - the nested loop that submits one task per (worker, file), pinned to that worker.

Supporting modules: `PyText` models Python `str` semantics (`startswith`,
`endswith`, `split`, `in`, `<=`, `posixpath.join`). `Seqs` holds list
comprehensions as `Filter`/`Map`, plus concatenation and chunking. `Wrappers`
holds `Option`.

The remote server, the archive format, the CSV parser, the database and the
worker pool are not modelled. Each is replaced by the input it would supply:
- a directory listing, as `Option<seq<…>>` (None means connecting, changing directory or listing raised);
- the successive results of `read(chunk_size)` on a remote file;
- a function from archive bytes to its member names (None means the bytes are not a readable archive);
- the frame `read_csv(dtype=str)` produced (None means the read raised);
- the per-worker results of `os.listdir`.

An exception the source catches becomes the None case, a `false`, or an
outcome constructor. Python's chained comparison `date_range[0] <= file_date <= date_range[1]`
short-circuits and can raise IndexError. It is modelled with an explicit `Eval`
outcome, so the "every failure yields false" path is part of the model.

Behaviour of the code worth knowing:
- `list_mvno_subfolders` does not close its connection when listing raises: `sftp.close()` and `ssh_client.close()` sit inside the `try` (Donwload_Dask.py:31-32), so an exception before them skips both.
- The `len(parts) < 2` check of `should_download_zip` (Donwload_Dask.py:50) can never fail once the `cdr_` prefix test has passed. `ArchiveFilter.PrefixedNameHasDateField` proves this.
- `stat.S_ISDIR(mode)` tests `mode & 0o170000 == 0o040000`. `DownloadDask.IsDirMode` states it as "the fourth hexadecimal digit of the mode is 4", and `DownloadDask.IsDirModeMask` proves this is the same as the mask test.

## Model

| member | source | states |
|---|---|---|
| `PyText.Split` | Donwload_Dask.py:49 | `str.split` on one separator yields at least one part and no part contains the separator |
| `PyText.SplitJoin` | Donwload_Dask.py:49 | joining the parts with the separator gives back the string; there is one more part than there are separators, so empty fields are kept |
| `PyText.SplitCons` | Donwload_Dask.py:49 | splitting `a + sep + rest`, where `a` has no separator, gives `a` followed by the split of `rest` |
| `PyText.SplitHead` | Donwload_Dask.py:49 | the first part of a split is the text before the first separator |
| `PyText.UpToCons` | Donwload_Dask.py:49 | the text before the first separator of `a + sep + b` is `a` when `a` has no separator |
| `PyText.ContainsIff` | Donwload_Dask.py:63 | Python's `t in s` holds iff `t` occurs in `s` at some position |
| `PyText.LexLeReflexive` | Donwload_Dask.py:53 | Python's string `<=` is reflexive |
| `PyText.LexLeAntisymmetric` | Donwload_Dask.py:53 | Python's string `<=` is antisymmetric |
| `PyText.LexLeTransitive` | Donwload_Dask.py:53 | Python's string `<=` is transitive |
| `PyText.LexLeTotal` | Donwload_Dask.py:53 | any two strings are comparable under Python's `<=` |
| `PyText.LexLeAtFirstDifference` | Donwload_Dask.py:53 | strings that agree up to a position are ordered by their characters at the first difference |
| `PyText.LexLeIsNumericOnFixedWidth` | Donwload_Dask.py:130 | on digit strings of equal width (zero-padded `YYYYMMDD`), string `<=` is numeric `<=` |
| `PyText.PosixJoin` | Donwload_Dask.py:35 | `posixpath.join(a, b)` ends with `b`; when `b` is absolute it is `b`, otherwise it starts with `a` and adds at most one `/` |
| `PyText.PosixJoinPlain` | Donwload_Dask.py:35 | `posixpath.join(a, b)` is `a + "/" + b` when `a` is non-empty and does not end in `/` and `b` does not start with `/` |
| `ArchiveFilter.InDateRange` | Donwload_Dask.py:53 | the chained range test raises exactly when the range is empty, or has one bound and the first test passes |
| `ArchiveFilter.ShouldDownloadZip` | Donwload_Dask.py:46-47 | a name is accepted only if it ends with ".zip" and starts with "cdr_" |
| `ArchiveFilter.PrefixedNameHasDateField` | Donwload_Dask.py:46-52 | a name starting with "cdr_" splits into at least two fields: "cdr" and then the date token, so the `len(parts) < 2` branch is unreachable |
| `ArchiveFilter.ShouldDownloadZipIff` | Donwload_Dask.py:45-53 | accepted iff both affixes hold, the range has two bounds, and `start <= token <= end` under Python's string order, inclusive at both ends |
| `ArchiveFilter.RaisedMeansRejected` | Donwload_Dask.py:53-56 | when evaluating the range test raises, the predicate returns false |
| `ArchiveFilter.ShouldDownloadZipNumeric` | Donwload_Dask.py:49-53 | for fixed-width digit dates, acceptance is the numeric comparison `start <= date <= end` |
| `ArchiveFilter.SplitKeepsEmptyFields` | Donwload_Dask.py:49 | two adjacent underscores give an empty field: `a + "__" + b` splits into `[a, "", b]` (as `"cdr__x.zip"` gives `["cdr", "", "x.zip"]`) |
| `ArchiveFilter.ShouldExtractFile` | Donwload_Dask.py:58-65 | the loop with early return answers true iff some tag is a substring of the member name |
| `ArchiveFilter.NoTagsMatchNothing` | Donwload_Dask.py:62-65 | an empty tag list accepts no member |
| `ArchiveFilter.MatchesAnyTagDependsOnTagSet` | Donwload_Dask.py:62-65 | two tag lists with the same elements give the same answer |
| `ArchiveFilter.MatchesAnyTagPermutation` | Donwload_Dask.py:62-65 | reordering the tag list does not change the answer |
| `ArchiveFilter.MatchesAnyTagIff` | Donwload_Dask.py:62-64 | accepted iff some tag occurs in the name at some position |
| `DownloadDask.ByteBuffer.constructor` | Donwload_Dask.py:78 | a new `BytesIO` is empty and at position 0 |
| `DownloadDask.ByteBuffer.Write` | Donwload_Dask.py:84 | a write overwrites from the position on, extends past the end, and advances the position by the chunk length |
| `DownloadDask.ByteBuffer.Rewind` | Donwload_Dask.py:85 | `seek(0)` keeps the contents and sets the position to 0 |
| `DownloadDask.FirstEmpty` | Donwload_Dask.py:80-83 | the loop stops at the first empty read: every earlier read was non-empty |
| `DownloadDask.ReadArchive` | Donwload_Dask.py:77-85 | the buffer holds, in order, every chunk before the first empty read and nothing after it, and is at position 0 |
| `DownloadDask.ReadArchiveNonEmptyReads` | Donwload_Dask.py:79-85 | when every read returns some bytes until the file is used up, whatever their sizes, the buffer holds all of them in order |
| `DownloadDask.ReadArchiveWholeFile` | Donwload_Dask.py:79-85 | when each `read(1 MiB)` returns the next 1 MiB of the file and the last read returns the remainder, the buffer holds exactly the file |
| `DownloadDask.SelectEntries` | Donwload_Dask.py:89-91 | the members extracted are the `namelist()` entries accepted by `should_extract_file`, in archive order |
| `DownloadDask.SelectedMembership` | Donwload_Dask.py:89-91 | a member is extracted iff it is listed in the archive and matches some tag |
| `DownloadDask.DownloadAndExtract` | Donwload_Dask.py:67-94 | extracts the selected members of the received archive; an unopenable file or archive extracts nothing |
| `DownloadDask.ProcessDirectory` | Donwload_Dask.py:96-122 | fetches exactly the listed names accepted by `should_download_zip`, in listing order, and extracts each one's selected members; a failed connect or listing does nothing |
| `DownloadDask.ToDownloadMembership` | Donwload_Dask.py:111-112 | a name is fetched iff it is listed and `should_download_zip` accepts it |
| `DownloadDask.IsDirModeMask` | Donwload_Dask.py:29 | `IsDirMode` is `S_ISDIR`: the file-type bits of `st_mode` (mask 0o170000) are 0o040000 |
| `DownloadDask.DirNames` | Donwload_Dask.py:29 | the directory names are no more than the listing's entries |
| `DownloadDask.ListSubfolders` | Donwload_Dask.py:16-39 | a failed connection or listing yields no paths; otherwise there is at most one path per entry |
| `DownloadDask.DirNamesMembership` | Donwload_Dask.py:29 | a name is kept iff some entry with that name has directory mode bits (`S_ISDIR`) |
| `DownloadDask.DirNamesAppend` | Donwload_Dask.py:29 | the directory filter keeps listing order |
| `DownloadDask.ListSubfoldersPaths` | Donwload_Dask.py:29-35 | one `remote_path + "/" + name` per directory entry, in order, and nothing for any other entry |
| `DownloadDask.SubmitDirectories` | Donwload_Dask.py:139-143 | one `process_directory` task per sub-directory, in order, with the shared date range and tags |
| `DownloadDask.DownloadWave` | Donwload_Dask.py:129-143 | the driver submits one task per sub-directory that `list_mvno_subfolders` found under "/files/CDR", with the October 2024 range and the "CDR_SMS_MT" tag |
| `InsertDask.ConnectionString` | Insert_Dask.py:16-19 | the URL starts with `mssql+pyodbc://` and ends with `?driver=ODBC+Driver+17+for+SQL+Server`; its length is the parts' lengths plus the four delimiters |
| `InsertDask.CutCons` | Insert_Dask.py:16-19 | cutting at the first delimiter recovers the part before it when that part has no delimiter |
| `InsertDask.ConnectionStringRoundTrip` | Insert_Dask.py:16-19 | the URL determines username, password, server and database when none contains the delimiter that ends it |
| `InsertDask.ConnectionStringNotInjective` | Insert_Dask.py:16-19 | nothing is escaped, so an '@' in the password lets two different configurations give the same URL |
| `InsertDask.Missing` | Insert_Dask.py:26-27 | the missing set is exactly the required columns that are not among the file's columns |
| `InsertDask.Projected` | Insert_Dask.py:34 | `df[list(required_columns)]` has one row per row of the file, each with exactly the required columns |
| `InsertDask.ProjectedFaithful` | Insert_Dask.py:23-34 | projection keeps every row, gives each exactly the required columns and drops the rest, and copies each cell's text unchanged |
| `InsertDask.Table.Append` | Insert_Dask.py:37-41 | an insert appends its batch after the existing rows |
| `InsertDask.AppendInBatches` | Insert_Dask.py:37-41 | `to_sql(if_exists='append', chunksize=n)` writes consecutive `n`-row batches; afterwards the table is its old rows followed by all the rows |
| `InsertDask.ProcessFile` | Insert_Dask.py:13-46 | writes to the table named at Insert_Dask.py:37; a read failure or a missing column leaves the table unchanged (and reports the missing set); otherwise the projected rows are appended in 5000-row batches |
| `InsertDask.InsertedBatches` | Insert_Dask.py:37-41 | the batches are non-empty, at most 5000 rows, all full but the last, and concatenate to all the projected rows |
| `InsertDask.LocalJoin` | Insert_Dask.py:50 | `os.path.join(local_dir, name)` starts with the directory, ends with the name, and adds at most one separator |
| `InsertDask.ListCsvFiles` | Insert_Dask.py:49-51 | `listar_arquivos` returns at most one path per listed name, each under the directory and ending in ".csv" |
| `InsertDask.ListCsvFilesIff` | Insert_Dask.py:49-51 | a path is returned iff it is `join(local_dir, name)` for a listed name ending in ".csv" |
| `InsertDask.SubmitLoadTasks` | Insert_Dask.py:66-75 | the nested loop's submissions are one task per listed file, worker by worker, each pinned to `[worker]` and carrying `db_config` and `required_columns` |
| `InsertDask.FanOutCount` | Insert_Dask.py:66-75 | the number of submissions is the sum of the file-list lengths |
| `InsertDask.FanOutMembership` | Insert_Dask.py:66-75 | a task is submitted iff its file is in some worker's list; it is then pinned to exactly that worker and carries the shared settings and columns |
| `InsertDask.FanOutSubmitsEachPairOnce` | Insert_Dask.py:66-75 | with distinct workers each listing a file once, no (worker, file) pair is submitted twice |
| `InsertDask.LoadWave` | Insert_Dask.py:54-75 | submissions are the fan-out of each worker's `.csv` listing of the local directory, with the fifteen columns of Insert_Dask.py:59-64 |
| `Seqs.ConcatChunks` | Insert_Dask.py:41 | cutting rows into `chunksize` pieces and concatenating the pieces gives back the rows |

## Left out

- Dask: `Client` construction, the execution of submitted tasks, `as_completed`, `gather` and `client.run`. This is distributed concurrency. The model only builds the list of submissions.
- paramiko: connecting, `open_sftp`, `chdir` and closing are not modelled. Each appears only as its effect on the listing (None when any of them raises). Whether connections are closed has no observable effect here.
- zipfile and the filesystem: decompression is reduced to a function from bytes to member names. The model does not cover `extract` writing files, preserving paths inside the archive, overwriting files, `os.makedirs`, or a failure midway through an archive's extraction (after which the members already extracted stay on disk).
- pandas `read_csv`: the frame it produces is an input. How it treats empty or "NA" fields (they become NaN despite `dtype=str`) is parsing behaviour and is not modelled. The projection copies whatever cells the reader produced.
- SQLAlchemy `create_engine` and `to_sql`: a connection or insert failure, which the source catches, is not modelled. ProcessFile assumes the write succeeds once the column check passes. The table's schema is not checked.
- ProcessFile: `list(required_columns)` has Python's unspecified set order. Rows are modelled as maps from column name to text, so the column order of the projection is not represented.
- `listar_arquivos`: an `os.listdir` failure is not caught in the source and would abort the driver. It is not modelled: the listing is an input.
- LocalJoin: models `os.path.join` on the workers' Windows paths as a single `\` separator, unless the directory is empty or already ends in a separator. Drive letters and absolute second components are not modelled.
- Arguments of the wrong Python type (a TypeError inside `should_download_zip`) are excluded by the model's types.
- `time.time()`, the execution-time arithmetic and all `print` logging.
