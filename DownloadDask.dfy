/** The download phase: list the sub-directories of the remote base path, and
    for each one fetch the archives that pass the name filter, read each in
    chunks into an in-memory buffer, and extract the members that pass the tag
    filter. The remote server, the archive format and the worker pool are
    reduced to the inputs they would supply. */
module DownloadDask {
  import opened Wrappers
  import opened Seqs
  import opened PyText
  import opened ArchiveFilter

  newtype byte = x: int | 0 <= x < 256
  type Bytes = seq<byte>

  /** Size requested by each read of a remote file: 1 MiB. */
  const ChunkSize: nat := 1024 * 1024

  /** Configuration of the driver. */
  const RemotePath: string := "/files/CDR"
  const DateRange: seq<string> := ["20241001", "20241031"]
  const FileTypes: seq<string> := ["CDR_SMS_MT"]

  /** An in-memory binary stream (`io.BytesIO`): its contents and its position. */
  class ByteBuffer {
    var data: Bytes
    var pos: nat

    ghost predicate Valid()
      reads this
    {
      pos <= |data|
    }

    constructor ()
      ensures Valid() && data == [] && pos == 0
    {
      data, pos := [], 0;
    }

    /** `write(chunk)`: overwrite from the current position on, growing the
        buffer when the chunk runs past its end; the position moves past the chunk. */
    method Write(chunk: Bytes)
      requires Valid()
      modifies this
      ensures Valid()
      ensures pos == old(pos) + |chunk|
      ensures data == old(data[..pos]) + chunk +
        (if old(pos) + |chunk| < old(|data|) then old(data[pos + |chunk|..]) else [])
    {
      var tail := if pos + |chunk| < |data| then data[pos + |chunk|..] else [];
      data := data[..pos] + chunk + tail;
      pos := pos + |chunk|;
    }

    /** `seek(0)` */
    method Rewind()
      requires Valid()
      modifies this
      ensures Valid() && data == old(data) && pos == 0
    {
      pos := 0;
    }
  }

  /** The i-th `read(chunk_size)` of a remote file whose reads return `chunks`
      in turn; once those are used up the file is at its end and reads return
      nothing. */
  function ReadChunk(chunks: seq<Bytes>, i: nat): Bytes
  {
    if i < |chunks| then chunks[i] else []
  }

  /** Index of the first empty read: where the chunk loop stops. */
  function FirstEmpty(chunks: seq<Bytes>): (n: nat)
    ensures n <= |chunks|
    ensures forall k :: 0 <= k < n ==> chunks[k] != []
    ensures n < |chunks| ==> chunks[n] == []
  {
    if chunks == [] || chunks[0] == [] then 0 else 1 + FirstEmpty(chunks[1..])
  }

  /** What the chunk loop assembles: every chunk before the first empty one. */
  function Received(chunks: seq<Bytes>): Bytes
  {
    Concat(chunks[..FirstEmpty(chunks)])
  }

  /** The chunk loop of `download_and_extract_zip`: read until a read comes
      back empty, writing every chunk to a fresh buffer, then rewind it. The
      buffer holds, in order, every chunk before the first empty read and
      nothing read after it, and is positioned at 0. */
  method ReadArchive(chunks: seq<Bytes>) returns (buf: ByteBuffer)
    ensures fresh(buf) && buf.Valid()
    ensures buf.data == Received(chunks) && buf.pos == 0
  {
    buf := new ByteBuffer();
    var i := 0;
    while true
      invariant 0 <= i <= FirstEmpty(chunks)
      invariant buf.Valid() && buf.pos == |buf.data|
      invariant buf.data == Concat(chunks[..i])
      decreases |chunks| - i
    {
      var chunk := ReadChunk(chunks, i);
      if chunk == [] {
        break;
      }
      ConcatAppend(chunks[..i], [chunk]);
      assert chunks[..i + 1] == chunks[..i] + [chunk];
      buf.Write(chunk);
      i := i + 1;
    }
    buf.Rewind();
  }

  /** When every read returns some bytes until the file is used up, the
      buffer ends up holding all of them: the pieces need not be of equal size. */
  lemma ReadArchiveNonEmptyReads(chunks: seq<Bytes>)
    requires forall k :: 0 <= k < |chunks| ==> chunks[k] != []
    ensures Received(chunks) == Concat(chunks)
  {
    assert FirstEmpty(chunks) == |chunks|;
    assert chunks[..|chunks|] == chunks;
  }

  /** paramiko's `read(chunk_size)` returns the next `chunk_size` bytes, the
      last read the remainder: the buffer then holds exactly the file. */
  lemma ReadArchiveWholeFile(content: Bytes)
    ensures Received(Chunks(content, ChunkSize)) == content
  {
    ReadArchiveNonEmptyReads(Chunks(content, ChunkSize));
    ConcatChunks(content, ChunkSize);
  }

  /** The members of an archive that are extracted: those accepted by
      should_extract_file, in archive order. */
  ghost function Selected(names: seq<string>, tags: seq<string>): seq<string>
  {
    Filter(names, (e: string) => MatchesAnyTag(e, tags))
  }

  /** The loop over `namelist()`: extract exactly the accepted members, in order. */
  method SelectEntries(names: seq<string>, tags: seq<string>) returns (extracted: seq<string>)
    ensures extracted == Selected(names, tags)
  {
    extracted := [];
    for i := 0 to |names|
      invariant extracted == Selected(names[..i], tags)
    {
      var ok := ShouldExtractFile(names[i], tags);
      assert names[..i + 1] == names[..i] + [names[i]];
      FilterAppend(names[..i], [names[i]], (e: string) => MatchesAnyTag(e, tags));
      if ok {
        extracted := extracted + [names[i]];
      }
    }
    assert names[..|names|] == names;
  }

  /** A member is extracted exactly when it is listed in the archive and some tag occurs in its name. */
  lemma SelectedMembership(names: seq<string>, tags: seq<string>, e: string)
    ensures e in Selected(names, tags) <==> e in names && MatchesAnyTag(e, tags)
  {
    FilterMembership(names, (e: string) => MatchesAnyTag(e, tags), e);
  }

  /** What `download_and_extract_zip` extracts from one remote file. `file` is
      what the remote file's reads return (None: it could not be opened) and
      `openArchive` lists the members of an archive given its bytes (None:
      the bytes are not a readable archive). Either failure is caught and
      extracts nothing. */
  ghost function ExtractedFrom(file: Option<seq<Bytes>>, openArchive: Bytes -> Option<seq<string>>,
                               tags: seq<string>): seq<string>
  {
    match file
    case None => []
    case Some(chunks) =>
      match openArchive(Received(chunks))
      case None => []
      case Some(names) => Selected(names, tags)
  }

  /** `download_and_extract_zip(sftp, filename, file_types)`, returning the
      members it extracts. */
  method DownloadAndExtract(file: Option<seq<Bytes>>, openArchive: Bytes -> Option<seq<string>>,
                            tags: seq<string>) returns (extracted: seq<string>)
    ensures extracted == ExtractedFrom(file, openArchive, tags)
  {
    extracted := [];
    if file.Some? {
      var buf := ReadArchive(file.value);
      var archive := openArchive(buf.data);
      if archive.Some? {
        extracted := SelectEntries(archive.value, tags);
      }
    }
  }

  /** The archives of a listing that are fetched. */
  function ToDownload(names: seq<string>, dateRange: seq<string>): seq<string>
  {
    Filter(names, (n: string) => ShouldDownloadZip(n, dateRange))
  }

  /** Everything extracted from the fetched archives, archive by archive. */
  ghost function ExtractedAll(downloaded: seq<string>, remote: string -> Option<seq<Bytes>>,
                              openArchive: Bytes -> Option<seq<string>>, tags: seq<string>): seq<string>
  {
    Concat(Map(downloaded, (n: string) => ExtractedFrom(remote(n), openArchive, tags)))
  }

  /** `process_directory`: `listing` is what `listdir()` returns after connecting
      and changing into the directory (None: any of those failed, which is
      caught and ends the directory's work). Every listed name accepted by
      should_download_zip is fetched and extracted, in listing order, and no
      other name is. */
  method ProcessDirectory(listing: Option<seq<string>>, dateRange: seq<string>,
                          remote: string -> Option<seq<Bytes>>,
                          openArchive: Bytes -> Option<seq<string>>, tags: seq<string>)
    returns (downloaded: seq<string>, extracted: seq<string>)
    ensures listing.None? ==> downloaded == [] && extracted == []
    ensures listing.Some? ==> downloaded == ToDownload(listing.value, dateRange)
    ensures extracted == ExtractedAll(downloaded, remote, openArchive, tags)
  {
    downloaded, extracted := [], [];
    if listing.None? {
      return;
    }
    var names := listing.value;
    for i := 0 to |names|
      invariant downloaded == ToDownload(names[..i], dateRange)
      invariant extracted == ExtractedAll(downloaded, remote, openArchive, tags)
    {
      var name := names[i];
      assert names[..i + 1] == names[..i] + [name];
      FilterAppend(names[..i], [name], (n: string) => ShouldDownloadZip(n, dateRange));
      if ShouldDownloadZip(name, dateRange) {
        var e := DownloadAndExtract(remote(name), openArchive, tags);
        MapSnoc(downloaded, name, (n: string) => ExtractedFrom(remote(n), openArchive, tags));
        ConcatAppend(Map(downloaded, (n: string) => ExtractedFrom(remote(n), openArchive, tags)), [e]);
        downloaded, extracted := downloaded + [name], extracted + e;
      }
    }
    assert names[..|names|] == names;
  }

  /** A name is fetched exactly when it is listed and should_download_zip accepts it. */
  lemma ToDownloadMembership(names: seq<string>, dateRange: seq<string>, n: string)
    ensures n in ToDownload(names, dateRange) <==> n in names && ShouldDownloadZip(n, dateRange)
  {
    FilterMembership(names, (n: string) => ShouldDownloadZip(n, dateRange), n);
  }

  /** One entry of an attributed listing (`listdir_attr()`): a name and its
      mode bits, which the server may leave out. */
  datatype DirEntry = DirEntry(filename: string, mode: Option<nat>)

  /** `stat.S_ISDIR(mode)`: the file-type bits (mask 0o170000) are 0o040000. */
  predicate IsDirMode(mode: nat)
  {
    (mode / 0x1000) % 0x10 == 4
  }

  /** The digit test is the mask test of `S_ISDIR`, `mode & S_IFMT == S_IFDIR`
      with S_IFMT = 0o170000 and S_IFDIR = 0o040000: the low 16 bits of the
      mode lie between 0o040000 and 0o047777. */
  lemma IsDirModeMask(mode: nat)
    ensures IsDirMode(mode) <==> 0x4000 <= mode % 0x10000 < 0x5000
  {
    var q, r := mode / 0x10000, mode % 0x10000;
    var d, lo := r / 0x1000, r % 0x1000;
    assert mode == (q * 0x10 + d) * 0x1000 + lo;
    assert mode / 0x1000 == q * 0x10 + d;
    assert (mode / 0x1000) % 0x10 == d;
  }

  predicate IsDirEntry(e: DirEntry)
    requires e.mode.Some?
  {
    IsDirMode(e.mode.value)
  }

  predicate AllModesKnown(entries: seq<DirEntry>)
  {
    forall k :: 0 <= k < |entries| ==> entries[k].mode.Some?
  }

  /** The names of the directories among the entries, in listing order. */
  function DirNames(entries: seq<DirEntry>): (names: seq<string>)
    requires AllModesKnown(entries)
    ensures |names| <= |entries|
  {
    if entries == [] then []
    else (if IsDirEntry(entries[0]) then [entries[0].filename] else []) + DirNames(entries[1..])
  }

  /** `list_mvno_subfolders`: `listing` is what `listdir_attr()` returns after
      connecting to the server and changing into the base path (None: either
      failed). S_ISDIR of a missing mode raises; every exception is caught and
      the result is then empty. */
  function ListSubfolders(remotePath: string, listing: Option<seq<DirEntry>>): (paths: seq<string>)
    ensures listing.None? ==> paths == []
    ensures listing.Some? ==> |paths| <= |listing.value|
  {
    if listing.None? || !AllModesKnown(listing.value) then []
    else Map(DirNames(listing.value), (name: string) => PosixJoin(remotePath, name))
  }

  /** A name is among the directory names exactly when some entry with that
      name has directory mode bits. */
  lemma {:induction false} DirNamesMembership(entries: seq<DirEntry>, name: string)
    requires AllModesKnown(entries)
    ensures name in DirNames(entries) <==>
      exists k :: 0 <= k < |entries| && entries[k].filename == name && IsDirEntry(entries[k])
  {
    if entries != [] {
      DirNamesMembership(entries[1..], name);
      if name in DirNames(entries[1..]) {
        var k :| 0 <= k < |entries[1..]| && entries[1..][k].filename == name && IsDirEntry(entries[1..][k]);
        assert entries[k + 1] == entries[1..][k];
      }
      if exists k :: 0 <= k < |entries| && entries[k].filename == name && IsDirEntry(entries[k]) {
        var k :| 0 <= k < |entries| && entries[k].filename == name && IsDirEntry(entries[k]);
        if k > 0 {
          assert entries[1..][k - 1] == entries[k];
        }
      }
    }
  }

  /** Listing order is kept: directory names distribute over a split listing. */
  lemma {:induction false} DirNamesAppend(a: seq<DirEntry>, b: seq<DirEntry>)
    requires AllModesKnown(a) && AllModesKnown(b)
    ensures AllModesKnown(a + b)
    ensures DirNames(a + b) == DirNames(a) + DirNames(b)
  {
    if a == [] {
      assert a + b == b;
    } else {
      assert (a + b)[1..] == a[1..] + b;
      DirNamesAppend(a[1..], b);
    }
  }

  /** For a base path that does not end in "/" and entry names that do not
      start with one, the result holds `remote_path + "/" + name` for each
      directory entry, in listing order, and nothing for any other entry. */
  lemma ListSubfoldersPaths(remotePath: string, entries: seq<DirEntry>)
    requires remotePath != [] && !EndsWith(remotePath, "/")
    requires AllModesKnown(entries)
    requires forall k :: 0 <= k < |entries| ==> !StartsWith(entries[k].filename, "/")
    ensures |ListSubfolders(remotePath, Some(entries))| == |DirNames(entries)|
    ensures forall k :: 0 <= k < |DirNames(entries)| ==>
      ListSubfolders(remotePath, Some(entries))[k] == remotePath + "/" + DirNames(entries)[k]
  {
    forall k | 0 <= k < |DirNames(entries)|
      ensures !StartsWith(DirNames(entries)[k], "/")
    {
      var name := DirNames(entries)[k];
      assert name in DirNames(entries);
      DirNamesMembership(entries, name);
    }
  }

  /** One task of the download wave: `process_directory` on one sub-directory. */
  datatype DirTask = DirTask(folder: string, dateRange: seq<string>, tags: seq<string>)

  /** The submission loop of the driver: one task per sub-directory, in order. */
  method SubmitDirectories(subfolders: seq<string>, dateRange: seq<string>, tags: seq<string>)
    returns (tasks: seq<DirTask>)
    ensures |tasks| == |subfolders|
    ensures forall i :: 0 <= i < |tasks| ==> tasks[i] == DirTask(subfolders[i], dateRange, tags)
  {
    tasks := [];
    for i := 0 to |subfolders|
      invariant |tasks| == i
      invariant forall j :: 0 <= j < i ==> tasks[j] == DirTask(subfolders[j], dateRange, tags)
    {
      tasks := tasks + [DirTask(subfolders[i], dateRange, tags)];
    }
  }

  /** The driver's download wave: list the base path, then submit one task per
      sub-directory found, with the configured date range and tags. A failed
      listing submits nothing. */
  method DownloadWave(rootListing: Option<seq<DirEntry>>) returns (tasks: seq<DirTask>)
    ensures |tasks| == |ListSubfolders(RemotePath, rootListing)|
    ensures forall i :: 0 <= i < |tasks| ==>
      tasks[i] == DirTask(ListSubfolders(RemotePath, rootListing)[i], DateRange, FileTypes)
  {
    var subfolders := ListSubfolders(RemotePath, rootListing);
    tasks := SubmitDirectories(subfolders, DateRange, FileTypes);
  }
}
