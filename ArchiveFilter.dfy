/** The two selection predicates of the download phase: which remote archives
    are fetched, and which members of an archive are extracted. */
module ArchiveFilter {
  import opened PyText

  const ArchivePrefix: string := "cdr_"
  const ArchiveSuffix: string := ".zip"

  /** The outcome of evaluating a Python expression: a value, or an exception. */
  datatype Eval<T> = Value(v: T) | Raised

  /** `date_range[0] <= file_date <= date_range[1]`. The chained comparison
      short-circuits: `date_range[1]` is only indexed when the first test
      holds, and indexing past the end of `date_range` raises IndexError. */
  function InDateRange(dateRange: seq<string>, fileDate: string): (e: Eval<bool>)
    ensures e.Raised? <==> |dateRange| == 0 || (|dateRange| == 1 && LexLe(dateRange[0], fileDate))
  {
    if |dateRange| == 0 then Raised
    else if !LexLe(dateRange[0], fileDate) then Value(false)
    else if |dateRange| == 1 then Raised
    else Value(LexLe(fileDate, dateRange[1]))
  }

  /** `should_download_zip(filename, date_range)`; an exception raised while
      evaluating it is caught and turned into `false`. */
  function ShouldDownloadZip(filename: string, dateRange: seq<string>): (r: bool)
    ensures r ==> EndsWith(filename, ArchiveSuffix) && StartsWith(filename, ArchivePrefix)
  {
    if !EndsWith(filename, ArchiveSuffix) || !StartsWith(filename, ArchivePrefix) then false
    else
      var parts := Split(filename, '_');
      if |parts| < 2 then false
      else
        match InDateRange(dateRange, parts[1])
        case Value(b) => b
        case Raised => false
  }

  /** The date token of an archive name: what follows the prefix, up to the next underscore. */
  function DateToken(filename: string): string
    requires StartsWith(filename, ArchivePrefix)
  {
    UpTo(filename[|ArchivePrefix|..], '_')
  }

  /** Once a name starts with "cdr_", splitting it on '_' yields at least two
      fields, the first "cdr" and the second the date token, so the
      `len(parts) < 2` test can never succeed after the affix test. */
  lemma PrefixedNameHasDateField(filename: string)
    requires StartsWith(filename, ArchivePrefix)
    ensures |Split(filename, '_')| >= 2
    ensures Split(filename, '_')[0] == "cdr"
    ensures Split(filename, '_')[1] == DateToken(filename)
  {
    var rest := filename[|ArchivePrefix|..];
    assert filename == "cdr" + ['_'] + rest;
    SplitCons("cdr", '_', rest);
    SplitHead(rest, '_');
  }

  /** should_download_zip holds exactly for names with both affixes whose date
      token lies in the inclusive range [date_range[0], date_range[1]] under
      Python's string order; a range with fewer than two bounds accepts nothing. */
  lemma ShouldDownloadZipIff(filename: string, dateRange: seq<string>)
    ensures ShouldDownloadZip(filename, dateRange) <==>
      && EndsWith(filename, ArchiveSuffix)
      && StartsWith(filename, ArchivePrefix)
      && |dateRange| >= 2
      && LexLe(dateRange[0], DateToken(filename))
      && LexLe(DateToken(filename), dateRange[1])
  {
    if EndsWith(filename, ArchiveSuffix) && StartsWith(filename, ArchivePrefix) {
      PrefixedNameHasDateField(filename);
    }
  }

  /** Every exception path of the predicate ends in `false`. */
  lemma RaisedMeansRejected(filename: string, dateRange: seq<string>)
    requires StartsWith(filename, ArchivePrefix)
    requires InDateRange(dateRange, DateToken(filename)).Raised?
    ensures !ShouldDownloadZip(filename, dateRange)
  {
    PrefixedNameHasDateField(filename);
  }

  /** With a two-element range of fixed-width digit dates, the decision is the
      numeric comparison of the dates. */
  lemma ShouldDownloadZipNumeric(filename: string, start: string, end: string)
    requires EndsWith(filename, ArchiveSuffix) && StartsWith(filename, ArchivePrefix)
    requires IsDigits(start) && IsDigits(end) && IsDigits(DateToken(filename))
    requires |start| == |end| == |DateToken(filename)|
    ensures ShouldDownloadZip(filename, [start, end]) <==>
      DigitsValue(start) <= DigitsValue(DateToken(filename)) <= DigitsValue(end)
  {
    ShouldDownloadZipIff(filename, [start, end]);
    LexLeIsNumericOnFixedWidth(start, DateToken(filename));
    LexLeIsNumericOnFixedWidth(DateToken(filename), end);
  }

  /** Some tag is a substring of the entry name. */
  ghost predicate MatchesAnyTag(entry: string, tags: seq<string>)
  {
    exists i :: 0 <= i < |tags| && Contains(entry, tags[i])
  }

  /** `should_extract_file(file_in_zip, file_types)`: the tags are tried in
      order and the first one that occurs in the name answers `true`. */
  method ShouldExtractFile(entry: string, tags: seq<string>) returns (r: bool)
    ensures r <==> MatchesAnyTag(entry, tags)
  {
    for i := 0 to |tags|
      invariant forall j :: 0 <= j < i ==> !Contains(entry, tags[j])
    {
      if Contains(entry, tags[i]) {
        return true;
      }
    }
    return false;
  }

  /** An empty tag list extracts nothing. */
  lemma NoTagsMatchNothing(entry: string)
    ensures !MatchesAnyTag(entry, [])
  {
  }

  /** Only which tags are listed matters: reordering or repeating them changes nothing. */
  lemma MatchesAnyTagDependsOnTagSet(entry: string, a: seq<string>, b: seq<string>)
    requires forall t :: t in a <==> t in b
    ensures MatchesAnyTag(entry, a) <==> MatchesAnyTag(entry, b)
  {
    if MatchesAnyTag(entry, a) {
      var i :| 0 <= i < |a| && Contains(entry, a[i]);
      assert a[i] in b;
      var j :| 0 <= j < |b| && b[j] == a[i];
    }
    if MatchesAnyTag(entry, b) {
      var j :| 0 <= j < |b| && Contains(entry, b[j]);
      assert b[j] in a;
      var i :| 0 <= i < |a| && a[i] == b[j];
    }
  }

  /** A permutation of the tag list gives the same answer. */
  lemma MatchesAnyTagPermutation(entry: string, a: seq<string>, b: seq<string>)
    requires multiset(a) == multiset(b)
    ensures MatchesAnyTag(entry, a) <==> MatchesAnyTag(entry, b)
  {
    forall t ensures t in a <==> t in b {
      assert t in a <==> t in multiset(a);
      assert t in b <==> t in multiset(b);
    }
    MatchesAnyTagDependsOnTagSet(entry, a, b);
  }

  /** The tag test is a substring test in the ordinary sense. */
  lemma MatchesAnyTagIff(entry: string, tags: seq<string>)
    ensures MatchesAnyTag(entry, tags) <==>
      exists i, k :: 0 <= i < |tags| && OccursAt(entry, tags[i], k)
  {
    forall i | 0 <= i < |tags| {
      ContainsIff(entry, tags[i]);
    }
  }

  /** Empty fields survive the split, as in Python: "cdr__x.zip" gives
      ["cdr", "", "x.zip"]. */
  lemma SplitKeepsEmptyFields(a: string, b: string)
    requires '_' !in a && '_' !in b
    ensures Split(a + "__" + b, '_') == [a, "", b]
  {
    assert a + "__" + b == a + ['_'] + ("" + ['_'] + b);
    SplitCons(a, '_', "" + ['_'] + b);
    SplitCons("", '_', b);
  }
}
