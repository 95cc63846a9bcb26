/**
 * The enumerator (`filter_files` and `filter_files_regex`): from the entries of
 * a directory listing, in listing order, keep the paths of the readable entries
 * whose type is a regular file and, with a pattern, whose name matches it.
 */
module Enumeration {
  import opened Wrappers
  import opened Paths
  import opened Filesystem

  /** One item of `read_dir`: an entry that could not be read, or an entry with
      its name and its type, the type being `None` when `file_type()` failed. */
  datatype ListedEntry = Unreadable | Entry(name: string, fileType: Option<Kind>)

  /** A compiled pattern. Its matching and replacement (with `$N`/`${N}` capture
      groups) belong to the regex library, so both are given as functions:
      `isMatch(text)` and `replace(text, template)`. */
  datatype Regex = Regex(isMatch: string -> bool, replace: (string, string) -> string)

  predicate IsFileEntry(e: ListedEntry)
  {
    e.Entry? && e.fileType == Some(RegularFile)
  }

  /** `filter_files`: the paths (`DirEntry::path`, the folder joined with the name)
      of the readable regular-file entries. */
  function FilterFiles(folder: string, listing: seq<ListedEntry>): (paths: seq<string>)
    ensures |paths| <= |listing|
  {
    if listing == [] then []
    else
      var rest := FilterFiles(folder, listing[1..]);
      var e := listing[0];
      if IsFileEntry(e) then [Join(folder, e.name)] + rest else rest
  }

  /** `filter_files_regex`: the same, also requiring that the name matches. */
  function FilterFilesRegex(folder: string, listing: seq<ListedEntry>, regex: Regex): (paths: seq<string>)
    ensures |paths| <= |listing|
  {
    if listing == [] then []
    else
      var rest := FilterFilesRegex(folder, listing[1..], regex);
      var e := listing[0];
      if IsFileEntry(e) && regex.isMatch(e.name) then [Join(folder, e.name)] + rest else rest
  }

  /** The entry at `i` is a regular file whose name the pattern accepts. */
  predicate Selected(listing: seq<ListedEntry>, i: int, regex: Regex)
    requires 0 <= i < |listing|
  {
    IsFileEntry(listing[i]) && regex.isMatch(listing[i].name)
  }

  /** A path is enumerated exactly when some readable regular-file entry whose
      name matches produced it. */
  lemma FilterFilesRegexMembers(folder: string, listing: seq<ListedEntry>, regex: Regex, p: string)
    ensures p in FilterFilesRegex(folder, listing, regex) <==>
            exists i :: 0 <= i < |listing| && Selected(listing, i, regex) && p == Join(folder, listing[i].name)
  {
    if p in FilterFilesRegex(folder, listing, regex) {
      EnumeratedHasEntry(folder, listing, regex, p);
    }
    if exists i :: 0 <= i < |listing| && Selected(listing, i, regex) && p == Join(folder, listing[i].name) {
      var i :| 0 <= i < |listing| && Selected(listing, i, regex) && p == Join(folder, listing[i].name);
      EntryIsEnumerated(folder, listing, regex, i);
    }
  }

  lemma {:induction false} EnumeratedHasEntry(folder: string, listing: seq<ListedEntry>, regex: Regex, p: string)
    requires p in FilterFilesRegex(folder, listing, regex)
    ensures exists i :: 0 <= i < |listing| && Selected(listing, i, regex) && p == Join(folder, listing[i].name)
  {
    var rest := FilterFilesRegex(folder, listing[1..], regex);
    if Selected(listing, 0, regex) && p == Join(folder, listing[0].name) {
    } else {
      assert p in rest;
      EnumeratedHasEntry(folder, listing[1..], regex, p);
      var i :| 0 <= i < |listing[1..]| && Selected(listing[1..], i, regex) && p == Join(folder, listing[1..][i].name);
      assert listing[i + 1] == listing[1..][i];
      assert Selected(listing, i + 1, regex);
    }
  }

  lemma {:induction false} EntryIsEnumerated(folder: string, listing: seq<ListedEntry>, regex: Regex, i: nat)
    requires i < |listing| && Selected(listing, i, regex)
    ensures Join(folder, listing[i].name) in FilterFilesRegex(folder, listing, regex)
  {
    if i > 0 {
      assert listing[1..][i - 1] == listing[i];
      EntryIsEnumerated(folder, listing[1..], regex, i - 1);
    }
  }

  /** Enumeration keeps listing order: the result for a listing read in two parts
      is the result for the first part followed by that for the second. */
  lemma {:induction false} FilterFilesRegexAppend(folder: string, a: seq<ListedEntry>, b: seq<ListedEntry>, regex: Regex)
    ensures FilterFilesRegex(folder, a + b, regex) == FilterFilesRegex(folder, a, regex) + FilterFilesRegex(folder, b, regex)
  {
    if a != [] {
      assert (a + b)[1..] == a[1..] + b;
      FilterFilesRegexAppend(folder, a[1..], b, regex);
    } else {
      assert a + b == b;
    }
  }

  /** `filter_files` is `filter_files_regex` with a pattern that matches every name. */
  lemma {:induction false} FilterFilesIsMatchAll(folder: string, listing: seq<ListedEntry>, regex: Regex)
    requires forall name :: regex.isMatch(name)
    ensures FilterFiles(folder, listing) == FilterFilesRegex(folder, listing, regex)
  {
    if listing != [] {
      FilterFilesIsMatchAll(folder, listing[1..], regex);
    }
  }

  /** Every enumerated path is an entry of the folder whose file name is the entry's name. */
  lemma {:induction false} FilterFilesRegexNames(folder: string, listing: seq<ListedEntry>, regex: Regex)
    requires forall i :: 0 <= i < |listing| && listing[i].Entry? ==> IsEntryName(listing[i].name)
    ensures forall p :: p in FilterFilesRegex(folder, listing, regex) ==>
              exists name :: IsEntryName(name) && regex.isMatch(name) && p == Join(folder, name) && FileName(p) == name
  {
    forall p | p in FilterFilesRegex(folder, listing, regex)
      ensures exists name :: IsEntryName(name) && regex.isMatch(name) && p == Join(folder, name) && FileName(p) == name
    {
      FilterFilesRegexMembers(folder, listing, regex, p);
      var i :| 0 <= i < |listing| && Selected(listing, i, regex) && p == Join(folder, listing[i].name);
      FileNameOfJoin(folder, listing[i].name);
    }
  }

  /** No two readable entries of a listing share a name (a directory holds each
      name once). */
  ghost predicate DistinctNames(listing: seq<ListedEntry>)
  {
    forall i, j :: 0 <= i < j < |listing| && listing[i].Entry? && listing[j].Entry? ==> listing[i].name != listing[j].name
  }

  /** Entries with distinct names give distinct paths, so no file is enumerated twice. */
  lemma {:induction false} FilterFilesRegexDistinct(folder: string, listing: seq<ListedEntry>, regex: Regex)
    requires forall i :: 0 <= i < |listing| && listing[i].Entry? ==> IsEntryName(listing[i].name)
    requires DistinctNames(listing)
    ensures forall i, j :: 0 <= i < j < |FilterFilesRegex(folder, listing, regex)| ==>
              FilterFilesRegex(folder, listing, regex)[i] != FilterFilesRegex(folder, listing, regex)[j]
  {
    if listing != [] {
      var tail := listing[1..];
      assert forall i :: 0 <= i < |tail| ==> tail[i] == listing[i + 1];
      FilterFilesRegexDistinct(folder, tail, regex);
      var rest := FilterFilesRegex(folder, tail, regex);
      assert forall i, j :: 0 <= i < j < |rest| ==> rest[i] != rest[j];
      var e := listing[0];
      if Selected(listing, 0, regex) {
        var h := Join(folder, e.name);
        FilterFilesRegexMembers(folder, tail, regex, h);
        forall k | 0 <= k < |tail| && Selected(tail, k, regex)
          ensures h != Join(folder, tail[k].name)
        {
          FileNameOfJoin(folder, e.name);
          FileNameOfJoin(folder, tail[k].name);
          assert tail[k].name != e.name;
        }
        assert h !in rest;
        assert FilterFilesRegex(folder, listing, regex) == [h] + rest;
        ConsDistinct(h, rest);
      }
    }
  }

  lemma ConsDistinct(h: string, rest: seq<string>)
    requires h !in rest
    requires forall i, j :: 0 <= i < j < |rest| ==> rest[i] != rest[j]
    ensures forall i, j :: 0 <= i < j < |[h] + rest| ==> ([h] + rest)[i] != ([h] + rest)[j]
  {
    var paths := [h] + rest;
    forall i, j | 0 <= i < j < |paths|
      ensures paths[i] != paths[j]
    {
      assert paths[j] == rest[j - 1];
      if i > 0 {
        assert paths[i] == rest[i - 1];
      }
    }
  }
}
