/**
 * Path strings, as Rust's `std::path::Path` treats the paths this tool
 * builds: `join`/`push` (used by `DirEntry::path` and `set_file_name`),
 * `file_name`, `parent` and `extension`. Only `/` is a separator.
 */
module Paths {
  import opened Wrappers

  /** Position of the last occurrence of `c` in `s`, if any. */
  function LastIndexOf(s: string, c: char): (r: Option<nat>)
    ensures r.None? <==> c !in s
    ensures r.Some? ==> r.value < |s| && s[r.value] == c && c !in s[r.value + 1..]
  {
    if s == [] then None
    else if s[|s| - 1] == c then Some(|s| - 1)
    else
      var r := LastIndexOf(s[..|s| - 1], c);
      assert s == s[..|s| - 1] + [s[|s| - 1]];
      r
  }

  lemma {:induction false} LastIndexOfAfter(a: string, c: char, b: string)
    requires c !in b
    ensures LastIndexOf(a + [c] + b, c) == Some(|a|)
  {
    var s := a + [c] + b;
    assert s[|a|] == c;
    assert forall j :: |a| < j < |s| ==> s[j] == b[j - |a| - 1];
  }

  /** Text without `c` appended after `a` does not move the last `c`. */
  lemma {:induction false} LastIndexOfBefore(a: string, b: string, c: char)
    requires c !in b
    ensures LastIndexOf(a + b, c) == LastIndexOf(a, c)
    decreases |b|
  {
    if b == [] {
      assert a + b == a;
    } else {
      var init := b[..|b| - 1];
      assert (a + b)[..|a + b| - 1] == a + init;
      LastIndexOfBefore(a, init, c);
    }
  }

  /** A single path component as a directory listing yields it: not empty, no separator,
      and neither `.` nor `..` (Rust's `read_dir` never returns those two). */
  predicate IsEntryName(name: string)
  {
    name != [] && '/' !in name && name != "." && name != ".."
  }

  /** A directory path written without a trailing separator. */
  predicate IsPlainFolder(folder: string)
  {
    folder != [] && folder[|folder| - 1] != '/'
  }

  /** `PathBuf::push`/`Path::join`: an absolute `name` replaces the path; otherwise a `/`
      is inserted unless the path is empty or already ends in one. */
  function Join(dir: string, name: string): (p: string)
    ensures name != [] && name[0] == '/' ==> p == name
    ensures IsPlainFolder(dir) && (name == [] || name[0] != '/') ==> p == dir + "/" + name
    ensures |p| >= |name| && p[|p| - |name|..] == name
  {
    if name != [] && name[0] == '/' then name
    else if dir == [] || dir[|dir| - 1] == '/' then dir + name
    else dir + "/" + name
  }

  /** The last component of a path whose last component is a plain name
      (`Path::file_name` on the paths a directory listing produces). */
  function FileName(p: string): (n: string)
    ensures '/' !in n
    ensures |n| <= |p| && p[|p| - |n|..] == n
    ensures '/' !in p ==> n == p
    ensures '/' in p ==> |n| < |p| && p[|p| - |n| - 1] == '/'
  {
    match LastIndexOf(p, '/')
    case None => p
    case Some(i) => p[i + 1..]
  }

  /** `Path::parent` for such a path: everything before the last separator,
      `/` for a top-level entry, and the empty path for a bare name. */
  function Parent(p: string): (d: string)
    ensures |d| <= |p|
    ensures '/' !in p ==> d == []
    ensures '/' in p ==>
      || (p[0] == '/' && '/' !in p[1..] && d == "/")
      || (0 < |d| < |p| && p[..|d|] == d && p[|d|] == '/' && '/' !in p[|d| + 1..])
  {
    match LastIndexOf(p, '/')
    case None => []
    case Some(i) => if i == 0 then "/" else p[..i]
  }

  /** `PathBuf::set_file_name`: drop the last component and push the new name. */
  function SetFileName(p: string, name: string): (q: string)
    ensures |q| >= |name| && q[|q| - |name|..] == name
    ensures name != [] && name[0] == '/' ==> q == name
  {
    Join(Parent(p), name)
  }

  /** `Path::extension` of a file name: the text after the last `.`, absent when
      there is no `.`, when the only `.` that could split is the first character,
      or for `..`. An empty extension (`"a."`) is present. */
  function Extension(name: string): (e: Option<string>)
    ensures e.Some? <==> name != ".." && exists i :: 0 < i < |name| && name[i] == '.'
    ensures e.Some? ==> '.' !in e.value && |e.value| < |name|
                        && name[|name| - |e.value| - 1] == '.'
                        && name[|name| - |e.value|..] == e.value
  {
    if name == ".." then None
    else match LastIndexOf(name, '.')
      case None => None
      case Some(i) =>
        if i == 0 then
          assert forall j :: 0 < j < |name| ==> name[j] != '.' by {
            forall j | 0 < j < |name| ensures name[j] != '.' {
              assert name[j] == name[1..][j - 1];
            }
          }
          None
        else Some(name[i + 1..])
  }

  /** A name ending in a dot and dot-free text, whose stem does not end in a
      dot, has that text as its extension. */
  lemma ExtensionAfterDot(k: string, e: string)
    requires |k| > 0 && k[|k| - 1] != '.' && '.' !in e
    ensures Extension(k + ['.'] + e) == Some(e)
  {
    var n := k + ['.'] + e;
    LastIndexOfAfter(k, '.', e);
    assert n[|k| - 1] != '.';
    assert n[|k| + 1..] == e;
  }

  lemma {:induction false} FileNameOfJoin(dir: string, name: string)
    requires IsEntryName(name)
    ensures FileName(Join(dir, name)) == name
  {
    if dir == [] || dir[|dir| - 1] == '/' {
      if dir == [] {
        assert Join(dir, name) == name;
      } else {
        var d := dir[..|dir| - 1];
        assert Join(dir, name) == d + ['/'] + name;
        LastIndexOfAfter(d, '/', name);
      }
    } else {
      assert Join(dir, name) == dir + ['/'] + name;
      LastIndexOfAfter(dir, '/', name);
    }
  }

  lemma {:induction false} ParentOfJoin(folder: string, name: string)
    requires IsPlainFolder(folder) && IsEntryName(name)
    ensures Parent(Join(folder, name)) == folder
  {
    assert Join(folder, name) == folder + ['/'] + name;
    LastIndexOfAfter(folder, '/', name);
  }

  /** Replacing the file name of an entry path keeps it in the same folder: the
      result is the folder joined with the new name. */
  lemma {:induction false} SetFileNameOfJoin(folder: string, name: string, newName: string)
    requires IsPlainFolder(folder) && IsEntryName(name)
    ensures SetFileName(Join(folder, name), newName) == Join(folder, newName)
  {
    ParentOfJoin(folder, name);
  }

  /** A tail without separators stays part of the last component. */
  lemma FileNameWithTail(h: string, t: string)
    requires '/' in h && '/' !in t
    ensures FileName(h + t) == FileName(h) + t
  {
    LastIndexOfBefore(h, t, '/');
    var i := LastIndexOf(h, '/').value;
    assert (h + t)[i + 1..] == h[i + 1..] + t;
  }
}
