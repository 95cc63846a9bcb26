/**
 * The two naming schemes and the plan-time collision guard: every enumerated
 * path gets a destination, and the plan keeps, in order, the pairs whose
 * destination does not exist yet.
 */
module Planning {
  import opened Wrappers
  import opened Paths
  import opened Numbering
  import opened Filesystem
  import opened Enumeration

  /** One rename to perform (`RenameFile`). */
  datatype RenamePlan = RenamePlan(originalPath: string, newPath: string)

  /** The `{ext}` field: a dot and the extension of the original file name, or
      nothing when it has no extension. */
  function ExtSuffix(path: string): (ext: string)
    ensures IsExtSuffix(ext)
  {
    match Extension(FileName(path))
    case Some(e) => "." + e
    case None => ""
  }

  /** The destination `{folder}/{prefix}_{number:0>NUM}{ext}` of the file at `path`
      when it receives the counter value `number`. */
  function SequentialDestination(folder: string, prefix: string, padding: nat, number: nat, path: string)
    : (dest: string)
    ensures |dest| >= |folder| + 1 + |prefix| + 1 + padding
    ensures dest[..|folder| + 1] == folder + "/"
  {
    folder + "/" + SequentialName(prefix, padding, number, ExtSuffix(path))
  }

  /** The sequential scheme as a naming function of the counter value and the path. */
  function Sequential(folder: string, prefix: string, padding: nat): (nat, string) -> string
  {
    (number: nat, path: string) => SequentialDestination(folder, prefix, padding, number, path)
  }

  /** The mapping closure of the sequential scheme, before the collision filter:
      the counter starts at `count` and goes up by one for every path, in order,
      and `name` turns the counter value and the path into a destination. */
  function NumberedCandidates(count: nat, files: seq<string>, name: (nat, string) -> string)
    : (plans: seq<RenamePlan>)
    ensures |plans| == |files|
    decreases |files|
  {
    if files == [] then []
    else [RenamePlan(files[0], name(count, files[0]))] + NumberedCandidates(count + 1, files[1..], name)
  }

  /** The pattern scheme: each path keeps its folder and gets
      `regex.replace(file_name, template)` as its file name. */
  function PatternDestination(path: string, regex: Regex, template: string): (dest: string)
    ensures var renamed := regex.replace(FileName(path), template);
            |dest| >= |renamed| && dest[|dest| - |renamed|..] == renamed
  {
    SetFileName(path, regex.replace(FileName(path), template))
  }

  /** The pattern scheme as a naming function of the path. */
  function Pattern(regex: Regex, template: string): string -> string
  {
    (path: string) => PatternDestination(path, regex, template)
  }

  /** The mapping closure of `rename_regex`, before the collision filter: every
      path is named on its own, without a counter. */
  function MappedCandidates(files: seq<string>, name: string -> string): (plans: seq<RenamePlan>)
    ensures |plans| == |files|
  {
    if files == [] then []
    else [RenamePlan(files[0], name(files[0]))] + MappedCandidates(files[1..], name)
  }

  /** The plan-time collision guard: drop every pair whose destination exists. */
  function KeepAbsent(plans: seq<RenamePlan>, nodes: map<string, Kind>): (kept: seq<RenamePlan>)
    ensures |kept| <= |plans|
    ensures forall i :: 0 <= i < |kept| ==> kept[i].newPath !in nodes
  {
    if plans == [] then []
    else if plans[0].newPath in nodes then KeepAbsent(plans[1..], nodes)
    else [plans[0]] + KeepAbsent(plans[1..], nodes)
  }

  /** A candidate is in the plan exactly when its destination does not exist. */
  lemma {:induction false} KeepAbsentMembers(plans: seq<RenamePlan>, nodes: map<string, Kind>, p: RenamePlan)
    ensures p in KeepAbsent(plans, nodes) <==> p in plans && p.newPath !in nodes
  {
    if plans != [] {
      KeepAbsentMembers(plans[1..], nodes, p);
      assert p in plans <==> p == plans[0] || p in plans[1..];
    }
  }

  /** The guard keeps order: filtering a plan read in two parts gives the
      filtered first part followed by the filtered second part. */
  lemma {:induction false} KeepAbsentAppend(a: seq<RenamePlan>, b: seq<RenamePlan>, nodes: map<string, Kind>)
    ensures KeepAbsent(a + b, nodes) == KeepAbsent(a, nodes) + KeepAbsent(b, nodes)
  {
    if a == [] {
      assert a + b == b;
    } else {
      assert (a + b)[1..] == a[1..] + b;
      KeepAbsentAppend(a[1..], b, nodes);
    }
  }

  /** When no destination exists the plan is every candidate, in order. */
  lemma {:induction false} KeepAbsentAllFree(plans: seq<RenamePlan>, nodes: map<string, Kind>)
    requires forall i :: 0 <= i < |plans| ==> plans[i].newPath !in nodes
    ensures KeepAbsent(plans, nodes) == plans
  {
    if plans != [] {
      KeepAbsentAllFree(plans[1..], nodes);
    }
  }

  /** The i-th enumerated file (counting from 0) is given the counter `count + i`,
      whether or not the guard later drops it. */
  lemma {:induction false} CandidateAt(count: nat, files: seq<string>, name: (nat, string) -> string, i: nat)
    requires i < |files|
    ensures NumberedCandidates(count, files, name)[i] == RenamePlan(files[i], name(count + i, files[i]))
    decreases |files|
  {
    if i > 0 {
      CandidateAt(count + 1, files[1..], name, i - 1);
    }
  }

  lemma {:induction false} CandidatesSnoc(count: nat, files: seq<string>, f: string, name: (nat, string) -> string)
    ensures NumberedCandidates(count, files + [f], name)
            == NumberedCandidates(count, files, name) + [RenamePlan(f, name(count + |files|, f))]
    decreases |files|
  {
    if files == [] {
      assert files + [f] == [f];
    } else {
      assert (files + [f])[1..] == files[1..] + [f];
      CandidatesSnoc(count + 1, files[1..], f, name);
    }
  }

  lemma {:induction false} MappedCandidatesSnoc(files: seq<string>, f: string, name: string -> string)
    ensures MappedCandidates(files + [f], name) == MappedCandidates(files, name) + [RenamePlan(f, name(f))]
  {
    if files == [] {
      assert files + [f] == [f];
    } else {
      assert (files + [f])[1..] == files[1..] + [f];
      MappedCandidatesSnoc(files[1..], f, name);
    }
  }

  /** Each path is paired with its own destination. */
  lemma {:induction false} MappedCandidateAt(files: seq<string>, name: string -> string, i: nat)
    requires i < |files|
    ensures MappedCandidates(files, name)[i] == RenamePlan(files[i], name(files[i]))
  {
    if i > 0 {
      MappedCandidateAt(files[1..], name, i - 1);
    }
  }

  /** The shape of a sequential destination: the folder, a `/`, the prefix, `_`,
      a field of `max(padding, digits)` decimal digits that reads back as the
      counter, and the extension suffix of the original file. */
  lemma SequentialDestinationShape(folder: string, prefix: string, padding: nat, number: nat, path: string)
    ensures var digits := PadLeft(Decimal(number), padding);
            && SequentialDestination(folder, prefix, padding, number, path)
               == folder + "/" + (prefix + "_" + digits + ExtSuffix(path))
            && AllDigits(digits) && ValueOf(digits) == number
            && |digits| == (if |Decimal(number)| >= padding then |Decimal(number)| else padding)
  {
    PaddedValue(number, padding);
  }

  /** The `{ext}` field of an entry path comes from the entry's own name: a dot
      and its extension, or nothing when it has none. */
  lemma ExtSuffixOfEntry(folder: string, name: string)
    requires IsEntryName(name)
    ensures ExtSuffix(Join(folder, name)) == if Extension(name).Some? then "." + Extension(name).value else ""
  {
    FileNameOfJoin(folder, name);
  }

  /** The extension carries over: the destination's file name has the same
      `Path::extension` as the original entry, whatever the prefix holds. */
  lemma ExtensionPreserved(folder: string, name: string, prefix: string, padding: nat, number: nat)
    requires IsEntryName(name)
    requires Extension(name).Some?
    ensures Extension(FileName(SequentialDestination(folder, prefix, padding, number, Join(folder, name))))
            == Extension(name)
  {
    ExtSuffixOfEntry(folder, name);
    ExtensionHasNoSeparator(name);
    DestinationSplit(folder, prefix, padding, number, Join(folder, name));
    PaddedDigits(number, padding);
    ExtensionAfterDigits(folder + "/" + prefix, PadLeft(Decimal(number), padding), Extension(name).value);
  }

  lemma ExtensionHasNoSeparator(name: string)
    requires '/' !in name && Extension(name).Some?
    ensures '/' !in Extension(name).value
  {
    var e := Extension(name).value;
    assert forall j :: 0 <= j < |e| ==> e[j] == name[|name| - |e| + j];
  }

  /** The destination, regrouped as the folder and prefix followed by the part
      the counter and the extension contribute. */
  lemma DestinationSplit(folder: string, prefix: string, padding: nat, number: nat, path: string)
    ensures SequentialDestination(folder, prefix, padding, number, path)
            == (folder + "/" + prefix) + ("_" + PadLeft(Decimal(number), padding) + ExtSuffix(path))
  {
    var d := PadLeft(Decimal(number), padding);
    var x := ExtSuffix(path);
    assert SequentialName(prefix, padding, number, x) == prefix + "_" + d + x;
    ConcatRegroup(folder + "/", prefix, "_", d, x);
  }

  lemma ConcatRegroup(f: string, p: string, u: string, d: string, x: string)
    ensures f + (p + u + d + x) == (f + p) + (u + d + x)
  {
  }

  lemma NoSeparatorAroundDigits(prefix: string, d: string, ext: string)
    requires AllDigits(d) && '/' !in prefix && '/' !in ext
    ensures '/' !in prefix + "_" + d + ext
  {
    var s := prefix + "_" + d + ext;
    forall k | 0 <= k < |s|
      ensures s[k] != '/'
    {
      if k < |prefix| {
        assert s[k] == prefix[k];
      } else if k == |prefix| {
        assert s[k] == '_';
      } else if k < |prefix| + 1 + |d| {
        assert s[k] == d[k - |prefix| - 1];
      } else {
        assert s[k] == ext[k - |prefix| - 1 - |d|];
      }
    }
  }

  /** After a head holding a separator, `_`, digits, a dot and a dot-free
      extension end the last component, which then has that extension. */
  lemma ExtensionAfterDigits(h: string, d: string, e: string)
    requires '/' in h && AllDigits(d) && '.' !in e && '/' !in e
    ensures Extension(FileName(h + ("_" + d + ("." + e)))) == Some(e)
  {
    var t := "_" + d + ("." + e);
    NoSeparatorAroundDigits([], d, "." + e);
    assert [] + "_" + d + ("." + e) == t;
    FileNameWithTail(h, t);
    ExtensionOfDigitsTail(FileName(h), d, e);
  }

  lemma ExtensionOfDigitsTail(f: string, d: string, e: string)
    requires AllDigits(d) && '.' !in e
    ensures Extension(f + ("_" + d + ("." + e))) == Some(e)
  {
    var k := f + "_" + d;
    assert f + ("_" + d + ("." + e)) == k + ['.'] + e;
    assert k[|k| - 1] != '.' by {
      if d != [] {
        assert k[|k| - 1] == d[|d| - 1];
      }
    }
    ExtensionAfterDot(k, e);
  }

  lemma PaddedDigits(number: nat, padding: nat)
    ensures AllDigits(PadLeft(Decimal(number), padding))
  {
    var s := Decimal(number);
    var r := PadLeft(s, padding);
    forall i | 0 <= i < |r|
      ensures IsDigit(r[i])
    {
      if i >= |r| - |s| {
        assert r[i] == r[|r| - |s|..][i - (|r| - |s|)];
      }
    }
  }

  lemma NoDotAroundDigits(prefix: string, d: string)
    requires AllDigits(d)
    requires forall i :: 0 < i < |prefix| ==> prefix[i] != '.'
    ensures forall i :: 0 < i < |prefix + "_" + d| ==> (prefix + "_" + d)[i] != '.'
  {
    var s := prefix + "_" + d;
    forall k | 0 < k < |s|
      ensures s[k] != '.'
    {
      if k < |prefix| {
        assert s[k] == prefix[k];
      } else if k == |prefix| {
        assert s[k] == '_';
      } else {
        assert s[k] == d[k - |prefix| - 1];
      }
    }
  }

  /** A name without an extension gives a destination without one, as long as the
      prefix has no dot after its first character. */
  lemma ExtensionStaysAbsent(folder: string, name: string, prefix: string, padding: nat, number: nat)
    requires IsEntryName(name)
    requires Extension(name).None?
    requires forall i :: 0 < i < |prefix| ==> prefix[i] != '.'
    ensures Extension(FileName(SequentialDestination(folder, prefix, padding, number, Join(folder, name)))).None?
  {
    ExtSuffixOfEntry(folder, name);
    DestinationSplit(folder, prefix, padding, number, Join(folder, name));
    var d := PadLeft(Decimal(number), padding);
    PaddedDigits(number, padding);
    assert "_" + d + "" == "_" + d;
    NoExtensionAfterDigits(folder, prefix, d);
  }

  /** Under a folder, a prefix with no dot after its first character followed by
      `_` and digits leaves a last component without an extension. */
  lemma NoExtensionAfterDigits(folder: string, prefix: string, d: string)
    requires AllDigits(d)
    requires forall i :: 0 < i < |prefix| ==> prefix[i] != '.'
    ensures Extension(FileName((folder + "/" + prefix) + ("_" + d))).None?
  {
    var h := folder + "/" + prefix;
    NoSeparatorAroundDigits([], d, []);
    assert [] + "_" + d + [] == "_" + d;
    assert h[|folder|] == '/';
    FileNameWithTail(h, "_" + d);
    var f := FileName(h);
    SuffixAfterSeparator(h, f, |folder|);
    forall i | 0 < i < |f|
      ensures f[i] != '.'
    {
      assert f[i] == h[|h| - |f| + i];
    }
    NoExtensionOfDigitsTail(f, d);
  }

  /** A separator-free suffix starts after every separator. */
  lemma SuffixAfterSeparator(s: string, f: string, i: nat)
    requires |f| <= |s| && s[|s| - |f|..] == f && '/' !in f
    requires i < |s| && s[i] == '/'
    ensures |s| - |f| > i
  {
    assert forall j :: |s| - |f| <= j < |s| ==> s[j] == f[j - (|s| - |f|)];
  }

  lemma NoExtensionOfDigitsTail(f: string, d: string)
    requires AllDigits(d)
    requires forall i :: 0 < i < |f| ==> f[i] != '.'
    ensures Extension(f + ("_" + d)).None?
  {
    NoDotAroundDigits(f, d);
    var n := f + "_" + d;
    assert f + ("_" + d) == n;
    assert |n| != 2 || n[1] != '.';
  }

  /** A prefix with a dot gives a name without an extension one: the program
      names `README` under prefix `a.b` as `a.b_0`, whose extension is `b_0`. */
  lemma DottedPrefixGainsExtension()
    ensures Extension("README").None?
    ensures SequentialName("a.b", 0, 0, "") == "a.b_0"
    ensures Extension(SequentialName("a.b", 0, 0, "")) == Some("b_0")
  {
    assert Decimal(0) == "0";
    assert PadLeft("0", 0) == "0";
    var n := SequentialName("a.b", 0, 0, "");
    assert n == "a.b_0";
    assert n == "a" + ['.'] + "b_0";
    LastIndexOfAfter("a", '.', "b_0");
    assert n[2..] == "b_0";
    assert forall j :: 0 < j < |"README"| ==> "README"[j] != '.';
  }

  /** Two sequential destinations in one folder with different counters differ. */
  lemma SequentialDestinationsDiffer(folder: string, prefix: string, padding: nat, n: nat, m: nat, p1: string, p2: string)
    requires n != m
    ensures SequentialDestination(folder, prefix, padding, n, p1) != SequentialDestination(folder, prefix, padding, m, p2)
  {
    var e1, e2 := ExtSuffix(p1), ExtSuffix(p2);
    var n1, n2 := SequentialName(prefix, padding, n, e1), SequentialName(prefix, padding, m, e2);
    if folder + "/" + n1 == folder + "/" + n2 {
      SameHeadCancel(folder + "/", n1, n2);
      SequentialNameInjective(prefix, padding, n, m, e1, e2);
    }
  }

  lemma SameHeadCancel(h: string, a: string, b: string)
    requires h + a == h + b
    ensures a == b
  {
    assert a == (h + a)[|h|..];
    assert b == (h + b)[|h|..];
  }

  /** A naming function that never gives the same destination to two different
      counter values. */
  ghost predicate CounterInjective(name: (nat, string) -> string)
  {
    forall n: nat, m: nat, p: string, q: string :: n != m ==> name(n, p) != name(m, q)
  }

  /** The sequential scheme is such a function. */
  lemma SequentialCounterInjective(folder: string, prefix: string, padding: nat)
    ensures CounterInjective(Sequential(folder, prefix, padding))
  {
    forall n: nat, m: nat, p: string, q: string | n != m
      ensures Sequential(folder, prefix, padding)(n, p) != Sequential(folder, prefix, padding)(m, q)
    {
      SequentialDestinationsDiffer(folder, prefix, padding, n, m, p, q);
    }
  }

  /** Within one batch, a counter-injective scheme gives pairwise different
      destinations, because every file consumes its own counter value. */
  lemma NumberedDestinationsDistinct(origin: nat, files: seq<string>, name: (nat, string) -> string, i: nat, j: nat)
    requires CounterInjective(name)
    requires i < j < |files|
    ensures NumberedCandidates(origin, files, name)[i].newPath != NumberedCandidates(origin, files, name)[j].newPath
  {
    CandidateAt(origin, files, name, i);
    CandidateAt(origin, files, name, j);
  }

  /** A file that already carries the name it would be given is not renamed onto
      itself: its own path exists, so the guard drops it. */
  lemma SelfNamedFileSkipped(nodes: map<string, Kind>, origin: nat, files: seq<string>,
                             name: (nat, string) -> string, i: nat)
    requires i < |files| && files[i] in nodes
    requires name(origin + i, files[i]) == files[i]
    ensures NumberedCandidates(origin, files, name)[i] !in KeepAbsent(NumberedCandidates(origin, files, name), nodes)
  {
    var plans := NumberedCandidates(origin, files, name);
    CandidateAt(origin, files, name, i);
    KeepAbsentMembers(plans, nodes, plans[i]);
  }

  /** The pattern scheme keeps the folder: the destination of an entry is the
      folder joined with the replaced name, and when that name is a plain entry
      name its parent is the folder and its file name is the replacement. */
  lemma PatternDestinationInFolder(folder: string, name: string, regex: Regex, template: string)
    requires IsPlainFolder(folder) && IsEntryName(name)
    ensures PatternDestination(Join(folder, name), regex, template) == Join(folder, regex.replace(name, template))
    ensures IsEntryName(regex.replace(name, template)) ==>
              Parent(PatternDestination(Join(folder, name), regex, template)) == folder
              && FileName(PatternDestination(Join(folder, name), regex, template)) == regex.replace(name, template)
  {
    FileNameOfJoin(folder, name);
    SetFileNameOfJoin(folder, name, regex.replace(name, template));
    if IsEntryName(regex.replace(name, template)) {
      ParentOfJoin(folder, regex.replace(name, template));
      FileNameOfJoin(folder, regex.replace(name, template));
    }
  }

  /** The mapping and guard of `rename_normal` (and of `run` in the binary): the
      counter starts at `origin` and is consumed by every file in turn, `name`
      turns the counter value and the path into a destination, and pairs whose
      destination exists are dropped. */
  method PlanNumbered(fs: FileSystem, origin: nat, files: seq<string>, name: (nat, string) -> string)
    returns (plans: seq<RenamePlan>)
    ensures plans == KeepAbsent(NumberedCandidates(origin, files, name), fs.nodes)
  {
    var count := origin;
    plans := [];
    for i := 0 to |files|
      invariant count == origin + i
      invariant plans == KeepAbsent(NumberedCandidates(origin, files[..i], name), fs.nodes)
    {
      var newPath := name(count, files[i]);
      count := count + 1;
      var taken := fs.Exists(newPath);
      if !taken {
        plans := plans + [RenamePlan(files[i], newPath)];
      }
      assert files[..i + 1] == files[..i] + [files[i]];
      CandidatesSnoc(origin, files[..i], files[i], name);
      KeepAbsentAppend(NumberedCandidates(origin, files[..i], name), [RenamePlan(files[i], newPath)], fs.nodes);
    }
    assert files[..|files|] == files;
  }

  /** The mapping and guard of `rename_regex`: every path is named by `name`, and
      pairs whose destination exists are dropped. */
  method PlanMapped(fs: FileSystem, files: seq<string>, name: string -> string)
    returns (plans: seq<RenamePlan>)
    ensures plans == KeepAbsent(MappedCandidates(files, name), fs.nodes)
  {
    plans := [];
    for i := 0 to |files|
      invariant plans == KeepAbsent(MappedCandidates(files[..i], name), fs.nodes)
    {
      var newPath := name(files[i]);
      var taken := fs.Exists(newPath);
      if !taken {
        plans := plans + [RenamePlan(files[i], newPath)];
      }
      assert files[..i + 1] == files[..i] + [files[i]];
      MappedCandidatesSnoc(files[..i], files[i], name);
      KeepAbsentAppend(MappedCandidates(files[..i], name), [RenamePlan(files[i], newPath)], fs.nodes);
    }
    assert files[..|files|] == files;
  }
}
