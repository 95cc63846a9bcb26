/**
 * The part of the filesystem the tool touches: the set of existing paths and
 * the kind of each, with the queries `Path::exists` and `Path::is_dir` and the
 * mutation `fs::rename`.
 */
module Filesystem {
  import opened Wrappers

  datatype Kind = RegularFile | Directory | Symlink

  /** Why `fs::rename` returned an error: the source has gone, or the operating
      system refused (permissions, another device, a missing parent, ...). */
  datatype IoError = NotFound | Refused

  /** `fs::rename(src, dst)` on a POSIX system: the source must exist; unless the
      system refuses, the entry leaves `src` and appears at `dst`, replacing
      whatever was there. Which renames the system refuses is not visible in the
      program, so it is the parameter `refuses`. */
  function RenameEffect(nodes: map<string, Kind>, src: string, dst: string,
                        refuses: (string, string) -> bool): (r: Result<map<string, Kind>, IoError>)
    ensures r.Failure? <==> src !in nodes || refuses(src, dst)
    ensures r.Success? ==> dst in r.value && r.value[dst] == nodes[src]
    ensures r.Success? ==> r.value.Keys == (nodes.Keys - {src}) + {dst}
    ensures r.Success? ==> forall p :: p in nodes && p != src && p != dst ==> r.value[p] == nodes[p]
  {
    if src !in nodes then Failure(NotFound)
    else if refuses(src, dst) then Failure(Refused)
    else Success((nodes - {src})[dst := nodes[src]])
  }

  /** A rename onto a free path neither loses nor creates an entry. */
  lemma RenameKeepsCount(nodes: map<string, Kind>, src: string, dst: string,
                         refuses: (string, string) -> bool)
    requires dst !in nodes
    requires RenameEffect(nodes, src, dst, refuses).Success?
    ensures |RenameEffect(nodes, src, dst, refuses).value| == |nodes|
  {
    var after := RenameEffect(nodes, src, dst, refuses).value;
    assert after.Keys == (nodes.Keys - {src}) + {dst};
    assert |nodes.Keys - {src}| == |nodes.Keys| - 1;
    assert |after.Keys| == |nodes.Keys - {src}| + 1;
  }

  class FileSystem {
    /** Every existing path and its kind. */
    var nodes: map<string, Kind>

    constructor (initial: map<string, Kind>)
      ensures nodes == initial
    {
      nodes := initial;
    }

    /** `Path::exists`. */
    method Exists(path: string) returns (b: bool)
      ensures b <==> path in nodes
    {
      b := path in nodes;
    }

    /** `Path::is_dir`. */
    method IsDir(path: string) returns (b: bool)
      ensures b <==> path in nodes && nodes[path] == Directory
    {
      b := path in nodes && nodes[path] == Directory;
    }

    /** `fs::rename`. */
    method Rename(src: string, dst: string, refuses: (string, string) -> bool)
      returns (r: Result<(), IoError>)
      modifies this
      ensures r.Failure? <==> RenameEffect(old(nodes), src, dst, refuses).Failure?
      ensures r.Failure? ==> r.error == RenameEffect(old(nodes), src, dst, refuses).error
                             && nodes == old(nodes)
      ensures r.Success? ==> nodes == RenameEffect(old(nodes), src, dst, refuses).value
    {
      var e := RenameEffect(nodes, src, dst, refuses);
      if e.Success? {
        nodes := e.value;
        r := Success(());
      } else {
        r := Failure(e.error);
      }
    }
  }
}
