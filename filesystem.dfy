/** The part of the operating system's file system that linking and
    syncing touch: a map from path to what is there, and a set of paths on
    which every operation fails (missing permissions, a missing parent, an
    I/O error). Paths are the strings the program passes; relative and
    absolute spellings of one place are different keys. */
module FileSystems {

  import opened Wrappers
  import opened Text

  datatype Node = Link(target: string) | Directory | File

  /** Is `q` strictly inside directory `p`? */
  predicate Inside(q: string, p: string) { StartsWith(q, p + "/") }

  /** `os.Symlink(target, name)` can succeed: both names are given, nothing
      exists at `name`, and `name` is not a failing path. */
  predicate CanSymlink(nodes: map<string, Node>, faulty: set<string>, target: string, name: string) {
    target != "" && name != "" && name !in nodes && name !in faulty
  }

  /** `os.Remove(name)` can succeed: something is there, it is not a
      directory with entries, and `name` is not a failing path. */
  predicate CanRemove(nodes: map<string, Node>, faulty: set<string>, name: string) {
    name in nodes && name !in faulty &&
    (nodes[name] == Directory ==> forall q :: q in nodes ==> !Inside(q, name))
  }

  /** The paths `os.RemoveAll(name)` deletes. */
  predicate InTree(q: string, name: string) { q == name || Inside(q, name) }

  /** `os.RemoveAll(name)` succeeds unless some path of the subtree fails;
      a missing path is no error. */
  predicate CanRemoveAll(nodes: map<string, Node>, faulty: set<string>, name: string) {
    forall q :: q in faulty && InTree(q, name) ==> q !in nodes && q != name
  }

  function WithoutTree(nodes: map<string, Node>, name: string): (r: map<string, Node>)
    ensures forall q :: q in r <==> q in nodes && !InTree(q, name)
    ensures forall q :: q in r ==> r[q] == nodes[q]
  {
    map q | q in nodes && !InTree(q, name) :: nodes[q]
  }

  class FileSystem {
    var nodes: map<string, Node>
    const faulty: set<string>

    constructor (nodes: map<string, Node>, faulty: set<string>)
      ensures this.nodes == nodes && this.faulty == faulty
    {
      this.nodes := nodes;
      this.faulty := faulty;
    }

    /** `os.Symlink(target, name)`: a link at `name` pointing at `target`. */
    method Symlink(target: string, name: string) returns (ok: bool)
      modifies this
      ensures ok == CanSymlink(old(nodes), faulty, target, name)
      ensures nodes == if ok then old(nodes)[name := Link(target)] else old(nodes)
    {
      ok := CanSymlink(nodes, faulty, target, name);
      if ok {
        nodes := nodes[name := Link(target)];
      }
    }

    /** `os.Remove(name)`. */
    method Remove(name: string) returns (ok: bool)
      modifies this
      ensures ok == CanRemove(old(nodes), faulty, name)
      ensures nodes == if ok then old(nodes) - {name} else old(nodes)
    {
      ok := CanRemove(nodes, faulty, name);
      if ok {
        nodes := nodes - {name};
      }
    }

    /** `os.RemoveAll(name)`: everything at and below `name`. A failure is
        modelled as removing nothing. */
    method RemoveAll(name: string) returns (ok: bool)
      modifies this
      ensures ok == CanRemoveAll(old(nodes), faulty, name)
      ensures nodes == if ok then WithoutTree(old(nodes), name) else old(nodes)
    {
      ok := CanRemoveAll(nodes, faulty, name);
      if ok {
        nodes := WithoutTree(nodes, name);
      }
    }

    /** `os.MkdirAll(name)`: fine when the directory is already there; a
        failing path or a non-directory in the way is an error. Parent
        directories are not modelled. */
    method MkdirAll(name: string) returns (ok: bool)
      modifies this
      ensures ok <==> name !in faulty && (name in old(nodes) ==> old(nodes)[name] == Directory)
      ensures nodes == if ok then old(nodes)[name := Directory] else old(nodes)
    {
      ok := name !in faulty && (name in nodes ==> nodes[name] == Directory);
      if ok {
        nodes := nodes[name := Directory];
      }
    }
  }
}
