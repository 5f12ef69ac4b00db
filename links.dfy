/** The filesystem aliases of the consumer-facing ptys and their scope guard. */
module Links {
  import opened Types

  /** The filesystem, reduced to the symbolic links it holds: link path to target. */
  class FileSystem {
    var links: map<Path, Path>

    constructor (links: map<Path, Path>)
      ensures this.links == links
    {
      this.links := links;
    }

    /** Removes the entry at `p`; reports whether there was one. */
    method RemoveFile(p: Path) returns (ok: bool)
      modifies this
      ensures ok == (p in old(links))
      ensures links == old(links) - {p}
    {
      ok := p in links;
      links := links - {p};
    }

    /** Creates the link `to -> from`; it fails when `to` exists or the OS refuses (`fails`). */
    method Symlink(from: Path, to: Path, fails: bool) returns (ok: bool)
      modifies this
      ensures ok == (!fails && to !in old(links))
      ensures links == if ok then old(links)[to := from] else old(links)
    {
      ok := !fails && to !in links;
      if ok {
        links := links[to := from];
      }
    }
  }

  /**
   * The links after creating the alias `to -> from`: any old entry at `to`
   * is gone, and the link is there exactly when the OS did not refuse it.
   */
  function Created(links: map<Path, Path>, from: Path, to: Path, fails: bool): (r: map<Path, Path>)
    ensures to in r <==> !fails
    ensures to in r ==> r[to] == from
    ensures r - {to} == links - {to}
  {
    var cleared := links - {to};
    if fails then cleared else cleared[to := from]
  }

  /** An alias guard: it always records the alias path, and its Drop removes that path. */
  class SelfCleaningSymlink {
    const path: Path

    /** Removes any entry at `to`, then tries to link `to -> from`; failure is only reported. */
    constructor Create(from: Path, to: Path, fs: FileSystem, linkFails: bool)
      modifies fs
      ensures path == to
      ensures fs.links == Created(old(fs.links), from, to, linkFails)
    {
      path := to;
      new;
      var _ := fs.RemoveFile(to);
      var linked := fs.Symlink(from, to, linkFails);
      assert linked == !linkFails;
    }

    /**
     * Removes the alias and nothing else. `ok` is false when the alias was
     * already gone, which the guard treats as a crash.
     */
    method Drop(fs: FileSystem) returns (ok: bool)
      modifies fs
      ensures ok == (path in old(fs.links))
      ensures fs.links == old(fs.links) - {path}
    {
      ok := fs.RemoveFile(path);
    }
  }
}
