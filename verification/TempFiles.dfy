/** The system's temporary directory, and the guard that removes a temporary archive. */
module TempFiles {
  import opened FileTree

  /** The names in use there. */
  class TempDir {
    var names: set<Name>

    constructor ()
      ensures names == {}
    {
      names := {};
    }

    method Create(name: Name)
      modifies this
      ensures names == old(names) + {name}
    {
      names := names + {name};
    }

    method Remove(name: Name)
      modifies this
      ensures names == old(names) - {name}
    {
      names := names - {name};
    }
  }

  /** Dropping the guard removes its file. */
  class TempFileGuard {
    const dir: TempDir
    const name: Name

    constructor (dir: TempDir, name: Name)
      ensures this.dir == dir && this.name == name
    {
      this.dir := dir;
      this.name := name;
    }

    method Drop()
      modifies dir
      ensures dir.names == old(dir.names) - {name}
    {
      dir.Remove(name);
    }
  }
}
