/** The local filesystem as the set of paths of the files that exist.
    Directories are not tracked: `os.makedirs(..., exist_ok=True)` never
    fails here and changes no file. */
module Storage {
  import opened Encoder

  /** `path` lies inside directory `dir`. */
  predicate Under(path: string, dir: string) {
    |dir| < |path| && path[..|dir|] == dir && path[|dir|] == '/'
  }

  /** The files outside `dir`. */
  function Outside(files: set<string>, dir: string): (r: set<string>)
    ensures r <= files
    ensures forall p :: p in files ==> (p in r <==> !Under(p, dir))
  {
    set p | p in files && !Under(p, dir)
  }

  class Disk {
    var files: set<string>

    constructor (initial: set<string>)
      ensures files == initial
    {
      files := initial;
    }

    /** A download, an extraction or an encoder run writes `path`
        (creating or overwriting it). */
    method Write(path: string)
      modifies this
      ensures files == old(files) + {path}
    {
      files := files + {path};
    }

    /** `zipfile.extractall`: writes every path of `paths`. */
    method WriteAll(paths: set<string>)
      modifies this
      ensures files == old(files) + paths
    {
      files := files + paths;
    }

    /** `os.remove(path)`; the path must exist (otherwise Python raises). */
    method Remove(path: string)
      requires path in files
      modifies this
      ensures files == old(files) - {path}
    {
      files := files - {path};
    }

    /** `shutil.rmtree(dir)`: every file inside `dir` is gone. */
    method RemoveTree(dir: string)
      modifies this
      ensures files == Outside(old(files), dir)
    {
      files := Outside(files, dir);
    }

    /** Runs the encoder calls one after another; each writes its output. */
    method RunAll(calls: seq<EncoderCall>)
      modifies this
      ensures files == old(files) + Outputs(calls)
    {
      var i := 0;
      while i < |calls|
        invariant 0 <= i <= |calls|
        invariant files == old(files) + Outputs(calls[..i])
      {
        Write(calls[i].output);
        i := i + 1;
        assert calls[..i][..i - 1] == calls[..i - 1];
      }
      assert calls[..|calls|] == calls;
    }
  }
}
