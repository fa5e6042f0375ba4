/**
 * The per-video storage directory of utils/storage_dir.py and the part of the
 * file system the download handler touches: which directories and which
 * files exist, as sets of path strings.
 */
module Storage {

  /** The module-level `storage_dir` root. */
  const StorageRoot: string := "storage"

  /** POSIX `os.path.join(a, b)`: an absolute `b` replaces `a`; otherwise one separator joins them. */
  function PathJoin(a: string, b: string): string
  {
    if |b| > 0 && b[0] == '/' then b
    else if a == [] || a[|a| - 1] == '/' then a + b
    else a + "/" + b
  }

  /** `os.path.join(storage_dir, "youtube", video_id)` */
  function YoutubeStorageDirPath(videoId: string): string
  {
    PathJoin(PathJoin(StorageRoot, "youtube"), videoId)
  }

  /** The directories `os.makedirs(path)` makes exist: every prefix of `path` that ends before a separator, and `path`. */
  function Ancestors(path: string): set<string>
  {
    set i | 0 < i <= |path| && (i == |path| || path[i] == '/') :: path[..i]
  }

  /** A path without separators is its own only ancestor. */
  lemma AncestorsOfSegment(a: string)
    requires a != [] && '/' !in a
    ensures Ancestors(a) == {a}
  {
    assert forall j | 0 <= j < |a| :: a[j] != '/' by {
      forall j | 0 <= j < |a| ensures a[j] != '/' {
        assert a[j] in a;
      }
    }
    assert a[..|a|] == a;
  }

  /** Appending a separator and one more segment adds exactly the longer path. */
  lemma AncestorsAppendSegment(a: string, b: string)
    requires a != [] && b != [] && '/' !in b
    ensures Ancestors(a + "/" + b) == Ancestors(a) + {a + "/" + b}
  {
    var p := a + "/" + b;
    forall j | |a| < j < |p| ensures p[j] != '/' {
      assert p[j] == b[j - |a| - 1] && b[j - |a| - 1] in b;
    }
    forall x | x in Ancestors(p) ensures x in Ancestors(a) + {p} {
      var i :| 0 < i <= |p| && (i == |p| || p[i] == '/') && x == p[..i];
      if i < |a| {
        assert p[i] == a[i] && p[..i] == a[..i];
      } else if i == |a| {
        assert p[..i] == a[..|a|];
      } else {
        assert p[..|p|] == p;
      }
    }
    forall x | x in Ancestors(a) + {p} ensures x in Ancestors(p) {
      if x == p {
        assert p[..|p|] == p;
      } else {
        var i :| 0 < i <= |a| && (i == |a| || a[i] == '/') && x == a[..i];
        assert p[i] == (if i == |a| then '/' else a[i]) && p[..i] == a[..i];
      }
    }
  }

  /**
   * For a video identifier that is one path segment, the directory is
   * `storage/youtube/<video_id>`, and making it creates exactly `storage`,
   * `storage/youtube` and itself.
   */
  lemma StorageLayout(videoId: string)
    requires videoId != [] && '/' !in videoId
    ensures YoutubeStorageDirPath(videoId) == "storage/youtube/" + videoId
    ensures Ancestors(YoutubeStorageDirPath(videoId)) ==
      {"storage", "storage/youtube", "storage/youtube/" + videoId}
  {
    var root: string := "storage";
    var youtube: string := "youtube";
    assert videoId[0] != '/' by { assert videoId[0] in videoId; }
    assert YoutubeStorageDirPath(videoId) == root + "/" + youtube + "/" + videoId;
    assert root + "/" + youtube == "storage/youtube";
    assert root + "/" + youtube + "/" + videoId == "storage/youtube/" + videoId;
    AncestorsOfSegment(root);
    AncestorsAppendSegment(root, youtube);
    AncestorsAppendSegment(root + "/" + youtube, videoId);
  }

  class FileSystem {
    var dirs: set<string>
    var files: set<string>

    constructor (dirs: set<string>, files: set<string>)
      ensures this.dirs == dirs && this.files == files
    {
      this.dirs := dirs;
      this.files := files;
    }

    /** `os.makedirs(path, exist_ok=True)`: never fails on a directory that already exists. */
    method MakeDirs(path: string)
      modifies this
      ensures dirs == old(dirs) + Ancestors(path)
      ensures files == old(files)
    {
      dirs := dirs + Ancestors(path);
    }

    /** A file written at `path`, or overwritten if it was there. */
    method WriteFile(path: string)
      modifies this
      ensures files == old(files) + {path}
      ensures dirs == old(dirs)
    {
      files := files + {path};
    }
  }

  /**
   * `youtube_storage_dir(video_id)`: makes the video's directory exist and
   * returns its path; calling it again with the same identifier returns the
   * same path and adds no directory.
   */
  method YoutubeStorageDir(fs: FileSystem, videoId: string) returns (dir: string)
    modifies fs
    ensures dir == YoutubeStorageDirPath(videoId)
    ensures fs.dirs == old(fs.dirs) + Ancestors(dir)
    ensures dir in fs.dirs
    ensures fs.files == old(fs.files)
  {
    fs.MakeDirs(PathJoin(PathJoin(StorageRoot, "youtube"), videoId));
    dir := PathJoin(PathJoin(StorageRoot, "youtube"), videoId);
    assert dir[..|dir|] == dir;
  }

  /** Resolving the same video's directory twice gives the same path and makes nothing the first call did not. */
  method YoutubeStorageDirTwice(fs: FileSystem, videoId: string) returns (first: string, second: string)
    modifies fs
    ensures first == second == YoutubeStorageDirPath(videoId)
    ensures fs.dirs == old(fs.dirs) + Ancestors(first)
    ensures fs.files == old(fs.files)
  {
    first := YoutubeStorageDir(fs, videoId);
    second := YoutubeStorageDir(fs, videoId);
  }
}
