/** The upload middleware both variants configure with multer: the image
    filter, the per-request file count, the 5 MB size limit, and the
    `path` helpers the handlers apply to stored file names. Writing the
    files to disk is not modelled; a file appears here by its original
    name, its mime type and its size. */
module Uploads {
  import opened Rows
  import opened Js

  datatype UploadedFile = UploadedFile(originalName: string, mimetype: string, size: int)

  const MaxFileSize := 5 * 1024 * 1024
  const MaxFiles := 10

  /** The `fileFilter`: a file is accepted when its mime type starts with `image/`. */
  predicate AcceptImage(mimetype: string)
  {
    StartsWith(mimetype, "image/")
  }

  /** `upload.array('photos', 10)` reads the files in order, `seen` being how
      many it has accepted so far: one more than ten fails the request with
      "Unexpected field", a file the filter refuses with the filter's
      message, and a file over the size limit with "File too large". */
  function MulterCheck(files: seq<UploadedFile>, filterMessage: string, seen: nat): Option<string>
    decreases |files|
  {
    if files == [] then None
    else if seen >= MaxFiles then Some("Unexpected field")
    else if !AcceptImage(files[0].mimetype) then Some(filterMessage)
    else if files[0].size > MaxFileSize then Some("File too large")
    else MulterCheck(files[1..], filterMessage, seen + 1)
  }

  /** The files get through exactly when there are at most ten, all images
      and none over 5 MB. */
  lemma {:induction false} MulterAcceptsExactly(files: seq<UploadedFile>, filterMessage: string, seen: nat)
    requires seen <= MaxFiles
    ensures MulterCheck(files, filterMessage, seen).None? <==>
      seen + |files| <= MaxFiles
      && forall k :: 0 <= k < |files| ==> AcceptImage(files[k].mimetype) && files[k].size <= MaxFileSize
    decreases |files|
  {
    if files != [] && seen < MaxFiles && AcceptImage(files[0].mimetype) && files[0].size <= MaxFileSize {
      MulterAcceptsExactly(files[1..], filterMessage, seen + 1);
      assert forall k :: 1 <= k < |files| ==> files[k] == files[1..][k - 1];
    } else if files != [] && seen < MaxFiles {
      assert !(AcceptImage(files[0].mimetype) && files[0].size <= MaxFileSize);
    }
  }

  /** A file that is not an image among the first ten ends the request with
      the filter's message unless an earlier file already failed it. */
  lemma {:induction false} NonImageRejected(files: seq<UploadedFile>, filterMessage: string, seen: nat, k: nat)
    requires k < |files| && seen + k < MaxFiles && !AcceptImage(files[k].mimetype)
    requires forall j :: 0 <= j < k ==> AcceptImage(files[j].mimetype) && files[j].size <= MaxFileSize
    ensures MulterCheck(files, filterMessage, seen) == Some(filterMessage)
    decreases k
  {
    if k > 0 {
      NonImageRejected(files[1..], filterMessage, seen + 1, k - 1);
    }
  }

  /** `path.basename(p)`: the part after the last '/'. Unlike Node, a path
      ending in '/' gives "" rather than its last segment; the handlers only
      take base names of `dir/filename` paths with a non-empty file name. */
  function Basename(p: string): (r: string)
    ensures |r| <= |p| && r == p[|p| - |r|..]
    ensures '/' !in r
    decreases |p|
  {
    if p == [] || p[|p| - 1] == '/' then [] else Basename(p[..|p| - 1]) + [p[|p| - 1]]
  }

  /** The base name of a file stored in a directory is the name it was stored under. */
  lemma {:induction false} BasenameOfJoin(dir: string, name: string)
    requires '/' !in name
    ensures Basename(dir + "/" + name) == name
    decreases |name|
  {
    if name != [] {
      var p := dir + "/" + name;
      assert p[..|p| - 1] == dir + "/" + name[..|name| - 1];
      BasenameOfJoin(dir, name[..|name| - 1]);
    }
  }

  /** `path.extname(name)`: from the last '.' of the base name to its end;
      empty when there is no '.', when the only '.' starts the name, and for "..". */
  function Extname(name: string): (r: string)
    ensures r == [] || (r[0] == '.' && '.' !in r[1..])
    ensures '/' !in r
  {
    var base := Basename(name);
    match LastIndex(base, (c: char) => c == '.')
    case None => []
    case Some(i) =>
      if i == 0 || base == ".." then []
      else base[i..]
  }
}
