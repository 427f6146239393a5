/**
 The temporary name of `pyxa/utils/local.py`: a suffix inserted before a
 file's extension. The extension split is `os.path.splitext`, which both
 `posixpath` and `ntpath` delegate to `genericpath._splitext` with their own
 separators; the copying itself is file I/O and not modelled.
 */
module LocalFiles {
  import opened Wrappers

  /** The path conventions `os.path` may follow. */
  datatype PathFlavour = Posix | Windows

  /** The directory separators: `sep` and, on Windows, `altsep`. */
  function Separators(f: PathFlavour): (seps: set<char>)
    ensures '/' in seps && '.' !in seps
  {
    match f
    case Posix => {'/'}
    case Windows => {'\\', '/'}
  }

  /** `max(s.rfind(c) for c in cs)`: the last index holding a character of `cs`, or -1. */
  function LastIndexIn(s: string, cs: set<char>): (r: int)
    ensures -1 <= r < |s|
    ensures r >= 0 ==> s[r] in cs
    ensures forall j :: r < j < |s| ==> s[j] !in cs
  {
    if |s| == 0 then -1
    else if s[|s| - 1] in cs then |s| - 1
    else LastIndexIn(s[..|s| - 1], cs)
  }

  /**
   The scan for a non-dot character in `p[i..dot]`, the name part before the
   last dot: a name made of leading dots only (".bashrc", "..") has no
   extension.
   */
  function NonDotBetween(p: string, i: int, dot: int): (r: bool)
    requires 0 <= i && dot <= |p|
    ensures r <==> exists k :: i <= k < dot && p[k] != '.'
    decreases dot - i
  {
    if i >= dot then false
    else if p[i] != '.' then true
    else NonDotBetween(p, i + 1, dot)
  }

  /**
   `ext` is an extension of `root + ext`: a dot followed by neither dots nor
   separators, after a last path component of `root` that holds some
   character other than a dot.
   */
  predicate IsExtensionSplit(root: string, ext: string, seps: set<char>) {
    && |ext| > 0 && ext[0] == '.'
    && (forall j :: 1 <= j < |ext| ==> ext[j] != '.' && ext[j] !in seps)
    && exists i :: 0 <= i < |root| && root[i] != '.' && root[i] !in seps &&
                   forall j :: i < j < |root| ==> root[j] !in seps
  }

  /** `os.path.splitext(p)`: `(root, ext)` with `root + ext == p` and `ext` empty or an extension. */
  function SplitExt(p: string, f: PathFlavour): (r: (string, string))
    ensures r.0 + r.1 == p
    ensures r.1 != "" ==> IsExtensionSplit(r.0, r.1, Separators(f))
  {
    var seps := Separators(f);
    var sepIndex := LastIndexIn(p, seps);
    var dotIndex := LastIndexIn(p, {'.'});
    if dotIndex > sepIndex && NonDotBetween(p, sepIndex + 1, dotIndex) then
      var root, ext := p[..dotIndex], p[dotIndex..];
      assert p == root + ext;
      assert forall j :: 1 <= j < |ext| ==> ext[j] == p[dotIndex + j];
      var i :| sepIndex + 1 <= i < dotIndex && p[i] != '.';
      assert root[i] == p[i];
      assert forall j :: i < j < |root| ==> root[j] == p[j];
      (root, ext)
    else
      (p, "")
  }

  /** Every extension split is the one `SplitExt` finds: the split is unique. */
  lemma SplitExtFindsExtension(root: string, ext: string, f: PathFlavour)
    requires IsExtensionSplit(root, ext, Separators(f))
    ensures SplitExt(root + ext, f) == (root, ext)
  {
    var seps := Separators(f);
    var p := root + ext;
    var sepIndex := LastIndexIn(p, seps);
    var dotIndex := LastIndexIn(p, {'.'});
    assert p[|root|] == '.';
    assert forall j :: |root| < j < |p| ==> p[j] == ext[j - |root|];
    assert dotIndex == |root|;
    var i :| 0 <= i < |root| && root[i] != '.' && root[i] !in seps &&
             forall j :: i < j < |root| ==> root[j] !in seps;
    assert p[i] == root[i];
    assert sepIndex < i;
    assert NonDotBetween(p, sepIndex + 1, dotIndex);
    assert p[..dotIndex] == root && p[dotIndex..] == ext;
  }

  /** When `SplitExt` finds no extension, no way of cutting `p` is an extension split. */
  lemma SplitExtNoExtension(p: string, f: PathFlavour, root: string, ext: string)
    requires SplitExt(p, f).1 == "" && root + ext == p
    ensures !IsExtensionSplit(root, ext, Separators(f))
  {
    if IsExtensionSplit(root, ext, Separators(f)) {
      SplitExtFindsExtension(root, ext, f);
    }
  }

  /** The suffix `temporary_rename` inserts unless told otherwise. */
  const DefaultRename: string := "temp_xa"

  /**
   `temporary_rename(file, rename)`: `root + rename + ext`. A `rename` of
   `None` makes `str.join` raise `TypeError`.
   */
  function TemporaryRename(file: string, rename: Option<string>, f: PathFlavour): (r: Result<string>)
    ensures rename.None? <==> r.Err?
    ensures r.Err? ==> r.error == TypeError
    ensures r.Ok? ==>
              var root := SplitExt(file, f).0;
              && |r.value| == |file| + |rename.value|
              && r.value[|root|..|root| + |rename.value|] == rename.value
              && r.value[..|root|] + r.value[|root| + |rename.value|..] == file
  {
    match rename
    case None => Err(TypeError)
    case Some(suffix) =>
      var (root, ext) := SplitExt(file, f);
      var name := root + suffix + ext;
      assert name[..|root|] == root;
      assert name[|root|..|root| + |suffix|] == suffix;
      assert name[|root| + |suffix|..] == ext;
      Ok(name)
  }

  /** With an empty suffix the name is the file's own. */
  lemma TemporaryRenameEmpty(file: string, f: PathFlavour)
    ensures TemporaryRename(file, Some(""), f) == Ok(file)
  {
  }

  /** A file without an extension gets the suffix at the end. */
  lemma TemporaryRenameNoExtension(file: string, rename: string, f: PathFlavour)
    requires SplitExt(file, f).1 == ""
    ensures TemporaryRename(file, Some(rename), f) == Ok(file + rename)
  {
    assert SplitExt(file, f).0 == file;
    assert file + rename + "" == file + rename;
  }

  /** A file with an extension gets the suffix just before it. */
  lemma TemporaryRenameBeforeExtension(root: string, ext: string, rename: string, f: PathFlavour)
    requires IsExtensionSplit(root, ext, Separators(f))
    ensures TemporaryRename(root + ext, Some(rename), f) == Ok(root + rename + ext)
  {
    SplitExtFindsExtension(root, ext, f);
  }

  /** "data/train.txt" is copied to "data/traintemp_xa.txt". */
  lemma TemporaryRenameExample()
    ensures TemporaryRename("data/train" + ".txt", Some(DefaultRename), Posix) ==
            Ok("data/train" + DefaultRename + ".txt")
  {
    var root := "data/train";
    assert root[9] == 'n';
    TemporaryRenameBeforeExtension(root, ".txt", DefaultRename, Posix);
  }

  /** A name made of a leading dot and letters only, such as ".bashrc", has no extension. */
  lemma DotFileHasNoExtension(f: PathFlavour)
    ensures SplitExt(".bashrc", f) == (".bashrc", "")
  {
    var p := ".bashrc";
    assert forall j :: 0 < j < |p| ==> p[j] in "bashrc";
    assert forall j :: 0 <= j < |p| ==> p[j] in ".bashrc";
    var d := LastIndexIn(p, {'.'});
    assert p[0] == '.';
    assert '.' !in "bashrc";
    assert d == 0;
    assert LastIndexIn(p, Separators(f)) == -1;
  }
}
