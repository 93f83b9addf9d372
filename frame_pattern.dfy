/**
 * The glob pattern that finds a completed render's frame files, built from
 * the node's output path with POSIX path rules: the directory is kept, the
 * extension is kept, and the last dot-separated part of the file name (the
 * frame number) becomes `*`.
 */
module FramePattern {

  /** Python's str.rfind for one character: the last index holding c, or -1. */
  function RFind(s: string, c: char): (i: int)
    ensures -1 <= i < |s|
    ensures i >= 0 ==> s[i] == c
    ensures forall j | i < j < |s| :: s[j] != c
  {
    if s == [] then -1
    else if s[|s| - 1] == c then |s| - 1
    else RFind(s[..|s| - 1], c)
  }

  predicate AllSlashes(s: string)
  {
    forall k | 0 <= k < |s| :: s[k] == '/'
  }

  /** s.rstrip('/') */
  function RStripSlashes(s: string): (r: string)
    ensures |r| <= |s| && r == s[..|r|]
    ensures r == [] || r[|r| - 1] != '/'
    ensures forall k | |r| <= k < |s| :: s[k] == '/'
  {
    if s != [] && s[|s| - 1] == '/' then RStripSlashes(s[..|s| - 1]) else s
  }

  /** posixpath.dirname: everything before the last '/', without trailing slashes unless it is all slashes. */
  function Dirname(p: string): (d: string)
    ensures |d| <= |p| && d == p[..|d|]
    ensures '/' !in p ==> d == []
  {
    var head := p[..RFind(p, '/') + 1];
    if head != [] && !AllSlashes(head) then RStripSlashes(head) else head
  }

  /** posixpath.basename: everything after the last '/'. */
  function Basename(p: string): (b: string)
    ensures '/' !in b
  {
    p[RFind(p, '/') + 1..]
  }

  /**
   * posixpath.splitext: the extension starts at the last '.' of the file
   * name, provided some character before that dot is not a dot (a leading
   * dot, as in ".hidden", starts no extension).
   */
  function SplitExt(p: string): (r: (string, string))
    ensures r.0 + r.1 == p
  {
    var sep := RFind(p, '/');
    var dot := RFind(p, '.');
    if dot > sep && exists k | sep + 1 <= k < dot :: p[k] != '.'
    then (p[..dot], p[dot..])
    else (p, "")
  }

  /** s.rsplit('.', 1)[0]: everything before the last '.', or all of s when it has none. */
  function BeforeLastDot(s: string): (r: string)
    ensures '.' !in s ==> r == s
    ensures '.' in s ==> |r| < |s| && r == s[..|r|] && s[|r|] == '.' && '.' !in s[|r| + 1..]
  {
    var i := RFind(s, '.');
    if i < 0 then s else s[..i]
  }

  /** posixpath.join of two parts. */
  function Join(a: string, b: string): (r: string)
    ensures |b| <= |r| && r[|r| - |b|..] == b
    ensures (b == [] || b[0] != '/') ==> |a| <= |r| && r[..|a|] == a
  {
    if |b| > 0 && b[0] == '/' then b
    else if a == [] || a[|a| - 1] == '/' then a + b
    else a + "/" + b
  }

  /** The frame pattern built from a render's output path. */
  function FramesPattern(outputPath: string): (r: string)
    ensures var ext := SplitExt(Basename(outputPath)).1;
            |ext| + 2 <= |r| && r[|r| - |ext| - 2..] == ".*" + ext
  {
    var name := SplitExt(Basename(outputPath));
    WildcardPattern(Dirname(outputPath), BeforeLastDot(name.0), name.1)
  }

  /** `stem.*ext` under the directory: whatever the directory, it ends in `.*ext`. */
  function WildcardPattern(dir: string, stem: string, ext: string): (r: string)
    ensures |ext| + 2 <= |r| && r[|r| - |ext| - 2..] == ".*" + ext
  {
    JoinWildcardTail(dir, stem, ext);
    Join(dir, stem + ".*" + ext)
  }

  lemma JoinWildcardTail(dir: string, stem: string, ext: string)
    ensures var r := Join(dir, stem + ".*" + ext);
            |ext| + 2 <= |r| && r[|r| - |ext| - 2..] == ".*" + ext
  {
    var x := ".*" + ext;
    var tail := stem + ".*" + ext;
    var r := Join(dir, tail);
    WildcardTail(stem, ext);
    assert |tail| <= |r| && r[|r| - |tail|..] == tail;
    SuffixOfSuffix(r, tail, x);
  }

  /** The last |ext| + 2 characters of `stem.*ext` are `.*ext`. */
  lemma WildcardTail(stem: string, ext: string)
    ensures var t := stem + ".*" + ext;
            |ext| + 2 <= |t| && t[|t| - |ext| - 2..] == ".*" + ext
  {
    var t := stem + ".*" + ext;
    assert t == stem + (".*" + ext);
  }

  /** A suffix of a suffix is a suffix. */
  lemma SuffixOfSuffix(r: string, t: string, x: string)
    requires |t| <= |r| && r[|r| - |t|..] == t
    requires |x| <= |t| && t[|t| - |x|..] == x
    ensures |x| <= |r| && r[|r| - |x|..] == x
  {
    assert r[|r| - |x|..] == t[|t| - |x|..];
  }

  /** The last occurrence found by RFind is the one the caller can point at. */
  lemma RFindIs(s: string, c: char, i: int)
    requires 0 <= i < |s| && s[i] == c
    requires forall j | i < j < |s| :: s[j] != c
    ensures RFind(s, c) == i
  {
  }

  lemma RFindAbsent(s: string, c: char)
    requires c !in s
    ensures RFind(s, c) == -1
  {
  }

  /** Splitting `dir/base` with a slash-free base and a directory that does not end in '/'. */
  lemma SplitDirectory(dir: string, base: string)
    requires dir != [] && dir[|dir| - 1] != '/' && '/' !in base
    ensures Dirname(dir + "/" + base) == dir
    ensures Basename(dir + "/" + base) == base
  {
    var path := dir + "/" + base;
    RFindIs(path, '/', |dir|);
    assert path[..|dir| + 1] == dir + "/";
    assert path[|dir| + 1..] == base;
    assert (dir + "/")[|dir| - 1] == dir[|dir| - 1];
    assert !AllSlashes(dir + "/");
    assert (dir + "/")[..|dir|] == dir;
  }

  /** splitext of `root.ext` with a dot-free extension and a root not starting with a dot. */
  lemma SplitExtension(root: string, ext: string)
    requires root != [] && root[0] != '.' && '/' !in root
    requires '.' !in ext && '/' !in ext
    ensures SplitExt(root + "." + ext) == (root, "." + ext)
  {
    var p := root + "." + ext;
    RFindIs(p, '.', |root|);
    RFindAbsent(p, '/');
    assert p[0] != '.';
    assert p[..|root|] == root && p[|root|..] == "." + ext;
  }

  /**
   * For an output file `dir/stem.frame.ext` (a directory without a trailing
   * slash, a stem that does not start with a dot, a frame part and an
   * extension without dots or slashes) the pattern is `dir/stem.*.ext`:
   * only the frame part is replaced.
   */
  lemma FramesPatternOfFrameFile(dir: string, stem: string, frame: string, ext: string)
    requires dir != [] && dir[|dir| - 1] != '/'
    requires stem != [] && stem[0] != '.' && '/' !in stem
    requires '.' !in frame && '/' !in frame
    requires '.' !in ext && '/' !in ext
    ensures FramesPattern(dir + "/" + stem + "." + frame + "." + ext) == dir + "/" + stem + ".*." + ext
  {
    var root := stem + "." + frame;
    var base := root + "." + ext;
    var path := dir + "/" + base;
    assert dir + "/" + stem + "." + frame + "." + ext == path;
    NoSlashInName(stem, frame, ext);
    SplitDirectory(dir, base);
    SplitExtension(root, ext);
    BeforeFrameDot(stem, frame);
    FramesPatternFromParts(path, dir, root, "." + ext, stem);
    var tail := stem + ".*" + ("." + ext);
    JoinUnderDirectory(dir, tail);
    PatternText(dir, stem, ext);
  }

  lemma PatternText(dir: string, stem: string, ext: string)
    ensures dir + "/" + (stem + ".*" + ("." + ext)) == dir + "/" + stem + ".*." + ext
  {
    assert ".*" + "." == ".*.";
  }

  /** The pattern assembled from what dirname, basename, splitext and rsplit give for a path. */
  lemma FramesPatternFromParts(p: string, dir: string, root: string, ext: string, stem: string)
    requires Dirname(p) == dir
    requires SplitExt(Basename(p)) == (root, ext)
    requires BeforeLastDot(root) == stem
    ensures FramesPattern(p) == Join(dir, stem + ".*" + ext)
  {
  }

  lemma NoSlashInName(stem: string, frame: string, ext: string)
    requires stem != [] && '/' !in stem && '/' !in frame && '/' !in ext
    ensures '/' !in stem + "." + frame
    ensures '/' !in stem + "." + frame + "." + ext
    ensures (stem + "." + frame)[0] == stem[0]
    ensures (stem + ".*" + ("." + ext))[0] == stem[0]
  {
  }

  /** The frame part is what follows the last dot of `stem.frame`. */
  lemma BeforeFrameDot(stem: string, frame: string)
    requires '.' !in frame
    ensures BeforeLastDot(stem + "." + frame) == stem
  {
    var root := stem + "." + frame;
    RFindIs(root, '.', |stem|);
    assert root[..|stem|] == stem;
  }

  lemma JoinUnderDirectory(dir: string, tail: string)
    requires dir != [] && dir[|dir| - 1] != '/'
    requires tail == [] || tail[0] != '/'
    ensures Join(dir, tail) == dir + "/" + tail
  {
  }

  /**
   * Whether a file name matches a pattern `prefix*suffix` as glob does,
   * with `*` standing for any run of characters other than '/'.
   */
  predicate GlobMatch(prefix: string, suffix: string, name: string)
  {
    && |prefix| + |suffix| <= |name|
    && name[..|prefix|] == prefix
    && name[|name| - |suffix|..] == suffix
    && '/' !in name[|prefix|..|name| - |suffix|]
  }

  /** The file name part of the pattern, `stem.*.ext`, matches every frame file `stem.F.ext` of the sequence. */
  lemma PatternFindsEveryFrame(stem: string, ext: string, frame: string)
    requires '/' !in frame
    ensures GlobMatch(stem + ".", "." + ext, stem + "." + frame + "." + ext)
  {
    var name := stem + "." + frame + "." + ext;
    assert name[..|stem| + 1] == stem + ".";
    assert name[|name| - |"." + ext|..] == "." + ext;
    assert name[|stem| + 1..|name| - |"." + ext|] == frame;
  }

  /**
   * An output name without a frame part, like `dir/beauty.exr`, gives the
   * pattern `dir/beauty.*.exr`, which that file itself does not match.
   */
  lemma NoFramePartNotFound(dir: string, stem: string, ext: string)
    requires dir != [] && dir[|dir| - 1] != '/'
    requires stem != [] && '.' !in stem && '/' !in stem
    requires '.' !in ext && '/' !in ext
    ensures FramesPattern(dir + "/" + stem + "." + ext) == dir + "/" + stem + ".*." + ext
    ensures !GlobMatch(stem + ".", "." + ext, stem + "." + ext)
  {
    var base := stem + "." + ext;
    var path := dir + "/" + base;
    assert dir + "/" + stem + "." + ext == path;
    NoSlashInName(stem, "", ext);
    assert '/' !in base;
    SplitDirectory(dir, base);
    SplitExtension(stem, ext);
    RFindAbsent(stem, '.');
    FramesPatternFromParts(path, dir, stem, "." + ext, stem);
    var tail := stem + ".*" + ("." + ext);
    JoinUnderDirectory(dir, tail);
    PatternText(dir, stem, ext);
  }
}
