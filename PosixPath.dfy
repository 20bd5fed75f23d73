/**
 `posixpath.basename` and `posixpath.dirname`, the two path functions the
 file-based transfers use, over '/'-separated paths.
 */
module PosixPath {
  import opened PyStr

  /**
   `basename(p)`: the text after the last '/', or all of `p` when it has no
   '/'. It is a suffix of `p` holding no '/', and what precedes it ends in '/'.
   */
  function Basename(p: string): (r: string)
    ensures '/' !in r
    ensures |r| <= |p| && r == p[|p| - |r|..]
    ensures |r| < |p| ==> p[|p| - |r| - 1] == '/'
    ensures '/' !in p ==> r == p
  {
    var i := RFind(p, '/') + 1;
    assert forall k :: 0 <= k < |p| - i ==> p[i..][k] == p[i + k];
    p[i..]
  }

  /**
   `dirname(p)`: the text before the last '/', with its trailing '/' run
   removed unless it consists of '/' only. It is a prefix of `p`; it is empty
   exactly when `p` has no '/'; only '/' lie between it and the base name.
   */
  function Dirname(p: string): (r: string)
    ensures |r| <= |p| && r == p[..|r|]
    ensures r == "" <==> '/' !in p
    ensures |r| + |Basename(p)| <= |p| && AllAre(p[|r|..|p| - |Basename(p)|], '/')
    ensures r != [] && r[|r| - 1] == '/' ==> AllAre(r, '/') && |r| + |Basename(p)| == |p|
  {
    var i := RFind(p, '/') + 1;
    var head := p[..i];
    assert i > 0 ==> head[i - 1] == '/';
    if head != "" && !AllAre(head, '/') then
      var r := RStrip(head, '/');
      assert p[|r|..i] == head[|r|..];
      r
    else
      head
  }

  /** Joining a directory and a file name (`os.path.join(d, name)`) is undone by the two functions. */
  lemma {:induction false} SplitJoined(d: string, name: string)
    requires d != [] && d[|d| - 1] != '/'
    requires '/' !in name
    ensures Dirname(d + "/" + name) == d
    ensures Basename(d + "/" + name) == name
  {
    var p := d + "/" + name;
    BasenameJoined(d, name);
    assert p[..|d| + 1] == d + "/";
    assert RStrip(d, '/') == d;
    assert RStrip(d + "/", '/') == RStrip(d, '/') by {
      assert (d + "/")[..|d|] == d;
    }
  }

  /** The base name of `os.path.join(d, name)` is `name`, whatever `d` is. */
  lemma {:induction false} BasenameJoined(d: string, name: string)
    requires '/' !in name
    ensures RFind(d + "/" + name, '/') == |d|
    ensures Basename(d + "/" + name) == name
  {
    var p := d + "/" + name;
    assert p[|d|] == '/';
    assert forall j :: |d| < j < |p| ==> p[j] == name[j - |d| - 1];
    assert p[|d| + 1..] == name;
  }
}
