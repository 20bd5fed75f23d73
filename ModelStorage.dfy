/**
 The decision layer of the model-storage helpers: recognising and splitting
 S3 URLs, choosing the credential strategy of a connection, the key a file
 upload defaults to and when a download creates parent directories. The
 S3 calls, the file system and pickling around these decisions are not
 modelled.
 */
module ModelStorage {
  import opened PyStr
  import opened UrlLib
  import opened PosixPath

  datatype Option<T> = None | Some(value: T)

  /** A bucket and a key, naming one object in the store. */
  datatype Locator = Locator(bucket: string, key: string)

  /** The credential strategy a connection is opened with. */
  datatype Credentials =
    | Profile(name: string)
    | Keys(accessKeyId: string, secretAccessKey: string)
    | Ambient

  /** Python truthiness of an optional string argument: present and non-empty. */
  predicate Truthy(s: Option<string>)
    ensures !Truthy(s) <==> s == None || s == Some("")
  {
    s.Some? && s.value != ""
  }

  // ---------------------------------------------------------------------
  // URLs
  // ---------------------------------------------------------------------

  /** `is_s3_url`: the URL starts with the five characters "s3://" (case matters). */
  function IsS3Url(url: string): (r: bool)
    ensures r <==> |url| >= 5 && url[..5] == "s3://"
  {
    "s3://" <= url
  }

  /**
   `parse_s3_url`: the bucket is the URL's authority and the key its path
   with every leading and trailing '/' removed. The scheme is not checked.
   */
  function ParseS3Url(s3Url: string): (r: Locator)
    requires InDomain(s3Url)
    ensures '/' !in r.bucket && '?' !in r.bucket && '#' !in r.bucket
    ensures r.key == [] || (r.key[0] != '/' && r.key[|r.key| - 1] != '/')
    ensures '?' !in r.key && '#' !in r.key
  {
    var result := UrlParse(s3Url);
    var key := Strip(result.path, '/');
    NotInStrip(result.path, '/', '?');
    NotInStrip(result.path, '/', '#');
    Locator(result.netloc, key)
  }

  /** The key `parse_s3_url` returns is already stripped: stripping it again changes nothing. */
  lemma {:induction false} ParsedKeyIsStripped(url: string)
    requires InDomain(url)
    ensures Strip(ParseS3Url(url).key, '/') == ParseS3Url(url).key
  {
    StripIdempotent(UrlParse(url).path, '/');
  }

  /**
   A URL `scheme://b` followed by a path: the bucket is `b` and the key the
   stripped path, whatever the scheme, as long as the scheme does not take
   `;params` or the path has no ';'.
   */
  lemma {:induction false} ParseAuthorityAndPath(scheme: string, b: string, path: string, url: string)
    requires IsScheme(scheme)
    requires IsAsciiText(b) && NoUnsafe(b) && NoUnsafe(path)
    requires '/' !in b && '?' !in b && '#' !in b && '[' !in b && ']' !in b
    requires path == [] || path[0] == '/'
    requires '?' !in path && '#' !in path
    requires Lower(scheme) !in UsesParams || ';' !in path
    requires url == scheme + "://" + b + path
    ensures InDomain(url) && ParseS3Url(url) == Locator(b, Strip(path, '/'))
  {
    SplitAuthorityAndPath(scheme, b, path, url);
    assert PathParams(Lower(scheme), path) == (path, "");
  }

  /** `ParseAuthorityAndPath` for the scheme "s3". */
  lemma {:induction false} ParseS3AuthorityAndPath(b: string, path: string, url: string)
    requires IsAsciiText(b) && NoUnsafe(b) && NoUnsafe(path)
    requires '/' !in b && '?' !in b && '#' !in b && '[' !in b && ']' !in b
    requires path == [] || path[0] == '/'
    requires '?' !in path && '#' !in path
    requires url == "s3://" + b + path
    ensures InDomain(url) && ParseS3Url(url) == Locator(b, Strip(path, '/'))
  {
    S3SchemeFacts();
    assert "s3" + "://" == "s3://";
    assert url == "s3" + "://" + b + path;
    ParseAuthorityAndPath("s3", b, path, url);
  }

  /**
   Round trip: a bucket without '/', '?' and '#' and a key that neither
   starts nor ends with '/' and has no '?' or '#' come back from
   `parse_s3_url("s3://" + bucket + "/" + key)` unchanged.
   */
  lemma {:induction false} ParseRoundTrip(b: string, k: string, url: string)
    requires IsAsciiText(b) && NoUnsafe(b) && NoUnsafe(k)
    requires '/' !in b && '?' !in b && '#' !in b && '[' !in b && ']' !in b
    requires k == [] || (k[0] != '/' && k[|k| - 1] != '/')
    requires '?' !in k && '#' !in k
    requires url == "s3://" + b + "/" + k
    ensures InDomain(url) && ParseS3Url(url) == Locator(b, k)
  {
    var path := "/" + k;
    NoUnsafeConcat("/", k);
    assert url == "s3://" + b + path;
    ParseS3AuthorityAndPath(b, path, url);
    StripOneLeading(k, '/');
  }

  /**
   The same round trip under any scheme, as long as the scheme does not take
   `;params` or the key has no ';': `x://b/k` gives `(b, k)` just as
   `s3://b/k` does.
   */
  lemma {:induction false} AnySchemeRoundTrip(scheme: string, b: string, k: string, url: string)
    requires IsScheme(scheme)
    requires IsAsciiText(b) && NoUnsafe(b) && NoUnsafe(k)
    requires '/' !in b && '?' !in b && '#' !in b && '[' !in b && ']' !in b
    requires k == [] || (k[0] != '/' && k[|k| - 1] != '/')
    requires '?' !in k && '#' !in k
    requires Lower(scheme) !in UsesParams || ';' !in k
    requires url == scheme + "://" + b + "/" + k
    ensures InDomain(url) && ParseS3Url(url) == Locator(b, k)
  {
    var path := "/" + k;
    NoUnsafeConcat("/", k);
    assert url == scheme + "://" + b + path;
    assert ';' !in k ==> ';' !in path;
    ParseAuthorityAndPath(scheme, b, path, url);
    StripOneLeading(k, '/');
  }

  /** "s3" is a scheme, already lower-case, and does not take `;params`. */
  lemma S3SchemeFacts()
    ensures IsScheme("s3") && Lower("s3") == "s3" && "s3" !in UsesParams
  {
    assert IsSchemeChar('s') && IsSchemeChar('3');
    assert Lower("s3") == [LowerChar('s')] + Lower("3");
    assert Lower("3") == [LowerChar('3')] + Lower("");
  }

  /**
   Runs of '/' around the key are dropped however long they are, and '/'
   inside it are kept: `s3://b//a//c//` gives the key `a//c`.
   */
  lemma {:induction false} ParseDropsSlashRuns(b: string, pre: string, k: string, post: string, url: string)
    requires IsAsciiText(b) && NoUnsafe(b) && NoUnsafe(k)
    requires '/' !in b && '?' !in b && '#' !in b && '[' !in b && ']' !in b
    requires pre != [] && AllAre(pre, '/') && AllAre(post, '/')
    requires k == [] || (k[0] != '/' && k[|k| - 1] != '/')
    requires '?' !in k && '#' !in k
    requires url == "s3://" + b + pre + k + post
    ensures InDomain(url) && ParseS3Url(url) == Locator(b, k)
  {
    var path := pre + k + post;
    assert NoUnsafe(pre) && NoUnsafe(post);
    NoUnsafeConcat(pre, k);
    NoUnsafeConcat(pre + k, post);
    assert '?' !in path && '#' !in path;
    assert path[0] == pre[0];
    assert url == "s3://" + b + path;
    ParseS3AuthorityAndPath(b, path, url);
    StripSurrounding(pre, k, post, '/');
  }

  /** The scheme is not checked: two URLs that differ only in such a scheme parse alike. */
  lemma {:induction false} ParseIgnoresScheme(s1: string, s2: string, rest: string)
    requires IsScheme(s1) && IsScheme(s2)
    requires Lower(s1) !in UsesParams && Lower(s2) !in UsesParams
    requires InDomain(s1 + ":" + rest) && InDomain(s2 + ":" + rest)
    ensures ParseS3Url(s1 + ":" + rest) == ParseS3Url(s2 + ":" + rest)
  {
    SplitSchemeOf(s1, rest);
    SplitSchemeOf(s2, rest);
  }

  /**
   No error for a URL without scheme and "//": the bucket is empty and the
   key is the whole input, stripped. A ':' after a '/' is no scheme, so
   `data/model:v2.pkl` is covered.
   */
  lemma {:induction false} ParseWithoutAuthority(url: string)
    requires InDomain(url)
    requires SchemeColon(url) == -1 && !HasAuthority(url)
    requires '?' !in url && '#' !in url && ';' !in url
    ensures ParseS3Url(url) == Locator("", Strip(url, '/'))
  {
    assert UrlSplit(url) == SplitResult("", "", url, "", "");
  }

  /**
   Whatever the scheme, a URL whose text after it does not start with "//"
   has an empty bucket.
   */
  lemma {:induction false} NoAuthorityEmptyBucket(url: string)
    requires InDomain(url)
    requires !HasAuthority(SplitScheme(url).1)
    ensures ParseS3Url(url).bucket == ""
  {
  }

  /**
   What `is_s3_url` accepts, `parse_s3_url` reads with the scheme "s3", from
   which no params are split off.
   */
  lemma {:induction false} S3UrlScheme(url: string)
    requires IsS3Url(url) && InDomain(url)
    ensures UrlParse(url).scheme == "s3" && UrlParse(url).params == ""
  {
    S3SplitOf(url);
    S3SchemeFacts();
  }

  /**
   What `is_s3_url` accepts, `parse_s3_url` reads as a URL with an
   authority: the bucket is the text after "s3://" up to the first '/', '?'
   or '#'.
   */
  lemma {:induction false} S3UrlHasAuthority(url: string)
    requires IsS3Url(url) && InDomain(url)
    ensures var b := ParseS3Url(url).bucket;
      5 + |b| <= |url| && url[5..5 + |b|] == b
      && (5 + |b| == |url| || IsAuthorityEnd(url[5 + |b|]))
  {
    S3SplitOf(url);
    var r := SplitNetloc(url[3..], 2);
    assert ParseS3Url(url).bucket == UrlParse(url).netloc;
    SliceOfSplit(url, 5, r.0, r.1);
  }

  /** `urlsplit` of an s3 URL: the scheme "s3" and the authority after "s3://". */
  lemma S3SplitOf(url: string)
    requires IsS3Url(url) && InDomain(url)
    ensures UrlSplit(url).scheme == "s3" && UrlSplit(url).netloc == SplitNetloc(url[3..], 2).0
  {
    S3SplitHead(url);
  }

  /** The scheme and authority steps of `urlsplit` on an s3 URL. */
  lemma S3SplitHead(url: string)
    requires IsS3Url(url)
    ensures |url| >= 5 && SplitScheme(url) == ("s3", url[3..])
    ensures Authority(url[3..]) == SplitNetloc(url[3..], 2)
    ensures SplitNetloc(url[3..], 2).0 + SplitNetloc(url[3..], 2).1 == url[5..]
  {
    S3UrlParts(url);
    S3SchemeFacts();
    SplitSchemeOf("s3", url[3..]);
  }

  /** When `s[i..]` is `a + b`, `a` sits at `i` and `b` starts right after it. */
  lemma SliceOfSplit(s: string, i: nat, a: string, b: string)
    requires i <= |s| && s[i..] == a + b
    ensures i + |a| <= |s| && s[i..i + |a|] == a
    ensures b == [] <==> i + |a| == |s|
    ensures b != [] ==> s[i + |a|] == b[0]
  {
    assert s[i..i + |a|] == s[i..][..|a|];
    if b != [] {
      assert s[i + |a|] == s[i..][|a|];
    }
  }

  /** An s3 URL is "s3", ':' and a rest that starts with "//". */
  lemma S3UrlParts(url: string)
    requires IsS3Url(url)
    ensures url == "s3" + ":" + url[3..]
    ensures |url[3..]| >= 2 && url[3..][..2] == "//" && url[3..][2..] == url[5..]
  {
    assert url[..5] == "s3://";
    assert url[..2] == "s3" && url[2] == ':';
    assert url == url[..2] + [url[2]] + url[3..];
  }

  /**
   `is_s3_url` is case-sensitive where `urlparse` is not: an "S3:" URL is
   rejected by the predicate although its parsed scheme is "s3".
   */
  lemma {:induction false} UpperCaseSchemeRejected(rest: string, url: string)
    requires url == "S3:" + rest && InDomain(url)
    ensures !IsS3Url(url)
    ensures UrlParse(url).scheme == "s3"
  {
    assert url[0] == 'S';
    UpperS3Facts();
    assert "S3" + ":" == "S3:";
    assert url == "S3" + ":" + rest;
    SplitSchemeOf("S3", rest);
    assert SplitScheme(url).0 == "s3";
  }

  /** "S3" is a scheme whose lower-case form is "s3". */
  lemma UpperS3Facts()
    ensures IsScheme("S3") && Lower("S3") == "s3"
  {
    assert IsSchemeChar('S') && IsSchemeChar('3');
    assert Lower("S3") == [LowerChar('S')] + Lower("3");
    assert Lower("3") == [LowerChar('3')] + Lower("");
  }

  /** The predicate is case-sensitive and recognises no other scheme. */
  lemma IsS3UrlExamples()
    ensures IsS3Url("s3://bucket/key")
    ensures !IsS3Url("") && !IsS3Url("/tmp/model.pickle") && !IsS3Url("gs://bucket/key")
    ensures !IsS3Url("S3://bucket/key")
  {
    assert "s3://bucket/key" == "s3://" + "bucket/key";
    assert "/tmp/model.pickle"[0] != "s3://"[0];
    assert "gs://bucket/key"[0] != "s3://"[0];
    assert "S3://bucket/key"[0] != "s3://"[0];
  }

  // ---------------------------------------------------------------------
  // Connections
  // ---------------------------------------------------------------------

  /**
   The credential strategy `connect` chooses: a truthy profile first, then
   an explicit key pair when both halves are truthy, the ambient chain
   otherwise. The chosen profile name or keys are never empty.
   */
  function Connect(profile: Option<string>, accessKeyId: Option<string>,
                   secretAccessKey: Option<string>): (c: Credentials)
    ensures c.Profile? <==> Truthy(profile)
    ensures c.Keys? <==> !Truthy(profile) && Truthy(accessKeyId) && Truthy(secretAccessKey)
    ensures c.Ambient? <==> !Truthy(profile) && !(Truthy(accessKeyId) && Truthy(secretAccessKey))
    ensures c.Profile? ==> Some(c.name) == profile && c.name != ""
    ensures c.Keys? ==> Some(c.accessKeyId) == accessKeyId && Some(c.secretAccessKey) == secretAccessKey
    ensures c.Keys? ==> c.accessKeyId != "" && c.secretAccessKey != ""
  {
    if Truthy(profile) then Profile(profile.value)
    else if Truthy(accessKeyId) && Truthy(secretAccessKey) then
      Keys(accessKeyId.value, secretAccessKey.value)
    else Ambient
  }

  /** A truthy profile wins whatever keys are given. */
  lemma ProfileWins(profile: Option<string>, id1: Option<string>, secret1: Option<string>,
                    id2: Option<string>, secret2: Option<string>)
    requires Truthy(profile)
    ensures Connect(profile, id1, secret1) == Connect(profile, id2, secret2) == Profile(profile.value)
  {
  }

  /** Exactly one key of the pair falls back to the ambient chain; it is not an error. */
  lemma PartialKeyPairIsAmbient(profile: Option<string>, accessKeyId: Option<string>,
                                secretAccessKey: Option<string>)
    requires !Truthy(profile)
    requires Truthy(accessKeyId) != Truthy(secretAccessKey)
    ensures Connect(profile, accessKeyId, secretAccessKey) == Ambient
  {
  }

  /**
   The connection an operation uses (`if s3 is None: s3 = connect()`): the
   given one, or a connection on the ambient chain.
   */
  function ConnectionFor(s3: Option<Credentials>): (c: Credentials)
    ensures s3.Some? ==> c == s3.value
    ensures s3.None? ==> c == Ambient
  {
    if s3.None? then Connect(None, None, None) else s3.value
  }

  // ---------------------------------------------------------------------
  // File transfers
  // ---------------------------------------------------------------------

  /**
   The key `set_from_file` uploads under: a truthy key as given, otherwise
   the base name of the local path, the text after its last '/'.
   */
  function UploadKey(localPath: string, key: Option<string>): (k: string)
    ensures Truthy(key) ==> k == key.value
    ensures !Truthy(key) ==> '/' !in k && |k| <= |localPath| && k == localPath[|localPath| - |k|..]
    ensures !Truthy(key) && |k| < |localPath| ==> localPath[|localPath| - |k| - 1] == '/'
    ensures !Truthy(key) && '/' !in localPath ==> k == localPath
  {
    if !Truthy(key) then Basename(localPath) else key.value
  }

  /** The upload target of `set_from_file`: the given bucket and the defaulted key. */
  function UploadTarget(localPath: string, bucket: string, key: Option<string>): (loc: Locator)
    ensures loc.bucket == bucket
    ensures Truthy(key) ==> loc.key == key.value
    ensures !Truthy(key) ==> loc.key == Basename(localPath) && '/' !in loc.key
  {
    Locator(bucket, UploadKey(localPath, key))
  }

  /** Uploading `d/name` without a key stores it under `name`. */
  lemma {:induction false} DefaultKeyOfJoinedPath(d: string, name: string, key: Option<string>)
    requires '/' !in name
    requires !Truthy(key)
    ensures UploadKey(d + "/" + name, key) == name
  {
    BasenameJoined(d, name);
  }

  /** `/tmp/x/model.bin` without a key, or with "", is stored as `model.bin`. */
  lemma DefaultKeyExample()
    ensures UploadKey("/tmp/x/model.bin", None) == "model.bin"
    ensures UploadKey("/tmp/x/model.bin", Some("")) == "model.bin"
  {
    DefaultKeyOfJoinedPath("/tmp/x", "model.bin", None);
    DefaultKeyOfJoinedPath("/tmp/x", "model.bin", Some(""));
    assert "/tmp/x" + "/" + "model.bin" == "/tmp/x/model.bin";
  }

  /**
   The guard of `get_to_file`: the directory it creates before the download,
   given which paths exist. It creates one exactly when the local path has a
   directory part (it holds a '/') that does not exist yet, and then that
   part: a non-empty prefix of the local path.
   */
  function ParentDirToCreate(localPath: string, pathExists: string -> bool): (d: Option<string>)
    ensures d.Some? <==> '/' in localPath && !pathExists(Dirname(localPath))
    ensures d.Some? ==> d.value == Dirname(localPath)
    ensures d.Some? ==> d.value != "" && |d.value| <= |localPath| && d.value == localPath[..|d.value|]
  {
    var dirname := Dirname(localPath);
    if dirname != "" && !pathExists(dirname) then Some(dirname) else None
  }

  /** A bare file name never creates directories, and neither does an existing directory part. */
  lemma NoMakeDirsCases(localPath: string, pathExists: string -> bool)
    requires '/' !in localPath || pathExists(Dirname(localPath))
    ensures ParentDirToCreate(localPath, pathExists) == None
  {
  }

  /** For `d/name` the directory created is `d` itself, when it does not exist. */
  lemma {:induction false} MakeDirsTarget(d: string, name: string, pathExists: string -> bool)
    requires d != [] && d[|d| - 1] != '/' && '/' !in name
    requires !pathExists(d)
    ensures ParentDirToCreate(d + "/" + name, pathExists) == Some(d)
  {
    SplitJoined(d, name);
  }
}
