/**
 A string-level model of `urllib.parse.urlsplit` and `urllib.parse.urlparse`
 as CPython 3.12 defines them, for the part of their input domain described
 by `InDomain`: text that does not start with a C0 control character or a
 space, holds no tab, CR or LF, and whose authority is ASCII without IPv6
 brackets. On that domain the clean-up the library does first is the
 identity, the IPv6 check never fires and the non-ASCII authority check
 returns at once, so nothing can raise; everything else (scheme
 recognition, authority, fragment, query and `;params` splitting) is
 modelled as the library does it. Path, query and fragment may hold any
 other character, non-ASCII ones included.
 */
module UrlLib {
  import opened PyStr

  datatype SplitResult = SplitResult(
    scheme: string, netloc: string, path: string, query: string, fragment: string)

  datatype ParseResult = ParseResult(
    scheme: string, netloc: string, path: string, params: string, query: string, fragment: string)

  /** The schemes whose last path segment may carry `;params` (`uses_params`). */
  const UsesParams: seq<string> :=
    ["", "ftp", "hdl", "prospero", "http", "imap", "https", "shttp", "rtsp",
     "rtsps", "rtspu", "sip", "sips", "mms", "sftp", "tel"]

  predicate IsAsciiLetter(c: char) {
    'a' <= c <= 'z' || 'A' <= c <= 'Z'
  }

  /** `scheme_chars`: ASCII letters, digits, '+', '-' and '.'. */
  predicate IsSchemeChar(c: char) {
    IsAsciiLetter(c) || '0' <= c <= '9' || c == '+' || c == '-' || c == '.'
  }

  predicate AllSchemeChars(s: string) {
    forall k :: 0 <= k < |s| ==> IsSchemeChar(s[k])
  }

  /** A text the library accepts as a scheme: a letter followed by scheme characters. */
  predicate IsScheme(s: string) {
    |s| > 0 && IsAsciiLetter(s[0]) && AllSchemeChars(s)
  }

  /** `_WHATWG_C0_CONTROL_OR_SPACE`: the characters U+0000 to U+0020, which `urlsplit` strips from the front. */
  predicate IsC0OrSpace(c: char) {
    c <= ' '
  }

  /** `_UNSAFE_URL_BYTES_TO_REMOVE`: tab, CR and LF, which `urlsplit` deletes everywhere. */
  predicate IsUnsafeChar(c: char) {
    c == '\t' || c == '\r' || c == '\n'
  }

  /** No tab, CR or LF in `s`. */
  predicate NoUnsafe(s: string) {
    forall k :: 0 <= k < |s| ==> !IsUnsafeChar(s[k])
  }

  /** `s.isascii()`: every character is below U+0080. */
  predicate IsAsciiText(s: string) {
    forall k :: 0 <= k < |s| ==> s[k] as int < 128
  }

  /**
   The index of the ':' that ends a recognised scheme, or -1. Only the
   first ':' of the URL is considered, and what precedes it must be a scheme.
   */
  function SchemeColon(url: string): (i: int)
    ensures i == -1 || (0 < i < |url| && url[i] == ':' && IsScheme(url[..i]))
    ensures i == -1 ==> forall j :: 0 < j < |url| && url[j] == ':' ==> !IsScheme(url[..j])
  {
    var i := Find(url, ':');
    if i > 0 && IsAsciiLetter(url[0]) && AllSchemeChars(url[..i]) then i
    else
      assert forall j :: 0 < j < |url| && url[j] == ':' ==> !IsScheme(url[..j]) by {
        forall j | 0 < j < |url| && url[j] == ':' ensures !IsScheme(url[..j]) {
          if IsScheme(url[..j]) {
            SchemeEndsAtFirstColon(url, j);
          }
        }
      }
      -1
  }

  /** A scheme holds no ':', so the ':' after it is the first one of the URL. */
  lemma SchemeEndsAtFirstColon(url: string, j: nat)
    requires j < |url| && url[j] == ':' && IsScheme(url[..j])
    ensures Find(url, ':') == j
  {
    assert ':' !in url[..j] by {
      forall k | 0 <= k < j ensures url[..j][k] != ':' {
        assert IsSchemeChar(url[..j][k]);
      }
    }
    FindAt(url, ':', j);
  }

  /**
   The first step of `urlsplit`: the lower-cased scheme and the text after
   its ':', or "" and the whole URL when no scheme is recognised.
   */
  function SplitScheme(url: string): (r: (string, string))
    ensures r.0 == "" ==> r.1 == url
    ensures r.0 != "" ==> IsScheme(r.0) && |r.0| < |url| && url[|r.0|] == ':' && r.0 == Lower(url[..|r.0|]) && r.1 == url[|r.0| + 1..]
  {
    var i := SchemeColon(url);
    if i > 0 then
      LowerKeepsScheme(url[..i]);
      (Lower(url[..i]), url[i + 1..])
    else ("", url)
  }

  /** `min(delim, w)` when `w` is a found position, `delim` otherwise. */
  function Earliest(delim: int, w: int): int {
    if w >= 0 && w < delim then w else delim
  }

  /** True when `c` ends an authority: '/', '?' or '#'. */
  predicate IsAuthorityEnd(c: char) {
    c == '/' || c == '?' || c == '#'
  }

  /**
   `_splitnetloc(url, start)`: the authority runs from `start` up to the
   first '/', '?' or '#' (or the end); the rest begins with that delimiter.
   */
  function SplitNetloc(url: string, start: nat): (r: (string, string))
    requires start <= |url|
    ensures r.0 + r.1 == url[start..]
    ensures '/' !in r.0 && '?' !in r.0 && '#' !in r.0
    ensures r.1 == [] || IsAuthorityEnd(r.1[0])
  {
    var ws := FindFrom(url, '/', start);
    var wq := FindFrom(url, '?', start);
    var wh := FindFrom(url, '#', start);
    var d := Earliest(Earliest(Earliest(|url|, ws), wq), wh);
    assert start <= d <= |url|;
    NotInPrefix(url, '/', start, d, ws);
    NotInPrefix(url, '?', start, d, wq);
    NotInPrefix(url, '#', start, d, wh);
    (url[start..d], url[d..])
  }

  /** Helper for `SplitNetloc`: a delimiter not before `d` is absent from `url[start..d]`. */
  lemma NotInPrefix(url: string, c: char, start: nat, d: nat, w: int)
    requires start <= d <= |url|
    requires w == FindFrom(url, c, start)
    requires w >= 0 ==> d <= w
    ensures c !in url[start..d]
  {
    if w >= 0 {
      forall k | 0 <= k < d - start ensures url[start..d][k] != c {
        assert url[start..d][k] == url[start..w][k];
      }
    } else if start < |url| {
      forall k | 0 <= k < d - start ensures url[start..d][k] != c {
        assert url[start..d][k] == url[start..][k];
      }
    }
  }

  /** True when `rest` starts with "//" (`url[:2] == '//'`). */
  predicate HasAuthority(rest: string) {
    |rest| >= 2 && rest[..2] == "//"
  }

  /**
   The authority of what follows the scheme and the text after it. After
   "//" the authority runs up to the first '/', '?' or '#'; without "//"
   there is none and the text is left whole.
   */
  function Authority(rest: string): (r: (string, string))
    ensures '/' !in r.0 && '?' !in r.0 && '#' !in r.0
    ensures HasAuthority(rest) ==> rest == "//" + r.0 + r.1 && (r.1 == [] || IsAuthorityEnd(r.1[0]))
    ensures !HasAuthority(rest) ==> r == ("", rest)
  {
    if HasAuthority(rest) then
      assert rest == rest[..2] + rest[2..];
      SplitNetloc(rest, 2)
    else ("", rest)
  }

  /**
   The inputs this model covers (see the module comment): the first
   character is not stripped, no character is deleted, and the authority is
   ASCII without IPv6 brackets.
   */
  predicate InDomain(url: string) {
    && (url == [] || !IsC0OrSpace(url[0]))
    && NoUnsafe(url)
    && var netloc := Authority(SplitScheme(url).1).0;
      IsAsciiText(netloc) && '[' !in netloc && ']' !in netloc
  }

  /**
   `url.split(c, 1)` when `c` occurs in `url`, `(url, "")` otherwise: the
   text before the first `c` and the text after it.
   */
  function SplitFirst(url: string, c: char): (r: (string, string))
    ensures c !in r.0
    ensures c in url ==> url == r.0 + [c] + r.1
    ensures c !in url ==> r == (url, "")
  {
    if c in url then SplitOnce(url, c) else (url, "")
  }

  /**
   How the text after the path is made: nothing; "?" and the query; "?",
   the query, "#" and the fragment; or "#" and the fragment.
   */
  predicate TailOf(t: string, query: string, fragment: string) {
    || (t == "" && query == "" && fragment == "")
    || ('#' !in t && t == "?" + query && fragment == "")
    || t == "?" + query + "#" + fragment
    || (t == "#" + fragment && query == "")
  }

  /**
   Splitting off the fragment and then the query leaves a path that is a
   prefix of the text, followed by a tail built from the query and fragment.
   */
  lemma {:induction false} PathQueryFragment(x: string)
    ensures var fr := SplitFirst(x, '#'); var pq := SplitFirst(fr.0, '?');
      |pq.0| <= |x| && x[..|pq.0|] == pq.0 && TailOf(x[|pq.0|..], pq.1, fr.1)
  {
    var fr := SplitFirst(x, '#');
    var pq := SplitFirst(fr.0, '?');
    if '#' !in x {
      QueryTail(x);
    } else {
      var t := if '?' !in fr.0 then "#" + fr.1 else "?" + pq.1 + "#" + fr.1;
      assert x == pq.0 + t;
      assert x[..|pq.0|] == pq.0 && x[|pq.0|..] == t;
    }
  }

  /** Helper for `PathQueryFragment`: a text without '#' is the path and, after a '?', the query. */
  lemma QueryTail(y: string)
    requires '#' !in y
    ensures var pq := SplitFirst(y, '?');
      |pq.0| <= |y| && y[..|pq.0|] == pq.0 && TailOf(y[|pq.0|..], pq.1, "")
  {
    var pq := SplitFirst(y, '?');
    var t := if '?' !in y then "" else "?" + pq.1;
    assert y == pq.0 + t;
    assert y[..|pq.0|] == pq.0 && y[|pq.0|..] == t;
    NotInSlice(y, '#', |pq.0|, |y|);
  }

  /** `urlsplit(url)`: scheme, authority, path, query and fragment. */
  function UrlSplit(url: string): (r: SplitResult)
    requires InDomain(url)
    ensures '/' !in r.netloc && '?' !in r.netloc && '#' !in r.netloc
    ensures '?' !in r.path && '#' !in r.path && '#' !in r.query
    ensures r.scheme == "" || IsScheme(r.scheme)
  {
    var sch := SplitScheme(url);
    var auth := Authority(sch.1);
    var frag := SplitFirst(auth.1, '#');
    var pq := SplitFirst(frag.0, '?');
    assert '#' !in pq.0 && '#' !in pq.1 by {
      assert pq == (frag.0, "") || frag.0 == pq.0 + ['?'] + pq.1;
    }
    SplitResult(sch.0, auth.0, pq.0, pq.1, frag.1)
  }

  /**
   What follows the scheme is rebuilt from the parts `urlsplit` returns:
   "//" and the authority when that text starts with "//" (the authority
   then ending at the end, a '/', a '?' or a '#'), then the path, then a tail
   made of the query and the fragment.
   */
  lemma {:induction false} UrlSplitRebuilds(url: string)
    requires InDomain(url)
    ensures var s := UrlSplit(url); var rest := SplitScheme(url).1;
      && s.scheme == SplitScheme(url).0
      && Rebuilds(rest, s.netloc, s.path, s.query, s.fragment)
  {
    var rest := SplitScheme(url).1;
    var a := Authority(rest);
    var fr := SplitFirst(a.1, '#');
    var pq := SplitFirst(fr.0, '?');
    assert UrlSplit(url) == SplitResult(SplitScheme(url).0, a.0, pq.0, pq.1, fr.1);
    RestRebuilds(rest);
  }

  /**
   `rest` is "//" and `netloc` when it starts with "//" (the authority then
   ending at the end, a '/', a '?' or a '#'), then `path`, then a tail made
   of `query` and `fragment`.
   */
  predicate Rebuilds(rest: string, netloc: string, path: string, query: string, fragment: string) {
    var h := if HasAuthority(rest) then 2 + |netloc| else 0;
    && h + |path| <= |rest|
    && (h == 0 ==> netloc == "")
    && (h > 0 ==> rest[..h] == "//" + netloc && (h == |rest| || IsAuthorityEnd(rest[h])))
    && rest[h..h + |path|] == path
    && TailOf(rest[h + |path|..], query, fragment)
  }

  /** The authority, fragment and query steps of `urlsplit` rebuild the text they split. */
  lemma {:induction false} RestRebuilds(rest: string)
    ensures var a := Authority(rest); var fr := SplitFirst(a.1, '#'); var pq := SplitFirst(fr.0, '?');
      Rebuilds(rest, a.0, pq.0, pq.1, fr.1)
  {
    var a := Authority(rest);
    var fr := SplitFirst(a.1, '#');
    var pq := SplitFirst(fr.0, '?');
    AuthorityRest(rest);
    PathQueryFragment(a.1);
    RebuildsFromParts(rest, a.0, a.1, pq.0, pq.1, fr.1);
  }

  /** Helper for `RestRebuilds`: the authority step and the path step put together. */
  lemma RebuildsFromParts(rest: string, netloc: string, x: string, path: string, query: string, fragment: string)
    requires var h := if HasAuthority(rest) then 2 + |netloc| else 0;
      && h <= |rest| && rest[h..] == x && (h == 0 ==> netloc == "")
      && (h > 0 ==> rest[..h] == "//" + netloc && (h == |rest| || IsAuthorityEnd(rest[h])))
    requires |path| <= |x| && x[..|path|] == path && TailOf(x[|path|..], query, fragment)
    ensures Rebuilds(rest, netloc, path, query, fragment)
  {
    var h := if HasAuthority(rest) then 2 + |netloc| else 0;
    RestAfter(rest, h, x, path);
  }

  /** Helper for `RestRebuilds`: where the text after the authority starts. */
  lemma AuthorityRest(rest: string)
    ensures var a := Authority(rest); var h := if HasAuthority(rest) then 2 + |a.0| else 0;
      h <= |rest| && rest[h..] == a.1 && (h == 0 ==> a.0 == "")
      && (h > 0 ==> rest[..h] == "//" + a.0 && (h == |rest| || IsAuthorityEnd(rest[h])))
  {
    var a := Authority(rest);
    if HasAuthority(rest) {
      var h := 2 + |a.0|;
      assert rest[..h] == "//" + a.0 && rest[h..] == a.1;
      if h < |rest| {
        assert rest[h] == a.1[0];
      }
    }
  }

  /** Helper for `RebuildsFromParts`: a prefix of `rest[h..]` sits at `h` in `rest`. */
  lemma RestAfter(rest: string, h: nat, x: string, p: string)
    requires h <= |rest| && rest[h..] == x
    requires |p| <= |x| && x[..|p|] == p
    ensures h + |p| <= |rest| && rest[h..h + |p|] == p && rest[h + |p|..] == x[|p|..]
  {
    assert rest[h..h + |p|] == x[..|p|];
  }

  /** Lower-casing a scheme leaves a scheme. */
  lemma LowerKeepsScheme(s: string)
    requires IsScheme(s)
    ensures IsScheme(Lower(s))
  {
    var l := Lower(s);
    forall k | 0 <= k < |s| ensures IsSchemeChar(l[k]) {
      assert l[k] == LowerChar(s[k]);
    }
  }

  /**
   `_splitparams(path)`: cut `path` at the first ';' of its last segment
   (after its last '/'), or at its first ';' when it has no '/'.
   */
  function SplitParams(path: string): (r: (string, string))
    requires ';' in path
    ensures |r.0| <= |path| && r.0 == path[..|r.0|]
    ensures r.0 == path || r.0 + ";" + r.1 == path
    ensures r.0 == path ==> r.1 == ""
    ensures '/' in path ==> |r.0| >= RFind(path, '/')
    ensures '/' in path ==> forall k :: RFind(path, '/') <= k < |r.0| ==> r.0[k] != ';'
    ensures '/' !in path ==> ';' !in r.0 && r.0 + ";" + r.1 == path
  {
    if '/' in path then
      var start := RFind(path, '/');
      var i := FindFrom(path, ';', start);
      NoSemicolonFrom(path, start, i);
      if i < 0 then (path, "")
      else
        CutAt(path, i);
        (path[..i], path[i + 1..])
    else
      var i := Find(path, ';');
      CutAt(path, i);
      (path[..i], path[i + 1..])
  }

  /** Helper for `SplitParams`: no ';' from `start` up to the one `find` returned. */
  lemma NoSemicolonFrom(path: string, start: nat, i: int)
    requires start <= |path| && i == FindFrom(path, ';', start)
    ensures var e := if i < 0 then |path| else i; forall k :: start <= k < e ==> path[k] != ';'
  {
    if i < 0 {
      if start < |path| {
        assert forall k :: start <= k < |path| ==> path[k] == path[start..][k - start];
      }
    } else {
      assert forall k :: start <= k < i ==> path[k] == path[start..i][k - start];
    }
  }

  /** Helper for `SplitParams`: a text is what comes before and after one of its ';'. */
  lemma CutAt(path: string, i: int)
    requires 0 <= i < |path| && path[i] == ';'
    ensures path[..i] + ";" + path[i + 1..] == path
  {
  }

  /** The path and `;params` of `urlparse`: split only for the schemes in `UsesParams`. */
  function PathParams(scheme: string, path: string): (r: (string, string))
    ensures |r.0| <= |path| && r.0 == path[..|r.0|]
    ensures r.0 == path || r.0 + ";" + r.1 == path
    ensures r.0 == path ==> r.1 == ""
    ensures scheme !in UsesParams || ';' !in path ==> r == (path, "")
  {
    if scheme in UsesParams && ';' in path then SplitParams(path) else (path, "")
  }

  /** `urlparse(url)`: `urlsplit` followed by `;params` splitting for the schemes that use it. */
  function UrlParse(url: string): (r: ParseResult)
    requires InDomain(url)
    ensures '/' !in r.netloc && '?' !in r.netloc && '#' !in r.netloc
    ensures '?' !in r.path && '#' !in r.path
    ensures r.scheme !in UsesParams ==> r.params == ""
    ensures var s := UrlSplit(url);
      r.scheme == s.scheme && r.netloc == s.netloc && r.query == s.query && r.fragment == s.fragment
      && |r.path| <= |s.path| && r.path == s.path[..|r.path|]
    ensures var s := UrlSplit(url); r.scheme !in UsesParams || ';' !in s.path ==> r.path == s.path && r.params == ""
    ensures var s := UrlSplit(url); r.scheme in UsesParams && ';' in s.path ==> (r.path, r.params) == SplitParams(s.path)
    ensures var s := UrlSplit(url); r.path == s.path || r.path + ";" + r.params == s.path
  {
    var s := UrlSplit(url);
    var pp := PathParams(s.scheme, s.path);
    NotInSlice(s.path, '?', 0, |pp.0|);
    NotInSlice(s.path, '#', 0, |pp.0|);
    ParseResult(s.scheme, s.netloc, pp.0, pp.1, s.query, s.fragment)
  }

  /** Concatenating texts without tab, CR or LF gives such a text. */
  lemma NoUnsafeConcat(a: string, b: string)
    requires NoUnsafe(a) && NoUnsafe(b)
    ensures NoUnsafe(a + b)
  {
    forall k | 0 <= k < |a + b| ensures !IsUnsafeChar((a + b)[k]) {
      if k >= |a| { assert (a + b)[k] == b[k - |a|]; }
    }
  }

  /** `Find` locates a character at `i` when it occurs there and not before. */
  lemma FindAt(s: string, c: char, i: nat)
    requires i < |s| && s[i] == c && c !in s[..i]
    ensures Find(s, c) == i
  {
  }

  /** After a scheme and its ':', the rest is handed on unchanged. */
  lemma {:induction false} SplitSchemeOf(scheme: string, rest: string)
    requires IsScheme(scheme)
    ensures SplitScheme(scheme + ":" + rest) == (Lower(scheme), rest)
  {
    var url := scheme + ":" + rest;
    assert url[..|scheme|] == scheme;
    assert ':' !in scheme by {
      forall k | 0 <= k < |scheme| ensures scheme[k] != ':' {
        assert IsSchemeChar(scheme[k]);
      }
    }
    FindAt(url, ':', |scheme|);
    assert url[|scheme| + 1..] == rest;
  }

  /** Two ways of cutting one text before its first authority delimiter agree. */
  lemma CutAtDelimiter(x: string, y: string, b: string, path: string)
    requires x + y == b + path
    requires '/' !in x && '?' !in x && '#' !in x
    requires y == [] || IsAuthorityEnd(y[0])
    requires '/' !in b && '?' !in b && '#' !in b
    requires path == [] || path[0] == '/'
    ensures x == b && y == path
  {
    assert forall i :: 0 <= i < |b| ==> (b + path)[i] == b[i];
    assert forall i :: 0 <= i < |x| ==> (x + y)[i] == x[i];
    assert |y| > 0 ==> (x + y)[|x|] == y[0];
    assert |path| > 0 ==> (b + path)[|b|] == path[0];
    assert |x| == |b|;
    assert x == (x + y)[..|x|];
    assert b == (b + path)[..|b|];
  }

  /** An authority free of delimiters, followed by a path that starts with '/', is split there. */
  lemma {:induction false} SplitNetlocOf(b: string, path: string)
    requires '/' !in b && '?' !in b && '#' !in b
    requires path == [] || path[0] == '/'
    ensures SplitNetloc("//" + b + path, 2) == (b, path)
  {
    var url := "//" + b + path;
    assert url[2..] == b + path;
    var r := SplitNetloc(url, 2);
    CutAtDelimiter(r.0, r.1, b, path);
  }

  /**
   `urlsplit(scheme + "://" + b + path)` for a delimiter-free authority `b`
   and a path without query or fragment: the lower-cased scheme, `b` and `path`.
   */
  lemma {:induction false} SplitAuthorityAndPath(scheme: string, b: string, path: string, url: string)
    requires IsScheme(scheme)
    requires IsAsciiText(b) && NoUnsafe(b) && NoUnsafe(path)
    requires '/' !in b && '?' !in b && '#' !in b && '[' !in b && ']' !in b
    requires path == [] || path[0] == '/'
    requires '?' !in path && '#' !in path
    requires url == scheme + "://" + b + path
    ensures InDomain(url)
    ensures UrlSplit(url) == SplitResult(Lower(scheme), b, path, "", "")
  {
    var rest := "//" + b + path;
    SchemeSeparator(scheme, b, path);
    SplitSchemeOf(scheme, rest);
    SplitNetlocOf(b, path);
    assert Authority(rest) == (b, path) by {
      assert rest[..2] == "//";
    }
    SafeUrl(scheme, b, path);
    assert url[0] == scheme[0];
    assert SplitFirst(path, '#') == (path, "");
    assert SplitFirst(path, '?') == (path, "");
  }

  /** "://" is ':' followed by "//". */
  lemma SchemeSeparator(scheme: string, b: string, path: string)
    ensures scheme + "://" + b + path == scheme + ":" + ("//" + b + path)
  {
    assert "://" == ":" + "//";
  }

  /** A URL built from a scheme and parts without tab, CR or LF has none. */
  lemma SafeUrl(scheme: string, b: string, path: string)
    requires IsScheme(scheme) && NoUnsafe(b) && NoUnsafe(path)
    ensures NoUnsafe(scheme + "://" + b + path)
  {
    assert NoUnsafe(scheme + "://") by {
      forall k | 0 <= k < |scheme| + 3 ensures !IsUnsafeChar((scheme + "://")[k]) {
        if k < |scheme| {
          assert IsSchemeChar(scheme[k]);
        }
      }
    }
    NoUnsafeConcat(scheme + "://", b);
    NoUnsafeConcat(scheme + "://" + b, path);
  }
}
