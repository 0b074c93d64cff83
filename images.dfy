/**
 * `image_downloader.py`: file names for diagram images, the cache of
 * already-downloaded URLs and the download statistics. The network
 * download itself is an oracle `download(url, filepath)` that reports
 * success or failure.
 */
module Images {
  import opened Wrappers
  import opened JsonModel
  import opened Text

  // ---------------------------------------------------------------------
  // Searching in strings
  // ---------------------------------------------------------------------

  /** `s.find(c, start)`: the first index at or after `start` holding `c`, or -1. */
  function FindFrom(s: string, c: char, start: nat): (i: int)
    ensures i == -1 || start <= i < |s|
    ensures i >= 0 ==> s[i] == c
    ensures forall k :: start <= k < |s| && (i < 0 || k < i) ==> s[k] != c
    decreases |s| - start
  {
    if start >= |s| then -1
    else if s[start] == c then start
    else FindFrom(s, c, start + 1)
  }

  /** `s.rfind(c)`: the last index holding `c`, or -1. */
  function RFind(s: string, c: char): (i: int)
    ensures -1 <= i < |s|
    ensures i >= 0 ==> s[i] == c
    ensures forall k :: i < k < |s| ==> s[k] != c
  {
    if s == [] then -1
    else if s[|s| - 1] == c then |s| - 1
    else RFind(s[..|s| - 1], c)
  }

  // ---------------------------------------------------------------------
  // `urllib.parse.urlparse(url).path`, as in Python 3.12
  // ---------------------------------------------------------------------

  /** A call that returns `value`, or raises `ValueError("Invalid IPv6 URL")` inside `urlparse`. */
  datatype Outcome<T> = Returns(value: T) | InvalidUrl

  predicate IsAsciiLetter(c: char) {
    'a' <= c <= 'z' || 'A' <= c <= 'Z'
  }

  /** `urllib.parse.scheme_chars`. */
  predicate SchemeChar(c: char) {
    IsAsciiLetter(c) || '0' <= c <= '9' || c == '+' || c == '-' || c == '.'
  }

  /** `urllib.parse.uses_params`: the schemes whose last path segment may carry `;params`. */
  const UsesParams: seq<string> :=
    ["", "ftp", "hdl", "prospero", "http", "imap", "https", "shttp", "rtsp", "rtsps", "rtspu",
     "sip", "sips", "mms", "sftp", "tel"]

  /** `_WHATWG_C0_CONTROL_OR_SPACE`: the characters `urlsplit` strips from the front of a URL. */
  predicate ControlOrSpace(c: char) {
    c <= ' '
  }

  /** `_UNSAFE_URL_BYTES_TO_REMOVE`: tab, carriage return and line feed. */
  predicate Unsafe(c: char) {
    c == '\t' || c == '\r' || c == '\n'
  }

  /** Text holding no tab, carriage return or line feed. */
  predicate SafeText(s: string) {
    forall k :: 0 <= k < |s| ==> !Unsafe(s[k])
  }

  /** `url.lstrip(_WHATWG_C0_CONTROL_OR_SPACE)`. */
  function LStripControls(url: string): (r: string)
    ensures |r| <= |url| && r == url[|url| - |r|..]
    ensures forall k :: 0 <= k < |url| - |r| ==> ControlOrSpace(url[k])
    ensures r == [] || !ControlOrSpace(r[0])
  {
    if url != [] && ControlOrSpace(url[0]) then LStripControls(url[1..]) else url
  }

  /** Removes every tab, carriage return and line feed, keeping the other characters in order. */
  function RemoveUnsafe(s: string): (r: string)
    ensures SafeText(r) && |r| <= |s|
    ensures SafeText(s) ==> r == s
  {
    if s == [] then []
    else (if Unsafe(s[0]) then [] else [s[0]]) + RemoveUnsafe(s[1..])
  }

  /** Removing tabs and line breaks works piece by piece. */
  lemma {:induction false} RemoveUnsafeAppend(a: string, b: string)
    ensures RemoveUnsafe(a + b) == RemoveUnsafe(a) + RemoveUnsafe(b)
  {
    if a != [] {
      var head := if Unsafe(a[0]) then [] else [a[0]];
      calc {
        RemoveUnsafe(a + b);
        == { assert (a + b)[0] == a[0] && (a + b)[1..] == a[1..] + b; }
        head + RemoveUnsafe(a[1..] + b);
        == { RemoveUnsafeAppend(a[1..], b); }
        head + (RemoveUnsafe(a[1..]) + RemoveUnsafe(b));
        == { assert head + (RemoveUnsafe(a[1..]) + RemoveUnsafe(b)) == (head + RemoveUnsafe(a[1..])) + RemoveUnsafe(b); }
        RemoveUnsafe(a) + RemoveUnsafe(b);
      }
    } else {
      assert a + b == b;
    }
  }

  /**
   * The text `urlsplit` goes on to parse: the leading controls and spaces
   * stripped, then every tab and line break removed.
   */
  function Sanitise(url: string): (r: string)
    ensures SafeText(r)
    ensures r == [] || !ControlOrSpace(r[0])
  {
    RemoveUnsafe(LStripControls(url))
  }

  /** A URL that starts with a visible character and holds no tab or line break is parsed as it is. */
  lemma SanitiseClean(url: string)
    requires SafeText(url) && (url == [] || !ControlOrSpace(url[0]))
    ensures Sanitise(url) == url
  {
  }

  /** Sanitising twice is sanitising once. */
  lemma SanitiseIdempotent(url: string)
    ensures Sanitise(Sanitise(url)) == Sanitise(url)
  {
    SanitiseClean(Sanitise(url));
  }

  /** Stripping the front of `x + y` stops inside `x` unless `x` is all controls and spaces. */
  lemma {:induction false} LStripAppend(x: string, y: string)
    ensures LStripControls(x) != [] ==> LStripControls(x + y) == LStripControls(x) + y
    ensures LStripControls(x) == [] ==> LStripControls(x + y) == LStripControls(y)
  {
    if x != [] {
      assert (x + y)[0] == x[0];
      if ControlOrSpace(x[0]) {
        assert (x + y)[1..] == x[1..] + y;
        LStripAppend(x[1..], y);
      }
    } else {
      assert x + y == y;
    }
  }

  /** Removing tabs and line breaks drops one placed between two pieces. */
  lemma RemoveUnsafeSkips(s: string, c: char, b: string)
    requires Unsafe(c)
    ensures RemoveUnsafe(s + ([c] + b)) == RemoveUnsafe(s + b)
  {
    RemoveUnsafeAppend(s, [c] + b);
    RemoveUnsafeAppend(s, b);
    assert ([c] + b)[0] == c && ([c] + b)[1..] == b;
  }

  /** A tab, carriage return or line feed anywhere in a URL is ignored. */
  lemma SanitiseSkipsUnsafe(a: string, c: char, b: string)
    requires Unsafe(c)
    ensures Sanitise(a + [c] + b) == Sanitise(a + b)
  {
    var s := LStripControls(a);
    if s != [] {
      calc {
        Sanitise(a + [c] + b);
        == { assert a + [c] + b == a + ([c] + b); LStripAppend(a, [c] + b); }
        RemoveUnsafe(s + ([c] + b));
        == { RemoveUnsafeSkips(s, c, b); }
        RemoveUnsafe(s + b);
        == { LStripAppend(a, b); }
        Sanitise(a + b);
      }
    } else {
      calc {
        Sanitise(a + [c] + b);
        == { assert a + [c] + b == a + ([c] + b); LStripAppend(a, [c] + b); }
        RemoveUnsafe(LStripControls([c] + b));
        == { assert ([c] + b)[0] == c && ([c] + b)[1..] == b; }
        RemoveUnsafe(LStripControls(b));
        == { LStripAppend(a, b); }
        Sanitise(a + b);
      }
    }
  }

  /** The scheme (lower-cased) and what follows its colon; no scheme leaves the URL whole. */
  function SplitScheme(url: string): (r: (string, string))
    ensures |r.1| <= |url| && r.1 == url[|url| - |r.1|..]
  {
    var i := FindFrom(url, ':', 0);
    if i > 0 && IsAsciiLetter(url[0]) && forall k :: 0 <= k < i ==> SchemeChar(url[k])
    then (Lower(url[..i]), url[i + 1..])
    else ("", url)
  }

  /** The end of the network location: the first `/`, `?` or `#` at or after `start`. */
  function NetlocEnd(s: string, start: nat): (e: nat)
    requires start <= |s|
    ensures start <= e <= |s|
    ensures forall k :: start <= k < e ==> s[k] != '/' && s[k] != '?' && s[k] != '#'
    ensures e < |s| ==> s[e] == '/' || s[e] == '?' || s[e] == '#'
    decreases |s| - start
  {
    if start == |s| || s[start] == '/' || s[start] == '?' || s[start] == '#' then start
    else NetlocEnd(s, start + 1)
  }

  /** Whether what follows the scheme starts with `//`, and so names a network location. */
  predicate HasNetloc(rest: string) {
    |rest| >= 2 && rest[..2] == "//"
  }

  /** The network location after `//`, or `""`. */
  function Netloc(rest: string): string {
    if HasNetloc(rest) then rest[2..NetlocEnd(rest, 2)] else ""
  }

  /** Drops a `//netloc` prefix. */
  function DropNetloc(rest: string): (r: string)
    ensures |r| <= |rest| && r == rest[|rest| - |r|..]
  {
    if HasNetloc(rest) then rest[NetlocEnd(rest, 2)..] else rest
  }

  /** `urlsplit` rejects a network location holding `[` without `]`, or `]` without `[`. */
  predicate UnmatchedBracket(netloc: string) {
    ('[' in netloc) != (']' in netloc)
  }

  /** Cuts `s` before the first `c`, if any. */
  function CutAt(s: string, c: char): (r: string)
    ensures c !in r && r <= s
  {
    var i := FindFrom(s, c, 0);
    if i < 0 then s else s[..i]
  }

  /** `_splitparams`: cuts the path before the `;` of its last segment. */
  function DropParams(path: string): string {
    if ';' !in path then path
    else if '/' in path then
      var i := FindFrom(path, ';', RFind(path, '/'));
      if i < 0 then path else path[..i]
    else path[..FindFrom(path, ';', 0)]
  }

  /**
   * The path component of `urlparse(url)`, or the `ValueError` that
   * `urlsplit` raises for an unmatched bracket in the network location.
   */
  function UrlPath(url: string): Outcome<string> {
    var parts := SplitScheme(Sanitise(url));
    PathAfterScheme(parts.0, parts.1)
  }

  /**
   * The path `urlparse` finds in `rest`, the text after the scheme `scheme`,
   * or the `ValueError` for an unmatched bracket in the network location.
   */
  function PathAfterScheme(scheme: string, rest: string): Outcome<string> {
    if UnmatchedBracket(Netloc(rest)) then InvalidUrl
    else
      var path := CutAt(CutAt(DropNetloc(rest), '#'), '?');
      Returns(if scheme in UsesParams then DropParams(path) else path)
  }

  /** A URL `urlparse` accepts. */
  predicate ValidUrl(url: string) {
    UrlPath(url).Returns?
  }

  lemma PrefixLacks(a: string, b: string, c: char)
    requires a <= b && c !in b
    ensures c !in a
  {
    forall k | 0 <= k < |a| ensures a[k] != c {
      assert a[k] == b[k];
    }
  }

  lemma SafePrefix(a: string, b: string)
    requires a <= b && SafeText(b)
    ensures SafeText(a)
  {
    forall k | 0 <= k < |a| ensures !Unsafe(a[k]) {
      assert a[k] == b[k];
    }
  }

  lemma SafeSuffix(a: string, b: string)
    requires |a| <= |b| && a == b[|b| - |a|..] && SafeText(b)
    ensures SafeText(a)
  {
    forall k | 0 <= k < |a| ensures !Unsafe(a[k]) {
      assert a[k] == b[|b| - |a| + k];
    }
  }

  lemma DropParamsPrefix(path: string)
    ensures DropParams(path) <= path
  {
  }

  /** Parsing a URL is parsing its sanitised text. */
  lemma UrlPathSanitised(url: string)
    ensures UrlPath(url) == UrlPath(Sanitise(url))
  {
    SanitiseIdempotent(url);
  }

  /** A tab or line break anywhere in a URL changes neither its path nor whether `urlparse` raises. */
  lemma UrlPathSkipsUnsafe(a: string, c: char, b: string)
    requires Unsafe(c)
    ensures UrlPath(a + [c] + b) == UrlPath(a + b)
  {
    SanitiseSkipsUnsafe(a, c, b);
  }

  /** The path holds no query, no fragment, and no tab or line break. */
  lemma UrlPathCut(url: string)
    ensures UrlPath(url).Returns? ==>
      var path := UrlPath(url).value;
      '?' !in path && '#' !in path && SafeText(path)
  {
    var parts := SplitScheme(Sanitise(url));
    SafeSuffix(parts.1, Sanitise(url));
    PathAfterSchemeCut(parts.0, parts.1);
  }

  lemma PathAfterSchemeCut(scheme: string, rest: string)
    requires SafeText(rest)
    ensures PathAfterScheme(scheme, rest).Returns? ==>
      var path := PathAfterScheme(scheme, rest).value;
      '?' !in path && '#' !in path && SafeText(path)
  {
    var dropped := DropNetloc(rest);
    SafeSuffix(dropped, rest);
    var cut := CutAt(dropped, '#');
    var path := CutAt(cut, '?');
    PrefixLacks(path, cut, '#');
    SafePrefix(cut, dropped);
    SafePrefix(path, cut);
    DropParamsPrefix(path);
    PrefixLacks(DropParams(path), path, '?');
    PrefixLacks(DropParams(path), path, '#');
    SafePrefix(DropParams(path), path);
  }

  // ---------------------------------------------------------------------
  // `os.path.splitext` and `get_file_extension`
  // ---------------------------------------------------------------------

  /** The last segment of `p` has something other than a dot before the dot at `dot`. */
  predicate NamedBeforeDot(p: string, sep: int, dot: int)
    requires -1 <= sep < dot < |p|
  {
    exists k :: sep + 1 <= k < dot && p[k] != '.'
  }

  /**
   * The extension `os.path.splitext(p)` splits off: from the last dot of the
   * last segment, unless that segment is only dots up to it.
   */
  function SplitExt(p: string): (ext: string)
    ensures ext == [] || (ext[0] == '.' && '/' !in ext && |ext| <= |p| && ext == p[|p| - |ext|..])
  {
    var sep := RFind(p, '/');
    var dot := RFind(p, '.');
    if dot > sep && NamedBeforeDot(p, sep, dot) then p[dot..] else []
  }

  /** The lower-cased extension of a path, `.jpg` when there is none. */
  function PathExtension(path: string): (ext: string)
    ensures ext != [] && ext[0] == '.' && '/' !in ext
    ensures forall k :: 0 <= k < |ext| ==> !('A' <= ext[k] <= 'Z')
  {
    var e := SplitExt(path);
    if e != [] then Lower(e) else ".jpg"
  }

  /** `get_file_extension(url)`: it raises exactly when `urlparse` does. */
  function FileExtension(url: string): (ext: Outcome<string>)
    ensures ext.InvalidUrl? <==> !ValidUrl(url)
    ensures ext.Returns? ==> ext.value != [] && ext.value[0] == '.'
  {
    match UrlPath(url)
    case InvalidUrl => InvalidUrl
    case Returns(path) => Returns(PathExtension(path))
  }

  /** `s + t` cut at `c` keeps all of `s` when `s` holds no `c`. */
  lemma CutAtAppend(s: string, t: string, c: char)
    requires c !in s
    ensures CutAt(s + t, c) == s + CutAt(t, c)
  {
    var i := FindFrom(s + t, c, 0);
    var j := FindFrom(t, c, 0);
    assert forall k :: 0 <= k < |s| ==> (s + t)[k] == s[k];
    assert forall k :: 0 <= k < |t| ==> (s + t)[|s| + k] == t[k];
    if j >= 0 {
      assert i == |s| + j;
      assert (s + t)[..i] == s + t[..j];
    } else {
      assert i == -1;
    }
  }

  lemma NetlocEndAt(s: string, start: nat, e: nat)
    requires start <= e <= |s|
    requires e < |s| ==> s[e] == '/' || s[e] == '?' || s[e] == '#'
    requires forall k :: start <= k < e ==> s[k] != '/' && s[k] != '?' && s[k] != '#'
    ensures NetlocEnd(s, start) == e
  {
  }

  lemma HttpsScheme(rest: string)
    ensures SplitScheme("https:" + rest) == ("https", rest)
  {
    var url := "https:" + rest;
    assert url[5] == ':';
    assert forall k :: 0 <= k < 5 ==> url[k] == "https"[k];
    assert FindFrom(url, ':', 0) == 5;
    assert url[..5] == "https" && url[6..] == rest;
    assert forall k :: 0 <= k < 5 ==> Lower("https")[k] == "https"[k];
    assert Lower("https") == "https";
  }

  /** A host: no `/`, `?` or `#`, which would end the network location. */
  predicate HostText(host: string) {
    forall k :: 0 <= k < |host| ==> host[k] != '/' && host[k] != '?' && host[k] != '#'
  }

  /** `//host` is the network location, up to the `/`, `?` or `#` that ends it, if any. */
  lemma SplitHost(host: string, pathTail: string)
    requires HostText(host)
    requires pathTail == [] || pathTail[0] == '/' || pathTail[0] == '?' || pathTail[0] == '#'
    ensures Netloc("//" + host + pathTail) == host
    ensures DropNetloc("//" + host + pathTail) == pathTail
  {
    var rest := "//" + host + pathTail;
    forall k | 2 <= k < 2 + |host| ensures rest[k] != '/' && rest[k] != '?' && rest[k] != '#' {
      assert rest[k] == host[k - 2];
    }
    NetlocEndAt(rest, 2, 2 + |host|);
    assert rest[..2] == "//";
    assert rest[2..2 + |host|] == host;
    assert rest[2 + |host|..] == pathTail;
  }

  lemma SafeAppend(a: string, b: string)
    requires SafeText(a) && SafeText(b)
    ensures SafeText(a + b)
  {
    forall k | 0 <= k < |a + b| ensures !Unsafe((a + b)[k]) {
      if k >= |a| {
        assert (a + b)[k] == b[k - |a|];
      }
    }
  }

  /** An `https` URL with no tab or line break is parsed as written. */
  lemma HttpsSanitised(rest: string)
    requires SafeText(rest)
    ensures Sanitise("https:" + rest) == "https:" + rest
  {
    SafeAppend("https:", rest);
    SanitiseClean("https:" + rest);
  }

  /** The path of an `https` URL with no tab or line break is the path of what follows `https:`. */
  lemma HttpsUrlPath(rest: string)
    requires SafeText(rest)
    ensures UrlPath("https:" + rest) == PathAfterScheme("https", rest)
  {
    HttpsSanitised(rest);
    HttpsScheme(rest);
  }

  /** After `https:`, the path of `//host/path?query` is `/path` when the host's brackets match. */
  lemma HttpsRestPath(host: string, path: string, tail: string)
    requires HostText(host) && !UnmatchedBracket(host)
    requires path != [] && path[0] == '/' && '#' !in path && '?' !in path && ';' !in path
    requires tail == [] || tail[0] == '?' || tail[0] == '#'
    ensures PathAfterScheme("https", "//" + host + path + tail) == Returns(path)
  {
    assert "//" + host + path + tail == "//" + host + (path + tail);
    SplitHost(host, path + tail);
    CutPathTail(path, tail);
    assert DropParams(path) == path;
  }

  /**
   * A path without `#`, `?` or `;`, after `//host` with matched brackets,
   * with an optional `?query` or `#fragment`.
   */
  lemma HttpsPath(host: string, path: string, tail: string)
    requires HostText(host) && !UnmatchedBracket(host)
    requires SafeText(host) && SafeText(path) && SafeText(tail)
    requires path != [] && path[0] == '/' && '#' !in path && '?' !in path && ';' !in path
    requires tail == [] || tail[0] == '?' || tail[0] == '#'
    ensures UrlPath("https:" + ("//" + host + path + tail)) == Returns(path)
  {
    var rest := "//" + host + path + tail;
    SafeAppend("//", host);
    SafeAppend("//" + host, path);
    SafeAppend("//" + host + path, tail);
    HttpsUrlPath(rest);
    HttpsRestPath(host, path, tail);
  }

  /** An `https` URL whose host holds `[` without `]`, or `]` without `[`, makes `urlparse` raise. */
  lemma HttpsUnmatchedBracket(host: string, pathTail: string)
    requires HostText(host) && UnmatchedBracket(host)
    requires SafeText(host) && SafeText(pathTail)
    requires pathTail == [] || pathTail[0] == '/' || pathTail[0] == '?' || pathTail[0] == '#'
    ensures !ValidUrl("https:" + ("//" + host + pathTail))
    ensures FileExtension("https:" + ("//" + host + pathTail)).InvalidUrl?
  {
    var rest := "//" + host + pathTail;
    SafeAppend("//", host);
    SafeAppend("//" + host, pathTail);
    HttpsUrlPath(rest);
    SplitHost(host, pathTail);
  }

  /** Cutting at `#` and then at `?` leaves a path free of both, whatever query or fragment follows. */
  lemma CutPathTail(path: string, tail: string)
    requires '#' !in path && '?' !in path
    requires tail == [] || tail[0] == '?' || tail[0] == '#'
    ensures CutAt(CutAt(path + tail, '#'), '?') == path
  {
    CutAtAppend(path, tail, '#');
    var t1 := CutAt(tail, '#');
    CutAtAppend(path, t1, '?');
    assert CutAt(t1, '?') == [] by {
      if t1 != [] {
        assert tail[0] == '?' && t1[0] == '?';
      }
    }
  }

  /** The extension of `/name.ext` is `.ext`. */
  lemma ExtOfName(name: string, e: string)
    requires name != [] && name[0] != '.'
    requires forall k :: 0 <= k < |name| ==> name[k] != '/'
    requires forall k :: 0 <= k < |e| ==> e[k] != '.' && e[k] != '/'
    ensures SplitExt("/" + name + "." + e) == "." + e
  {
    var path := "/" + name + "." + e;
    var dot := |name| + 1;
    assert path[dot] == '.' && path[0] == '/';
    forall k | 0 < k < |path| ensures path[k] != '/' && (k > dot ==> path[k] != '.') {
      if k < dot {
        assert path[k] == name[k - 1];
      } else if k > dot {
        assert path[k] == e[k - dot - 1];
      }
    }
    assert RFind(path, '/') == 0;
    assert RFind(path, '.') == dot;
    assert path[1] == name[0];
    assert NamedBeforeDot(path, 0, dot);
    assert path[dot..] == "." + e;
  }

  /**
   * For `https://host/name.ext` with an optional `?query` or `#fragment`,
   * free of tabs and line breaks and with matched brackets in the host,
   * the extension is `.ext` lower-cased.
   */
  lemma ExtensionOfHttpsUrl(host: string, name: string, e: string, tail: string)
    requires HostText(host) && !UnmatchedBracket(host)
    requires SafeText(host) && SafeText(name) && SafeText(e) && SafeText(tail)
    requires name != [] && name[0] != '.'
    requires forall k :: 0 <= k < |name| ==> name[k] !in "/?#;"
    requires forall k :: 0 <= k < |e| ==> e[k] !in "./?#;"
    requires tail == [] || tail[0] == '?' || tail[0] == '#'
    ensures FileExtension("https://" + host + "/" + name + "." + e + tail) == Returns(Lower("." + e))
  {
    var path := "/" + name + "." + e;
    assert "https://" + host + "/" + name + "." + e + tail == "https:" + ("//" + host + path + tail);
    forall k | 0 <= k < |path| ensures path[k] !in "#?;" && !Unsafe(path[k]) {
      if 1 <= k <= |name| {
        assert path[k] == name[k - 1];
      } else if k > |name| + 1 {
        assert path[k] == e[k - |name| - 2];
      }
    }
    HttpsPath(host, path, tail);
    ExtOfName(name, e);
  }

  // ---------------------------------------------------------------------
  // `generate_filename`
  // ---------------------------------------------------------------------

  /** `q{n}_diagram{ext}` for the first image, `q{n}_diagram_{index+1}{ext}` for the others. */
  function DiagramName(number: string, ext: string, index: nat): string {
    if index == 0 then "q" + number + "_diagram" + ext
    else "q" + number + "_diagram_" + DecNat(index + 1) + ext
  }

  /** `generate_filename(url, question_type, question_number, index)`; it raises when `get_file_extension` does. */
  function GenerateFilename(url: string, number: string, index: nat): (name: Outcome<string>)
    ensures name.InvalidUrl? <==> !ValidUrl(url)
  {
    match FileExtension(url)
    case InvalidUrl => InvalidUrl
    case Returns(ext) => Returns(DiagramName(number, ext, index))
  }

  /** A diagram name starts `q{n}_diagram` and ends with its extension. */
  lemma DiagramNameShape(number: string, ext: string, index: nat)
    ensures var name := DiagramName(number, ext, index);
      "q" + number + "_diagram" <= name && |ext| <= |name| && name[|name| - |ext|..] == ext
  {
    var p := "q" + number + "_diagram";
    if index == 0 {
      assert DiagramName(number, ext, index) == p + ext;
    } else {
      assert DiagramName(number, ext, index) == p + ("_" + DecNat(index + 1)) + ext;
    }
  }

  /**
   * A generated name starts `q{n}_diagram`, ends with the URL's extension,
   * and the character after `_diagram` tells the first image from the others.
   */
  lemma GenerateFilenameShape(url: string, number: string, index: nat)
    ensures GenerateFilename(url, number, index).Returns? ==>
      var name := GenerateFilename(url, number, index).value;
      var p := "q" + number + "_diagram";
      var ext := FileExtension(url).value;
      && p <= name && |name| > |p| && name[|p|] == (if index == 0 then '.' else '_')
      && |ext| <= |name| && name[|name| - |ext|..] == ext
  {
    if ValidUrl(url) {
      var ext := FileExtension(url).value;
      DiagramNameMark(number, ext, index);
      DiagramNameShape(number, ext, index);
    }
  }

  lemma DigitsThenNonDigit(d: string, e: string)
    requires IsDigitString(d) && e != [] && e[0] == '.'
    ensures forall k :: 0 <= k < |d| ==> IsDigit((d + e)[k])
    ensures !IsDigit((d + e)[|d|])
  {
  }

  /** Digits followed by an extension split back at the first non-digit. */
  lemma DigitsThenDot(d1: string, e1: string, d2: string, e2: string)
    requires IsDigitString(d1) && IsDigitString(d2)
    requires e1 != [] && e1[0] == '.' && e2 != [] && e2[0] == '.'
    requires d1 + e1 == d2 + e2
    ensures d1 == d2
  {
    var s := d1 + e1;
    DigitsThenNonDigit(d1, e1);
    DigitsThenNonDigit(d2, e2);
    assert |d1| == |d2|;
    assert d1 == s[..|d1|] && d2 == s[..|d2|];
  }

  /** The character after `q{n}_diagram` tells the first image from the others. */
  lemma DiagramNameMark(number: string, e: string, i: nat)
    requires e != [] && e[0] == '.'
    ensures var p := "q" + number + "_diagram";
      |DiagramName(number, e, i)| > |p| && DiagramName(number, e, i)[|p|] == (if i == 0 then '.' else '_')
  {
    var p := "q" + number + "_diagram";
    if i == 0 {
      assert DiagramName(number, e, i) == p + e;
    } else {
      assert DiagramName(number, e, i) == p + ("_" + DecNat(i + 1) + e);
    }
  }

  /** For extensions starting with a dot, the name determines the index. */
  lemma DiagramNameInjective(number: string, e1: string, e2: string, i: nat, j: nat)
    requires e1 != [] && e1[0] == '.' && e2 != [] && e2[0] == '.'
    requires DiagramName(number, e1, i) == DiagramName(number, e2, j)
    ensures i == j
  {
    var p := "q" + number + "_diagram";
    var f := DiagramName(number, e1, i);
    DiagramNameMark(number, e1, i);
    DiagramNameMark(number, e2, j);
    if i != 0 && j != 0 {
      var r1 := DecNat(i + 1) + e1;
      var r2 := DecNat(j + 1) + e2;
      assert f == (p + "_") + r1 && f == (p + "_") + r2;
      assert r1 == f[|p| + 1..] == r2;
      DigitsThenDot(DecNat(i + 1), e1, DecNat(j + 1), e2);
      DecNatInjective(i + 1, j + 1);
    }
  }

  /** Two images of one question never share a file name, whatever their URLs. */
  lemma FilenameInjective(url1: string, url2: string, number: string, i: nat, j: nat)
    requires GenerateFilename(url1, number, i).Returns?
    requires GenerateFilename(url1, number, i) == GenerateFilename(url2, number, j)
    ensures i == j
  {
    DiagramNameInjective(number, FileExtension(url1).value, FileExtension(url2).value, i, j);
  }

  // ---------------------------------------------------------------------
  // `process_question_images`
  // ---------------------------------------------------------------------

  /**
   * The cache, the paths returned so far, the URLs a download was attempted
   * for, and whether `generate_filename` has raised.
   */
  datatype Progress = Progress(cache: map<string, string>, paths: seq<string>, attempts: seq<string>, raised: bool)

  /** `dir / name`, or the error computing `name` raised. */
  function InDir(dir: string, name: Outcome<string>): Outcome<string> {
    match name
    case InvalidUrl => InvalidUrl
    case Returns(n) => Returns(dir + "/" + n)
  }

  /** Where each diagram would be saved: `target_dir / generate_filename(url, …, index)`, or the error that raises. */
  function FilePaths(urls: seq<string>, dir: string, number: string): (fps: seq<Outcome<string>>)
    ensures |fps| == |urls|
  {
    seq(|urls|, k requires 0 <= k < |urls| => InDir(dir, GenerateFilename(urls[k], number, k)))
  }

  /** Computing the path of a diagram raises exactly for the URLs `urlparse` rejects. */
  lemma FilePathsFail(urls: seq<string>, dir: string, number: string)
    ensures var fps := FilePaths(urls, dir, number);
      forall k :: 0 <= k < |urls| ==> (fps[k].InvalidUrl? <==> !ValidUrl(urls[k]))
  {
  }

  /**
   * One diagram URL, to be saved at `filepath`: reuse its cached path, or
   * try to download it. Once `generate_filename` has raised, nothing more happens.
   */
  function Step(p: Progress, url: string, filepath: Outcome<string>, download: (string, string) -> bool): Progress {
    if p.raised then p
    else if url in p.cache then p.(paths := p.paths + [p.cache[url]])
    else if filepath.InvalidUrl? then p.(raised := true)
    else if download(url, filepath.value)
    then Progress(p.cache[url := filepath.value], p.paths + [filepath.value], p.attempts + [url], false)
    else p.(attempts := p.attempts + [url])
  }

  /** The state after the URLs `urls`, saved at the paths `fps`, starting from `cache`. */
  function Processed(cache: map<string, string>, urls: seq<string>, fps: seq<Outcome<string>>,
                     download: (string, string) -> bool): Progress
    requires |fps| == |urls|
  {
    if urls == [] then Progress(cache, [], [], false)
    else
      var n := |urls| - 1;
      Step(Processed(cache, urls[..n], fps[..n], download), urls[n], fps[n], download)
  }

  lemma ProcessedSnoc(cache: map<string, string>, urls: seq<string>, fps: seq<Outcome<string>>, index: nat,
                      download: (string, string) -> bool)
    requires |fps| == |urls| && index < |urls|
    ensures Processed(cache, urls[..index + 1], fps[..index + 1], download)
      == Step(Processed(cache, urls[..index], fps[..index], download), urls[index], fps[index], download)
  {
    assert urls[..index + 1][..index] == urls[..index];
    assert fps[..index + 1][..index] == fps[..index];
  }

  /** At most one path per URL; cached entries never change; every returned path is a cached one. */
  lemma {:induction false} ProcessedKeeps(cache: map<string, string>, urls: seq<string>, fps: seq<Outcome<string>>,
                                          download: (string, string) -> bool)
    requires |fps| == |urls|
    ensures var r := Processed(cache, urls, fps, download);
      && |r.paths| <= |urls|
      && (forall u :: u in cache ==> u in r.cache && r.cache[u] == cache[u])
      && (forall q :: q in r.paths ==> q in r.cache.Values)
  {
    if urls != [] {
      var n := |urls| - 1;
      ProcessedKeeps(cache, urls[..n], fps[..n], download);
      var p := Processed(cache, urls[..n], fps[..n], download);
      var url := urls[n];
      if !p.raised && url !in p.cache && fps[n].Returns? {
        var filepath := fps[n].value;
        if download(url, filepath) {
          var c := p.cache[url := filepath];
          forall q | q in p.paths ensures q in c.Values {
            var u :| u in p.cache && p.cache[u] == q;
            assert u != url && c[u] == q;
          }
          assert c[url] == filepath;
        }
      }
    }
  }

  /** Only URLs missing from the starting cache are downloaded, and every new cache entry is one of them. */
  lemma {:induction false} ProcessedAttempts(cache: map<string, string>, urls: seq<string>, fps: seq<Outcome<string>>,
                                             download: (string, string) -> bool)
    requires |fps| == |urls|
    ensures var r := Processed(cache, urls, fps, download);
      && (forall u :: u in r.attempts ==> u in urls && u !in cache)
      && (forall u :: u in r.cache ==> u in cache || u in r.attempts)
  {
    if urls != [] {
      var n := |urls| - 1;
      ProcessedAttempts(cache, urls[..n], fps[..n], download);
      ProcessedKeeps(cache, urls[..n], fps[..n], download);
      var p := Processed(cache, urls[..n], fps[..n], download);
      var url := urls[n];
      forall u | u in p.attempts ensures u in urls {
        assert u in urls[..n];
      }
    }
  }

  /** With every URL already cached, the paths are the cached ones, nothing is downloaded and nothing raises. */
  lemma {:induction false} ProcessedAllCached(cache: map<string, string>, urls: seq<string>, fps: seq<Outcome<string>>,
                                              download: (string, string) -> bool)
    requires |fps| == |urls|
    requires forall k :: 0 <= k < |urls| ==> urls[k] in cache
    ensures var r := Processed(cache, urls, fps, download);
      && r.cache == cache && r.attempts == [] && !r.raised
      && |r.paths| == |urls| && forall k :: 0 <= k < |urls| ==> r.paths[k] == cache[urls[k]]
  {
    if urls != [] {
      var n := |urls| - 1;
      ProcessedAllCached(cache, urls[..n], fps[..n], download);
    }
  }

  /** Once `generate_filename` has raised, the rest of the URLs change nothing. */
  lemma {:induction false} ProcessedStops(cache: map<string, string>, urls: seq<string>, fps: seq<Outcome<string>>,
                                          j: nat, download: (string, string) -> bool)
    requires |fps| == |urls| && j <= |urls|
    requires Processed(cache, urls[..j], fps[..j], download).raised
    ensures var r := Processed(cache, urls, fps, download);
      var p := Processed(cache, urls[..j], fps[..j], download);
      r.raised && r.cache == p.cache && r.paths == p.paths && r.attempts == p.attempts
    decreases |urls|
  {
    if j == |urls| {
      assert urls[..j] == urls && fps[..j] == fps;
    } else {
      var n := |urls| - 1;
      assert urls[..n][..j] == urls[..j] && fps[..n][..j] == fps[..j];
      ProcessedStops(cache, urls[..n], fps[..n], j, download);
    }
  }

  /**
   * Starting from a cache of URLs `urlparse` accepts, the question raises
   * exactly when one of its URLs is one `urlparse` rejects; the cache keeps
   * only accepted URLs.
   */
  lemma {:induction false} ProcessedRaises(cache: map<string, string>, urls: seq<string>, fps: seq<Outcome<string>>,
                                           download: (string, string) -> bool, valid: string -> bool)
    requires |fps| == |urls|
    requires forall u :: u in cache ==> valid(u)
    requires forall k :: 0 <= k < |urls| ==> (fps[k].InvalidUrl? <==> !valid(urls[k]))
    ensures var r := Processed(cache, urls, fps, download);
      && (r.raised <==> exists k :: 0 <= k < |urls| && !valid(urls[k]))
      && forall u :: u in r.cache ==> valid(u)
  {
    if urls != [] {
      var n := |urls| - 1;
      assert forall k :: 0 <= k < n ==> urls[..n][k] == urls[k] && fps[..n][k] == fps[k];
      ProcessedRaises(cache, urls[..n], fps[..n], download, valid);
      var p := Processed(cache, urls[..n], fps[..n], download);
      if p.raised {
        var k :| 0 <= k < n && !valid(urls[..n][k]);
        assert urls[k] == urls[..n][k];
      } else {
        forall k | 0 <= k < n ensures valid(urls[k]) {
          assert urls[k] == urls[..n][k];
        }
      }
    }
  }

  /** `diagrams`, when truthy, is a list of URL strings. */
  predicate ImagesListed(q: Dict) {
    Truthy(GetOr(q, "diagrams", JNull)) ==> IsStringArray(Get(q, "diagrams").value)
  }

  /** The subdirectory of the base directory a question's `section` selects. */
  function Subdir(section: Json): string {
    if section == JStr("objective") then "objective"
    else if section == JStr("theory") then "theory"
    else "unknown"
  }

  /** A question `process_question_images` can go through: listed diagrams and a printable number. */
  predicate Loadable(q: Dict) {
    ImagesListed(q) && Scalar(GetOr(q, "number", JInt(0)))
  }

  /**
   * The URLs `process_question_images` iterates over; none when `diagrams`
   * is falsy. A truthy `diagrams` that is not a list of strings also gives
   * none; the methods exclude such questions.
   */
  function DiagramUrls(q: Dict): seq<string> {
    var diagrams := GetOr(q, "diagrams", JNull);
    if Truthy(diagrams) && IsStringArray(diagrams) then Strings(diagrams) else []
  }

  /**
   * `question.get('number', 0)` as the file and directory names print it.
   * A list or dictionary number gives `""`; the methods exclude such questions.
   */
  function NumberText(q: Dict): string {
    var number := GetOr(q, "number", JInt(0));
    if Scalar(number) then Display(number) else ""
  }

  /** Some diagram URL of `q` is one `urlparse` rejects. */
  predicate HasInvalidUrl(q: Dict) {
    exists k :: 0 <= k < |DiagramUrls(q)| && !ValidUrl(DiagramUrls(q)[k])
  }

  /** Some question has a diagram URL `urlparse` rejects. */
  predicate SomeInvalidUrl(qs: seq<Dict>) {
    exists i :: 0 <= i < |qs| && HasInvalidUrl(qs[i])
  }

  /** A question of a list meets `p` exactly when one of its front part or its last question does. */
  lemma ExistsSnoc(qs: seq<Dict>, front: seq<Dict>, p: Dict -> bool)
    requires qs != [] && front == qs[..|qs| - 1]
    ensures (exists i :: 0 <= i < |qs| && p(qs[i]))
      <==> (exists i :: 0 <= i < |front| && p(front[i])) || p(qs[|qs| - 1])
  {
    if i :| 0 <= i < |qs| && p(qs[i]) {
      if i < |front| {
        assert p(front[i]);
      }
    }
    if i :| 0 <= i < |front| && p(front[i]) {
      assert p(qs[i]);
    }
  }

  /** A rejected URL in a list of questions is one in its front part or in its last question. */
  lemma SomeInvalidUrlSnoc(qs: seq<Dict>)
    requires qs != []
    ensures SomeInvalidUrl(qs) <==> SomeInvalidUrl(qs[..|qs| - 1]) || HasInvalidUrl(qs[|qs| - 1])
  {
    ExistsSnoc(qs, qs[..|qs| - 1], HasInvalidUrl);
  }

  /** Every cached URL is one `urlparse` accepts. */
  predicate CacheValid(cache: map<string, string>) {
    forall u :: u in cache ==> ValidUrl(u)
  }

  /** The cache, the number of paths returned so far, and whether `urlparse` has raised. */
  datatype Run = Run(cache: map<string, string>, downloaded: nat, raised: bool)

  class ImageDownloader {
    const baseDir: string
    /** `downloaded_images`: URL to the path it was saved under. */
    var downloaded: map<string, string>

    /** `ImageDownloader(base_dir)`; creating the directories is not modelled. */
    constructor(baseDir: string)
      ensures this.baseDir == baseDir && downloaded == map[]
    {
      this.baseDir := baseDir;
      downloaded := map[];
    }

    /**
     * The directory for a question's images: under the base directory, in the
     * subdirectory its `section` chooses, ending `/question_{n}`.
     */
    function TargetDir(section: Json, number: string): string {
      baseDir + "/" + Subdir(section) + "/question_" + number
    }

    /** A question's directory lies in the subdirectory its section selects and ends `/question_{n}`. */
    lemma TargetDirShape(section: Json, number: string)
      ensures var dir := TargetDir(section, number);
        var tail := "/question_" + number;
        && baseDir + "/" + Subdir(section) <= dir
        && |tail| <= |dir| && dir[|dir| - |tail|..] == tail
    {
    }

    /** Objective, theory and other questions never share an image directory. */
    lemma TargetDirsSeparate(s1: Json, n1: string, s2: Json, n2: string)
      requires Subdir(s1) != Subdir(s2)
      ensures TargetDir(s1, n1) != TargetDir(s2, n2)
    {
      var k := |baseDir| + 1;
      assert TargetDir(s1, n1)[k] == Subdir(s1)[0];
      assert TargetDir(s2, n2)[k] == Subdir(s2)[0];
    }

    /** What `process_question_images` does to the cache `cache` for `question`. */
    function QuestionRun(cache: map<string, string>, question: Dict, download: (string, string) -> bool): Progress
    {
      var number := NumberText(question);
      var urls := DiagramUrls(question);
      Processed(cache, urls, FilePaths(urls, TargetDir(GetOr(question, "section", JStr("unknown")), number), number),
                download)
    }

    /**
     * One pass of the `download_all_images` loop: a question with diagrams
     * goes through `process_question_images`; after a raise nothing runs.
     */
    function AfterQuestion(state: Run, q: Dict, download: (string, string) -> bool): Run
    {
      if state.raised || !Truthy(GetOr(q, "diagrams", JNull)) then state
      else
        var r := QuestionRun(state.cache, q, download);
        Run(r.cache, state.downloaded + |r.paths|, r.raised)
    }

    /**
     * The cache, the number of paths returned and whether `urlparse` raised,
     * after `download_all_images` has gone through the questions `qs`,
     * starting from `cache`.
     */
    function RunAll(cache: map<string, string>, qs: seq<Dict>, download: (string, string) -> bool): Run
    {
      if qs == [] then Run(cache, 0, false)
      else AfterQuestion(RunAll(cache, qs[..|qs| - 1], download), qs[|qs| - 1], download)
    }

    lemma RunAllSnoc(cache: map<string, string>, qs: seq<Dict>, i: nat, download: (string, string) -> bool)
      requires i < |qs|
      ensures RunAll(cache, qs[..i + 1], download) == AfterQuestion(RunAll(cache, qs[..i], download), qs[i], download)
    {
      var p := qs[..i + 1];
      assert p[..|p| - 1] == qs[..i];
    }

    /** One question's run keeps every cached path and returns at most one path per URL. */
    lemma QuestionRunKeeps(cache: map<string, string>, q: Dict, download: (string, string) -> bool)
      ensures var r := QuestionRun(cache, q, download);
        && |r.paths| <= |DiagramUrls(q)|
        && forall u :: u in cache ==> u in r.cache && r.cache[u] == cache[u]
    {
      var number := NumberText(q);
      var urls := DiagramUrls(q);
      ProcessedKeeps(cache, urls, FilePaths(urls, TargetDir(GetOr(q, "section", JStr("unknown")), number), number),
                     download);
    }

    /** Starting from accepted URLs, a question raises exactly when it has a URL `urlparse` rejects. */
    lemma QuestionRunRaises(cache: map<string, string>, q: Dict, download: (string, string) -> bool)
      requires CacheValid(cache)
      ensures var r := QuestionRun(cache, q, download);
        && (r.raised <==> HasInvalidUrl(q))
        && CacheValid(r.cache)
    {
      var number := NumberText(q);
      var urls := DiagramUrls(q);
      var dir := TargetDir(GetOr(q, "section", JStr("unknown")), number);
      FilePathsFail(urls, dir, number);
      ProcessedRaises(cache, urls, FilePaths(urls, dir, number), download, ValidUrl);
    }

    /** Going through the questions never changes a cached path and returns at most one path per URL. */
    lemma {:induction false} RunAllKeeps(cache: map<string, string>, qs: seq<Dict>, download: (string, string) -> bool)
      ensures var r := RunAll(cache, qs, download);
        forall u :: u in cache ==> u in r.cache && r.cache[u] == cache[u]
      ensures RunAll(cache, qs, download).downloaded <= ImageTotal(qs)
    {
      if qs != [] {
        var n := |qs| - 1;
        var q := qs[n];
        RunAllKeeps(cache, qs[..n], download);
        var before := RunAll(cache, qs[..n], download);
        QuestionRunKeeps(before.cache, q, download);
      }
    }

    /** Once `urlparse` has raised, the remaining questions change nothing. */
    lemma {:induction false} RunAllStops(cache: map<string, string>, qs: seq<Dict>, j: nat,
                                         download: (string, string) -> bool)
      requires j <= |qs|
      requires RunAll(cache, qs[..j], download).raised
      ensures RunAll(cache, qs, download) == RunAll(cache, qs[..j], download)
    {
      RunAllStopsAt(cache, qs, j, |qs|, download);
      assert qs[..|qs|] == qs;
    }

    /** The run over a longer prefix is the run that raised. */
    lemma {:induction false} RunAllStopsAt(cache: map<string, string>, qs: seq<Dict>, j: nat, k: nat,
                                           download: (string, string) -> bool)
      requires j <= k <= |qs|
      requires RunAll(cache, qs[..j], download).raised
      ensures RunAll(cache, qs[..k], download) == RunAll(cache, qs[..j], download)
      decreases k
    {
      if k > j {
        RunAllStopsAt(cache, qs, j, k - 1, download);
        RunAllSnoc(cache, qs, k - 1, download);
        AfterRaised(RunAll(cache, qs[..k - 1], download), qs[k - 1], download);
      }
    }

    /** After a raise, a question changes nothing. */
    lemma AfterRaised(state: Run, q: Dict, download: (string, string) -> bool)
      requires state.raised
      ensures AfterQuestion(state, q, download) == state
    {
    }

    /**
     * Starting from accepted URLs, `download_all_images` raises exactly when
     * some question has a diagram URL `urlparse` rejects.
     */
    lemma {:induction false} RunAllRaises(cache: map<string, string>, qs: seq<Dict>, download: (string, string) -> bool)
      requires CacheValid(cache)
      ensures var r := RunAll(cache, qs, download);
        (r.raised <==> SomeInvalidUrl(qs)) && CacheValid(r.cache)
    {
      if qs != [] {
        var n := |qs| - 1;
        RunAllRaises(cache, qs[..n], download);
        AfterQuestionRaises(RunAll(cache, qs[..n], download), qs[n], download);
        SomeInvalidUrlSnoc(qs);
      }
    }

    /** One more question raises exactly when it has a rejected URL, unless `urlparse` already raised. */
    lemma AfterQuestionRaises(state: Run, q: Dict, download: (string, string) -> bool)
      requires CacheValid(state.cache)
      ensures var r := AfterQuestion(state, q, download);
        (r.raised <==> state.raised || HasInvalidUrl(q)) && CacheValid(r.cache)
    {
      if !state.raised {
        QuestionRunRaises(state.cache, q, download);
      }
    }

    /** `process_question_images(question)`: the paths, or the `ValueError` of `urlparse`. */
    method ProcessQuestionImages(question: Dict, download: (string, string) -> bool) returns (paths: Outcome<seq<string>>)
      requires Loadable(question)
      modifies this
      ensures var r := QuestionRun(old(downloaded), question, download);
        && downloaded == r.cache
        && (paths.InvalidUrl? <==> r.raised)
        && (paths.Returns? ==> paths.value == r.paths)
      ensures DiagramUrls(question) == [] ==> paths == Returns([]) && downloaded == old(downloaded)
      ensures paths.Returns? ==> |paths.value| <= |DiagramUrls(question)|
    {
      var collected: seq<string> := [];
      var urls := DiagramUrls(question);
      var questionType := GetOr(question, "section", JStr("unknown"));
      var questionNumber := NumberText(question);
      var targetDir := TargetDir(questionType, questionNumber);
      ghost var attempts: seq<string> := [];
      ghost var fps := FilePaths(urls, targetDir, questionNumber);
      if !Truthy(GetOr(question, "diagrams", JNull)) {
        return Returns([]);
      }
      for index := 0 to |urls|
        invariant Progress(downloaded, collected, attempts, false) == Processed(old(downloaded), urls[..index], fps[..index], download)
      {
        ProcessedSnoc(old(downloaded), urls, fps, index, download);
        var imageUrl := urls[index];
        if imageUrl in downloaded {
          collected := collected + [downloaded[imageUrl]];
          continue;
        }
        var filename := GenerateFilename(imageUrl, questionNumber, index);
        if filename.InvalidUrl? {
          ProcessedStops(old(downloaded), urls, fps, index + 1, download);
          return InvalidUrl;
        }
        var filepath := targetDir + "/" + filename.value;
        assert fps[index] == Returns(filepath);
        attempts := attempts + [imageUrl];
        if download(imageUrl, filepath) {
          downloaded := downloaded[imageUrl := filepath];
          collected := collected + [filepath];
        }
      }
      assert urls[..|urls|] == urls && fps[..|fps|] == fps;
      ProcessedKeeps(old(downloaded), urls, fps, download);
      paths := Returns(collected);
    }

    /**
     * One pass of the `download_all_images` loop over `question`: a question
     * with diagrams is counted, by section too, and its images are processed.
     */
    method CountQuestion(question: Dict, download: (string, string) -> bool, s: DownloadStats)
      returns (r: Outcome<DownloadStats>)
      requires Loadable(question)
      modifies this
      ensures var run := AfterQuestion(Run(old(downloaded), s.downloadedImages, false), question, download);
        && downloaded == run.cache
        && (r.InvalidUrl? <==> run.raised)
        && (r.Returns? ==> r.value.downloadedImages == run.downloaded)
      ensures r.Returns? ==>
        var s' := r.value;
        var hit := Truthy(GetOr(question, "diagrams", JNull));
        var section := GetOr(question, "section", JNull);
        && s'.totalQuestions == s.totalQuestions
        && s'.questionsWithImages == s.questionsWithImages + (if hit then 1 else 0)
        && s'.objectiveQuestions == s.objectiveQuestions + (if hit && section == JStr("objective") then 1 else 0)
        && s'.theoryQuestions == s.theoryQuestions + (if hit && section == JStr("theory") then 1 else 0)
        && s'.totalImages == s.totalImages + |DiagramUrls(question)|
        && s'.downloadedImages + s'.failedDownloads == s.downloadedImages + s.failedDownloads + |DiagramUrls(question)|
    {
      var s' := s;
      if Truthy(GetOr(question, "diagrams", JNull)) {
        var n := |DiagramUrls(question)|;
        s' := s'.(questionsWithImages := s'.questionsWithImages + 1, totalImages := s'.totalImages + n);
        var section := GetOr(question, "section", JNull);
        if section == JStr("objective") {
          s' := s'.(objectiveQuestions := s'.objectiveQuestions + 1);
        } else if section == JStr("theory") {
          s' := s'.(theoryQuestions := s'.theoryQuestions + 1);
        }
        var paths := ProcessQuestionImages(question, download);
        if paths.InvalidUrl? {
          return InvalidUrl;
        }
        s' := s'.(downloadedImages := s'.downloadedImages + |paths.value|,
                  failedDownloads := s'.failedDownloads + (n - |paths.value|));
      }
      r := Returns(s');
    }

    /**
     * `download_all_images` on the loaded question list: `{}` (here `None`)
     * for a file that could not be read, the statistics, or the `ValueError`
     * a rejected image URL raises.
     */
    method DownloadAllImages(loaded: Option<seq<Dict>>, download: (string, string) -> bool)
      returns (result: Outcome<Option<DownloadStats>>)
      requires loaded.Some? ==> forall i :: 0 <= i < |loaded.value| ==> Loadable(loaded.value[i])
      modifies this
      ensures loaded.None? ==> result == Returns(None) && downloaded == old(downloaded)
      ensures loaded.Some? ==>
        var run := RunAll(old(downloaded), loaded.value, download);
        && downloaded == run.cache
        && (result.InvalidUrl? <==> run.raised)
        && (result.Returns? ==> result.value.Some? && Consistent(loaded.value, result.value.value)
                                && result.value.value.downloadedImages == run.downloaded)
      ensures loaded.Some? && CacheValid(old(downloaded)) ==>
        (result.InvalidUrl? <==> SomeInvalidUrl(loaded.value))
    {
      if loaded.None? {
        return Returns(None);
      }
      if CacheValid(downloaded) {
        RunAllRaises(downloaded, loaded.value, download);
      }
      var stats := CountAllQuestions(loaded.value, download);
      if stats.InvalidUrl? {
        return InvalidUrl;
      }
      return Returns(Some(stats.value));
    }

    /** The loop of `download_all_images` over the loaded questions. */
    method CountAllQuestions(questions: seq<Dict>, download: (string, string) -> bool)
      returns (result: Outcome<DownloadStats>)
      requires forall i {:trigger Loadable(questions[i])} :: 0 <= i < |questions| ==> Loadable(questions[i])
      modifies this
      ensures var run := RunAll(old(downloaded), questions, download);
        && downloaded == run.cache
        && (result.InvalidUrl? <==> run.raised)
        && (result.Returns? ==> Consistent(questions, result.value) && result.value.downloadedImages == run.downloaded)
    {
      var s := DownloadStats(|questions|, 0, 0, 0, 0, 0, 0);
      for i := 0 to |questions|
        invariant Counted(questions[..i], s) && s.totalQuestions == |questions|
        invariant RunAll(old(downloaded), questions[..i], download) == Run(downloaded, s.downloadedImages, false)
      {
        var r := CountNext(questions, i, old(downloaded), download, s);
        if r.InvalidUrl? {
          RunAllStops(old(downloaded), questions, i + 1, download);
          return InvalidUrl;
        }
        s := r.value;
      }
      assert questions[..|questions|] == questions;
      return Returns(s);
    }

    /** One pass of the `download_all_images` loop, stated on the prefixes the loop has gone through. */
    method CountNext(questions: seq<Dict>, i: nat, ghost start: map<string, string>,
                     download: (string, string) -> bool, s: DownloadStats)
      returns (r: Outcome<DownloadStats>)
      requires i < |questions| && Loadable(questions[i])
      requires Counted(questions[..i], s) && s.totalQuestions == |questions|
      requires RunAll(start, questions[..i], download) == Run(downloaded, s.downloadedImages, false)
      modifies this
      ensures var run := RunAll(start, questions[..i + 1], download);
        && downloaded == run.cache
        && (r.InvalidUrl? <==> run.raised)
        && (r.Returns? ==> Counted(questions[..i + 1], r.value) && r.value.totalQuestions == |questions|
                           && r.value.downloadedImages == run.downloaded)
    {
      RunAllSnoc(start, questions, i, download);
      StatsSnoc(questions, i);
      r := CountQuestion(questions[i], download, s);
    }
  }

  datatype DownloadStats = DownloadStats(
    totalQuestions: nat, questionsWithImages: nat, totalImages: nat,
    downloadedImages: nat, failedDownloads: nat, objectiveQuestions: nat, theoryQuestions: nat)

  /** Questions with a truthy `diagrams`. */
  function WithImages(qs: seq<Dict>): (n: nat)
    ensures n <= |qs|
  {
    if qs == [] then 0
    else WithImages(qs[..|qs| - 1]) + (if Truthy(GetOr(qs[|qs| - 1], "diagrams", JNull)) then 1 else 0)
  }

  /** Questions with a truthy `diagrams` whose `section` is `section`. */
  function WithImagesIn(qs: seq<Dict>, section: string): nat {
    if qs == [] then 0
    else
      var q := qs[|qs| - 1];
      WithImagesIn(qs[..|qs| - 1], section)
        + (if Truthy(GetOr(q, "diagrams", JNull)) && GetOr(q, "section", JNull) == JStr(section) then 1 else 0)
  }

  /** The number of diagram URLs over all questions. */
  function ImageTotal(qs: seq<Dict>): nat
  {
    if qs == [] then 0 else ImageTotal(qs[..|qs| - 1]) + |DiagramUrls(qs[|qs| - 1])|
  }

  /** The statistics of the questions `qs`, whatever the downloads did. */
  predicate Counted(qs: seq<Dict>, s: DownloadStats)
  {
    && s.questionsWithImages == WithImages(qs)
    && s.totalImages == ImageTotal(qs)
    && s.objectiveQuestions == WithImagesIn(qs, "objective")
    && s.theoryQuestions == WithImagesIn(qs, "theory")
    && s.downloadedImages + s.failedDownloads == s.totalImages
  }

  predicate Consistent(qs: seq<Dict>, s: DownloadStats)
  {
    Counted(qs, s) && s.totalQuestions == |qs|
  }

  lemma PrefixSnoc<T>(s: seq<T>, i: nat)
    requires i < |s|
    ensures s[..i + 1] == s[..i] + [s[i]]
  {
  }

  lemma CountsSnoc(qs: seq<Dict>, q: Dict)
    ensures var hit := Truthy(GetOr(q, "diagrams", JNull));
      && WithImages(qs + [q]) == WithImages(qs) + (if hit then 1 else 0)
      && WithImagesIn(qs + [q], "objective")
         == WithImagesIn(qs, "objective") + (if hit && GetOr(q, "section", JNull) == JStr("objective") then 1 else 0)
      && WithImagesIn(qs + [q], "theory")
         == WithImagesIn(qs, "theory") + (if hit && GetOr(q, "section", JNull) == JStr("theory") then 1 else 0)
  {
    assert (qs + [q])[..|qs|] == qs;
  }

  lemma ImageTotalSnoc(qs: seq<Dict>, q: Dict)
    ensures ImageTotal(qs + [q]) == ImageTotal(qs) + |DiagramUrls(q)|
  {
    assert (qs + [q])[..|qs|] == qs;
  }

  /** The statistics of one more question, stated on the prefixes the loop uses. */
  lemma StatsSnoc(qs: seq<Dict>, i: nat)
    requires i < |qs|
    ensures var q := qs[i];
      var hit := Truthy(GetOr(q, "diagrams", JNull));
      && WithImages(qs[..i + 1]) == WithImages(qs[..i]) + (if hit then 1 else 0)
      && WithImagesIn(qs[..i + 1], "objective")
         == WithImagesIn(qs[..i], "objective") + (if hit && GetOr(q, "section", JNull) == JStr("objective") then 1 else 0)
      && WithImagesIn(qs[..i + 1], "theory")
         == WithImagesIn(qs[..i], "theory") + (if hit && GetOr(q, "section", JNull) == JStr("theory") then 1 else 0)
      && ImageTotal(qs[..i + 1]) == ImageTotal(qs[..i]) + |DiagramUrls(q)|
  {
    PrefixSnoc(qs, i);
    CountsSnoc(qs[..i], qs[i]);
    ImageTotalSnoc(qs[..i], qs[i]);
  }

  /** Objective and theory questions with images are among the questions with images. */
  lemma {:induction false} SectionsBounded(qs: seq<Dict>)
    ensures WithImagesIn(qs, "objective") + WithImagesIn(qs, "theory") <= WithImages(qs)
  {
    if qs != [] {
      SectionsBounded(qs[..|qs| - 1]);
    }
  }

  /** There are images to count exactly when some question has images. */
  lemma {:induction false} NoImagesIffNoQuestions(qs: seq<Dict>)
    requires forall i :: 0 <= i < |qs| ==> Loadable(qs[i])
    ensures ImageTotal(qs) == 0 <==> WithImages(qs) == 0
  {
    if qs != [] {
      var n := |qs| - 1;
      NoImagesIffNoQuestions(qs[..n]);
      if Truthy(GetOr(qs[n], "diagrams", JNull)) {
        assert Get(qs[n], "diagrams").value.items != [];
      }
    }
  }
}
