/**
 The URLs with offset of python/ray/external_storage.py, which say where in a fused file an object
 lies, and what Python's urllib.parse makes of them.
 */
module SpillUrl {
  import opened Base
  import Decimals

  datatype Parsed = Parsed(base: string, offset: nat, size: nat) | MissingField | BadNumber | BadAuthority

  function Create(url: string, offset: nat, size: nat): string {
    url + ("?" + Query(offset, size))
  }

  function Query(offset: nat, size: nat): string {
    OffsetPiece(offset) + ("&" + SizePiece(size))
  }

  function OffsetPiece(offset: nat): string { "offset" + ("=" + Decimals.Show(offset)) }
  function SizePiece(size: nat): string { "size" + ("=" + Decimals.Show(size)) }

  // ---------------------------------------------------------------- cutting strings

  /** The position of the first `c`, or the length when there is none. */
  function Find(s: string, c: char): (i: nat)
    ensures i <= |s| && (i < |s| ==> s[i] == c)
    ensures forall k :: 0 <= k < i ==> s[k] != c
    ensures c in s <==> i < |s|
  {
    if s == "" || s[0] == c then 0
    else
      assert s == [s[0]] + s[1..];
      1 + Find(s[1..], c)
  }

  function Before(s: string, c: char): string { s[..Find(s, c)] }
  function Behind(s: string, c: char): string { if Find(s, c) < |s| then s[Find(s, c) + 1..] else "" }

  /** Just behind the last `c`, or 0 when there is none. */
  function FindLast(s: string, c: char): (i: nat)
    ensures i <= |s| && (i > 0 ==> s[i - 1] == c)
    ensures forall k :: i <= k < |s| ==> s[k] != c
  {
    if s == "" then 0 else if s[|s| - 1] == c then |s| else FindLast(s[..|s| - 1], c)
  }

  /**
   The first non-empty value given to `name` in a query string; pieces without an equals sign and
   pieces with an empty value are skipped, as parse_qs does by default.
   */
  function Lookup(query: string, name: string): (v: string)
    decreases |query|
  {
    var piece := Before(query, '&');
    var rest := Behind(query, '&');
    if Find(piece, '=') < |piece| && Before(piece, '=') == name && Behind(piece, '=') != "" then Behind(piece, '=')
    else if query == "" || rest == "" then ""
    else Lookup(rest, name)
  }

  // ---------------------------------------------------------------- urlparse and geturl

  predicate IsSchemeChar(c: char) {
    'a' <= c <= 'z' || 'A' <= c <= 'Z' || '0' <= c <= '9' || c == '+' || c == '-' || c == '.'
  }

  /** The length of the scheme in front of the first colon, 0 when there is none. */
  function SchemeLength(u: string): (i: nat)
    ensures i < |u| || i == 0
  {
    var i := Find(u, ':');
    if 0 < i < |u| && forall k :: 0 <= k < i ==> IsSchemeChar(u[k]) then i else 0
  }

  function Lower(s: string): (r: string)
    ensures |r| == |s|
  {
    seq(|s|, i requires 0 <= i < |s| => if 'A' <= s[i] <= 'Z' then (s[i] as int + 32) as char else s[i])
  }

  const USES_NETLOC := {"", "ftp", "http", "gopher", "nntp", "telnet", "imap", "wais", "file", "mms", "https", "shttp",
                        "snews", "prospero", "rtsp", "rtspu", "rsync", "svn", "svn+ssh", "sftp", "nfs", "git", "git+ssh", "ws", "wss"}
  const USES_PARAMS := {"", "ftp", "hdl", "prospero", "http", "https", "shttp", "rtsp", "rtspu", "sip", "sips", "mms", "sftp", "tel"}

  predicate EndsAuthority(c: char) { c == '/' || c == '?' || c == '#' }

  /** What is left of the URL when the scheme and the authority are cut off. */
  datatype Authority = Authority(netloc: string, rest: string)

  function SplitAuthority(u: string): Authority {
    if "//" <= u then
      var n := Span(u, 2, c => !EndsAuthority(c));
      Authority(u[2..n], u[n..])
    else Authority("", u)
  }

  /** Brackets in an authority must come in both kinds. */
  predicate BadBrackets(netloc: string) { ('[' in netloc) != (']' in netloc) }

  /** The characters whose compatibility form (NFKC) holds one of / ? # @ and the colon. */
  const FOLDED := "\U{2047}\U{2048}\U{2049}\U{2100}\U{2101}\U{2105}\U{2106}\U{2A74}\U{FE13}\U{FE16}\U{FE55}\U{FE56}\U{FE5F}\U{FE6B}\U{FF03}\U{FF0F}\U{FF1A}\U{FF1F}\U{FF20}"

  /** An authority that urlparse refuses. */
  predicate Refused(netloc: string) {
    BadBrackets(netloc) || exists k :: 0 <= k < |netloc| && netloc[k] in FOLDED
  }

  /** Parameters begin at the first semicolon of the last segment; empty ones are lost. */
  function RejoinParams(path: string): string {
    var last := FindLast(path, '/');
    var i := last + Find(path[last..], ';');
    if i + 1 == |path| then path[..i] else path
  }

  predicate TakesAuthority(scheme: string) { scheme != "" && scheme in USES_NETLOC }
  predicate TakesParams(scheme: string) { scheme in USES_PARAMS }

  function WithAuthority(takes: bool, netloc: string, path: string): string {
    if netloc != "" || (takes && !("//" <= path)) then
      "//" + netloc + (if path != "" && path[0] != '/' then "/" + path else path)
    else path
  }

  function WithScheme(scheme: string, rest: string): string {
    if scheme != "" then scheme + (":" + rest) else rest
  }

  function PathOf(params: bool, path: string): string {
    if params then RejoinParams(path) else path
  }

  /** The URL before its query mark, as geturl puts it together again. */
  function BaseOf(scheme: string, netloc: string, path: string): string {
    WithScheme(scheme, WithAuthority(TakesAuthority(scheme), netloc, PathOf(TakesParams(scheme), path)))
  }

  function SchemeOf(u: string): string { u[..SchemeLength(u)] }

  function AfterScheme(u: string): string {
    var n := SchemeLength(u);
    if n > 0 then u[n + 1..] else u
  }

  function Parse(u: string): Parsed {
    var scheme, a := Lower(SchemeOf(u)), SplitAuthority(AfterScheme(u));
    var noFragment := Before(a.rest, '#');
    if Refused(a.netloc) then BadAuthority
    else ReadQuery(BaseOf(scheme, a.netloc, Before(noFragment, '?')), Behind(noFragment, '?'))
  }

  function ReadQuery(base: string, query: string): Parsed {
    var offset, size := Lookup(query, "offset"), Lookup(query, "size");
    if offset == "" || size == "" then MissingField
    else
      var o, n := Decimals.Read(offset), Decimals.Read(size);
      if o.None? || n.None? then BadNumber else Parsed(base, o.value, n.value)
  }

  // ---------------------------------------------------------------- reading the query

  lemma CutAt(s: string, a: string, c: char, b: string)
    requires s == a + ([c] + b) && c !in a
    ensures Find(s, c) == |a| && Before(s, c) == a && Behind(s, c) == b
  {
    assert s[|a|] == c;
    assert forall k :: 0 <= k < |a| ==> s[k] == a[k];
  }

  lemma NotFound(s: string, c: char)
    requires c !in s
    ensures Find(s, c) == |s| && Before(s, c) == s && Behind(s, c) == ""
  {}

  lemma ShowIsPlain(n: nat, c: char)
    requires !Decimals.IsDigit(c)
    ensures c !in Decimals.Show(n)
  {}

  lemma LookupOffset(offset: nat, size: nat)
    ensures Lookup(Query(offset, size), "offset") == Decimals.Show(offset)
  {
    var q, piece := Query(offset, size), OffsetPiece(offset);
    ShowIsPlain(offset, '&');
    CutAt(q, piece, '&', SizePiece(size));
    CutAt(piece, "offset", '=', Decimals.Show(offset));
  }

  lemma LookupSizePiece(size: nat)
    ensures Lookup(SizePiece(size), "size") == Decimals.Show(size)
  {
    var piece := SizePiece(size);
    ShowIsPlain(size, '&');
    NotFound(piece, '&');
    CutAt(piece, "size", '=', Decimals.Show(size));
  }

  lemma LookupSize(offset: nat, size: nat)
    ensures Lookup(Query(offset, size), "size") == Decimals.Show(size)
  {
    ShowIsPlain(offset, '&');
    CutAt(Query(offset, size), OffsetPiece(offset), '&', SizePiece(size));
    CutAt(OffsetPiece(offset), "offset", '=', Decimals.Show(offset));
    assert "offset" != "size" by { assert |"offset"| != |"size"|; }
    LookupSizePiece(size);
  }

  lemma ReadCreatedQuery(base: string, offset: nat, size: nat)
    ensures ReadQuery(base, Query(offset, size)) == Parsed(base, offset, size)
  {
    LookupOffset(offset, size);
    LookupSize(offset, size);
    Decimals.ReadShow(offset);
    Decimals.ReadShow(size);
  }

  lemma QueryIsPlain(offset: nat, size: nat, c: char)
    requires c == '#' || c == ':'
    ensures c !in Query(offset, size)
  {
    ShowIsPlain(offset, c);
    ShowIsPlain(size, c);
  }

  // ---------------------------------------------------------------- what comes back

  /** The path ends in a semicolon, and its last segment has no other. */
  predicate EndsInEmptyParams(path: string) {
    path != "" && path[|path| - 1] == ';' && ';' !in path[FindLast(path, '/')..|path| - 1]
  }

  /**
   What stands behind the scheme keeps its two slashes: without them the scheme must be one that is
   not given any, and with nothing between them and the path it must be one that is.
   */
  predicate AuthorityStays(takes: bool, rest: string) {
    if !("//" <= rest) then !takes
    else (|rest| > 2 && rest[2] != '/') || (takes && !("////" <= rest))
  }

  predicate ParamsStay(params: bool, path: string) { params ==> !EndsInEmptyParams(path) }

  predicate IsLower(s: string) { forall k :: 0 <= k < |s| ==> !('A' <= s[k] <= 'Z') }

  /** What a caller can check of a URL before using it as the base of keys. */
  predicate ReadsBack(url: string) {
    && '?' !in url && '#' !in url
    && IsLower(SchemeOf(url))
    && !Refused(SplitAuthority(AfterScheme(url)).netloc)
    && AuthorityStays(TakesAuthority(SchemeOf(url)), AfterScheme(url))
    && ParamsStay(TakesParams(SchemeOf(url)), SplitAuthority(AfterScheme(url)).rest)
  }

  lemma ParamsLostIff(path: string)
    ensures RejoinParams(path) == path <==> !EndsInEmptyParams(path)
    ensures RejoinParams(path) != path ==> |RejoinParams(path)| == |path| - 1
    ensures path != "" && path[0] == '/' ==> RejoinParams(path) != "" && RejoinParams(path)[0] == '/'
    ensures "//" <= RejoinParams(path) <==> "//" <= path
  {
    var last := FindLast(path, '/');
    var seg := path[last..];
    var i := Find(seg, ';');
    if path != "" && path[|path| - 1] == ';' {
      assert last < |path| && seg[|seg| - 1] == ';';
      assert path[last..|path| - 1] == seg[..|seg| - 1];
    }
  }

  lemma FindInLonger(s: string, more: string, c: char)
    requires c in s || c !in more
    ensures var t := s + more;
            if c in s then Find(t, c) == Find(s, c) else Find(t, c) == |t|
  {
    var t := s + more;
    assert forall k :: 0 <= k < |s| ==> t[k] == s[k];
    if c !in s {
      assert c !in t;
    }
  }

  lemma SchemeInLonger(url: string, more: string)
    requires ':' !in more
    ensures SchemeLength(url + more) == SchemeLength(url)
  {
    FindInLonger(url, more, ':');
    assert forall k :: 0 <= k < |url| ==> (url + more)[k] == url[k];
  }

  lemma CutInLonger(s: string, more: string, i: nat)
    requires i <= |s|
    ensures (s + more)[..i] == s[..i] && (s + more)[i..] == s[i..] + more
  {}

  lemma SchemeOfCreated(url: string, offset: nat, size: nat)
    ensures SchemeOf(Create(url, offset, size)) == SchemeOf(url)
    ensures AfterScheme(Create(url, offset, size)) == AfterScheme(url) + ("?" + Query(offset, size))
  {
    var more, n := "?" + Query(offset, size), SchemeLength(url);
    QueryIsPlain(offset, size, ':');
    SchemeInLonger(url, more);
    CutInLonger(url, more, n);
    if n > 0 {
      CutInLonger(url, more, n + 1);
    }
  }

  lemma SchemeAndRest(url: string)
    ensures url == WithScheme(SchemeOf(url), AfterScheme(url))
    ensures forall k :: 0 <= k < |SchemeOf(url)| ==> IsSchemeChar(SchemeOf(url)[k])
  {
    var n := SchemeLength(url);
    if n > 0 {
      assert url == url[..n] + ([url[n]] + url[n + 1..]);
    }
  }

  lemma AuthorityOfCreated(rest: string, query: string)
    ensures SplitAuthority(rest + ("?" + query)) ==
            Authority(SplitAuthority(rest).netloc, SplitAuthority(rest).rest + ("?" + query))
  {
    var u := rest + ("?" + query);
    assert forall k :: 0 <= k < |rest| ==> u[k] == rest[k];
    assert u[|rest|] == '?';
    if "//" <= rest {
      var n := Span(rest, 2, c => !EndsAuthority(c));
      assert "//" <= u;
      SpanTo(u, 2, n, c => !EndsAuthority(c));
      assert u[2..n] == rest[2..n] && u[n..] == rest[n..] + ("?" + query);
    } else {
      assert !("//" <= u);
    }
  }

  lemma AuthorityOf(rest: string)
    ensures var a := SplitAuthority(rest);
            && rest == (if "//" <= rest then "//" + (a.netloc + a.rest) else a.rest)
            && (!("//" <= rest) ==> a.netloc == "")
            && '?' !in a.netloc && '#' !in a.netloc && '/' !in a.netloc
            && ("//" <= rest && a.rest != "" ==> EndsAuthority(a.rest[0]))
  {
    if "//" <= rest {
      var n := Span(rest, 2, c => !EndsAuthority(c));
      assert rest[2..n] + rest[n..] == rest[2..];
      assert forall k :: 0 <= k < n - 2 ==> rest[2..n][k] == rest[k + 2];
    }
  }

  lemma MarksOfRest(rest: string)
    ensures '?' !in rest ==> '?' !in SplitAuthority(rest).rest
    ensures '#' !in rest ==> '#' !in SplitAuthority(rest).rest
  {}

  lemma SameTail(a: string, b: string, c: string)
    ensures a + b == a + c <==> b == c
  {
    assert (a + b)[|a|..] == b && (a + c)[|a|..] == c;
  }

  /** With something between the two slashes and the path, only the parameters can be lost. */
  lemma AuthorityKeeps(takes: bool, netloc: string, path: string, p: string)
    requires netloc != "" && (p == "" || p[0] == '/')
    ensures WithAuthority(takes, netloc, p) == "//" + (netloc + path) <==> p == path
  {
    SameTail("//" + netloc, p, path);
    Regroup("//", netloc, path);
  }

  /** With nothing between them, the two slashes come back only for a scheme that is given them. */
  lemma EmptyAuthority(takes: bool, path: string, p: string)
    requires path == "" || (path[0] == '/' && p != "" && p[0] == '/')
    requires p == path || |p| == |path| - 1
    requires "//" <= p <==> "//" <= path
    ensures WithAuthority(takes, "", p) == "//" + path <==> takes && !("//" <= path) && p == path
  {
    SameTail("//", p, path);
    assert "//" + "" == "//";
  }

  lemma NoAuthority(takes: bool, path: string, p: string)
    requires !("//" <= path) && !("//" <= p)
    requires p == path || |p| == |path| - 1
    ensures WithAuthority(takes, "", p) == path <==> !takes && p == path
  {
    if takes {
      assert |WithAuthority(takes, "", p)| >= 2 + |p|;
    }
  }

  lemma SlashesOf(rest: string)
    requires "//" <= rest && '?' !in rest && '#' !in rest
    ensures var a := SplitAuthority(rest);
            && rest == "//" + (a.netloc + a.rest) && (a.rest == "" || a.rest[0] == '/')
            && (a.netloc != "" <==> |rest| > 2 && rest[2] != '/')
            && (a.netloc == "" ==> ("//" <= a.rest <==> "////" <= rest))
  {
    var a := SplitAuthority(rest);
    AuthorityOf(rest);
    MarksOfRest(rest);
    if a.netloc != "" {
      assert rest[2] == a.netloc[0];
    } else {
      assert a.rest == rest[2..];
    }
  }

  lemma PathOfIff(params: bool, path: string)
    ensures var p := PathOf(params, path);
            && (p == path <==> ParamsStay(params, path))
            && (p == path || |p| == |path| - 1)
            && (path != "" && path[0] == '/' ==> p != "" && p[0] == '/')
            && ("//" <= p <==> "//" <= path)
  {
    ParamsLostIff(path);
  }

  /** Without marks, what stands behind the scheme comes back exactly when nothing in it is lost or made up. */
  lemma RestOf(takes: bool, params: bool, rest: string)
    requires '?' !in rest && '#' !in rest
    ensures var a := SplitAuthority(rest);
            WithAuthority(takes, a.netloc, PathOf(params, a.rest)) == rest <==>
            AuthorityStays(takes, rest) && ParamsStay(params, a.rest)
  {
    var a := SplitAuthority(rest);
    PathOfIff(params, a.rest);
    if "//" <= rest {
      SlashesOf(rest);
      Between(takes, a, rest, PathOf(params, a.rest));
    } else {
      NoAuthority(takes, rest, PathOf(params, a.rest));
    }
  }

  lemma Between(takes: bool, a: Authority, rest: string, p: string)
    requires rest == "//" + (a.netloc + a.rest)
    requires a.rest == "" || (a.rest[0] == '/' && p != "" && p[0] == '/')
    requires p == a.rest || |p| == |a.rest| - 1
    requires "//" <= p <==> "//" <= a.rest
    ensures WithAuthority(takes, a.netloc, p) == rest <==>
            p == a.rest && (a.netloc != "" || (takes && !("//" <= a.rest)))
  {
    if a.netloc != "" {
      AuthorityKeeps(takes, a.netloc, a.rest, p);
    } else {
      assert "" + a.rest == a.rest;
      EmptyAuthority(takes, a.rest, p);
    }
  }

  lemma LowerIff(s: string)
    ensures Lower(s) == s <==> IsLower(s)
    ensures '?' !in s && '#' !in s ==> '?' !in Lower(s) && '#' !in Lower(s)
  {
    if Lower(s) == s {
      forall k | 0 <= k < |s| ensures !('A' <= s[k] <= 'Z') {
        assert Lower(s)[k] == s[k];
      }
    }
  }

  lemma SchemeIsSame(scheme: string, lower: string, rest: string, back: string)
    requires |lower| == |scheme|
    ensures WithScheme(lower, back) == WithScheme(scheme, rest) <==> lower == scheme && back == rest
  {
    var x, y := WithScheme(lower, back), WithScheme(scheme, rest);
    if scheme != "" && x == y {
      assert x[..|lower|] == lower && y[..|scheme|] == scheme;
      assert x[|lower| + 1..] == back && y[|scheme| + 1..] == rest;
    }
  }

  /** Without marks in the URL, the offset and size come back, and the base put together again. */
  lemma UnmarkedParse(url: string, offset: nat, size: nat)
    requires '?' !in url && '#' !in url
    ensures var scheme, a := Lower(SchemeOf(url)), SplitAuthority(AfterScheme(url));
            Parse(Create(url, offset, size)) ==
            if Refused(a.netloc) then BadAuthority else Parsed(BaseOf(scheme, a.netloc, a.rest), offset, size)
  {
    var a, q := SplitAuthority(AfterScheme(url)), Query(offset, size);
    var s := a.rest + ("?" + q);
    SchemeOfCreated(url, offset, size);
    AuthorityOfCreated(AfterScheme(url), q);
    MarksOfRest(AfterScheme(url));
    QueryIsPlain(offset, size, '#');
    NotFound(s, '#');
    CutAt(s, a.rest, '?', q);
    ReadCreatedQuery(BaseOf(Lower(SchemeOf(url)), a.netloc, a.rest), offset, size);
  }

  lemma PrefixIsPlain(s: string)
    ensures var p := Before(Before(s, '#'), '?'); '?' !in p && '#' !in p
  {
    var a := Before(s, '#');
    assert '#' !in a;
    assert Before(a, '?') <= a;
  }

  /** The part before the query mark never holds a query or fragment mark. */
  lemma BaseIsPlain(scheme: string, netloc: string, path: string, c: char)
    requires c == '?' || c == '#'
    requires c !in scheme && c !in netloc && c !in path
    ensures c !in BaseOf(scheme, netloc, path)
  {
    var p := PathOf(TakesParams(scheme), path);
    assert p <= path;
    assert c !in p;
  }

  lemma PlainBase(scheme: string, netloc: string, path: string, query: string)
    requires '?' !in scheme && '#' !in scheme && '?' !in netloc && '#' !in netloc && '?' !in path && '#' !in path
    ensures var r := ReadQuery(BaseOf(scheme, netloc, path), query); r.Parsed? ==> '?' !in r.base && '#' !in r.base
  {
    BaseIsPlain(scheme, netloc, path, '?');
    BaseIsPlain(scheme, netloc, path, '#');
  }

  lemma SchemeIsPlain(url: string)
    ensures '?' !in Lower(SchemeOf(url)) && '#' !in Lower(SchemeOf(url))
  {
    SchemeAndRest(url);
    LowerIff(SchemeOf(url));
  }

  /** Whatever is parsed, the base has no marks. */
  lemma ParsedBaseIsPlain(u: string)
    ensures var r := Parse(u); r.Parsed? ==> '?' !in r.base && '#' !in r.base
  {
    var a := SplitAuthority(AfterScheme(u));
    var noFragment := Before(a.rest, '#');
    SchemeIsPlain(u);
    AuthorityOf(AfterScheme(u));
    PrefixIsPlain(a.rest);
    PlainBase(Lower(SchemeOf(u)), a.netloc, Before(noFragment, '?'), Behind(noFragment, '?'));
  }

  /**
   The URL made for an object reads back exactly when its base has no query or fragment mark, a
   scheme in lower case, an authority that is neither refused nor lost nor made up, and no empty
   parameters.
   */
  lemma RoundTripIff(url: string, offset: nat, size: nat)
    ensures Parse(Create(url, offset, size)) == Parsed(url, offset, size) <==> ReadsBack(url)
  {
    if '?' !in url && '#' !in url {
      var scheme, rest := SchemeOf(url), AfterScheme(url);
      var takes, params, a := TakesAuthority(Lower(scheme)), TakesParams(Lower(scheme)), SplitAuthority(rest);
      UnmarkedParse(url, offset, size);
      SchemeAndRest(url);
      SchemeIsSame(scheme, Lower(scheme), rest, WithAuthority(takes, a.netloc, PathOf(params, a.rest)));
      LowerIff(scheme);
      RestOf(takes, params, rest);
    } else {
      ParsedBaseIsPlain(Create(url, offset, size));
    }
  }

  /** A path without a scheme, two leading slashes, marks and a semicolon at its end reads back. */
  lemma PathReadsBack(url: string)
    requires SchemeLength(url) == 0 && !("//" <= url)
    requires url != "" && url[|url| - 1] != ';' && '?' !in url && '#' !in url
    ensures ReadsBack(url)
  {
    assert SchemeOf(url) == "";
  }

  /** Two slashes in front of an absolute path are lost, and with them a final empty parameter list. */
  lemma LeadingSlashesAreLost(path: string, offset: nat, size: nat)
    requires path != "" && path[0] == '/' && '?' !in path && '#' !in path
    ensures Parse(Create("//" + path, offset, size)) == Parsed(RejoinParams(path), offset, size)
  {
    var url := "//" + path;
    assert url[2] == '/' && !IsSchemeChar(url[0]);
    assert SchemeOf(url) == "" && Lower("") == "";
    SpanTo(url, 2, 2, c => !EndsAuthority(c));
    assert SplitAuthority(url) == Authority("", path) by {
      assert url[2..2] == "" && url[2..] == path;
    }
    assert "" in USES_PARAMS;
    UnmarkedParse(url, offset, size);
  }
}
