/** The pure rules of `internal/cookiejar/cookiejar.go`: which domain and path a cookie gets, which
    requests it goes to, how long it lives. Whether a host is an IP literal is a parameter `ip`. */
module CookieRules {
  import opened Text

  datatype Cookie = Cookie(name: string, value: string, domain: string, path: string, expires: Option<int>,
                           secure: bool, httpOnly: bool, hostOnly: bool)

  /** A Set-Cookie header as `net/http` parses it; an absent Expires is None, an absent Max-Age 0. */
  datatype WireCookie = WireCookie(name: string, value: string, domain: string, path: string, expires: Option<int>,
                                   maxAge: int, secure: bool, httpOnly: bool)

  datatype Url = Url(scheme: string, hostname: string, path: string)

  type IPTest = string -> bool

  // ----- hosts and domains -----

  function TrimDot(s: string): string {
    if s != "" && s[|s| - 1] == '.' then s[..|s| - 1] else s
  }

  function TrimLeadingDot(s: string): string {
    if s != "" && s[0] == '.' then s[1..] else s
  }

  function CanonicalHost(host: string): string { TrimDot(ToLower(TrimSpace(host))) }

  function CanonicalDomain(domain: string): string { CanonicalHost(TrimLeadingDot(domain)) }

  datatype Scope = Rejected | Scope(domain: string, hostOnly: bool)

  /** `domainAttr`. */
  function DomainAttr(host: string, attr: string, ip: IPTest): Scope {
    if attr == "" then Scope(host, true)
    else
      var d := CanonicalDomain(attr);
      if d == "" then Rejected
      else if ip(host) then if d == host then Scope(host, true) else Rejected
      else if host != d && !HasSuffix(host, "." + d) then Rejected
      else if '.' !in d then if host != d then Rejected else Scope(d, true)
      else Scope(d, false)
  }

  function DomainMatch(host: string, domain: string, hostOnly: bool): bool {
    host == domain || (!hostOnly && HasSuffix(host, "." + domain))
  }

  /** Whoever may set a cookie receives it. */
  lemma {:induction false} SetterMatches(host: string, attr: string, ip: IPTest)
    ensures var s := DomainAttr(host, attr, ip); s.Scope? ==> DomainMatch(host, s.domain, s.hostOnly)
  {
  }

  /** The scopes a response can give a cookie: the host itself, or a parent with a dot in it when the
      host is no IP literal. */
  lemma {:induction false} WireScopes(host: string, attr: string, ip: IPTest)
    ensures var s := DomainAttr(host, attr, ip);
            s.Scope? ==> (s.hostOnly ==> s.domain == host) && (!s.hostOnly ==> '.' in s.domain && !ip(host))
  {
  }

  /** Domain-match of RFC 6265 section 5.1.3: identical, or a dotted suffix of a host name. */
  predicate RFCDomainMatch(host: string, domain: string, ip: IPTest) {
    || host == domain
    || (HasSuffix(host, domain) && |host| > |domain| && host[|host| - |domain| - 1] == '.' && !ip(host))
  }

  /** For a cookie with a Domain the code matches as the RFC does, except that it also matches an IP
      literal that happens to end in a dot and the domain. */
  lemma {:induction false} DomainMatchIsRFC(host: string, domain: string, ip: IPTest)
    ensures DomainMatch(host, domain, false) == RFCDomainMatch(host, domain, ip)
       <==> !(ip(host) && host != domain && HasSuffix(host, "." + domain))
  {
    SuffixAfterDot(host, domain);
  }

  /** Section 5.3 of RFC 6265, steps 4 to 6, with a Domain attribute that has no dot in place of the
      public suffixes: the domain must domain-match the host, and one without a dot must be the host;
      the cookie is open to sub-domains exactly when the domain has a dot and the host is no IP literal. */
  lemma {:induction false} DomainAttrIsRFC(host: string, attr: string, ip: IPTest)
    ensures var d := CanonicalDomain(attr);
            DomainAttr(host, attr, ip) ==
            if attr == "" then Scope(host, true)
            else if d == "" || !RFCDomainMatch(host, d, ip) || ('.' !in d && d != host) then Rejected
            else Scope(d, '.' !in d || ip(host))
  {
    var d := CanonicalDomain(attr);
    SuffixAfterDot(host, d);
  }

  /** Case, a dot in front of a Domain attribute and a dot at the end of a name make no difference. */
  lemma {:induction false} DomainsAreCanonical(d: string, typed: string)
    requires d != "" && d[0] != '.' && d[|d| - 1] != '.' && Trimmed(d)
    requires |typed| == |d| && forall i :: 0 <= i < |d| ==> typed[i] == d[i] || (typed[i] == UpperChar(d[i]) && LowerChar(typed[i]) == d[i])
    requires forall c <- d :: !('A' <= c <= 'Z')
    ensures CanonicalHost(typed) == CanonicalHost(typed + ".") == d
    ensures CanonicalDomain(typed) == CanonicalDomain("." + typed) == CanonicalDomain("." + typed + ".") == d
  {
    assert Trimmed(typed) && Trimmed(typed + ".");
    TrimSpaceFixed(typed);
    TrimSpaceFixed(typed + ".");
    assert ToLower(typed) == d by {
      assert forall i :: 0 <= i < |d| ==> d[i] in d;
    }
    assert ToLower(typed + ".") == d + ".";
    assert (d + ".")[..|d|] == d;
    assert typed[0] != '.';
    assert ("." + typed)[1..] == typed && ("." + typed + ".")[1..] == typed + ".";
  }

  /** A domain an editor can store, and an IP literal it then matches. */
  lemma {:induction false} MatchesIP(ip: IPTest)
    requires ip("10.0.0.1") && !ip("0.0.1")
    ensures var c := Cookie("n", "v", "0.0.1", "/", None, false, false, false);
            Normalize(c, ip) == Some(c)
            && DomainMatch("10.0.0.1", c.domain, c.hostOnly) && !RFCDomainMatch("10.0.0.1", c.domain, ip)
  {
    LowerIsSelf("0.0.1");
    assert "10.0.0.1"[2..] == "." + "0.0.1";
    assert |"10.0.0.1"| == 8 && |"0.0.1"| == 5;
  }

  lemma LowerIsSelf(d: string)
    requires d != "" && d[0] != '.' && d[|d| - 1] != '.' && Trimmed(d) && forall c <- d :: LowerChar(c) == c
    ensures CanonicalDomain(d) == d
  {
    assert ToLower(d) == d;
    TrimSpaceFixed(d);
  }

  lemma SuffixAfterDot(host: string, domain: string)
    ensures HasSuffix(host, "." + domain)
       <==> HasSuffix(host, domain) && |host| > |domain| && host[|host| - |domain| - 1] == '.'
  {
    var t := "." + domain;
    if |t| <= |host| {
      var tail := host[|host| - |t|..];
      assert tail[1..] == host[|host| - |domain|..];
      assert t[1..] == domain;
      if tail[0] == '.' && tail[1..] == domain {
        assert tail == [tail[0]] + tail[1..];
      }
    }
  }

  // ----- paths -----

  predicate HasPrefix(s: string, t: string) { t <= s }

  predicate PathMatch(reqPath: string, cookiePath: string) {
    || reqPath == cookiePath
    || (HasPrefix(reqPath, cookiePath) && (HasSuffix(cookiePath, "/") || reqPath[|cookiePath|] == '/'))
  }

  /** Path-match of RFC 6265 section 5.1.4: identical, or a prefix that ends in a slash, or a prefix
      after which the request path goes on with one. */
  ghost predicate RFCPathMatch(reqPath: string, cookiePath: string) {
    || cookiePath == reqPath
    || (exists dir, rest: string :: cookiePath == dir + "/" && reqPath == cookiePath + rest)
    || (exists rest: string :: reqPath == cookiePath + "/" + rest)
  }

  /** The code matches paths as the RFC does. */
  lemma {:induction false} PathMatchIsRFC(reqPath: string, cookiePath: string)
    ensures PathMatch(reqPath, cookiePath) <==> RFCPathMatch(reqPath, cookiePath)
  {
    var n := |cookiePath|;
    if PathMatch(reqPath, cookiePath) && reqPath != cookiePath {
      assert reqPath == cookiePath + reqPath[n..];
      if HasSuffix(cookiePath, "/") {
        assert cookiePath == cookiePath[..n - 1] + "/";
      } else {
        assert reqPath == cookiePath + "/" + reqPath[n + 1..];
      }
    }
    if dir, rest: string :| cookiePath == dir + "/" && reqPath == cookiePath + rest {
      assert cookiePath[n - 1..] == "/";
    }
    if rest: string :| reqPath == cookiePath + "/" + rest {
      assert reqPath[n] == '/';
    }
  }

  /** Going on after a slash is going on by segments. */
  lemma {:induction false} ContinuesBySegments(path: string, dir: string)
    ensures Split(dir, '/') < Split(path, '/') <==> dir + "/" <= path
    ensures Split(dir, '/') <= Split(path, '/') <==> path == dir || dir + "/" <= path
  {
    hide Split, Join;
    var all, first := Split(path, '/'), Split(dir, '/');
    JoinOfSplit(path, '/');
    JoinOfSplit(dir, '/');
    if first <= all && first != all {
      assert all == first + all[|first|..];
      JoinAppend(first, all[|first|..], "/");
    }
    if dir + "/" <= path {
      var rest := path[|dir| + 1..];
      assert path == dir + ['/'] + rest;
      SplitAppend(dir, '/', rest);
    }
  }

  /** By segments: a cookie path goes to itself and everything below it, and with a slash at its end to
      what is below only. "/foo" goes to "/foo", "/foo/" and "/foo/bar", and not to "/foobar". */
  lemma {:induction false} PathMatchBySegments(reqPath: string, cookiePath: string)
    ensures PathMatch(reqPath, cookiePath) <==>
            if HasSuffix(cookiePath, "/") then Split(cookiePath[..|cookiePath| - 1], '/') < Split(reqPath, '/')
            else Split(cookiePath, '/') <= Split(reqPath, '/')
  {
    var n := |cookiePath|;
    if HasSuffix(cookiePath, "/") {
      assert cookiePath == cookiePath[..n - 1] + "/";
      ContinuesBySegments(reqPath, cookiePath[..n - 1]);
    } else {
      ContinuesBySegments(reqPath, cookiePath);
      if cookiePath <= reqPath && n < |reqPath| && reqPath[n] == '/' {
        assert cookiePath + "/" == reqPath[..n + 1];
      }
      if cookiePath + "/" <= reqPath {
        assert (cookiePath + "/")[n] == '/' && cookiePath == (cookiePath + "/")[..n];
      }
    }
  }

  /** Index of the last slash, or -1. */
  function LastSlash(s: string): (i: int)
    ensures -1 <= i < |s|
    ensures i >= 0 ==> s[i] == '/'
    ensures forall k :: i < k < |s| ==> s[k] != '/'
  {
    if s == "" then -1
    else if s[|s| - 1] == '/' then |s| - 1
    else LastSlash(s[..|s| - 1])
  }

  function DefaultPath(p: string): string {
    if p == "" || p[0] != '/' then "/"
    else
      var i := LastSlash(p);
      if i <= 0 then "/" else p[..i]
  }

  /** The path a request presents. */
  function RequestPath(u: Url): string { if u.path == "" then "/" else u.path }

  /** The path a response's cookie gets. */
  function CookiePath(u: Url, attr: string): string {
    if attr == "" || attr[0] != '/' then DefaultPath(u.path) else attr
  }

  /** The path of a cookie, section 5.2.4: its Path attribute where that starts with a slash, otherwise
      the directory of the request path, and "/" where that is the root or the request path is relative. */
  lemma CookiePathIs(u: Url, attr: string, dir: string, last: string)
    requires '/' !in last
    ensures ['/'] <= attr ==> CookiePath(u, attr) == attr
    ensures !(['/'] <= attr) && u.path == dir + "/" + last && ['/'] <= dir ==> CookiePath(u, attr) == dir
    ensures !(['/'] <= attr) && (u.path == "/" + last || !(['/'] <= u.path)) ==> CookiePath(u, attr) == "/"
  {
    if u.path == dir + "/" + last {
      assert u.path[|dir|] == '/' && u.path[|dir| + 1..] == last;
      assert forall k :: |dir| < k < |u.path| ==> u.path[k] == last[k - |dir| - 1] && u.path[k] in last;
      assert LastSlash(u.path) == |dir| && u.path[..|dir|] == dir;
    }
    if u.path == "/" + last {
      assert forall k :: 0 < k < |u.path| ==> u.path[k] == last[k - 1] && u.path[k] in last;
    }
  }

  /** A cookie without a usable Path attribute path-matches the request that set it exactly when the
      request path is empty or starts with a slash. */
  lemma DefaultPathMatches(u: Url)
    ensures PathMatch(RequestPath(u), DefaultPath(u.path)) <==> u.path == "" || u.path[0] == '/'
  {
    if u.path != "" && u.path[0] == '/' {
      var i := LastSlash(u.path);
      if i > 0 {
        assert u.path[..i] <= u.path;
      } else {
        assert "/" <= u.path;
      }
    }
  }

  // ----- lifetimes -----

  const NANOS: int := 1_000_000_000

  /** A 64-bit signed product, as Go computes it. */
  function Wrap64(x: int): int {
    var m := x % 0x1_0000_0000_0000_0000;
    if m < 0x8000_0000_0000_0000 then m else m - 0x1_0000_0000_0000_0000
  }

  datatype Lifetime = DeleteNow | Until(expires: Option<int>)

  /** `expiry`, times in nanoseconds. */
  function Expiry(c: WireCookie, now: int): Lifetime {
    if c.maxAge < 0 then DeleteNow
    else if c.maxAge > 0 then Until(Some(now + Wrap64(c.maxAge * NANOS)))
    else if c.expires.Some? then if c.expires.value <= now then DeleteNow else Until(c.expires)
    else Until(None)
  }

  predicate Live(expires: Option<int>, now: int) {
    expires.Some? ==> expires.value > now
  }

  /** A cookie that is stored is live at that moment, unless its Max-Age overflows the nanosecond
      duration into the past. */
  lemma StoredIsLive(c: WireCookie, now: int)
    requires Expiry(c, now).Until?
    ensures Live(Expiry(c, now).expires, now) <==> !(c.maxAge > 0 && Wrap64(c.maxAge * NANOS) <= 0)
  {
  }

  /** How long a cookie lives, section 5.3 of RFC 6265: a positive Max-Age of n seconds for n seconds
      whatever Expires says, as long as the nanoseconds fit; without one until Expires, and without that
      too without end; a negative Max-Age or a past Expires deletes. */
  lemma LifetimeIs(c: WireCookie, now: int, at: int)
    requires at >= now && c.maxAge <= 9_223_372_036
    ensures var life := Expiry(c, now);
            (life.Until? && Live(life.expires, at)) <==>
            if c.maxAge != 0 then at < now + c.maxAge * 1_000_000_000
            else c.expires.Some? ==> at < c.expires.value
    ensures Expiry(c, now).DeleteNow? <==> c.maxAge < 0 || (c.maxAge == 0 && c.expires.Some? && c.expires.value <= now)
  {
  }

  /** The first Max-Age that does: about 292 years, asking for the longest life, ends the cookie. */
  lemma MaxAgeOverflows(now: int, c: WireCookie)
    requires c.maxAge == 9_223_372_037
    ensures Expiry(c, now).Until? && !Live(Expiry(c, now).expires, now)
  {
  }

  // ----- the editor -----

  /** `normalize`; None where it refuses the cookie. */
  function Normalize(c: Cookie, ip: IPTest): Option<Cookie> {
    var d := CanonicalDomain(c.domain);
    if d == "" || c.name == "" then None
    else if '\0' in c.name || '\0' in c.path || '\0' in d then None
    else
      Some(c.(domain := d, path := if c.path == "" then "/" else c.path, hostOnly := c.hostOnly || ip(d)))
  }

  /** Some response could have given a cookie this scope. */
  ghost predicate OnWire(domain: string, hostOnly: bool, ip: IPTest) {
    exists host: string, attr: string :: DomainAttr(host, attr, ip) == Scope(domain, hostOnly)
  }

  lemma {:induction false} DottedOnWire(domain: string, ip: IPTest)
    requires CanonicalDomain(domain) == domain != "" && '.' in domain && !ip(domain)
    ensures OnWire(domain, false, ip)
  {
    assert DomainAttr(domain, domain, ip) == Scope(domain, false);
  }

  /** The editor can give a cookie a scope no response could exactly when it leaves a dotless, non-IP
      domain open to sub-domains. (Domains that canonicalize to themselves.) */
  lemma {:induction false} EditorScope(c: Cookie, ip: IPTest)
    requires Normalize(c, ip).Some?
    requires CanonicalDomain(Normalize(c, ip).value.domain) == Normalize(c, ip).value.domain
    ensures var n := Normalize(c, ip).value;
            OnWire(n.domain, n.hostOnly, ip) <==> c.hostOnly || ip(n.domain) || '.' in n.domain
  {
    var n := Normalize(c, ip).value;
    if n.hostOnly {
      assert DomainAttr(n.domain, "", ip) == Scope(n.domain, true);
    } else if '.' in n.domain {
      DottedOnWire(n.domain, ip);
    } else if OnWire(n.domain, n.hostOnly, ip) {
      var host, attr :| DomainAttr(host, attr, ip) == Scope(n.domain, n.hostOnly);
      WireScopes(host, attr, ip);
    }
  }

  /** Such a domain: a cookie for "localhost" and everything below it. */
  lemma {:induction false} EditorOpensDotless(ip: IPTest)
    requires !ip("localhost")
    ensures var c := Cookie("n", "v", "localhost", "/", None, false, false, false);
            Normalize(c, ip) == Some(c) && !OnWire("localhost", false, ip)
  {
    hide OnWire;
    var c := Cookie("n", "v", "localhost", "/", None, false, false, false);
    LowerIsSelf("localhost");
    assert Normalize(c, ip) == Some(c);
    EditorScope(c, ip);
    assert '.' !in "localhost";
  }

  // ----- keys -----

  function Key(domain: string, path: string, name: string): string { domain + "\0" + path + "\0" + name }

  function KeyOf(c: Cookie): string { Key(c.domain, c.path, c.name) }

  predicate NulFree(c: Cookie) { '\0' !in c.domain && '\0' !in c.path && '\0' !in c.name }

  /** What the editor stores has a key that tells it apart, a path, and the value and flags that were
      entered. */
  lemma NormalizedKeeps(c: Cookie, ip: IPTest)
    ensures Normalize(c, ip).Some? <==>
              CanonicalDomain(c.domain) != "" && c.name != "" && NulFree(c.(domain := CanonicalDomain(c.domain)))
    ensures Normalize(c, ip).Some? ==>
              var n := Normalize(c, ip).value;
              && NulFree(n) && n.path != "" && (c.path != "" ==> n.path == c.path) && (c.path == "" ==> n.path == "/")
              && n.(domain := c.domain, path := c.path, hostOnly := c.hostOnly) == c
  {
  }

  /** Keys of NUL-free cookies are as good as their (domain, path, name) triples. */
  lemma KeyInjective(c: Cookie, d: Cookie)
    requires NulFree(c) && NulFree(d) && KeyOf(c) == KeyOf(d)
    ensures c.domain == d.domain && c.path == d.path && c.name == d.name
  {
    SplitKey(c);
    SplitKey(d);
    assert Split(KeyOf(c), '\0') == Split(KeyOf(d), '\0');
    assert [c.domain, c.path, c.name][0] == [d.domain, d.path, d.name][0];
    assert [c.domain, c.path, c.name][1] == [d.domain, d.path, d.name][1];
    assert [c.domain, c.path, c.name][2] == [d.domain, d.path, d.name][2];
  }

  lemma SplitKey(c: Cookie)
    requires NulFree(c)
    ensures Split(KeyOf(c), '\0') == [c.domain, c.path, c.name]
  {
    assert KeyOf(c) == c.domain + ['\0'] + (c.path + ['\0'] + c.name);
    SplitCons(c.domain, '\0', c.path + ['\0'] + c.name);
    SplitCons(c.path, '\0', c.name);
    SplitFree(c.name, '\0');
  }
}
