/** The jar of `internal/cookiejar/cookiejar.go`: a map of entries updated in place by every operation.
    The clock is a parameter `now` of each call; the mutex makes each call one step. */
module CookieJar {
  import opened Text
  import opened CookieRules

  datatype Entry = Entry(cookie: Cookie, created: int, seqNo: nat)

  type Table = map<string, Entry>

  /** Every entry sits at the key of its own fields, with a sequence number of its own no larger than
      the counter. */
  ghost predicate Consistent(m: Table, seqNo: nat) {
    && (forall k <- m :: k == KeyOf(m[k].cookie))
    && (forall k <- m :: 0 < m[k].seqNo <= seqNo)
    && (forall k, l | k in m && l in m && m[k].seqNo == m[l].seqNo :: k == l)
  }

  /** `store`: an update keeps the creation time and the number of the entry it replaces. */
  function Stored(m: Table, seqNo: nat, c: Cookie, now: int): Table {
    var k := KeyOf(c);
    if k in m then m[k := Entry(c, m[k].created, m[k].seqNo)] else m[k := Entry(c, now, seqNo + 1)]
  }

  function NextSeq(m: Table, seqNo: nat, c: Cookie): nat {
    if KeyOf(c) in m then seqNo else seqNo + 1
  }

  lemma StoredConsistent(m: Table, seqNo: nat, c: Cookie, now: int)
    requires Consistent(m, seqNo)
    ensures Consistent(Stored(m, seqNo, c, now), NextSeq(m, seqNo, c))
  {
    hide KeyOf;
  }

  /** Numbers tell the order in which the slots were first written: a new slot is the last, and writing
      a slot again leaves it where it is. */
  lemma StoredLast(m: Table, seqNo: nat, c: Cookie, now: int)
    requires Consistent(m, seqNo)
    ensures var k, after := KeyOf(c), Stored(m, seqNo, c, now);
            && after.Keys == m.Keys + {k} && after[k].cookie == c
            && (forall l <- m :: after[l].seqNo == m[l].seqNo && after[l].created == m[l].created)
            && (forall l <- m :: l != k ==> after[l] == m[l])
            && (k !in m ==> after[k].created == now && forall l <- m :: after[l].seqNo < after[k].seqNo)
  {
    hide KeyOf;
  }

  lemma RemovedConsistent(m: Table, seqNo: nat, k: string)
    requires Consistent(m, seqNo)
    ensures Consistent(m - {k}, seqNo)
  {
    hide KeyOf;
  }

  // ----- what a response does -----

  datatype State = State(m: Table, seqNo: nat)

  /** The cookie stored for a wire cookie from u, if its scope is allowed. */
  function Accepted(u: Url, host: string, w: WireCookie, expires: Option<int>, ip: IPTest): Option<Cookie> {
    var s := DomainAttr(host, w.domain, ip);
    if s.Rejected? then None
    else Some(Cookie(w.name, w.value, s.domain, CookiePath(u, w.path), expires, w.secure, w.httpOnly, s.hostOnly))
  }

  /** One Set-Cookie header: ignored without a name or with a foreign domain, otherwise the slot is
      deleted or written. */
  function AfterHeader(st: State, u: Url, w: WireCookie, now: int, ip: IPTest): State {
    var host := CanonicalHost(u.hostname);
    if w.name == "" then st
    else
      match Expiry(w, now)
      case DeleteNow =>
        (match Accepted(u, host, w, None, ip)
         case None => st
         case Some(c) => State(st.m - {KeyOf(c)}, st.seqNo))
      case Until(expires) =>
        (match Accepted(u, host, w, expires, ip)
         case None => st
         case Some(c) => State(Stored(st.m, st.seqNo, c, now), NextSeq(st.m, st.seqNo, c)))
  }

  function AfterHeaders(st: State, u: Url, ws: seq<WireCookie>, n: nat, now: int, ip: IPTest): State
    requires n <= |ws|
  {
    if n == 0 then st else AfterHeader(AfterHeaders(st, u, ws, n - 1, now, ip), u, ws[n - 1], now, ip)
  }

  // ----- what a request gets -----

  predicate Matches(e: Entry, host: string, reqPath: string, secure: bool) {
    && (e.cookie.secure ==> secure)
    && DomainMatch(host, e.cookie.domain, e.cookie.hostOnly)
    && PathMatch(reqPath, e.cookie.path)
  }

  predicate Secure(u: Url) { ToLower(u.scheme) == "https" }

  /** The entries a request to u is offered at time `now`. */
  function Offered(m: Table, u: Url, now: int): set<Entry> {
    set k | k in m && Live(m[k].cookie.expires, now)
            && Matches(m[k], CanonicalHost(u.hostname), RequestPath(u), Secure(u)) :: m[k]
  }

  /** Longer paths first, then older entries. */
  predicate Before(a: Entry, b: Entry) {
    || |a.cookie.path| > |b.cookie.path|
    || (|a.cookie.path| == |b.cookie.path| && a.seqNo < b.seqNo)
  }

  predicate InOrder(es: seq<Entry>) {
    forall i, j :: 0 <= i < j < |es| ==> Before(es[i], es[j])
  }

  /** A set has at most one listing in sending order, so the order cannot depend on how the map was
      walked. */
  lemma {:induction false} OneOrder(xs: seq<Entry>, ys: seq<Entry>)
    requires InOrder(xs) && InOrder(ys)
    requires forall e :: e in xs <==> e in ys
    ensures xs == ys
  {
    assert xs != [] ==> xs[0] in ys;
    assert ys != [] ==> ys[0] in xs;
    if xs != [] && ys != [] {
      assert xs[0] in ys && ys[0] in xs;
      assert xs[0] == ys[0];
      forall e
        ensures e in xs[1..] <==> e in ys[1..]
      {
        assert xs == [xs[0]] + xs[1..] && ys == [ys[0]] + ys[1..];
        assert xs[0] !in xs[1..] && ys[0] !in ys[1..];
        assert e in xs <==> e in ys;
      }
      OneOrder(xs[1..], ys[1..]);
    }
  }

  lemma OrderIs(es: seq<Entry>)
    requires InOrder(es)
    ensures forall i, j :: 0 <= i < j < |es| ==>
                             || |es[i].cookie.path| > |es[j].cookie.path|
                             || (|es[i].cookie.path| == |es[j].cookie.path| && es[i].seqNo < es[j].seqNo)
  {
    forall i, j | 0 <= i < j < |es| ensures Before(es[i], es[j]) {
    }
  }

  function Pairs(es: seq<Entry>): seq<(string, string)> {
    seq(|es|, i requires 0 <= i < |es| => (es[i].cookie.name, es[i].cookie.value))
  }

  /** The answer to a request: exactly the offered entries, in sending order. */
  ghost predicate IsAnswer(m: Table, u: Url, now: int, sent: seq<Entry>) {
    InOrder(sent) && forall e :: e in sent <==> e in Offered(m, u, now)
  }

  /** The order is total on entries with different numbers, so inserting keeps a listing ordered. */
  method SortForSending(es: seq<Entry>) returns (out: seq<Entry>)
    requires forall i, j :: 0 <= i < j < |es| ==> es[i].seqNo != es[j].seqNo
    ensures InOrder(out)
    ensures forall e :: e in out <==> e in es
  {
    out := [];
    for i := 0 to |es|
      invariant InOrder(out)
      invariant forall e :: e in out <==> e in es[..i]
    {
      var e := es[i];
      assert forall x <- out :: x.seqNo != e.seqNo by {
        forall x <- out
          ensures x.seqNo != e.seqNo
        {
          assert x in es[..i];
        }
      }
      var p := 0;
      while p < |out| && Before(out[p], e)
        invariant 0 <= p <= |out|
        invariant forall q :: 0 <= q < p ==> Before(out[q], e)
      {
        p := p + 1;
      }
      InsertInOrder(out, p, e);
      assert es[..i + 1] == es[..i] + [e];
      out := out[..p] + [e] + out[p..];
    }
    assert es[..|es|] == es;
  }

  lemma InsertInOrder(out: seq<Entry>, p: nat, e: Entry)
    requires InOrder(out) && p <= |out|
    requires forall x <- out :: x.seqNo != e.seqNo
    requires forall q :: 0 <= q < p ==> Before(out[q], e)
    requires p < |out| ==> !Before(out[p], e)
    ensures InOrder(out[..p] + [e] + out[p..])
    ensures forall x :: x in out[..p] + [e] + out[p..] <==> x in out || x == e
  {
    var next := out[..p] + [e] + out[p..];
    assert out == out[..p] + out[p..];
    if p < |out| {
      assert out[p] in out;
      assert Before(e, out[p]);
    }
    forall i, j | 0 <= i < j < |next|
      ensures Before(next[i], next[j])
    {
      if i == p && j > p + 1 {
        assert next[j] == out[j - 1] && Before(out[p], out[j - 1]);
      }
    }
  }

  class Jar {
    var m: Table
    var seqNo: nat
    const ip: IPTest

    ghost predicate Valid()
      reads this
    {
      Consistent(m, seqNo)
    }

    constructor (ip: IPTest)
      ensures Valid() && m == map[] && this.ip == ip
    {
      m, seqNo := map[], 0;
      this.ip := ip;
    }

    method Store(c: Cookie, now: int)
      requires Valid()
      modifies this
      ensures Valid()
      ensures m == Stored(old(m), old(seqNo), c, now) && seqNo == NextSeq(old(m), old(seqNo), c)
    {
      StoredConsistent(m, seqNo, c, now);
      var k := KeyOf(c);
      if k in m {
        m := m[k := Entry(c, m[k].created, m[k].seqNo)];
      } else {
        seqNo := seqNo + 1;
        m := m[k := Entry(c, now, seqNo)];
      }
    }

    method Delete(k: string)
      requires Valid()
      modifies this
      ensures Valid() && m == old(m) - {k} && seqNo == old(seqNo)
    {
      RemovedConsistent(m, seqNo, k);
      m := m - {k};
    }

    /** `SetCookies`. */
    method SetCookies(url: Option<Url>, cookies: seq<WireCookie>, now: int)
      requires Valid()
      modifies this
      ensures Valid()
      ensures if url.None? || CanonicalHost(url.value.hostname) == "" then m == old(m) && seqNo == old(seqNo)
              else State(m, seqNo) == AfterHeaders(State(old(m), old(seqNo)), url.value, cookies, |cookies|, now, ip)
    {
      if url.None? || |cookies| == 0 {
        return;
      }
      var u := url.value;
      var host := CanonicalHost(u.hostname);
      if host == "" {
        return;
      }
      hide Stored, NextSeq, DomainAttr, CanonicalHost, Expiry, Consistent, KeyOf;
      for i := 0 to |cookies|
        invariant Valid()
        invariant State(m, seqNo) == AfterHeaders(State(old(m), old(seqNo)), u, cookies, i, now, ip)
      {
        var c := cookies[i];
        if c.name == "" {
          continue;
        }
        var s := DomainAttr(host, c.domain, ip);
        if s.Rejected? {
          continue;
        }
        var path := c.path;
        if path == "" || path[0] != '/' {
          path := DefaultPath(u.path);
        }
        var life := Expiry(c, now);
        var stored := Cookie(c.name, c.value, s.domain, path, None, c.secure, c.httpOnly, s.hostOnly);
        match life
        case DeleteNow =>
          Delete(KeyOf(stored));
        case Until(expires) =>
          Store(stored.(expires := expires), now);
      }
    }

    /** `liveEntries`: purges what has expired and returns the live entries `keep` accepts, in whatever
        order the map is walked. */
    method LiveEntries(keep: Entry -> bool, now: int) returns (out: seq<Entry>)
      requires Valid()
      modifies this
      ensures Valid() && seqNo == old(seqNo)
      ensures m == LiveOnly(old(m), now)
      ensures forall e :: e in out <==> exists k :: k in old(m) && old(m)[k] == e && Live(e.cookie.expires, now) && keep(e)
      ensures forall i, j :: 0 <= i < j < |out| ==> out[i].seqNo != out[j].seqNo
    {
      hide Walked, Consistent, Live;
      out := [];
      var left := m.Keys;
      WalkStarts(m, now, keep);
      while left != {}
        invariant Valid() && seqNo == old(seqNo)
        invariant left <= m.Keys && forall k <- left :: k in old(m) && m[k] == old(m)[k]
        invariant Walked(old(m), left, now, keep, m, out)
        decreases |left|
      {
        var k :| k in left;
        var e := m[k];
        WalkStep(old(m), old(seqNo), left, k, now, keep, m, out);
        left := left - {k};
        if !Live(e.cookie.expires, now) {
          Delete(k);
          continue;
        }
        if keep(e) {
          out := out + [e];
        }
      }
      WalkEnds(old(m), now, keep, m, out);
    }

    /** `Cookies`: exactly the live entries that match the request, in the one order they have; the
        entries sent are `sent`. */
    method Cookies(url: Option<Url>, now: int) returns (out: seq<(string, string)>, ghost sent: seq<Entry>)
      requires Valid()
      modifies this
      ensures Valid() && seqNo == old(seqNo)
      ensures out == Pairs(sent)
      ensures forall i, j :: 0 <= i < j < |sent| ==>
                               || |sent[i].cookie.path| > |sent[j].cookie.path|
                               || (|sent[i].cookie.path| == |sent[j].cookie.path| && sent[i].seqNo < sent[j].seqNo)
      ensures if url.None? || CanonicalHost(url.value.hostname) == "" then sent == [] && m == old(m)
              else IsAnswer(old(m), url.value, now, sent) && m == LiveOnly(old(m), now)
    {
      out, sent := [], [];
      if url.None? {
        return;
      }
      var u := url.value;
      var host := CanonicalHost(u.hostname);
      if host == "" {
        return;
      }
      var secure := ToLower(u.scheme) == "https";
      var reqPath := if u.path == "" then "/" else u.path;
      var keep := (e: Entry) => Matches(e, host, reqPath, secure);
      hide Matches, CanonicalHost, Consistent, LiveOnly, ToLower, InOrder, Before;
      var matches := LiveEntries(keep, now);
      var sorted := SortForSending(matches);
      sent := sorted;
      OrderIs(sent);
      for i := 0 to |sorted|
        invariant out == Pairs(sorted[..i])
      {
        assert Pairs(sorted[..i + 1]) == Pairs(sorted[..i]) + [(sorted[i].cookie.name, sorted[i].cookie.value)];
        out := out + [(sorted[i].cookie.name, sorted[i].cookie.value)];
      }
      assert sorted[..|sorted|] == sorted;
    }

    /** `Set`. */
    method Set(c: Cookie, now: int)
      requires Valid()
      modifies this
      ensures Valid()
      ensures match Normalize(c, ip)
              case None => m == old(m) && seqNo == old(seqNo)
              case Some(n) => m == Stored(old(m), old(seqNo), n, now) && seqNo == NextSeq(old(m), old(seqNo), n)
    {
      var n := Normalize(c, ip);
      if n.Some? {
        Store(n.value, now);
      }
    }

    /** `Replace`. */
    method Replace(oldDomain: string, oldPath: string, oldName: string, c: Cookie, now: int)
      requires Valid()
      modifies this
      ensures Valid()
      ensures match Normalize(c, ip)
              case None => m == old(m) && seqNo == old(seqNo)
              case Some(n) =>
                State(m, seqNo) == Replaced(State(old(m), old(seqNo)), SlotKey(oldDomain, oldPath, oldName), n, now)
    {
      var n := Normalize(c, ip);
      if n.None? {
        return;
      }
      var oldKey := SlotKey(oldDomain, oldPath, oldName);
      var newKey := KeyOf(n.value);
      if oldKey != newKey {
        Delete(oldKey);
      }
      Store(n.value, now);
    }

    /** `Remove`. */
    method Remove(domain: string, path: string, name: string)
      requires Valid()
      modifies this
      ensures Valid() && m == old(m) - {SlotKey(domain, path, name)} && seqNo == old(seqNo)
    {
      Delete(SlotKey(domain, path, name));
    }

    /** `Clear`. */
    method Clear()
      requires Valid()
      modifies this
      ensures Valid() && m == map[] && seqNo == old(seqNo)
    {
      m := map[];
    }
  }

  function LiveOnly(m: Table, now: int): Table {
    map k | k in m && Live(m[k].cookie.expires, now) :: m[k]
  }

  /** The slot the editor means by what the viewer shows. */
  function SlotKey(domain: string, path: string, name: string): string {
    Key(CanonicalDomain(domain), if path == "" then "/" else path, name)
  }

  function Replaced(st: State, oldKey: string, n: Cookie, now: int): State {
    var m := if oldKey == KeyOf(n) then st.m else st.m - {oldKey};
    State(Stored(m, st.seqNo, n, now), NextSeq(m, st.seqNo, n))
  }

  /** The walk of `liveEntries` with the keys `left` still ahead of it. */
  ghost predicate Walked(m0: Table, left: set<string>, now: int, keep: Entry -> bool, m: Table, out: seq<Entry>) {
    && left <= m.Keys <= m0.Keys
    && (forall k <- m :: m[k] == m0[k])
    && (forall k <- m0 :: k !in left ==> (k in m <==> Live(m0[k].cookie.expires, now)))
    && (forall e <- out :: exists k :: k in m0 && k !in left && m0[k] == e && Live(e.cookie.expires, now) && keep(e))
    && (forall k <- m0 :: k !in left && Live(m0[k].cookie.expires, now) && keep(m0[k]) ==> m0[k] in out)
    && (forall i, j :: 0 <= i < j < |out| ==> out[i].seqNo != out[j].seqNo)
  }

  lemma {:induction false} WalkStarts(m0: Table, now: int, keep: Entry -> bool)
    ensures Walked(m0, m0.Keys, now, keep, m0, [])
  {
  }

  lemma {:induction false} WalkStep(m0: Table, seqNo: nat, left: set<string>, k: string, now: int, keep: Entry -> bool,
                                    m: Table, out: seq<Entry>)
    requires Consistent(m0, seqNo) && Walked(m0, left, now, keep, m, out) && k in left
    ensures m[k] == m0[k]
    ensures var e := m0[k];
            Walked(m0, left - {k}, now, keep, if Live(e.cookie.expires, now) then m else m - {k},
                   if Live(e.cookie.expires, now) && keep(e) then out + [e] else out)
  {
    NumberIsNew(m0, seqNo, left, k, now, keep, m, out);
    hide Live, KeyOf, Consistent;
  }

  /** The entry at the next key has a number that the walk has not met. */
  lemma {:induction false} NumberIsNew(m0: Table, seqNo: nat, left: set<string>, k: string, now: int, keep: Entry -> bool,
                                       m: Table, out: seq<Entry>)
    requires Consistent(m0, seqNo) && Walked(m0, left, now, keep, m, out) && k in left
    ensures k in m0 && forall i :: 0 <= i < |out| ==> out[i].seqNo != m0[k].seqNo
  {
    hide Live, KeyOf;
    forall i | 0 <= i < |out|
      ensures out[i].seqNo != m0[k].seqNo
    {
      assert out[i] in out;
      var l :| l in m0 && l !in left && m0[l] == out[i];
    }
  }

  lemma {:induction false} WalkEnds(m0: Table, now: int, keep: Entry -> bool, m: Table, out: seq<Entry>)
    requires Walked(m0, {}, now, keep, m, out)
    ensures m == LiveOnly(m0, now)
    ensures forall e :: e in out <==> exists k :: k in m0 && m0[k] == e && Live(e.cookie.expires, now) && keep(e)
    ensures forall i, j :: 0 <= i < j < |out| ==> out[i].seqNo != out[j].seqNo
  {
    hide Live;
  }

  // ----- what the operations promise -----

  /** "https" in any case. */
  predicate IsHttps(scheme: string) {
    |scheme| == 5 && forall i :: 0 <= i < 5 ==> scheme[i] == "https"[i] || scheme[i] == "HTTPS"[i]
  }

  lemma HttpsAnyCase(scheme: string)
    ensures ToLower(scheme) == "https" <==> IsHttps(scheme)
  {
    if ToLower(scheme) == "https" {
      assert forall i :: 0 <= i < 5 ==> LowerChar(scheme[i]) == ToLower(scheme)[i];
    }
    if IsHttps(scheme) {
      assert forall i :: 0 <= i < 5 ==> ToLower(scheme)[i] == "https"[i];
    }
  }

  /** Section 5.4 of RFC 6265: an entry is offered exactly when it has not expired, the host is its
      domain or, unless it is host-only, ends in a dot and its domain, the path path-matches, and a secure
      one meets https. */
  lemma {:induction false} OfferedIs(m: Table, u: Url, now: int, e: Entry)
    ensures var host, c := CanonicalHost(u.hostname), e.cookie;
            e in Offered(m, u, now) <==>
              && (exists k <- m :: m[k] == e)
              && (c.expires == None || now < c.expires.value)
              && (host == c.domain || (!c.hostOnly && exists sub: string :: host == sub + "." + c.domain))
              && RFCPathMatch(if u.path == "" then "/" else u.path, c.path)
              && (!c.secure || IsHttps(u.scheme))
  {
    hide PathMatch, RFCPathMatch, CanonicalHost, IsHttps;
    var host, c := CanonicalHost(u.hostname), e.cookie;
    PathMatchIsRFC(RequestPath(u), c.path);
    HttpsAnyCase(u.scheme);
    if HasSuffix(host, "." + c.domain) {
      assert host == host[..|host| - |c.domain| - 1] + "." + c.domain;
    }
    if sub: string :| host == sub + "." + c.domain {
      assert host[|sub|..] == "." + c.domain;
    }
  }

  /** A cookie a response has just stored is offered to the URL that set it exactly when the scheme and
      the cookie's path allow it and its lifetime has not overflowed. */
  lemma {:induction false} OfferedBack(st: State, u: Url, w: WireCookie, now: int, ip: IPTest)
    requires w.name != "" && Expiry(w, now).Until?
    requires Accepted(u, CanonicalHost(u.hostname), w, Expiry(w, now).expires, ip).Some?
    ensures var c := Accepted(u, CanonicalHost(u.hostname), w, Expiry(w, now).expires, ip).value;
            var after := AfterHeader(st, u, w, now, ip);
            KeyOf(c) in after.m && after.m[KeyOf(c)].cookie == c
            && (after.m[KeyOf(c)] in Offered(after.m, u, now) <==>
                (w.secure ==> Secure(u)) && PathMatch(RequestPath(u), c.path)
                && !(w.maxAge > 0 && Wrap64(w.maxAge * NANOS) <= 0))
  {
    hide KeyOf, PathMatch, DomainMatch, Wrap64, CanonicalHost;
    var host := CanonicalHost(u.hostname);
    var c := Accepted(u, host, w, Expiry(w, now).expires, ip).value;
    var after := AfterHeader(st, u, w, now, ip);
    SetterMatches(host, w.domain, ip);
    StoredIsLive(w, now);
    var e := after.m[KeyOf(c)];
    assert e.cookie == c;
    assert e in Offered(after.m, u, now) <==> Live(c.expires, now) && Matches(e, host, RequestPath(u), Secure(u));
  }

  /** An edit that keeps a cookie's identity keeps its place: the table has the same keys and numbers,
      and the answer to any request the edited cookie matches before and after lists the same slots in
      the same order. */
  lemma EditKeepsPlace(st: State, oldKey: string, n: Cookie, now: int)
    requires Consistent(st.m, st.seqNo) && oldKey == KeyOf(n) && oldKey in st.m
    ensures var after := Replaced(st, oldKey, n, now);
            && after.m.Keys == st.m.Keys && after.seqNo == st.seqNo
            && (forall k <- st.m :: after.m[k].seqNo == st.m[k].seqNo && after.m[k].created == st.m[k].created)
            && (forall k <- st.m :: k != oldKey ==> after.m[k] == st.m[k])
            && after.m[oldKey].cookie == n
  {
    hide KeyOf;
  }

  /** Entries compare the same before and after an edit that keeps identities, paths included. */
  lemma EditKeepsOrder(st: State, oldKey: string, n: Cookie, now: int, k: string, l: string)
    requires Consistent(st.m, st.seqNo) && oldKey == KeyOf(n) && oldKey in st.m && k in st.m && l in st.m
    requires NulFree(n) && NulFree(st.m[oldKey].cookie)
    ensures k in Replaced(st, oldKey, n, now).m && l in Replaced(st, oldKey, n, now).m
    ensures Before(Replaced(st, oldKey, n, now).m[k], Replaced(st, oldKey, n, now).m[l]) <==> Before(st.m[k], st.m[l])
  {
    EditKeepsPlace(st, oldKey, n, now);
    KeyInjective(n, st.m[oldKey].cookie);
    hide KeyOf, Key;
  }

  /** An edit that changes the identity leaves no entry under the old one. */
  lemma EditMovesSlot(st: State, oldKey: string, n: Cookie, now: int)
    requires oldKey != KeyOf(n)
    ensures oldKey !in Replaced(st, oldKey, n, now).m
    ensures KeyOf(n) in Replaced(st, oldKey, n, now).m && Replaced(st, oldKey, n, now).m[KeyOf(n)].cookie == n
    ensures forall k <- st.m :: k != oldKey && k != KeyOf(n) ==>
        k in Replaced(st, oldKey, n, now).m && Replaced(st, oldKey, n, now).m[k] == st.m[k]
  {
    hide KeyOf;
  }

  /** The viewer's remove reaches the entry it shows exactly when the stored domain canonicalizes to
      itself; a domain with two trailing dots does not. */
  lemma RemoveReaches(m: Table, seqNo: nat, k: string)
    requires Consistent(m, seqNo) && k in m && NulFree(m[k].cookie) && m[k].cookie.path != ""
    requires '\0' !in CanonicalDomain(m[k].cookie.domain)
    ensures var c := m[k].cookie;
            k !in m - {SlotKey(c.domain, c.path, c.name)} <==> CanonicalDomain(c.domain) == c.domain
  {
    hide CanonicalDomain, Key;
    var c := m[k].cookie;
    var shown := c.(domain := CanonicalDomain(c.domain));
    assert KeyOf(shown) == SlotKey(c.domain, c.path, c.name);
    if KeyOf(shown) == KeyOf(c) {
      KeyInjective(shown, c);
    }
  }

  /** An edit can store such a domain: "a.." loses one dot, and the entry for "a." that is left is not the
      one the viewer's remove looks for. */
  lemma {:induction false} TwoDotsStay(now: int, ip: IPTest)
    requires !ip("a.")
    ensures var n := Cookie("n", "v", "a.", "/", None, false, false, false);
            var st := Replaced(State(map[], 0), KeyOf(n), n, now);
            && Normalize(n.(domain := "a.."), ip) == Some(n)
            && st.m[KeyOf(n)].cookie == n
            && KeyOf(n) in st.m - {SlotKey(n.domain, n.path, n.name)}
  {
    DotsTrimmed();
    var n := Cookie("n", "v", "a.", "/", None, false, false, false);
    var st := Replaced(State(map[], 0), KeyOf(n), n, now);
    hide CanonicalDomain, Key;
    RemoveReaches(st.m, st.seqNo, KeyOf(n));
  }

  lemma DotsTrimmed()
    ensures CanonicalDomain("a..") == "a." && CanonicalDomain("a.") == "a"
  {
    assert ToLower("a..") == "a.." && ToLower("a.") == "a.";
    TrimSpaceFixed("a..");
    TrimSpaceFixed("a.");
    assert "a.."[..2] == "a." && "a."[..1] == "a";
  }
}
