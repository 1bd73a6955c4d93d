/** The signature base string of `internal/auth/oauth1.go` (sections 3.4.1 and 3.6 of RFC 5849). A byte
    string is a sequence of characters below 256; HMAC and Base64 are not part of this model. */
module OAuth1 {
  import opened Text

  type Byte = c: char | c < '\U{100}' witness 'a'
  type Bytes = seq<Byte>

  // ----- percent-encoding -----

  predicate Unreserved(c: char) {
    || 'A' <= c <= 'Z' || 'a' <= c <= 'z' || '0' <= c <= '9'
    || c == '-' || c == '.' || c == '_' || c == '~'
  }

  function HexDigit(n: nat): (c: Byte)
    requires n < 16
    ensures Unreserved(c)
  {
    if n < 10 then '0' + n as char else 'A' + (n - 10) as char
  }

  function HexValue(c: char): (n: nat)
    ensures n < 16
  {
    if '0' <= c <= '9' then (c - '0') as nat
    else if 'A' <= c <= 'F' then (c - 'A') as nat + 10
    else 0
  }

  function EncodeByte(c: Byte): Bytes {
    if Unreserved(c) then [c] else ['%', HexDigit(c as nat / 16), HexDigit(c as nat % 16)]
  }

  function Encode(s: Bytes): Bytes {
    if s == [] then [] else Encode(s[..|s| - 1]) + EncodeByte(s[|s| - 1])
  }

  /** `oauthEncode`. */
  method OAuthEncode(s: Bytes) returns (b: Bytes)
    ensures b == Encode(s)
  {
    hide HexDigit;
    b := [];
    for i := 0 to |s|
      invariant b == Encode(s[..i])
    {
      assert s[..i + 1][..i] == s[..i];
      var c := s[i];
      if 'A' <= c <= 'Z' || 'a' <= c <= 'z' || '0' <= c <= '9' || c == '-' || c == '.' || c == '_' || c == '~' {
        b := b + [c];
      } else {
        b := b + ['%', HexDigit(c as nat / 16), HexDigit(c as nat % 16)];
      }
    }
    assert s[..|s|] == s;
  }

  /** Section 2.3 of RFC 3986, by code points: letters, digits, hyphen, period, underscore and tilde. */
  predicate RFCUnreserved(c: char) {
    var n := c as int;
    0x41 <= n <= 0x5A || 0x61 <= n <= 0x7A || 0x30 <= n <= 0x39 || n == 0x2D || n == 0x2E || n == 0x5F || n == 0x7E
  }

  /** Section 3.6 of RFC 5849: byte by byte, the unreserved ones as they are, every other one as a percent
      sign and two upper-case hexadecimal digits. */
  lemma EncodingIs(s: Bytes, c: Byte)
    ensures Encode(s + [c]) == Encode(s) + if RFCUnreserved(c) then [c]
                                           else ['%', "0123456789ABCDEF"[c as nat / 16], "0123456789ABCDEF"[c as nat % 16]]
    ensures Encode([]) == []
  {
    assert (s + [c])[..|s|] == s;
    assert forall n: nat :: n < 16 ==> HexDigit(n) == "0123456789ABCDEF"[n];
  }

  /** Percent-decoding, read left to right. */
  function Decode(t: Bytes): Bytes
    decreases |t|
  {
    if t == [] then []
    else if t[0] == '%' && |t| >= 3 then
      [(16 * HexValue(t[1]) + HexValue(t[2])) as char] + Decode(t[3..])
    else [t[0]] + Decode(t[1..])
  }

  lemma HexRoundTrip(n: nat)
    requires n < 16
    ensures HexValue(HexDigit(n)) == n
  {
  }

  lemma DecodeByte(c: Byte, rest: Bytes)
    ensures Decode(EncodeByte(c) + rest) == [c] + Decode(rest)
  {
    var t := EncodeByte(c) + rest;
    if Unreserved(c) {
      assert t[1..] == rest;
    } else {
      var n := c as nat;
      HexRoundTrip(n / 16);
      HexRoundTrip(n % 16);
      assert t[3..] == rest;
      assert 16 * (n / 16) + n % 16 == n;
    }
  }

  lemma {:induction false} EncodeCons(c: Byte, s: Bytes)
    ensures Encode([c] + s) == EncodeByte(c) + Encode(s)
  {
    hide EncodeByte;
    if s == [] {
      assert [c] + s == [c];
      assert [c][..0] == [];
    } else {
      var n := |s| - 1;
      assert ([c] + s)[..|[c] + s| - 1] == [c] + s[..n];
      EncodeCons(c, s[..n]);
    }
  }

  /** Decoding undoes encoding on every byte string. */
  lemma {:induction false} DecodeEncode(s: Bytes)
    ensures Decode(Encode(s)) == s
  {
    hide EncodeByte, Decode;
    if s == [] {
      assert Decode([]) == [] by { DecodeNothing(); }
    } else {
      assert s == [s[0]] + s[1..];
      EncodeCons(s[0], s[1..]);
      DecodeByte(s[0], Encode(s[1..]));
      DecodeEncode(s[1..]);
    }
  }

  lemma DecodeNothing()
    ensures Decode([]) == []
  {
  }

  lemma EncodeInjective(s: Bytes, t: Bytes)
    requires Encode(s) == Encode(t)
    ensures s == t
  {
    DecodeEncode(s);
    DecodeEncode(t);
  }

  /** An encoding contains no separator of the base string. */
  lemma {:induction false} EncodeIsPlain(s: Bytes)
    ensures '&' !in Encode(s) && '=' !in Encode(s)
  {
    if s != [] {
      EncodeIsPlain(s[..|s| - 1]);
    }
  }

  // ----- parameters -----

  type Param = (Bytes, Bytes)

  function EncodeParam(p: Param): Param { (Encode(p.0), Encode(p.1)) }

  function EncodeAll(ps: seq<Param>): (out: seq<Param>)
    ensures |out| == |ps|
  {
    seq(|ps|, i requires 0 <= i < |ps| => EncodeParam(ps[i]))
  }

  /** Go's order on strings, byte by byte. */
  predicate AtMost(a: Bytes, b: Bytes) {
    a == [] || (b != [] && (a[0] < b[0] || (a[0] == b[0] && AtMost(a[1..], b[1..]))))
  }

  lemma {:induction false} AtMostTotal(a: Bytes, b: Bytes)
    ensures AtMost(a, b) || AtMost(b, a)
    ensures AtMost(a, b) && AtMost(b, a) ==> a == b
    ensures AtMost(a, a)
  {
    if a != [] {
      AtMostTotal(a[1..], if b != [] then b[1..] else []);
      if b != [] {
        assert a == [a[0]] + a[1..] && b == [b[0]] + b[1..];
      }
    }
  }

  lemma {:induction false} AtMostTransitive(a: Bytes, b: Bytes, c: Bytes)
    requires AtMost(a, b) && AtMost(b, c)
    ensures AtMost(a, c)
  {
    if a != [] && a[0] == b[0] == c[0] {
      AtMostTransitive(a[1..], b[1..], c[1..]);
    }
  }

  /** By name, then by value. */
  predicate InOrder(p: Param, q: Param) {
    if p.0 != q.0 then AtMost(p.0, q.0) else AtMost(p.1, q.1)
  }

  /** Section 3.4.1.3.2: at the first byte that differs the smaller one comes first, and what ends there
      comes before what goes on. */
  lemma {:induction false} AtMostIs(a: Bytes, b: Bytes)
    ensures AtMost(a, b) <==> a <= b || exists i :: 0 <= i < |a| && i < |b| && a[..i] == b[..i] && a[i] < b[i]
  {
    if a != [] && b != [] {
      AtMostIs(a[1..], b[1..]);
      forall i | 0 < i <= |a| && i <= |b| && a[..i] == b[..i] ensures a[0] == b[0] {
        assert a[0] == a[..i][0] == b[..i][0];
      }
      assert a == [a[0]] + a[1..] && b == [b[0]] + b[1..];
      if a[0] == b[0] {
        if i :| 0 <= i < |a[1..]| && i < |b[1..]| && a[1..][..i] == b[1..][..i] && a[1..][i] < b[1..][i] {
          assert a[..i + 1] == [a[0]] + a[1..][..i] && b[..i + 1] == [b[0]] + b[1..][..i];
        }
        if i :| 0 <= i < |a| && i < |b| && a[..i] == b[..i] && a[i] < b[i] {
          assert i > 0;
          assert a[1..][..i - 1] == a[..i][1..] && b[1..][..i - 1] == b[..i][1..];
        }
      } else if a[0] < b[0] {
        assert a[..0] == b[..0];
      }
    }
  }

  lemma InOrderTotal(p: Param, q: Param)
    ensures InOrder(p, q) || InOrder(q, p)
    ensures InOrder(p, q) && InOrder(q, p) ==> p == q
  {
    AtMostTotal(p.0, q.0);
    AtMostTotal(p.1, q.1);
  }

  lemma InOrderTransitive(p: Param, q: Param, r: Param)
    requires InOrder(p, q) && InOrder(q, r)
    ensures InOrder(p, r)
  {
    AtMostTotal(p.0, q.0);
    AtMostTotal(q.0, r.0);
    if p.0 != q.0 && q.0 != r.0 {
      AtMostTransitive(p.0, q.0, r.0);
    } else if p.0 == q.0 == r.0 {
      AtMostTransitive(p.1, q.1, r.1);
    }
  }

  ghost predicate Sorted(ps: seq<Param>) {
    forall i, j :: 0 <= i < j < |ps| ==> InOrder(ps[i], ps[j])
  }

  lemma HeadOut<T>(xs: seq<T>)
    requires xs != []
    ensures multiset(xs[1..]) + multiset{xs[0]} == multiset(xs)
    ensures xs[0] in multiset(xs)
  {
    WithoutAt(xs, 0);
    assert xs[..0] + xs[1..] == xs[1..];
  }

  lemma SameLeast(ps: seq<Param>, qs: seq<Param>)
    requires Sorted(ps) && Sorted(qs) && multiset(ps) == multiset(qs) && ps != []
    ensures qs != [] && ps[0] == qs[0]
  {
    hide InOrder, Sorted;
    HeadOut(ps);
    assert ps[0] in qs;
    HeadOut(qs);
    HeadFirst(ps, qs[0]);
    HeadFirst(qs, ps[0]);
    InOrderTotal(ps[0], qs[0]);
  }

  /** Two listings of the same parameters in order are one listing: the heads are least in both, and the
      tails list what is left. */
  lemma {:induction false} OneListing(ps: seq<Param>, qs: seq<Param>)
    requires Sorted(ps) && Sorted(qs) && multiset(ps) == multiset(qs)
    ensures ps == qs
  {
    hide InOrder, Sorted;
    if ps == [] {
      assert |multiset(qs)| == |qs|;
    } else {
      SameLeast(ps, qs);
      HeadOut(ps);
      HeadOut(qs);
      Cancel(multiset(ps[1..]), multiset(qs[1..]), ps[0]);
      TailSorted(ps);
      TailSorted(qs);
      OneListing(ps[1..], qs[1..]);
      assert ps == [ps[0]] + ps[1..] && qs == [qs[0]] + qs[1..];
    }
  }

  lemma TailSorted(ps: seq<Param>)
    requires Sorted(ps) && ps != []
    ensures Sorted(ps[1..])
  {
    hide InOrder;
  }

  lemma HeadFirst(xs: seq<Param>, y: Param)
    requires Sorted(xs) && xs != [] && y in xs
    ensures InOrder(xs[0], y)
  {
    hide InOrder;
    var i :| 0 <= i < |xs| && xs[i] == y;
    if i == 0 {
      InOrderTotal(y, y);
    }
  }

  /** `sort.Slice` on the encoded parameters. */
  method SortParams(ps: seq<Param>) returns (out: seq<Param>)
    ensures Sorted(out) && multiset(out) == multiset(ps)
  {
    hide InOrder;
    out := [];
    for i := 0 to |ps|
      invariant Sorted(out) && multiset(out) == multiset(ps[..i])
    {
      var p, x := |out|, ps[i];
      while p > 0 && !InOrder(out[p - 1], x)
        invariant 0 <= p <= |out|
        invariant forall k :: p <= k < |out| ==> !InOrder(out[k], x)
      {
        p := p - 1;
      }
      InsertSorted(out, p, x);
      assert ps[..i + 1] == ps[..i] + [x];
      out := out[..p] + [x] + out[p..];
    }
    assert ps[..|ps|] == ps;
  }

  lemma InsertSorted(out: seq<Param>, p: nat, x: Param)
    requires Sorted(out) && p <= |out|
    requires p > 0 ==> InOrder(out[p - 1], x)
    requires forall k :: p <= k < |out| ==> !InOrder(out[k], x)
    ensures Sorted(out[..p] + [x] + out[p..])
    ensures multiset(out[..p] + [x] + out[p..]) == multiset(out) + multiset{x}
  {
    hide InOrder;
    var next := out[..p] + [x] + out[p..];
    assert out == out[..p] + out[p..];
    forall k | 0 <= k < |out|
      ensures k < p ==> InOrder(out[k], x)
      ensures k >= p ==> InOrder(x, out[k])
    {
      InOrderTotal(out[k], x);
      if k < p - 1 {
        InOrderTransitive(out[k], out[p - 1], x);
      }
    }
  }

  // ----- the base string -----

  function Part(p: Param): Bytes { p.0 + ['='] + p.1 }

  function Parts(ps: seq<Param>): (out: seq<Bytes>)
    ensures |out| == |ps|
  {
    seq(|ps|, i requires 0 <= i < |ps| => Part(ps[i]))
  }

  function JoinBytes(parts: seq<Bytes>): Bytes {
    if parts == [] then [] else if |parts| == 1 then parts[0] else parts[0] + ['&'] + JoinBytes(parts[1..])
  }

  function Base(httpMethod: Bytes, url: Bytes, sorted: seq<Param>): Bytes {
    UpperBytes(httpMethod) + ['&'] + Encode(url) + ['&'] + Encode(JoinBytes(Parts(sorted)))
  }

  function UpperByte(c: Byte): Byte { if 'a' <= c <= 'z' then c - 'a' + 'A' else c }

  function UpperBytes(s: Bytes): Bytes {
    seq(|s|, i requires 0 <= i < |s| => UpperByte(s[i]))
  }

  function Written(ps: seq<Param>): (out: seq<string>)
    ensures |out| == |ps|
  {
    seq(|ps|, i requires 0 <= i < |ps| => ps[i].0 + "=" + ps[i].1)
  }

  /** Sections 3.4.1.1 and 3.4.1.3.2: the method in upper case, and every name with an equals sign and its
      value, ampersands in between. */
  lemma {:induction false} BaseIs(httpMethod: Bytes, url: Bytes, sorted: seq<Param>)
    ensures var params := JoinBytes(Parts(sorted));
            && params == Join(Written(sorted), "&")
            && Base(httpMethod, url, sorted) == ToUpper(httpMethod) + "&" + Encode(url) + "&" + Encode(params)
  {
    PartsWritten(sorted);
    assert UpperBytes(httpMethod) == ToUpper(httpMethod);
  }

  lemma {:induction false} PartsWritten(ps: seq<Param>)
    ensures JoinBytes(Parts(ps)) == Join(Written(ps), "&")
  {
    if |ps| > 1 {
      PartsWritten(ps[1..]);
      assert Parts(ps)[1..] == Parts(ps[1..]) && Written(ps)[1..] == Written(ps[1..]);
    }
  }

  /** `base` is the signature base string of a request. */
  ghost predicate IsBase(base: Bytes, httpMethod: Bytes, url: Bytes, params: seq<Param>) {
    exists sorted :: Sorted(sorted) && multiset(sorted) == multiset(EncodeAll(params)) && base == Base(httpMethod, url, sorted)
  }

  /** `oauth1Sign` up to the point where the base string is hashed. */
  method BaseString(httpMethod: Bytes, url: Bytes, params: seq<Param>) returns (base: Bytes)
    ensures IsBase(base, httpMethod, url, params)
  {
    hide Encode;
    var enc: seq<Param> := [];
    for i := 0 to |params|
      invariant enc == EncodeAll(params)[..i]
    {
      var k := OAuthEncode(params[i].0);
      var v := OAuthEncode(params[i].1);
      enc := enc + [(k, v)];
    }
    var sorted := SortParams(enc);
    var parts: seq<Bytes> := [];
    for i := 0 to |sorted|
      invariant parts == Parts(sorted)[..i]
    {
      parts := parts + [sorted[i].0 + ['='] + sorted[i].1];
    }
    assert Parts(sorted)[..|sorted|] == Parts(sorted) && EncodeAll(params)[..|params|] == EncodeAll(params);
    var encURL := OAuthEncode(url);
    var encParams := OAuthEncode(JoinBytes(parts));
    base := UpperBytes(httpMethod) + ['&'] + encURL + ['&'] + encParams;
    assert base == Base(httpMethod, url, sorted);
  }

  lemma WithoutAt<T>(xs: seq<T>, i: nat)
    requires i < |xs|
    ensures multiset(xs[..i] + xs[i + 1..]) + multiset{xs[i]} == multiset(xs)
  {
    assert xs == xs[..i] + [xs[i]] + xs[i + 1..];
  }

  lemma Cancel<T>(a: multiset<T>, b: multiset<T>, x: T)
    requires a + multiset{x} == b + multiset{x}
    ensures a == b
  {
    assert (a + multiset{x}) - multiset{x} == a;
    assert (b + multiset{x}) - multiset{x} == b;
  }

  lemma EncodeWithoutAt(xs: seq<Param>, i: nat)
    requires i < |xs|
    ensures multiset(EncodeAll(xs[..i] + xs[i + 1..])) + multiset{EncodeParam(xs[i])} == multiset(EncodeAll(xs))
  {
    hide EncodeParam;
    var es := EncodeAll(xs);
    assert EncodeAll(xs[..i] + xs[i + 1..]) == es[..i] + es[i + 1..];
    WithoutAt(es, i);
  }

  lemma HeadElsewhere<T>(xs: seq<T>, ys: seq<T>) returns (i: nat)
    requires xs != [] && multiset(xs) == multiset(ys)
    ensures i < |ys| && ys[i] == xs[0] && multiset(xs[1..]) == multiset(ys[..i] + ys[i + 1..])
  {
    assert xs[0] in multiset(ys);
    i :| 0 <= i < |ys| && ys[i] == xs[0];
    assert xs[..0] + xs[1..] == xs[1..];
    WithoutAt(xs, 0);
    WithoutAt(ys, i);
    Cancel(multiset(xs[1..]), multiset(ys[..i] + ys[i + 1..]), xs[0]);
  }

  lemma {:induction false} EncodeAllPermuted(xs: seq<Param>, ys: seq<Param>)
    requires multiset(xs) == multiset(ys)
    ensures multiset(EncodeAll(xs)) == multiset(EncodeAll(ys))
  {
    hide EncodeParam, EncodeAll;
    assert |multiset(xs)| == |xs| && |multiset(ys)| == |ys|;
    if xs != [] {
      var i := HeadElsewhere(xs, ys);
      var rest := ys[..i] + ys[i + 1..];
      assert xs[..0] + xs[1..] == xs[1..];
      EncodeAllPermuted(xs[1..], rest);
      EncodeWithoutAt(xs, 0);
      EncodeWithoutAt(ys, i);
    } else {
      assert xs == ys;
    }
  }

  /** The base string does not depend on the order in which the parameters were collected. */
  lemma BaseIsPermutationInvariant(b: Bytes, c: Bytes, httpMethod: Bytes, url: Bytes, xs: seq<Param>, ys: seq<Param>)
    requires IsBase(b, httpMethod, url, xs) && IsBase(c, httpMethod, url, ys) && multiset(xs) == multiset(ys)
    ensures b == c
  {
    hide Base, Sorted, EncodeAll;
    var s :| Sorted(s) && multiset(s) == multiset(EncodeAll(xs)) && b == Base(httpMethod, url, s);
    var t :| Sorted(t) && multiset(t) == multiset(EncodeAll(ys)) && c == Base(httpMethod, url, t);
    EncodeAllPermuted(xs, ys);
    OneListing(s, t);
  }

  lemma {:induction false} DecodeAllPermuted(xs: seq<Param>, ys: seq<Param>)
    requires multiset(EncodeAll(xs)) == multiset(EncodeAll(ys))
    ensures multiset(xs) == multiset(ys)
  {
    hide EncodeAll, EncodeParam;
    EncodeLength(xs);
    EncodeLength(ys);
    if xs != [] {
      EncodeAt(xs, 0);
      assert EncodeAll(xs)[0] in multiset(EncodeAll(ys));
      var i :| 0 <= i < |ys| && EncodeAll(ys)[i] == EncodeAll(xs)[0];
      EncodeAt(ys, i);
      EncodeParamInjective(xs[0], ys[i]);
      var rest := ys[..i] + ys[i + 1..];
      assert xs[..0] + xs[1..] == xs[1..];
      EncodeWithoutAt(xs, 0);
      EncodeWithoutAt(ys, i);
      Cancel(multiset(EncodeAll(xs[1..])), multiset(EncodeAll(rest)), EncodeParam(xs[0]));
      DecodeAllPermuted(xs[1..], rest);
      WithoutAt(xs, 0);
      WithoutAt(ys, i);
    } else {
      assert xs == ys;
    }
  }

  lemma EncodeLength(xs: seq<Param>)
    ensures |EncodeAll(xs)| == |xs| == |multiset(EncodeAll(xs))|
  {
  }

  lemma EncodeAt(xs: seq<Param>, i: nat)
    requires i < |xs|
    ensures EncodeAll(xs)[i] == EncodeParam(xs[i])
  {
  }

  lemma EncodeParamInjective(p: Param, q: Param)
    requires EncodeParam(p) == EncodeParam(q)
    ensures p == q
  {
    EncodeInjective(p.0, q.0);
    EncodeInjective(p.1, q.1);
  }

  // ----- reading a base string back -----

  /** Cutting a byte string at the first separator is unambiguous. */
  lemma CutUnique(a: Bytes, b: Bytes, c: Bytes, d: Bytes, sep: Byte)
    requires sep !in a && sep !in c && a + [sep] + b == c + [sep] + d
    ensures a == c && b == d
  {
    var s := a + [sep] + b;
    assert s[|a|] == sep && s[..|a|] == a && s[|a| + 1..] == b;
    assert s[|c|] == sep && s[..|c|] == c && s[|c| + 1..] == d;
    IndexOfIs(s, sep, |a|);
    IndexOfIs(s, sep, |c|);
  }

  ghost predicate PlainParams(ps: seq<Param>) {
    forall p <- ps :: '&' !in p.0 && '=' !in p.0 && '&' !in p.1 && '=' !in p.1
  }

  lemma EncodedArePlain(ps: seq<Param>, sorted: seq<Param>)
    requires multiset(sorted) == multiset(EncodeAll(ps))
    ensures PlainParams(sorted)
  {
    hide Encode;
    forall p <- sorted
      ensures '&' !in p.0 && '=' !in p.0 && '&' !in p.1 && '=' !in p.1
    {
      assert p in multiset(EncodeAll(ps));
      var i :| 0 <= i < |ps| && EncodeAll(ps)[i] == p;
      EncodeIsPlain(ps[i].0);
      EncodeIsPlain(ps[i].1);
    }
  }

  lemma PartUnique(p: Param, q: Param)
    requires '=' !in p.0 && '=' !in q.0 && Part(p) == Part(q)
    ensures p == q
  {
    CutUnique(p.0, p.1, q.0, q.1, '=');
  }

  /** The joined parts determine the parameters. */
  lemma {:induction false} JoinUnique(xs: seq<Param>, ys: seq<Param>)
    requires PlainParams(xs) && PlainParams(ys)
    requires JoinBytes(Parts(xs)) == JoinBytes(Parts(ys))
    ensures xs == ys
  {
    hide Part;
    PartsAreSeparate(xs);
    PartsAreSeparate(ys);
    if xs != [] && ys != [] {
      var a, c := Part(xs[0]), Part(ys[0]);
      assert xs[0] in xs && ys[0] in ys;
      PartsTail(xs);
      PartsTail(ys);
      if |xs| > 1 && |ys| > 1 {
        CutUnique(a, JoinBytes(Parts(xs[1..])), c, JoinBytes(Parts(ys[1..])), '&');
        PartUnique(xs[0], ys[0]);
        JoinUnique(xs[1..], ys[1..]);
        assert xs == [xs[0]] + xs[1..] && ys == [ys[0]] + ys[1..];
      } else if |xs| == 1 && |ys| == 1 {
        PartUnique(xs[0], ys[0]);
      }
    }
  }

  lemma PartsTail(xs: seq<Param>)
    requires xs != []
    ensures Parts(xs)[0] == Part(xs[0])
    ensures |xs| == 1 ==> JoinBytes(Parts(xs)) == Part(xs[0])
    ensures |xs| > 1 ==> JoinBytes(Parts(xs)) == Part(xs[0]) + ['&'] + JoinBytes(Parts(xs[1..]))
  {
    hide Part;
    assert Parts(xs)[1..] == Parts(xs[1..]);
  }

  /** A join is empty for no parts, free of the separator for one, and has it for more. */
  lemma PartsAreSeparate(xs: seq<Param>)
    requires PlainParams(xs)
    ensures forall x <- xs :: Part(x) != [] && '&' !in Part(x)
    ensures xs == [] <==> JoinBytes(Parts(xs)) == []
    ensures |xs| > 1 <==> '&' in JoinBytes(Parts(xs))
  {
    if xs != [] {
      PartsTail(xs);
      assert xs[0] in xs;
      if |xs| > 1 {
        assert JoinBytes(Parts(xs))[|Part(xs[0])|] == '&';
      }
    }
  }

  lemma UpperKeepsBars(m: Bytes)
    requires '&' !in m
    ensures '&' !in UpperBytes(m)
  {
  }

  /** The base string determines the upper-cased method, the URL and the parameters up to order. */
  lemma BaseDetermines(b: Bytes, m: Bytes, u: Bytes, xs: seq<Param>, n: Bytes, v: Bytes, ys: seq<Param>)
    requires '&' !in m && '&' !in n
    requires IsBase(b, m, u, xs) && IsBase(b, n, v, ys)
    ensures UpperBytes(m) == UpperBytes(n) && u == v && multiset(xs) == multiset(ys)
  {
    hide Encode, Sorted, JoinBytes, Parts, UpperBytes, EncodeAll;
    var s :| Sorted(s) && multiset(s) == multiset(EncodeAll(xs)) && b == Base(m, u, s);
    var t :| Sorted(t) && multiset(t) == multiset(EncodeAll(ys)) && b == Base(n, v, t);
    UpperKeepsBars(m);
    UpperKeepsBars(n);
    var ps, pt := Encode(JoinBytes(Parts(s))), Encode(JoinBytes(Parts(t)));
    assert b == UpperBytes(m) + ['&'] + (Encode(u) + ['&'] + ps);
    assert b == UpperBytes(n) + ['&'] + (Encode(v) + ['&'] + pt);
    CutUnique(UpperBytes(m), Encode(u) + ['&'] + ps, UpperBytes(n), Encode(v) + ['&'] + pt, '&');
    EncodeIsPlain(u);
    EncodeIsPlain(v);
    CutUnique(Encode(u), ps, Encode(v), pt, '&');
    EncodeInjective(u, v);
    EncodeInjective(JoinBytes(Parts(s)), JoinBytes(Parts(t)));
    EncodedArePlain(xs, s);
    EncodedArePlain(ys, t);
    JoinUnique(s, t);
    DecodeAllPermuted(xs, ys);
  }

  // ----- the base URL -----

  /** A `url.URL`: `path` is decoded; `rawPath` is the text it was parsed from where that is not the default
      encoding, else empty. */
  datatype Url = Url(scheme: string, host: string, path: Bytes, rawPath: Bytes)

  /** The characters `net/url` leaves alone in a path. */
  predicate PathByte(c: char) {
    Unreserved(c) || c == '$' || c == '&' || c == '+' || c == ',' || c == '/' || c == ':' || c == ';' || c == '=' || c == '@'
  }

  /** The default encoding of a path. */
  function EscapePath(s: Bytes): Bytes {
    if s == [] then []
    else (if PathByte(s[0]) then [s[0]] else ['%', HexDigit(s[0] as nat / 16), HexDigit(s[0] as nat % 16)]) + EscapePath(s[1..])
  }

  predicate IsHex(c: char) { '0' <= c <= '9' || 'a' <= c <= 'f' || 'A' <= c <= 'F' }

  function HexOf(c: char): (n: nat)
    ensures n < 16
  {
    if '0' <= c <= '9' then (c - '0') as nat
    else if 'a' <= c <= 'f' then (c - 'a') as nat + 10
    else if 'A' <= c <= 'F' then (c - 'A') as nat + 10
    else 0
  }

  function Before(c: Byte, rest: Option<Bytes>): Option<Bytes> {
    if rest.None? then None else Some([c] + rest.value)
  }

  /** `url.PathUnescape`; None where a percent sign does not introduce two hex digits. */
  function Unescape(s: Bytes): Option<Bytes>
    decreases |s|
  {
    if s == [] then Some([])
    else if s[0] != '%' then Before(s[0], Unescape(s[1..]))
    else if |s| < 3 || !IsHex(s[1]) || !IsHex(s[2]) then None
    else Before((16 * HexOf(s[1]) + HexOf(s[2])) as char, Unescape(s[3..]))
  }

  /** A raw path `net/url` accepts as an encoding. */
  predicate ValidPath(s: Bytes) {
    forall c <- s :: PathByte(c) || c == '%' || c == '!' || c == '\'' || c == '(' || c == ')' || c == '*' || c == '[' || c == ']'
  }

  predicate RawUsed(u: Url) { u.rawPath != [] && ValidPath(u.rawPath) && Unescape(u.rawPath) == Some(u.path) }

  /** `URL.EscapedPath`. */
  function EscapedPath(u: Url): Bytes {
    if RawUsed(u) then u.rawPath else if u.path == "*" then u.path else EscapePath(u.path)
  }

  /** The path of the request line: a request without one is for "/". */
  function SentPath(u: Url): Bytes {
    if EscapedPath(u) == [] then ['/'] else EscapedPath(u)
  }

  /** Index of the last colon, or -1. */
  function LastColon(s: string): (i: int)
    ensures -1 <= i < |s|
    ensures i >= 0 ==> s[i] == ':'
    ensures forall k :: i < k < |s| ==> s[k] != ':'
  {
    if s == "" then -1
    else if s[|s| - 1] == ':' then |s| - 1
    else LastColon(s[..|s| - 1])
  }

  function Authority(u: Url): string {
    var scheme, host := ToLower(u.scheme), ToLower(u.host);
    var i := LastColon(host);
    if i >= 0 && ((scheme == "http" && host[i + 1..] == "80") || (scheme == "https" && host[i + 1..] == "443")) then host[..i]
    else host
  }

  /** Section 3.4.1.2 of RFC 5849: the host in lower case, with its port unless that is 80 for HTTP or 443
      for HTTPS. */
  lemma {:induction false} AuthorityIs(u: Url, name: string, port: string)
    requires ':' !in port
    ensures u.host == name && ':' !in name ==> Authority(u) == ToLower(name)
    ensures u.host == name + ":" + port ==>
              Authority(u) == if (ToLower(u.scheme), port) in {("http", "80"), ("https", "443")} then ToLower(name)
                              else ToLower(name) + ":" + ToLower(port)
  {
    if u.host == name && ':' !in name {
      LowerFree(name);
    }
    if u.host == name + ":" + port {
      LowerPort(name, port);
      PortLower(port);
      hide LastColon, ToLower;
    }
  }

  lemma LowerFree(s: string)
    requires ':' !in s
    ensures ':' !in ToLower(s) && LastColon(ToLower(s)) == -1
  {
    assert forall k :: 0 <= k < |s| ==> ToLower(s)[k] == LowerChar(s[k]) && s[k] in s;
    hide LastColon;
  }

  lemma LowerPort(name: string, port: string)
    requires ':' !in port
    ensures var host := ToLower(name + ":" + port);
            && LastColon(host) == |name| && host[|name| + 1..] == ToLower(port) && host[..|name|] == ToLower(name)
            && host == ToLower(name) + ":" + ToLower(port)
  {
    LowerFree(port);
    hide LastColon;
    var host := ToLower(name + ":" + port);
    assert host == ToLower(name) + ":" + ToLower(port);
    assert host[|name| + 1..] == ToLower(port);
    assert host[|name|] == ':';
    assert forall k :: |name| < k < |host| ==> host[k] == ToLower(port)[k - |name| - 1] && host[k] in ToLower(port);
  }

  lemma PortLower(port: string)
    ensures ToLower(port) == "80" <==> port == "80"
    ensures ToLower(port) == "443" <==> port == "443"
  {
    if ToLower(port) == "80" {
      assert LowerChar(port[0]) == ToLower(port)[0] && LowerChar(port[1]) == ToLower(port)[1];
    }
    if ToLower(port) == "443" {
      assert LowerChar(port[0]) == ToLower(port)[0] && LowerChar(port[1]) == ToLower(port)[1] && LowerChar(port[2]) == ToLower(port)[2];
    }
  }

  /** `oauth1BaseURL`. */
  function BaseURL(u: Url): string { ToLower(u.scheme) + "://" + Authority(u) + u.path }

  /** The base string URI of section 3.4.1.2 of RFC 5849: the path as the request line has it. */
  function RFCBaseURL(u: Url): string { ToLower(u.scheme) + "://" + Authority(u) + SentPath(u) }

  lemma SamePaths(u: Url)
    ensures BaseURL(u) == RFCBaseURL(u) <==> u.path == SentPath(u)
  {
    var front := ToLower(u.scheme) + "://" + Authority(u);
    assert BaseURL(u)[|front|..] == u.path && RFCBaseURL(u)[|front|..] == SentPath(u);
  }

  /** Encoding a path changes it exactly when it has a character that must be encoded. */
  lemma {:induction false} EscapeGrows(s: Bytes)
    ensures |EscapePath(s)| >= |s|
    ensures EscapePath(s) == s <==> forall c <- s :: PathByte(c)
    ensures (exists c :: c in s && !PathByte(c)) ==> |EscapePath(s)| > |s|
  {
    if s != [] {
      EscapeGrows(s[1..]);
      assert s == [s[0]] + s[1..];
    }
  }

  /** Decoding changes a path exactly when it has a percent sign. */
  lemma {:induction false} UnescapeShrinks(s: Bytes)
    requires Unescape(s).Some?
    ensures |Unescape(s).value| <= |s|
    ensures '%' !in s ==> Unescape(s).value == s
    ensures '%' in s ==> |Unescape(s).value| < |s|
    decreases |s|
  {
    if s != [] {
      UnescapeShrinks(if s[0] != '%' then s[1..] else s[3..]);
      assert s == [s[0]] + s[1..];
    }
  }

  /** A character that is neither a percent sign nor encoded survives decoding. */
  lemma {:induction false} UnescapeKeeps(s: Bytes, c: Byte)
    requires Unescape(s).Some? && c in s && !IsHex(c) && c != '%'
    ensures c in Unescape(s).value
    decreases |s|
  {
    if s[0] != '%' {
      assert s == [s[0]] + s[1..];
      if s[0] != c {
        UnescapeKeeps(s[1..], c);
      }
    } else {
      assert s == [s[0], s[1], s[2]] + s[3..];
      UnescapeKeeps(s[3..], c);
    }
  }

  /** The code signs the URI of the RFC exactly when the path is not empty and is sent as it is: its raw
      form, if that is the one sent, has no percent sign; otherwise no character of it must be encoded. */
  lemma BaseURLIsRFC(u: Url)
    ensures BaseURL(u) == RFCBaseURL(u)
       <==> if RawUsed(u) then '%' !in u.rawPath else u.path == "*" || (u.path != [] && forall c <- u.path :: PathByte(c))
  {
    SamePaths(u);
    EscapeGrows(u.path);
    if RawUsed(u) {
      UnescapeShrinks(u.rawPath);
    }
  }

  /** `URL.setPath`, which `url.Parse` calls on the path as it was typed. */
  function ParsedPath(u: Url, typed: Bytes): Url
    requires Unescape(typed).Some?
  {
    var path := Unescape(typed).value;
    u.(path := path, rawPath := if EscapePath(path) == typed then [] else typed)
  }

  /** For a URL as it is typed, with nothing or a slash after the host: the code signs the URI of the RFC
      exactly when the typed path is not empty, has no percent sign and no character that must be encoded. */
  lemma TypedURLIsRFC(u: Url, typed: Bytes)
    requires typed == [] || typed[0] == '/'
    requires Unescape(typed).Some?
    ensures var p := ParsedPath(u, typed);
            BaseURL(p) == RFCBaseURL(p) <==> typed != [] && '%' !in typed && ValidPath(typed)
  {
    hide ToLower, Authority;
    var p := ParsedPath(u, typed);
    BaseURLIsRFC(p);
    UnescapeShrinks(typed);
    EscapeGrows(p.path);
    if typed != [] {
      assert p.path[0] == '/';
    }
    if !ValidPath(typed) {
      var c :| c in typed && !PathByte(c) && c != '%' && !ValidPath([c]);
      UnescapeKeeps(typed, c);
      EscapedIsValid(p.path);
    }
  }

  lemma {:induction false} EscapedIsValid(s: Bytes)
    ensures ValidPath(EscapePath(s))
  {
    if s != [] {
      EscapedIsValid(s[1..]);
    }
  }

  /** Typed paths on which it does not: nothing at all, which is sent as a slash, ... */
  lemma EmptyPathDiffers(u: Url)
    ensures BaseURL(ParsedPath(u, "")) != RFCBaseURL(ParsedPath(u, "")) && SentPath(ParsedPath(u, "")) == "/"
  {
    hide ToLower, Authority;
    SamePaths(ParsedPath(u, ""));
  }

  const SPACED: Bytes := "/a b"
  const ENCODED: Bytes := "/a%20b"

  /** ... and a space, typed as one or encoded. */
  lemma SpaceDiffers(u: Url)
    ensures Unescape(SPACED).Some? && BaseURL(ParsedPath(u, SPACED)) != RFCBaseURL(ParsedPath(u, SPACED))
    ensures Unescape(ENCODED).Some? && BaseURL(ParsedPath(u, ENCODED)) != RFCBaseURL(ParsedPath(u, ENCODED))
  {
    SpacesRead();
    hide ToLower, Authority, BaseURL, RFCBaseURL, ParsedPath, Unescape, SPACED, ENCODED;
    TypedURLIsRFC(u, SPACED);
    TypedURLIsRFC(u, ENCODED);
  }

  lemma SpacesRead()
    ensures SPACED != [] && SPACED[0] == '/' && ENCODED != [] && ENCODED[0] == '/'
    ensures Unescape(SPACED).Some? && !ValidPath(SPACED)
    ensures Unescape(ENCODED).Some? && '%' in ENCODED
  {
    assert "/a b"[1..] == "a b" && "a b"[1..] == " b" && " b"[1..] == "b" && "b"[1..] == [];
    assert Unescape([]).Some?;
    assert Unescape("b").Some?;
    assert Unescape(" b").Some?;
    assert "/a b"[2] == ' ' && !PathByte(' ');
    assert "/a%20b"[1..] == "a%20b" && "a%20b"[1..] == "%20b" && "%20b"[3..] == "b";
    assert Unescape("%20b").Some?;
    assert "/a%20b"[2] == '%';
  }
}
