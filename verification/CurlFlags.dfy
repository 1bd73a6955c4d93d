/** What the flags of a pasted cURL command mean to `FromCurl`, most of which Helena itself never writes. */
module CurlFlags {
  import opened Text
  import opened Model
  import opened ShellWords
  import opened Curl

  // ----- four ways to write a flag -----

  /** The flags with a value that have both a short and a long name. */
  const PAIRS: set<(string, string)> := {
    ("-X", "--request"), ("-H", "--header"), ("-A", "--user-agent"), ("-e", "--referer"), ("-b", "--cookie"),
    ("-u", "--user"), ("-d", "--data"), ("-F", "--form")}

  lemma OneToken(tok: string, rest: seq<string>, p: Parse, esc: Escape)
    ensures var (next, used) := ParseHead([tok] + rest, p, esc);
            used == 1 ==> ParseAll([tok] + rest, p, esc) == ParseAll(rest, next, esc)
  {
    assert ([tok] + rest)[1..] == rest;
  }

  lemma TwoTokens(tok: string, v: string, rest: seq<string>, p: Parse, esc: Escape)
    ensures var (next, used) := ParseHead([tok, v] + rest, p, esc);
            used == 2 ==> ParseAll([tok, v] + rest, p, esc) == ParseAll(rest, next, esc)
  {
    assert ([tok, v] + rest)[2..] == rest;
  }

  predicate TakesValue(kind: Flag) { !kind.GetFlag? && !kind.IgnoredFlag? }

  /** "-X PUT" and "--request PUT". */
  lemma Separate(flag: string, v: string, rest: seq<string>, p: Parse, esc: Escape)
    requires |flag| > 1 && flag[0] == '-' && SplitFlag(flag) == (flag, "", false) && TakesValue(Classify(flag))
    ensures ParseAll([flag, v] + rest, p, esc) == ParseAll(rest, WithValue(p, Classify(flag), v, esc), esc)
  {
    hide SplitFlag, Classify, WithValue;
    TwoTokens(flag, v, rest, p, esc);
    assert ([flag, v] + rest)[0] == flag && ([flag, v] + rest)[1] == v;
  }

  /** "-XPUT" and "--request=PUT". */
  lemma InOne(tok: string, flag: string, v: string, attached: bool, rest: seq<string>, p: Parse, esc: Escape)
    requires |tok| > 1 && tok[0] == '-' && v != "" && SplitFlag(tok) == (flag, v, attached) && TakesValue(Classify(flag))
    ensures ParseAll([tok] + rest, p, esc) == ParseAll(rest, WithValue(p, Classify(flag), v, esc), esc)
  {
    hide SplitFlag, Classify, WithValue;
    OneToken(tok, rest, p, esc);
  }

  lemma ShortSplits(flag: string, v: string)
    requires flag in VALUE_SHORTS && |flag| == 2 && flag[1] != '-' && v != ""
    ensures SplitFlag(flag) == (flag, "", false) && SplitFlag(flag + v) == (flag, v, true)
  {
    assert (flag + v)[..2] == flag && (flag + v)[2..] == v;
    assert (flag + v)[1] == flag[1];
  }

  lemma LongSplits(flag: string, v: string)
    requires "--" <= flag && '=' !in flag
    ensures SplitFlag(flag) == (flag, "", false) && SplitFlag(flag + "=" + v) == (flag, v, false)
  {
    IndexOfIs(flag, '=', |flag|);
    var tok := flag + "=" + v;
    assert tok[..|flag|] == flag && tok[|flag| + 1..] == v;
    IndexOfIs(tok, '=', |flag|);
    assert flag <= tok;
  }

  lemma SameKind(short: string, long: string)
    requires (short, long) in PAIRS
    ensures Classify(short) == Classify(long) && TakesValue(Classify(short))
  {
    hide VALUE_SHORTS, VALUE_FLAGS;
  }

  lemma ShortShape(short: string, long: string)
    requires (short, long) in PAIRS
    ensures short in VALUE_SHORTS && |short| == 2 && short[0] == '-' && short[1] != '-'
  {
    hide Classify;
  }

  lemma LongShape(short: string, long: string)
    requires (short, long) in PAIRS
    ensures "--" <= long && '=' !in long
  {
    hide Classify, VALUE_SHORTS;
  }

  /** A flag means the same however it is written: short or long, its value in the next word or in the
      same one. */
  lemma {:induction false} FourSpellings(short: string, long: string, v: string, rest: seq<string>, p: Parse, esc: Escape)
    requires (short, long) in PAIRS && v != ""
    ensures var meant := ParseAll([short, v] + rest, p, esc);
            && ParseAll([short + v] + rest, p, esc) == meant
            && ParseAll([long, v] + rest, p, esc) == meant
            && ParseAll([long + "=" + v] + rest, p, esc) == meant
  {
    SameKind(short, long);
    ShortShape(short, long);
    LongShape(short, long);
    ShortSplits(short, v);
    LongSplits(long, v);
    hide PAIRS, SplitFlag, Classify, WithValue, ParseAll;
    Separate(short, v, rest, p, esc);
    InOne(short + v, short, v, true, rest, p, esc);
    Separate(long, v, rest, p, esc);
    assert (long + "=" + v)[0] == '-';
    InOne(long + "=" + v, long, v, false, rest, p, esc);
  }

  // ----- what each flag does -----

  lemma ShortForm(flag: string, v: string, rest: seq<string>, p: Parse, esc: Escape)
    requires flag in VALUE_SHORTS && |flag| == 2 && flag[0] == '-' && flag[1] != '-' && TakesValue(Classify(flag))
    ensures ParseAll([flag, v] + rest, p, esc) == ParseAll(rest, WithValue(p, Classify(flag), v, esc), esc)
  {
    ShortSplits(flag, "x");
    Separate(flag, v, rest, p, esc);
  }

  /** -u: Basic auth, the password after the first colon. */
  lemma {:induction false} UserMeans(user: string, pass: string, rest: seq<string>, p: Parse, esc: Escape)
    requires ':' !in user
    ensures var auth := Auth("basic", Some(BasicAuth(user, pass)), None, None, None, None, None, None, None, None);
            ParseAll(["-u", user + ":" + pass] + rest, p, esc) == ParseAll(rest, p.(auth := auth), esc)
    ensures var auth := Auth("basic", Some(BasicAuth(user, "")), None, None, None, None, None, None, None, None);
            ParseAll(["-u", user] + rest, p, esc) == ParseAll(rest, p.(auth := auth), esc)
  {
    hide ParseAll, ParseHead;
    ShortForm("-u", user + ":" + pass, rest, p, esc);
    ShortForm("-u", user, rest, p, esc);
    CutAt(user, ':', pass);
  }

  lemma CutAt(k: string, c: char, v: string)
    requires c !in k
    ensures Cut(k + [c] + v, c) == (k, v, true) && Cut(k, c) == (k, "", false)
  {
    var s := k + [c] + v;
    assert s[..|k|] == k && s[|k| + 1..] == v;
    IndexOfIs(s, c, |k|);
    IndexOfIs(k, c, |k|);
  }

  /** -A, -e and -b: a header of that value, as it stands. */
  lemma {:induction false} NamedHeadersMean(v: string, rest: seq<string>, p: Parse, esc: Escape)
    ensures ParseAll(["-A", v] + rest, p, esc) ==
            ParseAll(rest, p.(headers := p.headers + [KeyValue(true, "User-Agent", v, "")]), esc)
    ensures ParseAll(["-e", v] + rest, p, esc) ==
            ParseAll(rest, p.(headers := p.headers + [KeyValue(true, "Referer", v, "")]), esc)
    ensures ParseAll(["-b", v] + rest, p, esc) ==
            ParseAll(rest, p.(headers := p.headers + [KeyValue(true, "Cookie", v, "")]), esc)
  {
    hide ParseAll, ParseHead;
    ShortForm("-A", v, rest, p, esc);
    ShortForm("-e", v, rest, p, esc);
    ShortForm("-b", v, rest, p, esc);
  }

  lemma DataFlags()
    ensures Classify("-d") == DataFlag(false) && "-d" in VALUE_SHORTS
    ensures Classify("--data-urlencode") == DataFlag(true)
  {
  }

  lemma UrlencodeSplits()
    ensures SplitFlag("--data-urlencode") == ("--data-urlencode", "", false)
  {
    hide Classify, VALUE_SHORTS;
    LongSplits("--data-urlencode", "");
  }

  /** -d adds data as it stands ... */
  lemma {:induction false} DataMeans(v: string, rest: seq<string>, p: Parse, esc: Escape)
    ensures ParseAll(["-d", v] + rest, p, esc) == ParseAll(rest, p.(dataParts := p.dataParts + [v], hasData := true), esc)
  {
    hide ParseAll, ParseHead, Classify, SplitFlag;
    DataFlags();
    ShortForm("-d", v, rest, p, esc);
  }

  /** ... and --data-urlencode with everything escaped but a name before the first equals sign. */
  lemma {:induction false} UrlencodeMeans(name: string, v: string, rest: seq<string>, p: Parse, esc: Escape)
    requires '=' !in name
    ensures name != "" ==>
              ParseAll(["--data-urlencode", name + "=" + v] + rest, p, esc) ==
              ParseAll(rest, p.(dataParts := p.dataParts + [name + "=" + esc(v)], hasData := true), esc)
    ensures ParseAll(["--data-urlencode", "=" + v] + rest, p, esc) ==
            ParseAll(rest, p.(dataParts := p.dataParts + [esc(v)], hasData := true), esc)
    ensures ParseAll(["--data-urlencode", name] + rest, p, esc) ==
            ParseAll(rest, p.(dataParts := p.dataParts + [esc(name)], hasData := true), esc)
  {
    hide ParseAll, ParseHead, Classify, SplitFlag, UrlencodeData;
    DataFlags();
    UrlencodeSplits();
    Separate("--data-urlencode", name + "=" + v, rest, p, esc);
    Separate("--data-urlencode", "=" + v, rest, p, esc);
    Separate("--data-urlencode", name, rest, p, esc);
    Urlencoded(name, v, esc);
  }

  lemma Urlencoded(name: string, v: string, esc: Escape)
    requires '=' !in name
    ensures name != "" ==> UrlencodeData(name + "=" + v, esc) == name + "=" + esc(v)
    ensures UrlencodeData("=" + v, esc) == esc(v) && UrlencodeData(name, esc) == esc(name)
  {
    CutAt(name, '=', v);
    CutAt("", '=', v);
    assert "" + ['='] + v == "=" + v && ("=" + v)[1..] == v;
    assert name != "" ==> name[0] in name;
  }

  lemma FormFlags()
    ensures Classify("-F") == FormFlag && "-F" in VALUE_SHORTS
  {
  }

  /** -F: a form row under the trimmed key. */
  lemma {:induction false} FormMeans(k: string, v: string, rest: seq<string>, p: Parse, esc: Escape)
    requires '=' !in k && k != "" && Trimmed(k)
    ensures ParseAll(["-F", k + "=" + v] + rest, p, esc) ==
            ParseAll(rest, p.(formParts := p.formParts + [KeyValue(true, k, v, "")]), esc)
  {
    hide ParseAll, ParseHead, Classify, SplitFlag, TrimSpace;
    FormFlags();
    ShortForm("-F", k + "=" + v, rest, p, esc);
    CutAt(k, '=', v);
    TrimSpaceFixed(k);
  }

  lemma GetFlags()
    ensures Classify("-G") == GetFlag && Classify("--get") == GetFlag
  {
    hide VALUE_SHORTS;
  }

  lemma GetSplits()
    ensures SplitFlag("-G") == ("-G", "", false) && SplitFlag("--get") == ("--get", "", false)
  {
    hide Classify, VALUE_SHORTS;
    LongSplits("--get", "");
  }

  /** -G takes no value ... */
  lemma {:induction false} GetMeans(rest: seq<string>, p: Parse, esc: Escape)
    ensures ParseAll(["-G"] + rest, p, esc) == ParseAll(["--get"] + rest, p, esc) == ParseAll(rest, p.(getMode := true), esc)
  {
    hide Classify, SplitFlag, ParseAll;
    GetFlags();
    GetSplits();
    OneToken("-G", rest, p, esc);
    OneToken("--get", rest, p, esc);
  }

  /** ... and a word without a dash is the URL if it is the first. */
  lemma {:induction false} UrlMeans(url: string, rest: seq<string>, p: Parse, esc: Escape)
    requires url != "" && url[0] != '-'
    ensures ParseAll([url] + rest, p, esc) == ParseAll(rest, if p.url == "" then p.(url := url) else p, esc)
  {
    hide Classify, SplitFlag, ParseAll;
    OneToken(url, rest, p, esc);
  }

  // ----- bodies and headers -----

  lemma {:induction false} ContainsIs(s: string, t: string)
    ensures Contains(s, t) <==> exists k :: 0 <= k <= |s| && t <= s[k..]
  {
    assert s[0..] == s;
    if s != "" {
      ContainsIs(s[1..], t);
      if k :| 0 <= k <= |s[1..]| && t <= s[1..][k..] {
        assert s[k + 1..] == s[1..][k..];
        assert |t| <= |s[k + 1..]|;
      }
      if k :| 0 <= k <= |s| && t <= s[k..] {
        assert k > 0 ==> s[1..][k - 1..] == s[k..];
        assert k == 0 ==> s[..|t|] == t;
      }
    }
  }

  /** Looking in the lower-cased text is looking in any case. */
  lemma {:induction false} MentionsIs(s: string, t: string)
    requires ToLower(t) == t
    ensures Contains(ToLower(s), t) <==> Mentions(s, t)
  {
    hide StandsAt;
    ContainsIs(ToLower(s), t);
    forall k | 0 <= k <= |s| ensures t <= ToLower(s)[k..] <==> StandsAt(s, k, t) {
      LowerStandsAt(s, k, t);
    }
  }

  /** The first character that is no space is an opening brace or bracket. */
  ghost predicate OpensJSON(data: string) {
    exists i :: 0 <= i < |data| && (data[i] == '{' || data[i] == '[') && forall j :: 0 <= j < i ==> IsSpace(data[j])
  }

  lemma {:induction false} FirstCharacter(data: string)
    ensures var t := TrimSpace(data); "{" <= t || "[" <= t <==> OpensJSON(data)
  {
    TrimLeftHead(data);
    TrimRightKeepsHead(TrimLeft(data));
    Unspaced(TrimLeft(data));
    LeftIs(data);
  }

  lemma {:induction false} Unspaced(s: string)
    requires s != "" ==> !IsSpace(s[0])
    ensures s != "" ==> TrimRight(s) != ""
  {
    if |s| > 1 && IsSpace(s[|s| - 1]) {
      Unspaced(s[..|s| - 1]);
    }
  }

  lemma {:induction false} LeftIs(s: string)
    ensures exists n :: 0 <= n <= |s| && TrimLeft(s) == s[n..] && forall j :: 0 <= j < n ==> IsSpace(s[j])
  {
    if s != "" && IsSpace(s[0]) {
      LeftIs(s[1..]);
      var n :| 0 <= n <= |s[1..]| && TrimLeft(s[1..]) == s[1..][n..] && forall j :: 0 <= j < n ==> IsSpace(s[1..][j]);
      assert s[1..][n..] == s[n + 1..];
      assert forall j :: 0 < j < n + 1 ==> s[j] == s[1..][j - 1];
    } else {
      assert s[0..] == s;
    }
  }

  lemma LowerWords()
    ensures ToLower("json") == "json" && ToLower("xml") == "xml"
    ensures ToLower("x-www-form-urlencoded") == "x-www-form-urlencoded"
    ensures ToLower("multipart/form-data") == "multipart/form-data" && ToLower("content-type") == "content-type"
  {
  }

  /** The body of a command: by what its Content-Type mentions, in any case; without one by its first
      character, or as a form when it has an equals sign and no blank, tab or line feed. */
  lemma {:induction false} BodyIs(data: string, contentType: string, un: Unescape)
    ensures BodyFromData(data, contentType, un) ==
            if Mentions(contentType, "json") then Body("json", data, [], "", "", "")
            else if Mentions(contentType, "xml") then Body("xml", data, [], "", "", "")
            else if Mentions(contentType, "x-www-form-urlencoded")
            then Body("form-urlencoded", "", FormRows(Split(data, '&'), un), "", "", "")
            else if contentType != "" then Body("text", data, [], "", "", "")
            else if OpensJSON(data) then Body("json", data, [], "", "", "")
            else if '=' in data && forall c <- data :: c != ' ' && c != '\t' && c != '\n'
            then Body("form-urlencoded", "", FormRows(Split(data, '&'), un), "", "", "")
            else Body("text", data, [], "", "", "")
  {
    LowerWords();
    hide ToLower, Contains, TrimSpace, Mentions, OpensJSON, FormRows, Split;
    MentionsIs(contentType, "json");
    MentionsIs(contentType, "xml");
    MentionsIs(contentType, "x-www-form-urlencoded");
    FirstCharacter(data);
    assert |ToLower(contentType)| == |contentType|;
  }

  lemma {:induction false} ContentTypeIs(k: string)
    ensures IsContentType(k) <==> |k| == 12 && StandsAt(k, 0, "content-type")
  {
    LowerWords();
    LowerStandsAt(k, 0, "content-type");
    assert k[0..] == k && ToLower(k)[0..] == ToLower(k) && |"content-type"| == 12;
    hide ToLower, StandsAt;
    if |k| == 12 && "content-type" <= ToLower(k) {
      assert ToLower(k) == "content-type";
    }
  }

  lemma HeaderFlags()
    ensures Classify("-H") == HeaderFlag && "-H" in VALUE_SHORTS
  {
  }

  /** -H: a header of the trimmed name and value, noted as the type of the body if it is a Content-Type in
      any case; without a colon or a name it is ignored. */
  lemma {:induction false} HeaderMeans(k: string, v: string, rest: seq<string>, p: Parse, esc: Escape)
    requires ':' !in k && k != "" && Trimmed(k) && Trimmed(v)
    ensures ParseAll(["-H", k + ": " + v] + rest, p, esc) ==
            ParseAll(rest, p.(headers := p.headers + [KeyValue(true, k, v, "")],
                              contentType := if |k| == 12 && StandsAt(k, 0, "content-type") then v else p.contentType), esc)
    ensures ParseAll(["-H", k] + rest, p, esc) == ParseAll(rest, p, esc)
    ensures ParseAll(["-H", ":" + v] + rest, p, esc) == ParseAll(rest, p, esc)
  {
    hide ParseAll, ParseHead, Classify, SplitFlag, WithValue;
    HeaderFlags();
    HeaderAdded(k, v, p, esc);
    HeaderIgnored(k, v, p, esc);
    ShortForm("-H", k + ": " + v, rest, p, esc);
    ShortForm("-H", k, rest, p, esc);
    ShortForm("-H", ":" + v, rest, p, esc);
  }

  lemma HeaderAdded(k: string, v: string, p: Parse, esc: Escape)
    requires ':' !in k && k != "" && Trimmed(k) && Trimmed(v)
    ensures WithValue(p, HeaderFlag, k + ": " + v, esc) ==
            p.(headers := p.headers + [KeyValue(true, k, v, "")],
               contentType := if |k| == 12 && StandsAt(k, 0, "content-type") then v else p.contentType)
  {
    ContentTypeIs(k);
    AfterSpace(v);
    TrimSpaceFixed(k);
    hide IsContentType, StandsAt, TrimSpace, Cut;
    assert k + ": " + v == k + [':'] + (" " + v);
    CutAt(k, ':', " " + v);
  }

  lemma AfterSpace(v: string)
    requires Trimmed(v)
    ensures TrimSpace(" " + v) == v && TrimSpace("") == ""
  {
    assert (" " + v)[1..] == v;
    assert TrimLeft(" " + v) == TrimLeft(v);
    TrimSpaceFixed(v);
  }

  lemma HeaderIgnored(k: string, v: string, p: Parse, esc: Escape)
    requires ':' !in k
    ensures WithValue(p, HeaderFlag, k, esc) == p && WithValue(p, HeaderFlag, ":" + v, esc) == p
  {
    AfterSpace("");
    hide IsContentType, TrimSpace, Cut;
    assert ":" + v == "" + [':'] + v;
    CutAt(k, ':', v);
    CutAt("", ':', v);
  }

  /** Beside form parts only a Content-Type that mentions multipart/form-data is dropped. */
  lemma {:induction false} HeadersKept(hs: seq<KeyValue>, h: KeyValue)
    ensures var multipart := |h.key| == 12 && StandsAt(h.key, 0, "content-type") && Mentions(h.value, "multipart/form-data");
            DropMultipart(hs + [h]) == if multipart then DropMultipart(hs) else DropMultipart(hs) + [h]
    ensures DropMultipart([]) == []
  {
    assert (hs + [h])[..|hs|] == hs;
    ContentTypeIs(h.key);
    LowerWords();
    hide ToLower, Contains, Mentions, IsContentType, StandsAt;
    MentionsIs(h.value, "multipart/form-data");
  }

  // ----- whole commands -----

  lemma Started(toks: seq<string>, esc: Escape, un: Unescape)
    ensures FromWords(Words(["curl"] + toks), esc, un) == Finish(ParseAll(toks, START, esc), un)
  {
    assert (["curl"] + toks)[1..] == toks;
  }

  lemma NoMore(p: Parse, esc: Escape)
    ensures ParseAll([], p, esc) == p
  {
  }

  /** Without -X, a URL alone is a GET, data or a form makes it a POST; with -G the data goes to the URL,
      and it stays a GET. Two pieces of data are joined by an ampersand. */
  lemma {:induction false} DefaultMethods(url: string, x: string, y: string, k: string, esc: Escape, un: Unescape)
    requires url != "" && url[0] != '-' && x != "" && '=' !in k && k != "" && Trimmed(k)
    ensures FromWords(Words(["curl", url]), esc, un) == Imported("GET", url, [], NO_BODY, BareAuth(""))
    ensures FromWords(Words(["curl", "-d", x, "-d", y, url]), esc, un) ==
            Imported("POST", url, [], BodyFromData(x + "&" + y, "", un), BareAuth(""))
    ensures FromWords(Words(["curl", "-G", "-d", x, url]), esc, un) ==
            Imported("GET", if '?' in url then url + "&" + x else url + "?" + x, [], NO_BODY, BareAuth(""))
    ensures FromWords(Words(["curl", "-F", k + "=" + y, url]), esc, un) ==
            Imported("POST", url, [], Body("multipart-form", "", [KeyValue(true, k, y, "")], "", "", ""), BareAuth(""))
  {
    hide ParseAll, ParseHead, BodyFromData, WithValue, Classify, SplitFlag;
    var p := START;
    NoMore(p.(url := url), esc);
    Started([url], esc, un);
    UrlMeans(url, [], p, esc);
    assert [url] + [] == [url] && ["curl"] + [url] == ["curl", url];
    DataCommand(url, x, y, esc, un);
    GetCommand(url, x, esc, un);
    FormCommand(url, k, y, esc, un);
  }

  lemma DataCommand(url: string, x: string, y: string, esc: Escape, un: Unescape)
    requires url != "" && url[0] != '-'
    ensures FromWords(Words(["curl", "-d", x, "-d", y, url]), esc, un) ==
            Imported("POST", url, [], BodyFromData(x + "&" + y, "", un), BareAuth(""))
  {
    hide ParseAll, ParseHead, BodyFromData, WithValue, Classify, SplitFlag;
    var p := START.(dataParts := [x], hasData := true);
    var q := p.(dataParts := [x, y]);
    assert ["curl", "-d", x, "-d", y, url] == ["curl"] + (["-d", x] + (["-d", y] + ([url] + [])));
    Started(["-d", x] + (["-d", y] + ([url] + [])), esc, un);
    DataMeans(x, ["-d", y] + ([url] + []), START, esc);
    assert [] + [x] == [x] && [x] + [y] == [x, y];
    DataMeans(y, [url] + [], p, esc);
    UrlMeans(url, [], q, esc);
    NoMore(q.(url := url), esc);
    assert Join([x, y], "&") == x + "&" + y by { assert [x, y][1..] == [y]; }
  }

  lemma GetCommand(url: string, x: string, esc: Escape, un: Unescape)
    requires url != "" && url[0] != '-' && x != ""
    ensures FromWords(Words(["curl", "-G", "-d", x, url]), esc, un) ==
            Imported("GET", if '?' in url then url + "&" + x else url + "?" + x, [], NO_BODY, BareAuth(""))
  {
    hide ParseAll, ParseHead, BodyFromData, WithValue, Classify, SplitFlag;
    var p := START.(getMode := true);
    var q := p.(dataParts := [x], hasData := true);
    assert ["curl", "-G", "-d", x, url] == ["curl"] + (["-G"] + (["-d", x] + ([url] + [])));
    Started(["-G"] + (["-d", x] + ([url] + [])), esc, un);
    GetMeans(["-d", x] + ([url] + []), START, esc);
    DataMeans(x, [url] + [], p, esc);
    assert [] + [x] == [x];
    UrlMeans(url, [], q, esc);
    NoMore(q.(url := url), esc);
  }

  lemma FormCommand(url: string, k: string, v: string, esc: Escape, un: Unescape)
    requires url != "" && url[0] != '-' && '=' !in k && k != "" && Trimmed(k)
    ensures FromWords(Words(["curl", "-F", k + "=" + v, url]), esc, un) ==
            Imported("POST", url, [], Body("multipart-form", "", [KeyValue(true, k, v, "")], "", "", ""), BareAuth(""))
  {
    hide ParseAll, ParseHead, BodyFromData, WithValue, Classify, SplitFlag;
    var p := START.(formParts := [KeyValue(true, k, v, "")]);
    assert ["curl", "-F", k + "=" + v, url] == ["curl"] + (["-F", k + "=" + v] + ([url] + []));
    Started(["-F", k + "=" + v] + ([url] + []), esc, un);
    FormMeans(k, v, [url] + [], START, esc);
    assert [] + [KeyValue(true, k, v, "")] == [KeyValue(true, k, v, "")];
    UrlMeans(url, [], p, esc);
    NoMore(p.(url := url), esc);
    assert DropMultipart([]) == [];
  }
}
