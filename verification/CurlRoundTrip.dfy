/** Importing an exported cURL command: the method, the URL, the header fields in order and the exact
    body come back. */
module CurlRoundTrip {
  import opened Text
  import opened Model
  import opened ShellWords
  import opened Curl

  /** What the exporter leaves unquoted or the importer trims and cuts must be plain already: a method in
      upper case without shell syntax, a URL that is no flag, colon-free trimmed header names and
      trimmed values. */
  predicate Exportable(req: HttpRequest) {
    BareMethod(req.httpMethod) && ToUpper(TrimSpace(req.httpMethod)) == req.httpMethod && RestExportable(req)
  }

  predicate BareMethod(m: string) { m != "" && forall c <- m :: Bare(c) }

  predicate RestExportable(req: HttpRequest) {
    req.url != "" && req.url[0] != '-' && forall f <- Fields(req) :: GoodField(f)
  }

  predicate GoodField(f: (string, string)) {
    f.0 != "" && ':' !in f.0 && Trimmed(f.0) && Trimmed(f.1)
  }

  /** The value of the last Content-Type field. */
  function LastContentType(fields: seq<(string, string)>): string {
    if fields == [] then ""
    else if IsContentType(fields[|fields| - 1].0) then fields[|fields| - 1].1
    else LastContentType(fields[..|fields| - 1])
  }

  function Rows(fields: seq<(string, string)>): (rows: seq<KeyValue>)
    ensures |rows| == |fields|
  {
    seq(|fields|, i requires 0 <= i < |fields| => Enabled(fields[i].0, fields[i].1))
  }

  // ----- the words are spelled so that they read back -----

  lemma PlainIsSpelled(s: string)
    requires s != "" && forall c <- s :: Bare(c)
    ensures Spelled(Raw(s))
  {
  }

  lemma QuotedIsSpelled(s: string)
    ensures Spelled(Quoted(s))
  {
    hide AlwaysQuote;
    if Plain(s) {
      assert forall c <- s :: Bare(c);
    }
  }

  lemma ShortFlagsAreBare()
    ensures forall c <- "-X" :: Bare(c)
    ensures forall c <- "-k" :: Bare(c)
    ensures forall c <- "-L" :: Bare(c)
    ensures forall c <- "-H" :: Bare(c)
    ensures forall c <- "curl" :: Bare(c)
  {
  }

  lemma LongFlagsAreBare()
    ensures forall c <- "--max-time" :: Bare(c)
    ensures forall c <- "--data-raw" :: Bare(c)
  {
  }

  lemma FlagsAreBare()
    ensures Spelled(Raw("curl")) && Spelled(Raw("-X")) && Spelled(Raw("-k")) && Spelled(Raw("-L"))
    ensures Spelled(Raw("--max-time")) && Spelled(Raw("-H")) && Spelled(Raw("--data-raw"))
  {
    hide AlwaysQuote, Spelled, Bare;
    ShortFlagsAreBare();
    LongFlagsAreBare();
    PlainIsSpelled("curl");
    PlainIsSpelled("-X");
    PlainIsSpelled("-k");
    PlainIsSpelled("-L");
    PlainIsSpelled("-H");
    PlainIsSpelled("--max-time");
    PlainIsSpelled("--data-raw");
  }

  ghost predicate AllSpelled(lines: seq<seq<Item>>) {
    forall i :: 0 <= i < |lines| ==> forall w <- lines[i] :: Spelled(w)
  }

  lemma CurlIsSpelled(req: HttpRequest, s: Settings)
    requires BareMethod(req.httpMethod)
    ensures AllSpelled(CurlLines(req, s))
  {
    hide AlwaysQuote, ShellQuote, Itoa, Fields;
    FlagsAreBare();
    PlainIsSpelled(req.httpMethod);
    if s.timeoutSeconds > 0 {
      PlainIsSpelled(Itoa(s.timeoutSeconds));
    }
    forall f: (string, string)
      ensures Spelled(Quoted(f.0 + ": " + f.1))
    {
      QuotedIsSpelled(f.0 + ": " + f.1);
    }
    QuotedIsSpelled(req.body);
    assert AllSpelled([FirstLine(req)]);
    assert AllSpelled(Options(s));
    assert AllSpelled(HeaderLines(Fields(req)));
    assert AllSpelled(BodyLines(req.body));
  }

  lemma {:induction false} AllTextsAppend(xs: seq<seq<Item>>, ys: seq<seq<Item>>)
    ensures AllTexts(xs + ys) == AllTexts(xs) + AllTexts(ys)
  {
    if xs == [] {
      assert xs + ys == ys;
    } else {
      assert (xs + ys)[1..] == xs[1..] + ys;
      AllTextsAppend(xs[1..], ys);
    }
  }

  // ----- the importer on each kind of line -----

  lemma ShortFlags()
    ensures SplitFlag("-X") == ("-X", "", false) && SplitFlag("-H") == ("-H", "", false)
    ensures SplitFlag("-k") == ("-k", "", false) && SplitFlag("-L") == ("-L", "", false)
  {
    assert "-X"[1] == 'X' && "-H"[1] == 'H' && "-k"[1] == 'k' && "-L"[1] == 'L';
    assert "--"[1] == '-';
  }

  lemma LongFlags()
    ensures SplitFlag("--max-time") == ("--max-time", "", false)
    ensures SplitFlag("--data-raw") == ("--data-raw", "", false)
  {
    hide IndexOf;
    NoEquals();
    IndexOfIs("--max-time", '=', |"--max-time"|);
    IndexOfIs("--data-raw", '=', |"--data-raw"|);
  }

  lemma NoEquals()
    ensures '=' !in "--max-time"[..|"--max-time"|] && '=' !in "--data-raw"[..|"--data-raw"|]
  {
    assert '=' !in "--max-time" && '=' !in "--data-raw";
  }

  lemma ClassifiedShort()
    ensures Classify("-X") == MethodFlag && Classify("-H") == HeaderFlag
    ensures Classify("-k") == IgnoredFlag(false) && Classify("-L") == IgnoredFlag(false)
  {
  }

  lemma ClassifiedLong()
    ensures Classify("--max-time") == IgnoredFlag(true) && Classify("--data-raw") == DataFlag(false)
  {
  }

  lemma {:induction false} MethodReads(m: string, rest: seq<string>, p: Parse, esc: Escape)
    ensures ParseAll(["-X", m] + rest, p, esc) == ParseAll(rest, WithValue(p, MethodFlag, m, esc), esc)
  {
    hide SplitFlag, Classify, WithValue;
    ShortFlags();
    ClassifiedShort();
    assert (["-X", m] + rest)[2..] == rest;
  }

  lemma {:induction false} UrlReads(url: string, rest: seq<string>, p: Parse, esc: Escape)
    requires url != "" && url[0] != '-' && p.url == ""
    ensures ParseAll([url] + rest, p, esc) == ParseAll(rest, p.(url := url), esc)
  {
    assert ([url] + rest)[1..] == rest;
  }

  lemma {:induction false} SwitchReads(flag: string, rest: seq<string>, p: Parse, esc: Escape)
    requires flag == "-k" || flag == "-L"
    ensures ParseAll([flag] + rest, p, esc) == ParseAll(rest, p, esc)
  {
    hide SplitFlag, Classify, WithValue;
    ShortFlags();
    ClassifiedShort();
    assert ([flag] + rest)[1..] == rest;
  }

  lemma {:induction false} TimeoutReads(n: string, rest: seq<string>, p: Parse, esc: Escape)
    ensures ParseAll(["--max-time", n] + rest, p, esc) == ParseAll(rest, p, esc)
  {
    hide SplitFlag, Classify, WithValue;
    LongFlags();
    ClassifiedLong();
    assert (["--max-time", n] + rest)[2..] == rest;
  }

  lemma {:induction false} DataReads(body: string, rest: seq<string>, p: Parse, esc: Escape)
    ensures ParseAll(["--data-raw", body] + rest, p, esc)
         == ParseAll(rest, p.(dataParts := p.dataParts + [body], hasData := true), esc)
  {
    hide SplitFlag, Classify;
    LongFlags();
    ClassifiedLong();
    assert (["--data-raw", body] + rest)[2..] == rest;
  }

  lemma CutAtColon(k: string, v: string)
    requires ':' !in k
    ensures Cut(k + ": " + v, ':') == (k, " " + v, true)
  {
    var s := k + ": " + v;
    assert s[|k|] == ':' && s[..|k|] == k;
    IndexOfIs(s, ':', |k|);
    assert s[..|k|] == k && s[|k| + 1..] == " " + v;
  }

  lemma TrimLeadingSpace(v: string)
    requires Trimmed(v)
    ensures TrimSpace(" " + v) == v
  {
    assert (" " + v)[1..] == v;
    assert TrimLeft(" " + v) == TrimLeft(v) == v;
  }

  function WithField(p: Parse, f: (string, string)): Parse {
    p.(headers := p.headers + [Enabled(f.0, f.1)], contentType := if IsContentType(f.0) then f.1 else p.contentType)
  }

  lemma {:induction false} HeaderReads(f: (string, string), rest: seq<string>, p: Parse, esc: Escape)
    requires GoodField(f)
    ensures ParseAll(["-H", f.0 + ": " + f.1] + rest, p, esc) == ParseAll(rest, WithField(p, f), esc)
  {
    hide SplitFlag, Classify, TrimSpace;
    ShortFlags();
    ClassifiedShort();
    CutAtColon(f.0, f.1);
    TrimLeadingSpace(f.1);
    TrimSpaceFixed(f.0);
    assert (["-H", f.0 + ": " + f.1] + rest)[2..] == rest;
  }

  function WithFields(p: Parse, fields: seq<(string, string)>): Parse
    decreases |fields|
  {
    if fields == [] then p else WithFields(WithField(p, fields[0]), fields[1..])
  }

  lemma {:induction false} HeadersRead(fields: seq<(string, string)>, rest: seq<string>, p: Parse, esc: Escape)
    requires forall f <- fields :: GoodField(f)
    ensures ParseAll(AllTexts(HeaderLines(fields)) + rest, p, esc) == ParseAll(rest, WithFields(p, fields), esc)
    decreases |fields|
  {
    hide ParseAll, GoodField;
    if fields == [] {
      assert AllTexts(HeaderLines(fields)) + rest == rest;
    } else {
      var f, lines := fields[0], HeaderLines(fields);
      assert lines[1..] == HeaderLines(fields[1..]);
      assert Texts(lines[0]) == ["-H", f.0 + ": " + f.1];
      var more := AllTexts(lines[1..]) + rest;
      assert AllTexts(lines) + rest == ["-H", f.0 + ": " + f.1] + more;
      assert f in fields;
      HeaderReads(f, more, p, esc);
      HeadersRead(fields[1..], rest, WithField(p, f), esc);
    }
  }

  lemma {:induction false} FieldsAre(p: Parse, fields: seq<(string, string)>)
    ensures WithFields(p, fields) == p.(headers := p.headers + Rows(fields),
                                        contentType := if exists f :: f in fields && IsContentType(f.0) then LastContentType(fields)
                                                       else p.contentType)
  {
    hide IsContentType;
    if fields == [] {
      assert p.headers + Rows(fields) == p.headers;
    } else {
      var n := |fields| - 1;
      FieldsAre(p, fields[..n]);
      FieldsSnoc(p, fields[..n], fields[n]);
      assert fields == fields[..n] + [fields[n]];
      assert p.headers + Rows(fields) == p.headers + Rows(fields[..n]) + [Enabled(fields[n].0, fields[n].1)];
    }
  }

  lemma {:induction false} FieldsSnoc(p: Parse, fields: seq<(string, string)>, f: (string, string))
    ensures WithFields(p, fields + [f]) == WithField(WithFields(p, fields), f)
    decreases |fields|
  {
    hide WithField;
    if fields == [] {
      assert ([f])[1..] == [];
      assert fields + [f] == [f];
    } else {
      assert (fields + [f])[1..] == fields[1..] + [f];
      FieldsSnoc(WithField(p, fields[0]), fields[1..], f);
    }
  }

  lemma {:induction false} NoContentType(fields: seq<(string, string)>)
    requires !exists f :: f in fields && IsContentType(f.0)
    ensures LastContentType(fields) == ""
  {
    hide IsContentType;
    if fields != [] {
      assert fields[|fields| - 1] in fields;
      NoContentType(fields[..|fields| - 1]);
    }
  }

  lemma {:induction false} OptionsRead(s: Settings, rest: seq<string>, p: Parse, esc: Escape)
    ensures ParseAll(AllTexts(Options(s)) + rest, p, esc) == ParseAll(rest, p, esc)
  {
    hide ParseAll, Itoa, Options, AllTexts;
    var timeout := if s.timeoutSeconds > 0 then ["--max-time", Itoa(s.timeoutSeconds)] else [];
    var location := if s.followRedirects then ["-L"] else [];
    var insecure := if s.insecureSkipVerify then ["-k"] else [];
    OptionTexts(s);
    assert AllTexts(Options(s)) + rest == insecure + (location + (timeout + rest));
    MaybeTimeout(s, rest, p, esc);
    MaybeSwitch("-L", s.followRedirects, timeout + rest, p, esc);
    MaybeSwitch("-k", s.insecureSkipVerify, location + (timeout + rest), p, esc);
  }

  lemma {:induction false} MaybeSwitch(flag: string, on: bool, rest: seq<string>, p: Parse, esc: Escape)
    requires flag == "-k" || flag == "-L"
    ensures ParseAll((if on then [flag] else []) + rest, p, esc) == ParseAll(rest, p, esc)
  {
    hide ParseAll;
    if on {
      SwitchReads(flag, rest, p, esc);
    } else {
      assert [] + rest == rest;
    }
  }

  lemma {:induction false} MaybeTimeout(s: Settings, rest: seq<string>, p: Parse, esc: Escape)
    ensures ParseAll((if s.timeoutSeconds > 0 then ["--max-time", Itoa(s.timeoutSeconds)] else []) + rest, p, esc)
         == ParseAll(rest, p, esc)
  {
    hide ParseAll, Itoa;
    if s.timeoutSeconds > 0 {
      TimeoutReads(Itoa(s.timeoutSeconds), rest, p, esc);
    } else {
      assert [] + rest == rest;
    }
  }

  lemma OptionTexts(s: Settings)
    ensures AllTexts(Options(s)) == (if s.insecureSkipVerify then ["-k"] else [])
            + (if s.followRedirects then ["-L"] else [])
            + if s.timeoutSeconds > 0 then ["--max-time", Itoa(s.timeoutSeconds)] else []
  {
    hide Itoa, AllTexts;
    NoTexts();
    OneTexts([Raw("-k")]);
    OneTexts([Raw("-L")]);
    var a := if s.insecureSkipVerify then [[Raw("-k")]] else [];
    var b := if s.followRedirects then [[Raw("-L")]] else [];
    var c := if s.timeoutSeconds > 0 then [[Raw("--max-time"), Raw(Itoa(s.timeoutSeconds))]] else [];
    if s.timeoutSeconds > 0 {
      OneTexts([Raw("--max-time"), Raw(Itoa(s.timeoutSeconds))]);
    }
    AllTextsAppend(a + b, c);
    AllTextsAppend(a, b);
  }

  lemma NoTexts()
    ensures AllTexts([]) == []
  {
  }

  lemma OneTexts(line: seq<Item>)
    ensures AllTexts([line]) == Texts(line)
  {
    assert [line][1..] == [];
  }

  lemma FirstTexts(req: HttpRequest)
    ensures AllTexts([FirstLine(req)]) == ["curl", "-X", req.httpMethod, req.url]
  {
    hide AlwaysQuote;
    OneTexts(FirstLine(req));
  }

  function DataTexts(body: string): seq<string> {
    if body == "" then [] else ["--data-raw", body]
  }

  lemma LastTexts(body: string)
    ensures AllTexts(BodyLines(body)) == DataTexts(body)
  {
    hide ShellQuote;
    if body != "" {
      OneTexts([Raw("--data-raw"), Quoted(body)]);
    }
  }

  /** The words of an exported command after its leading "curl". */
  lemma CommandTexts(req: HttpRequest, s: Settings)
    ensures WithoutCurl(AllTexts(CurlLines(req, s)))
         == ["-X", req.httpMethod] + ([req.url] + (AllTexts(Options(s)) + (AllTexts(HeaderLines(Fields(req))) + DataTexts(req.body))))
  {
    hide Fields, Options, HeaderLines, AlwaysQuote, ShellQuote, AllTexts, BodyLines, DataTexts, FirstLine;
    var lines := CurlLines(req, s);
    var headers, body := HeaderLines(Fields(req)), BodyLines(req.body);
    AllTextsAppend([FirstLine(req)] + Options(s) + headers, body);
    AllTextsAppend([FirstLine(req)] + Options(s), headers);
    AllTextsAppend([FirstLine(req)], Options(s));
    FirstTexts(req);
    LastTexts(req.body);
    var tail := AllTexts(Options(s)) + (AllTexts(headers) + DataTexts(req.body));
    assert AllTexts(lines) == ["curl"] + (["-X", req.httpMethod] + ([req.url] + tail));
  }

  /** The body the importer builds from the exported one. */
  function ImportedBody(req: HttpRequest, un: Unescape): Body {
    if req.body == "" then NO_BODY else BodyFromData(req.body, LastContentType(Fields(req)), un)
  }

  /** The import of a command whose -X is followed by the word m, everything else being exported. */
  function ImportWith(m: string, req: HttpRequest, un: Unescape): Import {
    Imported(OrDefault(ToUpper(TrimSpace(m)), true, if req.body == "" then "GET" else "POST"),
             req.url, Rows(Fields(req)), ImportedBody(req, un), BareAuth(""))
  }

  lemma {:induction false} WordsImport(m: string, req: HttpRequest, s: Settings, esc: Escape, un: Unescape)
    requires RestExportable(req)
    ensures Finish(ParseAll(["-X", m] + ([req.url] + (AllTexts(Options(s)) + (AllTexts(HeaderLines(Fields(req))) + DataTexts(req.body)))),
                            START, esc), un)
         == ImportWith(m, req, un)
  {
    hide ParseAll, BodyFromData, Options, AllTexts, IsContentType, HeaderLines, Fields, TrimSpace, ToUpper;
    var fields := Fields(req);
    var data := DataTexts(req.body);
    var headers := AllTexts(HeaderLines(fields)) + data;
    var p1 := START.(httpMethod := ToUpper(TrimSpace(m)), methodSet := true);
    MethodReads(m, [req.url] + (AllTexts(Options(s)) + headers), START, esc);
    var p2 := p1.(url := req.url);
    UrlReads(req.url, AllTexts(Options(s)) + headers, p1, esc);
    OptionsRead(s, headers, p2, esc);
    HeadersRead(fields, data, p2, esc);
    FieldsAre(p2, fields);
    if !exists f :: f in fields && IsContentType(f.0) {
      NoContentType(fields);
    }
    assert [] + Rows(fields) == Rows(fields);
    var p3 := p2.(headers := Rows(fields), contentType := LastContentType(fields));
    assert WithFields(p2, fields) == p3;
    if req.body == "" {
      ParseNothing(p3, esc);
    } else {
      assert data + [] == data;
      DataReads(req.body, [], p3, esc);
      assert p3.dataParts + [req.body] == [req.body];
      ParseNothing(p3.(dataParts := [req.body], hasData := true), esc);
    }
  }

  /** Importing an exported command recovers the method, the URL and the header fields in order, and
      builds the body from the exact bytes exported. */
  ghost predicate RoundTrips(req: HttpRequest, s: Settings, esc: Escape, un: Unescape) {
    ImportOf(Command(CurlLines(req, s)), esc, un)
      == Imported(req.httpMethod, req.url, Rows(Fields(req)), ImportedBody(req, un), BareAuth(""))
  }

  lemma {:induction false} ImportOfExport(req: HttpRequest, s: Settings, esc: Escape, un: Unescape)
    requires Exportable(req)
    ensures RoundTrips(req, s, esc, un)
  {
    hide Tokens, AlwaysQuote, ShellQuote, ParseAll, BodyFromData, Options, AllTexts, WithoutCurl, HeaderLines, Fields, TrimSpace, ToUpper, Finish;
    CurlIsSpelled(req, s);
    CommandReads(CurlLines(req, s));
    CommandTexts(req, s);
    WordsImport(req.httpMethod, req, s, esc, un);
  }

  lemma {:induction false} ParseNothing(p: Parse, esc: Escape)
    ensures ParseAll([], p, esc) == p
  {
  }

  /** The imported body holds the exact bytes of the exported one exactly when the importer does not take
      them for form data. */
  lemma {:induction false} BodyIsExact(req: HttpRequest, un: Unescape)
    requires req.body != ""
    ensures ImportedBody(req, un).content == req.body <==> KindOf(req.body, LastContentType(Fields(req))) != Form
  {
    hide KindOf, Fields;
  }
}
