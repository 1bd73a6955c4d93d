/** `renderCurl` of `internal/exporter/exporter.go` and `FromCurl` of `internal/importer/curl.go`.
    `url.QueryEscape` and `url.QueryUnescape` are parameters; the name derived from the URL is not part
    of this model. */
module Curl {
  import opened Text
  import opened Model
  import opened ShellWords

  // ----- exporting -----

  /** A built `http.Request`; `header` lists the header map in the order of its sorted keys. */
  datatype HttpRequest = HttpRequest(httpMethod: string, url: string, urlHost: string, host: string,
                                     header: seq<(string, seq<string>)>, body: string)
  datatype Settings = Settings(insecureSkipVerify: bool, followRedirects: bool, timeoutSeconds: int)

  function Raw(s: string): Item { Item(s, s) }
  function Quoted(s: string): Item { Item(s, ShellQuote(s)) }

  function HeaderLine(k: string, v: string): seq<Item> { [Raw("-H"), Quoted(k + ": " + v)] }

  function ValuesFlat(k: string, vs: seq<string>): seq<(string, string)> {
    seq(|vs|, i requires 0 <= i < |vs| => (k, vs[i]))
  }

  function HeaderFlat(header: seq<(string, seq<string>)>): seq<(string, string)> {
    if header == [] then []
    else HeaderFlat(header[..|header| - 1]) + ValuesFlat(header[|header| - 1].0, header[|header| - 1].1)
  }

  /** The header fields in the order they are written, the Host override last. */
  function Fields(req: HttpRequest): seq<(string, string)> {
    HeaderFlat(req.header) + if req.host != "" && req.host != req.urlHost then [("Host", req.host)] else []
  }

  function HeaderLines(fields: seq<(string, string)>): (lines: seq<seq<Item>>)
    ensures |lines| == |fields| && forall i :: 0 <= i < |lines| ==> lines[i] != []
  {
    seq(|fields|, i requires 0 <= i < |fields| => HeaderLine(fields[i].0, fields[i].1))
  }

  function Options(s: Settings): (lines: seq<seq<Item>>)
    ensures forall i :: 0 <= i < |lines| ==> lines[i] != []
  {
    (if s.insecureSkipVerify then [[Raw("-k")]] else [])
    + (if s.followRedirects then [[Raw("-L")]] else [])
    + if s.timeoutSeconds > 0 then [[Raw("--max-time"), Raw(Itoa(s.timeoutSeconds))]] else []
  }

  function BodyLines(body: string): (lines: seq<seq<Item>>)
    ensures forall i :: 0 <= i < |lines| ==> lines[i] != []
  {
    if body == "" then [] else [[Raw("--data-raw"), Quoted(body)]]
  }

  function FirstLine(req: HttpRequest): seq<Item> {
    [Raw("curl"), Raw("-X"), Raw(req.httpMethod), Item(req.url, AlwaysQuote(req.url))]
  }

  /** The words of the exported command, line by line. */
  function CurlLines(req: HttpRequest, s: Settings): (lines: seq<seq<Item>>)
    ensures lines != [] && forall i :: 0 <= i < |lines| ==> lines[i] != []
  {
    [FirstLine(req)] + Options(s) + HeaderLines(Fields(req)) + BodyLines(req.body)
  }

  function Spellings(lines: seq<seq<Item>>): (out: seq<string>)
    requires forall i :: 0 <= i < |lines| ==> lines[i] != []
    ensures |out| == |lines|
  {
    seq(|lines|, i requires 0 <= i < |lines| => Line(lines[i]))
  }

  lemma {:induction false} JoinedIsCommand(lines: seq<seq<Item>>)
    requires lines != [] && forall i :: 0 <= i < |lines| ==> lines[i] != []
    ensures Join(Spellings(lines), CONTINUATION) == Command(lines)
  {
    hide Line;
    if |lines| > 1 {
      JoinedIsCommand(lines[1..]);
      assert Spellings(lines)[1..] == Spellings(lines[1..]);
    }
  }

  lemma TwoWords(a: Item, b: Item)
    ensures Line([a, b]) == a.spelling + " " + b.spelling
  {
    assert [a, b][1..] == [b];
  }

  lemma FirstLineSpelled(req: HttpRequest)
    ensures Line(FirstLine(req)) == "curl -X " + req.httpMethod + " " + AlwaysQuote(req.url)
  {
    hide AlwaysQuote;
    var l := FirstLine(req);
    assert l[1..][1..] == [l[2], l[3]];
    TwoWords(l[2], l[3]);
    assert Line(l[1..]) == "-X" + " " + Line([l[2], l[3]]);
    assert Line(l) == "curl" + " " + Line(l[1..]);
  }

  lemma SpellingsAppend(xs: seq<seq<Item>>, ys: seq<seq<Item>>)
    requires forall i :: 0 <= i < |xs| ==> xs[i] != []
    requires forall i :: 0 <= i < |ys| ==> ys[i] != []
    ensures Spellings(xs + ys) == Spellings(xs) + Spellings(ys)
  {
    hide Line;
  }

  /** The header loops of `renderCurl`. */
  method RenderHeaders(header: seq<(string, seq<string>)>) returns (lines: seq<string>)
    ensures lines == Spellings(HeaderLines(HeaderFlat(header)))
  {
    hide Line, ShellQuote;
    lines := [];
    for i := 0 to |header|
      invariant lines == Spellings(HeaderLines(HeaderFlat(header[..i])))
    {
      var (k, vs) := header[i];
      ghost var before := HeaderFlat(header[..i]);
      for j := 0 to |vs|
        invariant lines == Spellings(HeaderLines(before + ValuesFlat(k, vs)[..j]))
      {
        ghost var done := before + ValuesFlat(k, vs)[..j];
        assert before + ValuesFlat(k, vs)[..j + 1] == done + [(k, vs[j])];
        assert HeaderLines(done + [(k, vs[j])]) == HeaderLines(done) + [HeaderLine(k, vs[j])];
        SpellingsAppend(HeaderLines(done), [HeaderLine(k, vs[j])]);
        TwoWords(Raw("-H"), Quoted(k + ": " + vs[j]));
        lines := lines + ["-H" + " " + ShellQuote(k + ": " + vs[j])];
      }
      assert ValuesFlat(k, vs)[..|vs|] == ValuesFlat(k, vs);
      assert header[..i + 1][..i] == header[..i];
    }
    assert header[..|header|] == header;
  }

  /** The option lines of `renderCurl`. */
  method RenderOptions(s: Settings) returns (lines: seq<string>)
    ensures lines == Spellings(Options(s))
  {
    hide Itoa;
    lines := [];
    OneWord("-k");
    OneWord("-L");
    if s.insecureSkipVerify {
      lines := lines + ["-k"];
    }
    if s.followRedirects {
      lines := lines + ["-L"];
    }
    if s.timeoutSeconds > 0 {
      TwoWords(Raw("--max-time"), Raw(Itoa(s.timeoutSeconds)));
      lines := lines + ["--max-time" + " " + Itoa(s.timeoutSeconds)];
    }
  }

  /** `renderCurl`. */
  method RenderCurl(req: HttpRequest, s: Settings) returns (command: string)
    ensures command == Command(CurlLines(req, s))
  {
    hide Line, ShellQuote, AlwaysQuote, HeaderFlat, Options, Spellings, FirstLine;
    FirstLineSpelled(req);
    var options := RenderOptions(s);
    var headers := RenderHeaders(req.header);
    if req.host != "" && req.host != req.urlHost {
      TwoWords(Raw("-H"), Quoted("Host" + ": " + req.host));
      headers := headers + ["-H" + " " + ShellQuote("Host" + ": " + req.host)];
    }
    HostLast(req, headers);
    var body: seq<string> := [];
    if |req.body| > 0 {
      TwoWords(Raw("--data-raw"), Quoted(req.body));
      body := ["--data-raw" + " " + ShellQuote(req.body)];
    }
    BodyLast(req.body, body);
    var lines := ["curl -X " + req.httpMethod + " " + AlwaysQuote(req.url)] + options + headers + body;
    AllLines(req, s, lines);
    JoinedIsCommand(CurlLines(req, s));
    command := Join(lines, CONTINUATION);
  }

  lemma HostLast(req: HttpRequest, lines: seq<string>)
    requires lines == Spellings(HeaderLines(HeaderFlat(req.header)))
             + if req.host != "" && req.host != req.urlHost then [Line(HeaderLine("Host", req.host))] else []
    ensures lines == Spellings(HeaderLines(Fields(req)))
  {
    hide Line, HeaderFlat, HeaderLine;
    assert forall k: string, v: string :: HeaderLine(k, v) != [] by {
      forall k: string, v: string
        ensures HeaderLine(k, v) != []
      {
        LineNotEmpty(k, v);
      }
    }
  }

  lemma LineNotEmpty(k: string, v: string)
    ensures HeaderLine(k, v) != []
  {
  }

  lemma BodyLast(body: string, lines: seq<string>)
    requires lines == if body == "" then [] else [Line([Raw("--data-raw"), Quoted(body)])]
    ensures lines == Spellings(BodyLines(body))
  {
    hide Line;
  }

  lemma AllLines(req: HttpRequest, s: Settings, lines: seq<string>)
    requires lines == [Line(FirstLine(req))] + Spellings(Options(s)) + Spellings(HeaderLines(Fields(req))) + Spellings(BodyLines(req.body))
    ensures lines == Spellings(CurlLines(req, s))
  {
    hide Line, Fields, Options, BodyLines;
    SpellingsAppend([FirstLine(req)], Options(s));
    SpellingsAppend([FirstLine(req)] + Options(s), HeaderLines(Fields(req)));
    SpellingsAppend([FirstLine(req)] + Options(s) + HeaderLines(Fields(req)), BodyLines(req.body));
  }

  lemma OneWord(s: string)
    ensures Line([Raw(s)]) == s
  {
  }

  // ----- importing -----

  /** Go's `strings.Cut` on one character. */
  function Cut(s: string, c: char): (string, string, bool) {
    var i := IndexOf(s, c);
    if i == |s| then (s, "", false) else (s[..i], s[i + 1..], true)
  }

  predicate Contains(s: string, t: string) {
    |t| <= |s| && (s[..|t|] == t || (s != "" && Contains(s[1..], t)))
  }

  const VALUE_SHORTS: set<string> :=
    {"-X", "-H", "-d", "-F", "-u", "-A", "-e", "-b", "-o", "-m", "-x", "-E", "-T", "-w"}

  const VALUE_FLAGS: set<string> :=
    {"-o", "--output", "-m", "--max-time", "--connect-timeout", "-w", "--write-out", "-x", "--proxy", "-E", "--cert",
     "--key", "--cacert", "-T", "--upload-file", "--retry", "--resolve", "--limit-rate"}

  /** `splitFlag`: the flag, its inline value, and whether that was attached to a short flag. */
  function SplitFlag(tok: string): (string, string, bool) {
    if "--" <= tok then
      var (k, v, found) := Cut(tok, '=');
      if found then (k, v, false) else (tok, "", false)
    else if |tok| > 2 && tok[..2] in VALUE_SHORTS then (tok[..2], tok[2..], true)
    else (tok, "", false)
  }

  datatype Flag = MethodFlag | HeaderFlag | NamedHeader(name: string) | UserFlag | UrlFlag | DataFlag(encoded: bool)
                | FormFlag | GetFlag | IgnoredFlag(takesValue: bool)

  function Classify(flag: string): Flag {
    if flag == "-X" || flag == "--request" then MethodFlag
    else if flag == "-H" || flag == "--header" then HeaderFlag
    else if flag == "-A" || flag == "--user-agent" then NamedHeader("User-Agent")
    else if flag == "-e" || flag == "--referer" then NamedHeader("Referer")
    else if flag == "-b" || flag == "--cookie" then NamedHeader("Cookie")
    else if flag == "-u" || flag == "--user" then UserFlag
    else if flag == "--url" then UrlFlag
    else if flag == "--data-urlencode" then DataFlag(true)
    else if flag == "-d" || flag == "--data" || flag == "--data-raw" || flag == "--data-ascii" || flag == "--data-binary"
      then DataFlag(false)
    else if flag == "-F" || flag == "--form" then FormFlag
    else if flag == "-G" || flag == "--get" then GetFlag
    else IgnoredFlag(flag in VALUE_FLAGS)
  }

  datatype Parse = Parse(httpMethod: string, methodSet: bool, url: string, dataParts: seq<string>, hasData: bool,
                         formParts: seq<KeyValue>, getMode: bool, contentType: string, headers: seq<KeyValue>, auth: Auth)

  const START := Parse("", false, "", [], false, [], false, "", [], BareAuth(""))

  type Escape = string -> string
  type Unescape = string -> Option<string>

  /** `urlencodeData`. */
  function UrlencodeData(s: string, esc: Escape): string {
    var (name, content, found) := Cut(s, '=');
    if found && name != "" then name + "=" + esc(content)
    else esc(if s != "" && s[0] == '=' then s[1..] else s)
  }

  function Enabled(k: string, v: string): KeyValue { KeyValue(true, k, v, "") }

  predicate IsContentType(k: string) { ToLower(k) == "content-type" }

  /** What a flag does with its value. */
  function WithValue(p: Parse, flag: Flag, v: string, esc: Escape): Parse {
    match flag
    case MethodFlag => p.(httpMethod := ToUpper(TrimSpace(v)), methodSet := true)
    case HeaderFlag =>
      var (rawKey, rawVal, found) := Cut(v, ':');
      var k, val := TrimSpace(rawKey), TrimSpace(rawVal);
      if found && k != "" then
        p.(headers := p.headers + [Enabled(k, val)], contentType := if IsContentType(k) then val else p.contentType)
      else p
    case NamedHeader(name) => p.(headers := p.headers + [Enabled(name, v)])
    case UserFlag =>
      var (user, pass, _) := Cut(v, ':');
      p.(auth := BareAuth("basic").(basic := Some(BasicAuth(user, pass))))
    case UrlFlag => if p.url == "" then p.(url := v) else p
    case DataFlag(encoded) =>
      p.(dataParts := p.dataParts + [if encoded then UrlencodeData(v, esc) else v], hasData := true)
    case FormFlag =>
      var (rawKey, val, _) := Cut(v, '=');
      var k := TrimSpace(rawKey);
      if k != "" then p.(formParts := p.formParts + [Enabled(k, val)]) else p
    case GetFlag => p.(getMode := true)
    case IgnoredFlag(_) => p
  }

  /** The effect of the tokens at the head of what is left, and how many they are. */
  function ParseHead(toks: seq<string>, p: Parse, esc: Escape): (Parse, nat)
    requires toks != []
    ensures 1 <= ParseHead(toks, p, esc).1 <= |toks|
  {
    var raw := toks[0];
    if raw == "" then (p, 1)
    else if raw[0] != '-' || raw == "-" then (if p.url == "" then p.(url := raw) else p, 1)
    else
      var (flag, inline, attached) := SplitFlag(raw);
      var kind := Classify(flag);
      if kind.GetFlag? then (p.(getMode := true), 1)
      else if kind.IgnoredFlag? then
        (p, if !attached && inline == "" && kind.takesValue && |toks| > 1 then 2 else 1)
      else if inline != "" || attached then (WithValue(p, kind, inline, esc), 1)
      else if |toks| > 1 then (WithValue(p, kind, toks[1], esc), 2)
      else (p, 1)
  }

  function ParseAll(toks: seq<string>, p: Parse, esc: Escape): Parse
    decreases |toks|
  {
    if toks == [] then p
    else
      var (next, used) := ParseHead(toks, p, esc);
      ParseAll(toks[used..], next, esc)
  }

  /** `looksLikeForm`. */
  predicate LooksLikeForm(data: string) { '=' in data && ' ' !in data && '\t' !in data && '\n' !in data }

  function FormRow(part: string, un: Unescape): KeyValue {
    var (k, v, _) := Cut(part, '=');
    Enabled(un(k).GetOr(k), un(v).GetOr(v))
  }

  function FormRows(parts: seq<string>, un: Unescape): seq<KeyValue> {
    if parts == [] then []
    else
      var rest, part := FormRows(parts[..|parts| - 1], un), parts[|parts| - 1];
      if part == "" || FormRow(part, un).key == "" then rest else rest + [FormRow(part, un)]
  }

  /** `parseFormData`. */
  method ParseFormData(data: string, un: Unescape) returns (rows: seq<KeyValue>)
    ensures rows == FormRows(Split(data, '&'), un)
  {
    var parts := Split(data, '&');
    rows := [];
    for i := 0 to |parts|
      invariant rows == FormRows(parts[..i], un)
    {
      assert parts[..i + 1][..i] == parts[..i];
      if parts[i] == "" {
        continue;
      }
      var row := FormRow(parts[i], un);
      if row.key == "" {
        continue;
      }
      rows := rows + [row];
    }
    assert parts[..|parts|] == parts;
  }

  function TextBody(typ: string, content: string): Body { Body(typ, content, [], "", "", "") }

  datatype BodyKind = JSON | XML | Form | PlainText

  /** The shape `bodyFromData` gives a body. */
  function KindOf(data: string, contentType: string): BodyKind {
    var ct := ToLower(contentType);
    var trimmed := TrimSpace(data);
    if Contains(ct, "json") then JSON
    else if Contains(ct, "xml") then XML
    else if Contains(ct, "x-www-form-urlencoded") then Form
    else if ct != "" then PlainText
    else if "{" <= trimmed || "[" <= trimmed then JSON
    else if LooksLikeForm(data) then Form
    else PlainText
  }

  function BodyFromData(data: string, contentType: string, un: Unescape): Body {
    match KindOf(data, contentType)
    case JSON => TextBody("json", data)
    case XML => TextBody("xml", data)
    case Form => Body("form-urlencoded", "", FormRows(Split(data, '&'), un), "", "", "")
    case PlainText => TextBody("text", data)
  }

  /** `appendQuery`. */
  function AppendQuery(rawURL: string, extra: string): string {
    if extra == "" then rawURL else rawURL + (if '?' in rawURL then "&" else "?") + extra
  }

  predicate IsMultipart(h: KeyValue) { IsContentType(h.key) && Contains(ToLower(h.value), "multipart/form-data") }

  /** `dropMultipartContentType`. */
  function DropMultipart(hs: seq<KeyValue>): seq<KeyValue> {
    if hs == [] then []
    else
      var rest := DropMultipart(hs[..|hs| - 1]);
      if IsMultipart(hs[|hs| - 1]) then rest else rest + [hs[|hs| - 1]]
  }

  datatype Import = BadQuoting | NoURL
                  | Imported(httpMethod: string, url: string, headers: seq<KeyValue>, body: Body, auth: Auth)

  function OrDefault(httpMethod: string, methodSet: bool, default: string): string {
    var m := if methodSet then httpMethod else default;
    if m == "" then "GET" else m
  }

  /** The end of `FromCurl`. */
  function Finish(p: Parse, un: Unescape): Import {
    if p.url == "" then NoURL
    else if p.formParts != [] then
      Imported(OrDefault(p.httpMethod, p.methodSet, "POST"), p.url, DropMultipart(p.headers),
               Body("multipart-form", "", p.formParts, "", "", ""), p.auth)
    else if p.hasData then
      var data := Join(p.dataParts, "&");
      if p.getMode then
        Imported(OrDefault(p.httpMethod, p.methodSet, "GET"), AppendQuery(p.url, data), p.headers, NO_BODY, p.auth)
      else
        Imported(OrDefault(p.httpMethod, p.methodSet, "POST"), p.url, p.headers, BodyFromData(data, p.contentType, un), p.auth)
    else Imported(OrDefault(p.httpMethod, true, "GET"), p.url, p.headers, NO_BODY, p.auth)
  }

  function WithoutCurl(toks: seq<string>): seq<string> {
    if toks != [] && (toks[0] == "curl" || HasSuffix(toks[0], "/curl")) then toks[1..] else toks
  }

  function FromWords(w: Words, esc: Escape, un: Unescape): Import {
    match w
    case Unterminated => BadQuoting
    case Words(toks) => Finish(ParseAll(WithoutCurl(toks), START, esc), un)
  }

  /** What importing a command gives. */
  function ImportOf(command: string, esc: Escape, un: Unescape): Import {
    FromWords(Tokens(command, Normal, "", false), esc, un)
  }

  /** `FromCurl`. */
  method FromCurl(command: string, esc: Escape, un: Unescape) returns (r: Import)
    ensures r == ImportOf(command, esc, un)
  {
    hide Tokens, ParseHead, BodyFromData;
    var w := TokenizeShell(command);
    if w.Unterminated? {
      return BadQuoting;
    }
    var toks := w.tokens;
    if |toks| > 0 && (toks[0] == "curl" || HasSuffix(toks[0], "/curl")) {
      toks := toks[1..];
    }
    var p := START;
    var i := 0;
    assert toks[0..] == toks;
    while i < |toks|
      invariant 0 <= i <= |toks|
      invariant ParseAll(toks[i..], p, esc) == ParseAll(toks, START, esc)
    {
      var used;
      p, used := ParseToken(toks, i, p, esc);
      assert toks[i..][used..] == toks[i + used..];
      i := i + used;
    }
    assert toks[i..] == [];
    if p.url == "" {
      return NoURL;
    }
    if |p.formParts| > 0 {
      var kept := KeepHeaders(p.headers);
      return Imported(OrDefault(p.httpMethod, p.methodSet, "POST"), p.url, kept, Body("multipart-form", "", p.formParts, "", "", ""), p.auth);
    }
    if p.hasData {
      var data := Join(p.dataParts, "&");
      if p.getMode {
        return Imported(OrDefault(p.httpMethod, p.methodSet, "GET"), AppendQuery(p.url, data), p.headers, NO_BODY, p.auth);
      }
      return Imported(OrDefault(p.httpMethod, p.methodSet, "POST"), p.url, p.headers, BodyFromData(data, p.contentType, un), p.auth);
    }
    return Imported(OrDefault(p.httpMethod, true, "GET"), p.url, p.headers, NO_BODY, p.auth);
  }

  /** The body of the token loop: at most one value is taken from the next token. */
  method ParseToken(toks: seq<string>, i: nat, p: Parse, esc: Escape) returns (next: Parse, used: nat)
    requires i < |toks|
    ensures (next, used) == ParseHead(toks[i..], p, esc)
  {
    hide SplitFlag, Classify, WithValue;
    var raw := toks[i];
    assert toks[i..][0] == raw && (i + 1 < |toks| ==> toks[i..][1] == toks[i + 1]);
    if raw == "" {
      return p, 1;
    }
    if raw[0] != '-' || raw == "-" {
      return if p.url == "" then p.(url := raw) else p, 1;
    }
    var (flag, inline, attached) := SplitFlag(raw);
    var kind := Classify(flag);
    if kind.GetFlag? {
      return p.(getMode := true), 1;
    }
    if kind.IgnoredFlag? {
      return p, if !attached && inline == "" && kind.takesValue && i + 1 < |toks| then 2 else 1;
    }
    if inline != "" || attached {
      return WithValue(p, kind, inline, esc), 1;
    }
    if i + 1 >= |toks| {
      return p, 1;
    }
    return WithValue(p, kind, toks[i + 1], esc), 2;
  }

  method KeepHeaders(hs: seq<KeyValue>) returns (out: seq<KeyValue>)
    ensures out == DropMultipart(hs)
  {
    out := [];
    for i := 0 to |hs|
      invariant out == DropMultipart(hs[..i])
    {
      assert hs[..i + 1][..i] == hs[..i];
      if IsMultipart(hs[i]) {
        continue;
      }
      out := out + [hs[i]];
    }
    assert hs[..|hs|] == hs;
  }
}
