/** What becomes of a request method on its way through an exported cURL command. The exporter writes the
    method unquoted, and a method may hold single quotes: it is a token in the sense of section 5.6.2 of
    RFC 9110. */
module CurlMethods {
  import opened Text
  import opened Model
  import opened ShellWords
  import opened Curl
  import opened CurlRoundTrip

  predicate TokenChar(c: char) {
    || 'a' <= c <= 'z' || 'A' <= c <= 'Z' || '0' <= c <= '9'
    || c in "!#$%&'*+-.^_`|~"
  }

  predicate IsToken(m: string) { m != "" && forall c <- m :: TokenChar(c) }

  /** The method without its single quotes. */
  function Unquoted(m: string): string {
    if m == "" then "" else (if m[0] == '\'' then "" else [m[0]]) + Unquoted(m[1..])
  }

  /** The method has an odd number of single quotes. */
  predicate LeavesOpen(m: string) {
    m != "" && if m[0] == '\'' then !LeavesOpen(m[1..]) else LeavesOpen(m[1..])
  }

  lemma TokenCharReads(c: char)
    requires TokenChar(c)
    ensures c == '\'' || Bare(c)
    ensures !IsSpace(c) && UpperChar(c) != ' '
  {
  }

  lemma {:induction false} UnquotedHas(m: string)
    ensures '\'' !in Unquoted(m) && (forall c <- Unquoted(m) :: c in m)
    ensures '\'' !in m ==> Unquoted(m) == m && !LeavesOpen(m)
    ensures |Unquoted(m)| <= |m|
  {
    if m != "" {
      UnquotedHas(m[1..]);
      assert m == [m[0]] + m[1..];
    }
  }

  // ----- reading the method -----

  function Toggled(mode: Mode, open: bool): Mode {
    if !open then mode else if mode.Normal? then Single else Normal
  }

  /** Every single quote of a method switches between the two modes and is dropped. */
  lemma {:induction false} TokenReads(m: string, rest: string, mode: Mode, cur: string, started: bool)
    requires forall c <- m :: TokenChar(c)
    requires mode.Normal? || (mode.Single? && started)
    ensures Tokens(m + rest, mode, cur, started)
         == Tokens(rest, Toggled(mode, LeavesOpen(m)), cur + Unquoted(m), started || m != "")
  {
    if m == "" {
      assert m + rest == rest && cur + Unquoted(m) == cur;
    } else {
      TokenCharReads(m[0]);
      assert (m + rest)[1..] == m[1..] + rest;
      if m[0] == '\'' {
        TokenReads(m[1..], rest, Toggled(mode, true), cur, true);
        assert Unquoted(m) == Unquoted(m[1..]);
        assert Toggled(Toggled(mode, true), LeavesOpen(m[1..])) == Toggled(mode, LeavesOpen(m));
      } else {
        TokenReads(m[1..], rest, mode, cur + [m[0]], true);
        assert cur + [m[0]] + Unquoted(m[1..]) == cur + Unquoted(m);
      }
    }
  }

  /** A token under construction only grows. */
  lemma {:induction false} TokenGrows(s: string, mode: Mode, cur: string)
    ensures var w := Tokens(s, mode, cur, true); w.Words? ==> w.tokens != [] && cur <= w.tokens[0]
    decreases |s|
  {
    if s != "" {
      var rest := s[1..];
      TokenGrows(rest, Normal, cur);
      TokenGrows(rest, Single, cur);
      TokenGrows(rest, Double, cur);
      TokenGrows(rest, mode, cur + [s[0]]);
      if rest != "" {
        TokenGrows(rest[1..], mode, cur);
        TokenGrows(rest[1..], mode, cur + [rest[0]]);
        if |rest| > 1 {
          TokenGrows(rest[2..], mode, cur);
        }
      }
    }
  }

  /** What follows the first line of the command. */
  function Tail(req: HttpRequest, s: Settings): string {
    var more := CurlLines(req, s)[1..];
    if more == [] then "" else CONTINUATION + Command(more)
  }

  lemma CommandIs(req: HttpRequest, s: Settings)
    ensures Command(CurlLines(req, s)) == "curl -X " + (req.httpMethod + (" " + (AlwaysQuote(req.url) + Tail(req, s))))
  {
    hide AlwaysQuote, Options, HeaderLines, Fields, BodyLines;
    FirstLineSpelled(req);
    var lines := CurlLines(req, s);
    assert lines[0] == FirstLine(req);
    assert Command(lines) == Line(lines[0]) + Tail(req, s);
  }

  /** The first two words of any command are read as they stand. */
  lemma OpeningReads(more: string)
    ensures Tokens("curl -X " + more, Normal, "", false)
         == Then("curl", Then("-X", Tokens(more, Normal, "", false)))
  {
    ShortFlagsAreBare();
    var a, b := " -X " + more, " " + more;
    assert "curl -X " + more == "curl" + a;
    BareReads("curl", a, "", false);
    assert a[1..] == "-X" + b && b[1..] == more;
    assert "" + "curl" == "curl" && "" + "-X" == "-X";
    assert Tokens(a, Normal, "curl", true) == Then("curl", Tokens(a[1..], Normal, "", false));
    BareReads("-X", b, "", false);
    assert Tokens(b, Normal, "-X", true) == Then("-X", Tokens(more, Normal, "", false));
  }

  lemma BlankEnds(rest: string, cur: string)
    ensures Tokens(" " + rest, Normal, cur, true) == Then(cur, Tokens(rest, Normal, "", false))
    ensures Tokens(" " + rest, Single, cur, true) == Tokens(rest, Single, cur + " ", true)
  {
    assert (" " + rest)[1..] == rest;
  }

  /** What the tokenizer makes of the command from the method on. */
  function FromMethod(req: HttpRequest, s: Settings): Words {
    Tokens(req.httpMethod + (" " + (AlwaysQuote(req.url) + Tail(req, s))), Normal, "", false)
  }

  lemma CommandTokens(req: HttpRequest, s: Settings)
    ensures Tokens(Command(CurlLines(req, s)), Normal, "", false) == Then("curl", Then("-X", FromMethod(req, s)))
  {
    hide Tokens, AlwaysQuote, Tail;
    CommandIs(req, s);
    OpeningReads(req.httpMethod + (" " + (AlwaysQuote(req.url) + Tail(req, s))));
  }

  function OtherTexts(req: HttpRequest, s: Settings): seq<string> {
    AllTexts(Options(s)) + (AllTexts(HeaderLines(Fields(req))) + DataTexts(req.body))
  }

  /** From the URL on everything reads back. */
  lemma RestReads(req: HttpRequest, s: Settings)
    ensures Tokens(AlwaysQuote(req.url) + Tail(req, s), Normal, "", false) == Words([req.url] + OtherTexts(req, s))
  {
    hide Tokens, AlwaysQuote, Options, HeaderLines, Fields, BodyLines, AllTexts, DataTexts, Spelled;
    var plain := req.(httpMethod := "GET");
    assert forall c <- "GET" :: Bare(c);
    assert Fields(plain) == Fields(req) by {
      SameFields(req, plain);
    }
    CurlIsSpelled(plain, s);
    var url := [Item(req.url, AlwaysQuote(req.url))];
    var more := CurlLines(req, s)[1..];
    assert more == CurlLines(plain, s)[1..];
    assert Spelled(url[0]) by {
      UrlSpelled(req.url);
    }
    var lines := [url] + more;
    assert lines[1..] == more;
    assert Line(url) == AlwaysQuote(req.url);
    assert Command(lines) == AlwaysQuote(req.url) + Tail(req, s) by {
      assert AlwaysQuote(req.url) + "" == AlwaysQuote(req.url);
    }
    CommandReads(lines);
    assert AllTexts(lines) == Texts(url) + AllTexts(more) by {
      TextsSplit(lines);
    }
    OtherTextsAre(req, s);
  }

  lemma SameFields(req: HttpRequest, other: HttpRequest)
    requires other == req.(httpMethod := other.httpMethod)
    ensures Fields(other) == Fields(req)
  {
  }

  lemma UrlSpelled(url: string)
    ensures Spelled(Item(url, AlwaysQuote(url)))
  {
  }

  lemma TextsSplit(lines: seq<seq<Item>>)
    requires lines != []
    ensures AllTexts(lines) == Texts(lines[0]) + AllTexts(lines[1..])
  {
  }

  lemma OtherTextsAre(req: HttpRequest, s: Settings)
    ensures AllTexts(CurlLines(req, s)[1..]) == OtherTexts(req, s)
  {
    hide Options, HeaderLines, Fields, BodyLines, AllTexts, DataTexts;
    var options, headers, body := Options(s), HeaderLines(Fields(req)), BodyLines(req.body);
    assert CurlLines(req, s)[1..] == options + (headers + body);
    AllTextsAppend(options, headers + body);
    AllTextsAppend(headers, body);
    LastTexts(req.body);
  }

  // ----- the method as a word -----

  /** For every request, the third word of the exported command is the method exactly when the method
      has no single quote. */
  lemma {:induction false} MethodWord(req: HttpRequest, s: Settings)
    requires IsToken(req.httpMethod)
    ensures var w := Tokens(Command(CurlLines(req, s)), Normal, "", false);
            (w.Words? && |w.tokens| > 2 && w.tokens[2] == req.httpMethod) <==> '\'' !in req.httpMethod
  {
    hide Tokens, AlwaysQuote, Tail, OtherTexts, Command, CurlLines, LeavesOpen, Unquoted;
    var m := req.httpMethod;
    var more := AlwaysQuote(req.url) + Tail(req, s);
    CommandTokens(req, s);
    UnquotedHas(m);
    TokenReads(m, " " + more, Normal, "", false);
    assert "" + Unquoted(m) == Unquoted(m);
    BlankEnds(more, Unquoted(m));
    RestReads(req, s);
    if LeavesOpen(m) {
      TokenGrows(more, Single, Unquoted(m) + " ");
      var w := FromMethod(req, s);
      if w.Words? {
        assert (Unquoted(m) + " ")[|Unquoted(m)|] == ' ';
        assert ' ' in w.tokens[0];
        NoSpace(m);
      }
    }
  }

  lemma NoSpace(m: string)
    requires IsToken(m)
    ensures ' ' !in m && ' ' !in ToUpper(m) && TrimSpace(m) == m
  {
    forall c <- m
      ensures !IsSpace(c) && UpperChar(c) != ' '
    {
      TokenCharReads(c);
    }
    TrimSpaceFixed(m);
  }

  /** With an even number of quotes the command still reads as one, and the import loses the quotes and
      the case of the method and nothing else. */
  lemma {:induction false} EvenQuotes(req: HttpRequest, s: Settings, esc: Escape, un: Unescape)
    requires IsToken(req.httpMethod) && !LeavesOpen(req.httpMethod) && RestExportable(req)
    ensures ImportOf(Command(CurlLines(req, s)), esc, un) == ImportWith(Unquoted(req.httpMethod), req, un)
    ensures RoundTrips(req, s, esc, un) <==> '\'' !in req.httpMethod && ToUpper(req.httpMethod) == req.httpMethod
  {
    hide Tokens, AlwaysQuote, Tail, AllTexts, Options, HeaderLines, Fields, DataTexts, Command, CurlLines, Unquoted, ParseAll, Finish,
         TrimSpace, ToUpper, ImportedBody, Rows;
    var m := req.httpMethod;
    var more := AlwaysQuote(req.url) + Tail(req, s);
    CommandTokens(req, s);
    UnquotedHas(m);
    TokenReads(m, " " + more, Normal, "", false);
    assert "" + Unquoted(m) == Unquoted(m);
    BlankEnds(more, Unquoted(m));
    RestReads(req, s);
    var toks := ["-X", Unquoted(m)] + ([req.url] + OtherTexts(req, s));
    assert Then("curl", Then("-X", FromMethod(req, s))) == Words(["curl"] + toks);
    assert (["curl"] + toks)[1..] == toks;
    WordsImport(Unquoted(m), req, s, esc, un);
    UpperUnquoted(m);
  }

  lemma UpperUnquoted(m: string)
    requires IsToken(m)
    ensures '\'' !in ToUpper(TrimSpace(Unquoted(m)))
    ensures '\'' !in m ==> ToUpper(TrimSpace(Unquoted(m))) == ToUpper(m) != ""
  {
    hide IsSpace;
    UnquotedHas(m);
    NoSpace(m);
    var t := TrimSpace(Unquoted(m));
    TrimSpaceTrimmed(Unquoted(m));
    assert forall c <- t :: c != '\'' && c in m;
    forall i | 0 <= i < |t|
      ensures ToUpper(t)[i] != '\''
    {
      assert t[i] in t;
      UpperIsQuote(t[i]);
    }
  }

  lemma UpperIsQuote(c: char)
    ensures UpperChar(c) == '\'' <==> c == '\''
  {
  }

  /** With an odd number and nothing but a plain URL after it, the command does not read as one. */
  lemma {:induction false} OddQuotes(req: HttpRequest, s: Settings, esc: Escape, un: Unescape)
    requires IsToken(req.httpMethod) && LeavesOpen(req.httpMethod)
    requires CurlLines(req, s) == [FirstLine(req)] && forall c <- req.url :: Bare(c)
    ensures ImportOf(Command(CurlLines(req, s)), esc, un) == BadQuoting
  {
    hide Tokens, AlwaysQuote, CurlLines, Command, Unquoted;
    var m, url := req.httpMethod, req.url;
    CommandTokens(req, s);
    TokenReads(m, " " + AlwaysQuote(url), Normal, "", false);
    assert AlwaysQuote(url) + "" == AlwaysQuote(url);
    assert "" + Unquoted(m) == Unquoted(m);
    var cur := Unquoted(m) + " ";
    BlankEnds(AlwaysQuote(url), Unquoted(m));
    NothingToEscape(url);
    assert AlwaysQuote(url) == "'" + (url + "'");
    QuoteSwitches(url + "'", Single, cur);
    BareReads(url, "'", cur, true);
    assert "'" == "'" + "";
    QuoteSwitches("", Normal, cur + url);
    OpenEnds(cur + url);
  }

  lemma {:induction false} NothingToEscape(x: string)
    requires '\'' !in x
    ensures EscapeQuotes(x) == x && AlwaysQuote(x) == "'" + x + "'"
  {
    if x != "" {
      NothingToEscape(x[1..]);
    }
  }

  lemma QuoteSwitches(rest: string, mode: Mode, cur: string)
    requires !mode.Double?
    ensures Tokens("'" + rest, mode, cur, true) == Tokens(rest, Toggled(mode, true), cur, true)
  {
    assert ("'" + rest)[1..] == rest;
  }

  lemma OpenEnds(cur: string)
    ensures Tokens("", Single, cur, true) == Unterminated
  {
  }

  /** Exporting and importing brings back every request with the method m exactly when m has no single
      quote and no lower-case letter. */
  lemma {:induction false} MethodRoundTrips(m: string, esc: Escape, un: Unescape)
    requires IsToken(m)
    ensures (forall req: HttpRequest, s: Settings | req.httpMethod == m && RestExportable(req) :: RoundTrips(req, s, esc, un))
       <==> '\'' !in m && ToUpper(m) == m
  {
    hide RoundTrips, ToUpper, LeavesOpen, RestExportable;
    UnquotedHas(m);
    if '\'' !in m && ToUpper(m) == m {
      forall req: HttpRequest, s: Settings | req.httpMethod == m && RestExportable(req)
        ensures RoundTrips(req, s, esc, un)
      {
        EvenQuotes(req, s, esc, un);
      }
    } else {
      var req, s := Simplest(m), Settings(false, false, 0);
      SimplestIs(m);
      if LeavesOpen(m) {
        OddQuotes(req, s, esc, un);
        assert !RoundTrips(req, s, esc, un) by {
          BadIsNoRoundTrip(req, s, esc, un);
        }
      } else {
        EvenQuotes(req, s, esc, un);
      }
    }
  }

  lemma BadIsNoRoundTrip(req: HttpRequest, s: Settings, esc: Escape, un: Unescape)
    requires ImportOf(Command(CurlLines(req, s)), esc, un) == BadQuoting
    ensures !RoundTrips(req, s, esc, un)
  {
    hide Command, CurlLines, ImportOf;
  }

  /** A request for the URL "u" with no header and no body. */
  function Simplest(m: string): HttpRequest { HttpRequest(m, "u", "u", "", [], "") }

  lemma SimplestIs(m: string)
    ensures var req := Simplest(m);
            RestExportable(req) && CurlLines(req, Settings(false, false, 0)) == [FirstLine(req)]
            && Fields(req) == [] && forall c <- req.url :: Bare(c)
  {
  }

  // ----- inputs on which it fails -----

  /** A method with one quote: the exported command is refused. */
  lemma QuoteInMethod(esc: Escape, un: Unescape)
    ensures IsToken("A'B")
    ensures ImportOf(Command(CurlLines(Simplest("A'B"), Settings(false, false, 0))), esc, un) == BadQuoting
  {
    hide ImportOf, Command, CurlLines;
    var m := "A'B";
    assert m[1..] == "'B" && "'B"[1..] == "B" && "B"[1..] == "";
    assert IsToken(m) && LeavesOpen(m);
    SimplestIs(m);
    OddQuotes(Simplest(m), Settings(false, false, 0), esc, un);
  }

  lemma TwoQuotes()
    ensures IsToken("A'B'") && !LeavesOpen("A'B'") && Unquoted("A'B'") == "AB"
    ensures ToUpper(TrimSpace("AB")) == "AB"
  {
    var m := "A'B'";
    assert m[1..] == "'B'" && "'B'"[1..] == "B'" && "B'"[1..] == "'" && "'"[1..] == "";
    assert LeavesOpen("'") && LeavesOpen("B'") && !LeavesOpen("'B'");
    assert Unquoted("'") == "" && Unquoted("B'") == "B" && Unquoted("'B'") == "B";
    assert UpperChar('A') == 'A' && UpperChar('B') == 'B';
    TrimSpaceFixed("AB");
  }

  /** With two quotes it is read as another method. */
  lemma QuotesInMethod(esc: Escape, un: Unescape)
    ensures IsToken("A'B'")
    ensures ImportOf(Command(CurlLines(Simplest("A'B'"), Settings(false, false, 0))), esc, un)
         == Imported("AB", "u", [], NO_BODY, BareAuth(""))
  {
    hide ImportOf, Command, CurlLines, IsToken, LeavesOpen, Unquoted, TrimSpace, ToUpper, Fields;
    TwoQuotes();
    SimplestIs("A'B'");
    EvenQuotes(Simplest("A'B'"), Settings(false, false, 0), esc, un);
  }

  const VALUE := "http://h" + " " + "-X" + " " + "A" + "\\"

  /** A method with one quote and a header whose value ends in a backslash. */
  const ACCIDENT := HttpRequest("A'", "http://h", "h", "", [("K", [VALUE])], "")

  lemma AccidentIs()
    ensures IsToken("A'") && LeavesOpen("A'") && Unquoted("A'") == "A" && RestExportable(ACCIDENT)
    ensures Fields(ACCIDENT) == [("K", VALUE)]
  {
    assert "A'"[1..] == "'" && "'"[1..] == "";
    assert Unquoted("'") == "" && LeavesOpen("'");
    assert HeaderFlat([]) == [] && ACCIDENT.header[..0] == [];
    assert Fields(ACCIDENT) == [("K", VALUE)];
    assert GoodField(("K", VALUE));
  }

  const FIELD := "K" + ": " + VALUE

  lemma FieldIs()
    ensures FIELD == "K:" + " " + "http://h" + " " + "-X" + " " + "A" + "\\"
    ensures ' ' in FIELD && '\'' !in FIELD
  {
    assert "K" + ": " == "K:" + " ";
    assert FIELD[2] == ' ';
  }

  lemma AccidentLine()
    ensures HeaderLine("K", VALUE) != [] && Line(HeaderLine("K", VALUE)) == "-H" + " " + ("'" + FIELD + "'")
  {
    FieldIs();
    assert !Plain(FIELD) by {
      assert !ShellSafe(' ');
    }
    TwoWords(Raw("-H"), Quoted(FIELD));
    NothingToEscape(FIELD);
    assert "K" + ": " + VALUE == FIELD;
  }

  lemma AccidentTailIs()
    ensures HeaderLine("K", VALUE) != []
    ensures Tail(ACCIDENT, Settings(false, false, 0)) == CONTINUATION + Line(HeaderLine("K", VALUE))
  {
    hide Line, HeaderLine, FirstLine, Fields;
    AccidentIs();
    var line := HeaderLine("K", VALUE);
    assert HeaderLines(Fields(ACCIDENT)) == [line];
    assert CurlLines(ACCIDENT, Settings(false, false, 0))[1..] == [line];
    LineNotEmpty("K", VALUE);
    assert Command([line]) == Line(line);
  }

  /** What follows the method, cut where the mode changes or a word ends. */
  lemma AccidentTail()
    ensures AlwaysQuote(ACCIDENT.url) + Tail(ACCIDENT, Settings(false, false, 0))
         == "'" + ("http://h" + ("'" + (CONTINUATION + "-H" + " " + ("'" + ("K:" + (" " + ("http://h" + (" " + ("-X" + (" " + ("A" + "\\'")))))))))))
  {
    hide AlwaysQuote, Line, HeaderLine, Tail;
    FieldIs();
    AccidentLine();
    AccidentTailIs();
    NothingToEscape("http://h");
    Regroup(CONTINUATION, "-H", "K:", "http://h", "-X", "A", "\\");
    EndsInQuote();
  }

  lemma EndsInQuote()
    ensures "\\" + "'" == "\\'"
  {
  }

  lemma Regroup(t: string, f: string, k: string, u: string, x: string, a: string, e: string)
    ensures "'" + u + "'" + (t + (f + " " + ("'" + (k + " " + u + " " + x + " " + a + e) + "'")))
         == "'" + (u + ("'" + (t + f + " " + ("'" + (k + (" " + (u + (" " + (x + (" " + (a + (e + "'"))))))))))))
  {
    var inner := k + " " + u + " " + x + " " + a + e + "'";
    assert inner == k + (" " + (u + (" " + (x + (" " + (a + (e + "'")))))));
  }

  /** Characters inside single quotes are taken as they are. */
  lemma {:induction false} SingleReads(x: string, rest: string, cur: string)
    requires '\'' !in x
    ensures Tokens(x + rest, Single, cur, true) == Tokens(rest, Single, cur + x, true)
  {
    if x == "" {
      assert x + rest == rest && cur + x == cur;
    } else {
      assert (x + rest)[1..] == x[1..] + rest;
      SingleReads(x[1..], rest, cur + [x[0]]);
      assert cur + [x[0]] + x[1..] == cur + x;
    }
  }

  lemma EscapedQuoteEnds(cur: string)
    ensures Tokens("\\'", Normal, cur, true) == Words([cur + "'"])
  {
    assert "\\'"[1..] == "'" && "'"[1..] == "";
  }

  const SWALLOWED := "A" + " " + "http://h" + (CONTINUATION + "-H" + " ") + "K:"

  lemma SwallowedReads(rest: string)
    ensures Tokens("A'" + (" " + ("'" + ("http://h" + ("'" + (CONTINUATION + "-H" + " " + ("'" + ("K:" + (" " + rest)))))))), Normal, "", false)
         == Then(SWALLOWED, Tokens(rest, Normal, "", false))
  {
    hide Tokens, LeavesOpen, Unquoted;
    AccidentIs();
    var gap := CONTINUATION + "-H" + " ";
    var d := "K:" + (" " + rest);
    var c := gap + ("'" + d);
    var b := "http://h" + ("'" + c);
    TokenReads("A'", " " + ("'" + b), Normal, "", false);
    assert "" + Unquoted("A'") == "A";
    BlankEnds("'" + b, "A");
    QuoteSwitches(b, Single, "A" + " ");
    BareReads("http://h", "'" + c, "A" + " ", true);
    QuoteSwitches(c, Normal, "A" + " " + "http://h");
    SingleReads(gap, "'" + d, "A" + " " + "http://h");
    QuoteSwitches(d, Single, "A" + " " + "http://h" + gap);
    BareReads("K:", " " + rest, "A" + " " + "http://h" + gap, true);
    BlankEnds(rest, SWALLOWED);
  }

  lemma BareWordReads(x: string, rest: string)
    requires forall c <- x :: Bare(c)
    requires x != ""
    ensures Tokens(x + (" " + rest), Normal, "", false) == Then(x, Tokens(rest, Normal, "", false))
  {
    hide Tokens;
    BareReads(x, " " + rest, "", false);
    assert "" + x == x;
    BlankEnds(rest, x);
  }

  lemma AccidentTokens()
    ensures FromMethod(ACCIDENT, Settings(false, false, 0)) == Words([SWALLOWED, "http://h", "-X", "A'"])
  {
    hide Tokens, AlwaysQuote, Tail, LeavesOpen, Unquoted;
    AccidentTail();
    var g := "A" + "\\'";
    var f := "-X" + (" " + g);
    var e := "http://h" + (" " + f);
    SwallowedReads(e);
    BareWordReads("http://h", f);
    ShortFlagsAreBare();
    BareWordReads("-X", g);
    BareReads("A", "\\'", "", false);
    assert "" + "A" == "A";
    EscapedQuoteEnds("A");
    assert "A" + "'" == "A'";
    assert Then("-X", Words(["A'"])) == Words(["-X", "A'"]);
    assert Then("http://h", Words(["-X", "A'"])) == Words(["http://h", "-X", "A'"]);
  }

  /** The condition is one on methods and not on single requests: here the header is read as a second URL
      and a second -X, so the import has the method and the URL it should have, by accident, and has lost
      the header. */
  lemma {:induction false} MethodByAccident(esc: Escape, un: Unescape)
    ensures RestExportable(ACCIDENT) && IsToken(ACCIDENT.httpMethod) && Fields(ACCIDENT) != []
    ensures ImportOf(Command(CurlLines(ACCIDENT, Settings(false, false, 0))), esc, un)
         == Imported(ACCIDENT.httpMethod, ACCIDENT.url, [], NO_BODY, BareAuth(""))
  {
    hide Tokens, Command, CurlLines, ParseAll, WithValue, TrimSpace, ToUpper, FromMethod;
    AccidentIs();
    AccidentTokens();
    CommandTokens(ACCIDENT, Settings(false, false, 0));
    var toks := ["-X", SWALLOWED] + (["http://h"] + (["-X", "A'"] + []));
    assert (["curl"] + toks)[1..] == toks;
    assert Then("curl", Then("-X", FromMethod(ACCIDENT, Settings(false, false, 0)))) == Words(["curl"] + toks);
    AccidentParses(toks, esc);
  }

  lemma {:induction false} AccidentParses(toks: seq<string>, esc: Escape)
    requires toks == ["-X", SWALLOWED] + (["http://h"] + (["-X", "A'"] + []))
    ensures ParseAll(toks, START, esc) == START.(httpMethod := "A'", methodSet := true, url := "http://h")
  {
    hide ParseAll;
    var p := WithValue(START, MethodFlag, SWALLOWED, esc);
    MethodReads(SWALLOWED, ["http://h"] + (["-X", "A'"] + []), START, esc);
    UrlReads("http://h", ["-X", "A'"] + [], p, esc);
    MethodReads("A'", [], p.(url := "http://h"), esc);
    ParseNothing(WithValue(p.(url := "http://h"), MethodFlag, "A'", esc), esc);
    TrimSpaceFixed("A'");
    assert ToUpper("A'") == "A'" by {
      assert UpperChar('A') == 'A' && UpperChar('\'') == '\'';
    }
  }
}
