/** Shell quoting of `internal/exporter/exporter.go` and the tokenizer of `internal/importer/curl.go`
    that reads it back. Characters are code points; all that the code tests for are ASCII, so reading byte by
    byte, as it does, comes to the same. */
module ShellWords {
  import opened Text

  // ----- quoting -----

  predicate ShellSafe(c: char) {
    || 'a' <= c <= 'z' || 'A' <= c <= 'Z' || '0' <= c <= '9'
    || c == '-' || c == '_' || c == '.' || c == '/' || c == ':' || c == '+' || c == '%' || c == ','
  }

  /** `needsShellQuote`. */
  method NeedsShellQuote(s: string) returns (needs: bool)
    ensures needs <==> s == "" || exists c :: c in s && !ShellSafe(c)
  {
    if s == "" {
      return true;
    }
    for i := 0 to |s|
      invariant forall k :: 0 <= k < i ==> ShellSafe(s[k])
    {
      if !ShellSafe(s[i]) {
        assert s[i] in s;
        return true;
      }
    }
    return false;
  }

  /** Every single quote closed, escaped and reopened. */
  function EscapeQuotes(s: string): string {
    if s == "" then "" else (if s[0] == '\'' then "'\\''" else [s[0]]) + EscapeQuotes(s[1..])
  }

  function AlwaysQuote(s: string): string { "'" + EscapeQuotes(s) + "'" }

  predicate Plain(s: string) { s != "" && forall c <- s :: ShellSafe(c) }

  function ShellQuote(s: string): string { if Plain(s) then s else AlwaysQuote(s) }

  // ----- tokenizing -----

  datatype Mode = Normal | Single | Double

  datatype Words = Unterminated | Words(tokens: seq<string>)

  function Then(token: string, w: Words): Words {
    if w.Unterminated? then w else Words([token] + w.tokens)
  }

  function Flush(cur: string, started: bool, w: Words): Words {
    if started then Then(cur, w) else w
  }

  predicate Blank(c: char) { c == ' ' || c == '\t' || c == '\n' || c == '\r' }

  predicate Escapable(c: char) { c == '"' || c == '\\' || c == '$' || c == '`' }

  /** The tokens of what is left to read, given the mode and the token under construction. */
  function Tokens(s: string, mode: Mode, cur: string, started: bool): Words
    decreases |s|
  {
    if s == "" then
      if mode.Normal? then Flush(cur, started, Words([])) else Unterminated
    else
      var c, rest := s[0], s[1..];
      match mode
      case Normal =>
        if Blank(c) then Flush(cur, started, Tokens(rest, Normal, "", false))
        else if c == '\'' then Tokens(rest, Single, cur, true)
        else if c == '"' then Tokens(rest, Double, cur, true)
        else if c == '\\' then
          if rest == "" then Tokens(rest, Normal, cur, started)
          else if rest[0] == '\n' then Tokens(rest[1..], Normal, cur, started)
          else if rest[0] == '\r' then
            Tokens(if |rest| > 1 && rest[1] == '\n' then rest[2..] else rest[1..], Normal, cur, started)
          else Tokens(rest[1..], Normal, cur + [rest[0]], true)
        else Tokens(rest, Normal, cur + [c], true)
      case Single =>
        if c == '\'' then Tokens(rest, Normal, cur, started) else Tokens(rest, Single, cur + [c], started)
      case Double =>
        if c == '"' then Tokens(rest, Normal, cur, started)
        else if c == '\\' && rest != "" && Escapable(rest[0]) then Tokens(rest[1..], Double, cur + [rest[0]], started)
        else if c == '\\' && rest != "" && rest[0] == '\n' then Tokens(rest[1..], Double, cur, started)
        else Tokens(rest, Double, cur + [c], started)
  }

  function Prefixed(toks: seq<string>, w: Words): Words {
    if w.Unterminated? then w else Words(toks + w.tokens)
  }

  /** `tokenizeShell`. */
  method TokenizeShell(s: string) returns (w: Words)
    ensures w == Tokens(s, Normal, "", false)
  {
    var toks: seq<string> := [];
    var cur, started, mode := "", false, Normal;
    var i := 0;
    while i < |s|
      invariant 0 <= i <= |s|
      invariant !started ==> cur == "" && mode == Normal
      invariant Prefixed(toks, Tokens(s[i..], mode, cur, started)) == Tokens(s, Normal, "", false)
      decreases |s| - i
    {
      var c := s[i];
      assert s[i..][0] == c && s[i..][1..] == s[i + 1..];
      assert i + 1 < |s| ==> s[i + 1..][1..] == s[i + 2..];
      assert i + 2 < |s| ==> s[i + 1..][2..] == s[i + 3..];
      match mode {
        case Normal =>
          if c == ' ' || c == '\t' || c == '\n' || c == '\r' {
            if started {
              PrefixedMore(toks, cur, Tokens(s[i + 1..], Normal, "", false));
              toks := toks + [cur];
              cur, started := "", false;
            }
          } else if c == '\'' {
            started, mode := true, Single;
          } else if c == '"' {
            started, mode := true, Double;
          } else if c == '\\' {
            if i + 1 < |s| {
              i := i + 1;
              if s[i] == '\n' {
              } else if s[i] == '\r' {
                if i + 1 < |s| && s[i + 1] == '\n' {
                  i := i + 1;
                }
              } else {
                cur, started := cur + [s[i]], true;
              }
            }
          } else {
            cur, started := cur + [c], true;
          }
        case Single =>
          if c == '\'' {
            mode := Normal;
          } else {
            cur := cur + [c];
          }
        case Double =>
          if c == '"' {
            mode := Normal;
          } else if c == '\\' && i + 1 < |s| && Escapable(s[i + 1]) {
            cur := cur + [s[i + 1]];
            i := i + 1;
          } else if c == '\\' && i + 1 < |s| && s[i + 1] == '\n' {
            i := i + 1;
          } else {
            cur := cur + [c];
          }
      }
      i := i + 1;
    }
    assert s[i..] == "";
    if mode != Normal {
      return Unterminated;
    }
    if started {
      toks := toks + [cur];
    }
    return Words(toks);
  }

  lemma PrefixedMore(toks: seq<string>, cur: string, w: Words)
    ensures Prefixed(toks, Then(cur, w)) == Prefixed(toks + [cur], w)
  {
    if w.Words? {
      assert toks + ([cur] + w.tokens) == toks + [cur] + w.tokens;
    }
  }

  // ----- reading back what was quoted -----

  /** An escaped quote, read inside single quotes, is a quote. */
  lemma QuoteReads(more: string, cur: string)
    ensures Tokens("'\\''" + more, Single, cur, true) == Tokens(more, Single, cur + ['\''], true)
  {
    var all, a, b := "'\\''" + more, "\\''" + more, "'" + more;
    assert all[1..] == a && a[1..][1..] == b && b[1..] == more;
    assert Tokens(all, Single, cur, true) == Tokens(a, Normal, cur, true);
    assert Tokens(a, Normal, cur, true) == Tokens(b, Normal, cur + ['\''], true);
  }

  lemma {:induction false} EscapedReads(x: string, rest: string, cur: string)
    ensures Tokens(EscapeQuotes(x) + "'" + rest, Single, cur, true) == Tokens(rest, Normal, cur + x, true)
  {
    var all := EscapeQuotes(x) + "'" + rest;
    if x == "" {
      assert all[1..] == rest && cur + x == cur;
    } else {
      var more := EscapeQuotes(x[1..]) + "'" + rest;
      var next := cur + [x[0]];
      EscapedReads(x[1..], rest, next);
      assert next + x[1..] == cur + x;
      if x[0] == '\'' {
        assert all == "'\\''" + more;
        QuoteReads(more, cur);
      } else {
        assert all == [x[0]] + more && all[1..] == more;
      }
    }
  }

  /** The tokenizer undoes `alwaysQuote` on every string. */
  lemma QuotedReads(x: string, rest: string, cur: string, started: bool)
    ensures Tokens(AlwaysQuote(x) + rest, Normal, cur, started) == Tokens(rest, Normal, cur + x, true)
  {
    var all := AlwaysQuote(x) + rest;
    assert all[0] == '\'' && all[1..] == EscapeQuotes(x) + "'" + rest;
    EscapedReads(x, rest, cur);
  }

  // ----- double quotes, which Helena itself never writes -----

  /** Inside double quotes a backslash escapes these four and nothing else but a line feed. */
  function EscapeDouble(s: string): string {
    if s == "" then ""
    else (if s[0] in ['"', '\\', '$', '`'] then ['\\', s[0]] else [s[0]]) + EscapeDouble(s[1..])
  }

  /** Any string can be double-quoted, and reads back as itself ... */
  lemma {:induction false} DoubleQuotedReads(x: string, rest: string, cur: string, started: bool)
    ensures Tokens("\"" + EscapeDouble(x) + "\"" + rest, Normal, cur, started) == Tokens(rest, Normal, cur + x, true)
  {
    var all := "\"" + EscapeDouble(x) + "\"" + rest;
    assert all[1..] == EscapeDouble(x) + "\"" + rest;
    DoubleEscapedReads(x, rest, cur);
  }

  lemma {:induction false} DoubleEscapedReads(x: string, rest: string, cur: string)
    ensures Tokens(EscapeDouble(x) + "\"" + rest, Double, cur, true) == Tokens(rest, Normal, cur + x, true)
  {
    var all := EscapeDouble(x) + "\"" + rest;
    if x == "" {
      assert all[1..] == rest && cur + x == cur;
    } else {
      var more := EscapeDouble(x[1..]) + "\"" + rest;
      DoubleEscapedReads(x[1..], rest, cur + [x[0]]);
      assert cur + [x[0]] + x[1..] == cur + x;
      if x[0] in ['"', '\\', '$', '`'] {
        assert all == ['\\', x[0]] + more && all[1..][1..] == more;
      } else {
        assert all == [x[0]] + more && all[1..] == more;
      }
    }
  }

  /** ... and a backslash before any other character stays, but for a line feed, which goes with it. */
  lemma {:induction false} DoubleBackslash(c: char, more: string, cur: string)
    ensures c !in ['"', '\\', '$', '`', '\n'] ==>
              Tokens(['\\', c] + more, Double, cur, true) == Tokens(more, Double, cur + ['\\', c], true)
    ensures Tokens(['\\', '\n'] + more, Double, cur, true) == Tokens(more, Double, cur, true)
  {
    var all := ['\\', c] + more;
    assert all[1..] == [c] + more && ([c] + more)[1..] == more;
    assert cur + ['\\'] + [c] == cur + ['\\', c];
    assert (['\\', '\n'] + more)[1..][1..] == more;
  }

  /** A character that stands for itself outside quotes. */
  predicate Bare(c: char) { !Blank(c) && c != '\'' && c != '"' && c != '\\' }

  lemma {:induction false} BareReads(x: string, rest: string, cur: string, started: bool)
    requires forall c <- x :: Bare(c)
    ensures Tokens(x + rest, Normal, cur, started) == Tokens(rest, Normal, cur + x, started || x != "")
  {
    if x == "" {
      assert x + rest == rest && cur + x == cur;
    } else {
      assert x[0] in x && (x + rest)[1..] == x[1..] + rest;
      BareReads(x[1..], rest, cur + [x[0]], true);
      assert cur + [x[0]] + x[1..] == cur + x;
    }
  }

  /** A word of a command line: what it says and how it is spelled. */
  datatype Item = Item(text: string, spelling: string)

  predicate Spelled(w: Item) {
    w.spelling == AlwaysQuote(w.text) || (w.spelling == w.text != "" && forall c <- w.text :: Bare(c))
  }

  lemma ItemReads(w: Item, rest: string)
    requires Spelled(w)
    ensures Tokens(w.spelling + rest, Normal, "", false) == Tokens(rest, Normal, w.text, true)
  {
    if w.spelling == AlwaysQuote(w.text) {
      QuotedReads(w.text, rest, "", false);
    } else {
      BareReads(w.text, rest, "", false);
    }
    assert "" + w.text == w.text;
  }

  function Texts(line: seq<Item>): (texts: seq<string>)
    ensures |texts| == |line|
  {
    seq(|line|, i requires 0 <= i < |line| => line[i].text)
  }

  function Line(line: seq<Item>): string
    requires line != []
  {
    if |line| == 1 then line[0].spelling else line[0].spelling + " " + Line(line[1..])
  }

  lemma {:induction false} LineReads(line: seq<Item>, rest: string)
    requires line != [] && forall w <- line :: Spelled(w)
    ensures Tokens(Line(line) + rest, Normal, "", false)
         == Prefixed(Texts(line)[..|line| - 1], Tokens(rest, Normal, line[|line| - 1].text, true))
  {
    hide AlwaysQuote;
    if |line| == 1 {
      ItemReads(line[0], rest);
      PrefixedNone(Tokens(rest, Normal, line[0].text, true));
      assert Texts(line)[..0] == [];
    } else {
      var tail := line[1..];
      var after := Line(tail) + rest;
      assert Line(line) + rest == line[0].spelling + (" " + after);
      ItemReads(line[0], " " + after);
      assert (" " + after)[1..] == after;
      assert Tokens(" " + after, Normal, line[0].text, true) == Then(line[0].text, Tokens(after, Normal, "", false));
      LineReads(tail, rest);
      var w := Tokens(rest, Normal, tail[|tail| - 1].text, true);
      assert Texts(line)[..|line| - 1] == [line[0].text] + Texts(tail)[..|tail| - 1];
      PrefixedThen(line[0].text, Texts(tail)[..|tail| - 1], w);
    }
  }

  lemma PrefixedNone(w: Words)
    ensures Prefixed([], w) == w
  {
    if w.Words? {
      assert [] + w.tokens == w.tokens;
    }
  }

  lemma PrefixedThen(t: string, toks: seq<string>, w: Words)
    ensures Then(t, Prefixed(toks, w)) == Prefixed([t] + toks, w)
  {
    if w.Words? {
      assert [t] + (toks + w.tokens) == [t] + toks + w.tokens;
    }
  }

  const CONTINUATION := " \\\n  "

  function Command(lines: seq<seq<Item>>): string
    requires lines != [] && forall i :: 0 <= i < |lines| ==> lines[i] != []
  {
    if |lines| == 1 then Line(lines[0]) else Line(lines[0]) + CONTINUATION + Command(lines[1..])
  }

  function AllTexts(lines: seq<seq<Item>>): seq<string> {
    if lines == [] then [] else Texts(lines[0]) + AllTexts(lines[1..])
  }

  lemma ContinuationReads(rest: string, cur: string)
    ensures Tokens(CONTINUATION + rest, Normal, cur, true) == Then(cur, Tokens(rest, Normal, "", false))
  {
    var all := CONTINUATION + rest;
    var a, b := "\\\n  " + rest, "  " + rest;
    assert all[1..] == a && a[1..][1..] == b && b[1..] == " " + rest && b[1..][1..] == rest;
    assert Tokens(all, Normal, cur, true) == Then(cur, Tokens(a, Normal, "", false));
    assert Tokens(a, Normal, "", false) == Tokens(b, Normal, "", false);
    assert Tokens(b, Normal, "", false) == Tokens(b[1..], Normal, "", false);
  }

  /** A command written over several lines reads back as the words of its lines, in order. */
  lemma {:induction false} CommandReads(lines: seq<seq<Item>>)
    requires lines != [] && forall i :: 0 <= i < |lines| ==> lines[i] != []
    requires forall i :: 0 <= i < |lines| ==> forall w <- lines[i] :: Spelled(w)
    ensures Tokens(Command(lines), Normal, "", false) == Words(AllTexts(lines))
  {
    hide Spelled;
    var l := lines[0];
    var n := |l| - 1;
    assert Texts(l) == Texts(l)[..n] + [l[n].text];
    if |lines| == 1 {
      LineReads(l, "");
      assert Line(l) + "" == Line(l);
      assert AllTexts(lines) == Texts(l) by {
        assert lines[1..] == [];
      }
    } else {
      var rest := Command(lines[1..]);
      LineReads(l, CONTINUATION + rest);
      assert Line(l) + (CONTINUATION + rest) == Command(lines);
      ContinuationReads(rest, l[n].text);
      CommandReads(lines[1..]);
      PrefixedMore(Texts(l)[..n], l[n].text, Words(AllTexts(lines[1..])));
    }
  }
}
