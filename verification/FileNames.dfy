/** `slug` and `uniqueName` of `internal/storage/store.go`: how display names become file names. */
module FileNames {
  import opened Text

  /** The class `[a-z0-9]` whose complement the slug pattern matches. */
  predicate Usable(c: char) { 'a' <= c <= 'z' || '0' <= c <= '9' }

  /** Every maximal run of unusable characters becomes one dash. A dash is itself unusable, so a run
      is still open exactly when the output ends in a dash. */
  function Collapse(s: string): (r: string)
    ensures forall c <- r :: Usable(c) || c == '-'
    ensures forall i :: 0 <= i < |r| - 1 ==> r[i] != '-' || r[i + 1] != '-'
  {
    if s == "" then ""
    else
      var r := Collapse(s[..|s| - 1]);
      if Usable(s[|s| - 1]) then r + [s[|s| - 1]]
      else if r != "" && r[|r| - 1] == '-' then r
      else r + "-"
  }

  function TrimDashes(s: string): (r: string)
    ensures r != "" ==> r[0] != '-' && r[|r| - 1] != '-'
    ensures forall c <- r :: c in s
  {
    if s == "" then ""
    else if s[0] == '-' then TrimDashes(s[1..])
    else if s[|s| - 1] == '-' then TrimDashes(s[..|s| - 1])
    else s
  }

  function Slug(name: string, fallback: string): string {
    var s := TrimDashes(Collapse(ToLower(TrimSpace(name))));
    if s == "" then fallback else s
  }

  /** A name made of usable characters and inner dashes. */
  predicate IsSlug(s: string) {
    && s != ""
    && (forall c <- s :: Usable(c) || c == '-')
    && s[0] != '-' && s[|s| - 1] != '-'
  }

  lemma SlugIsSlug(name: string, fallback: string)
    requires IsSlug(fallback)
    ensures IsSlug(Slug(name, fallback))
  {
  }

  lemma {:induction false} CollapseFixed(s: string)
    requires forall c <- s :: Usable(c) || c == '-'
    requires forall i :: 0 <= i < |s| - 1 ==> s[i] != '-' || s[i + 1] != '-'
    ensures Collapse(s) == s
  {
    if s != "" {
      CollapseFixed(s[..|s| - 1]);
      assert s == s[..|s| - 1] + [s[|s| - 1]];
    }
  }

  lemma {:induction false} TrimDashesApart(s: string)
    requires forall i :: 0 <= i < |s| - 1 ==> s[i] != '-' || s[i + 1] != '-'
    ensures forall i :: 0 <= i < |TrimDashes(s)| - 1 ==> TrimDashes(s)[i] != '-' || TrimDashes(s)[i + 1] != '-'
  {
    if s != "" {
      if s[0] == '-' {
        TrimDashesApart(s[1..]);
      } else if s[|s| - 1] == '-' {
        TrimDashesApart(s[..|s| - 1]);
      }
    }
  }

  /** Slugging a slug changes nothing. */
  lemma SlugFixed(name: string, fallback: string, other: string)
    requires IsSlug(Slug(name, ""))
    ensures Slug(Slug(name, fallback), other) == Slug(name, fallback)
  {
    var collapsed := Collapse(ToLower(TrimSpace(name)));
    var s := TrimDashes(collapsed);
    TrimDashesApart(collapsed);
    CollapseFixed(s);
    assert s[0] in s && s[|s| - 1] in s;
    TrimSpaceFixed(s);
    assert ToLower(s) == s by {
      assert forall i :: 0 <= i < |s| ==> s[i] in s;
    }
  }

  // ----- what a slug says -----

  predicate Alphanumeric(c: char) { 'a' <= c <= 'z' || 'A' <= c <= 'Z' || '0' <= c <= '9' }

  function Small(c: char): char { if 'A' <= c <= 'Z' then (c as int + 32) as char else c }

  /** The words of a name: its maximal runs of letters and digits, in lower case. */
  function Words(s: string): (ws: seq<string>)
    ensures s != "" && Alphanumeric(s[|s| - 1]) ==> ws != []
  {
    if s == "" then []
    else
      var before, c := s[..|s| - 1], s[|s| - 1];
      var ws := Words(before);
      if !Alphanumeric(c) then ws
      else if before != "" && Alphanumeric(before[|before| - 1]) then ws[..|ws| - 1] + [ws[|ws| - 1] + [Small(c)]]
      else ws + [[Small(c)]]
  }

  /** Spaces around a name do not change its words. */
  lemma {:induction false} WordsAfterSpace(s: string, c: char)
    requires !Alphanumeric(c)
    ensures Words([c] + s) == Words(s)
  {
    if s == "" {
      assert [c] + s == [c] && [c][..0] == "";
    } else {
      var t := s[..|s| - 1];
      assert ([c] + s)[..|s|] == [c] + t;
      WordsAfterSpace(t, c);
    }
  }

  lemma {:induction false} TrimLeftWords(s: string)
    ensures Words(TrimLeft(s)) == Words(s)
  {
    if s != "" && IsSpace(s[0]) {
      TrimLeftWords(s[1..]);
      WordsAfterSpace(s[1..], s[0]);
      assert [s[0]] + s[1..] == s;
    }
  }

  lemma {:induction false} TrimRightWords(s: string)
    ensures Words(TrimRight(s)) == Words(s)
  {
    if s != "" && IsSpace(s[|s| - 1]) {
      TrimRightWords(s[..|s| - 1]);
    }
  }

  lemma {:induction false} WordsOfLower(s: string)
    ensures Words(ToLower(s)) == Words(s)
  {
    if s != "" {
      var t := s[..|s| - 1];
      assert ToLower(s)[..|t|] == ToLower(t);
      WordsOfLower(t);
    }
  }

  predicate Wordy(w: string) { w != "" && forall c <- w :: Usable(c) }

  lemma {:induction false} WordsAreWordy(s: string)
    ensures forall w <- Words(s) :: Wordy(w)
  {
    if s != "" {
      var ws, c := Words(s[..|s| - 1]), s[|s| - 1];
      WordsAreWordy(s[..|s| - 1]);
      forall w | w in Words(s) ensures Wordy(w) {
        if w !in ws {
          assert Alphanumeric(c) && Usable(Small(c));
          assert w == [Small(c)] || (ws != [] && Wordy(ws[|ws| - 1]) && w == ws[|ws| - 1] + [Small(c)]);
        }
      }
    }
  }

  lemma {:induction false} JoinEnds(ws: seq<string>)
    requires ws != [] && forall w <- ws :: Wordy(w)
    ensures var j := Join(ws, "-"); j != "" && j[0] != '-' && j[|j| - 1] != '-'
  {
    var w, j := ws[0], Join(ws, "-");
    assert Wordy(w) && w[0] in w && w[|w| - 1] in w;
    assert j[0] == w[0];
    if |ws| > 1 {
      JoinEnds(ws[1..]);
      var rest := Join(ws[1..], "-");
      assert j[|j| - 1] == rest[|rest| - 1];
    }
  }

  lemma {:induction false} JoinGrows(ws: seq<string>, c: char)
    requires ws != []
    ensures Join(ws + [[c]], "-") == Join(ws, "-") + "-" + [c]
    ensures Join(ws[..|ws| - 1] + [ws[|ws| - 1] + [c]], "-") == Join(ws, "-") + [c]
  {
    if |ws| > 1 {
      var rest := ws[1..];
      JoinGrows(rest, c);
      assert (ws + [[c]])[1..] == rest + [[c]];
      assert (ws[..|ws| - 1] + [ws[|ws| - 1] + [c]])[1..] == rest[..|rest| - 1] + [rest[|rest| - 1] + [c]];
    }
  }

  /** What is left of a name's words with the outer dashes still there. */
  ghost predicate Collapsed(s: string, r: string) {
    if Words(s) == [] then r == (if s == "" then "" else "-") && forall c <- s :: !Usable(c)
    else r == (if Usable(s[0]) then "" else "-") + Join(Words(s), "-") + (if Usable(s[|s| - 1]) then "" else "-")
  }

  lemma {:induction false} CollapseIs(s: string)
    requires forall c <- s :: LowerChar(c) == c
    ensures s == "" ==> Words(s) == []
    ensures Collapsed(s, Collapse(s))
  {
    if s != "" {
      var t, c := s[..|s| - 1], s[|s| - 1];
      assert s == t + [c] && c in s;
      assert t != "" ==> t[|t| - 1] in s;
      CollapseIs(t);
      WordsAreWordy(t);
      if Usable(c) {
        assert t != "" ==> (Alphanumeric(t[|t| - 1]) <==> Usable(t[|t| - 1]));
        if Words(t) == [] { CollapseFirst(s, t, c); } else { CollapseNext(s, t, c); }
      } else {
        CollapseOther(s, t, c);
      }
    }
  }

  lemma Snoc(t: string, c: char)
    requires Usable(c)
    ensures Collapse(t + [c]) == Collapse(t) + [c]
    ensures var ws := Words(t);
            Words(t + [c]) == if t != "" && Alphanumeric(t[|t| - 1]) then ws[..|ws| - 1] + [ws[|ws| - 1] + [c]] else ws + [[c]]
  {
    assert (t + [c])[..|t|] == t && Small(c) == c;
  }

  lemma CollapseFirst(s: string, t: string, c: char)
    requires s == t + [c] && Usable(c) && Collapsed(t, Collapse(t)) && Words(t) == []
    requires t != "" ==> !Alphanumeric(t[|t| - 1])
    ensures Collapsed(s, Collapse(s))
  {
    Snoc(t, c);
    JoinOne([c]);
    hide Join, Collapse, Words, Alphanumeric;
    var first := if t == "" then "" else "-";
    assert first == if Usable(s[0]) then "" else "-" by {
      if t != "" {
        assert s[0] == t[0] && t[0] in t;
      }
    }
    hide Usable;
    assert [] + [[c]] == [[c]];
    assert first + [c] == first + [c] + "";
  }

  lemma CollapseNext(s: string, t: string, c: char)
    requires s == t + [c] && t != "" && Usable(c) && Collapsed(t, Collapse(t)) && Words(t) != []
    requires Alphanumeric(t[|t| - 1]) <==> Usable(t[|t| - 1])
    ensures Collapsed(s, Collapse(s))
  {
    hide Join, Collapse, Words, Alphanumeric, Usable;
    Snoc(t, c);
    assert s[0] == t[0];
    JoinGrows(Words(t), c);
    ConcatEnds(if Usable(s[0]) then "" else "-", Join(Words(t), "-"), c);
  }

  lemma ConcatEnds(first: string, j: string, c: char)
    ensures first + j + "" + [c] == first + (j + [c]) + ""
    ensures first + j + "-" + [c] == first + (j + "-" + [c]) + ""
  {
  }

  lemma JoinOne(x: string)
    ensures Join([x], "-") == x
  {
  }

  lemma CollapseOther(s: string, t: string, c: char)
    requires s == t + [c] && !Usable(c) && LowerChar(c) == c && Collapsed(t, Collapse(t)) && (t == "" ==> Words(t) == [])
    requires forall w <- Words(t) :: Wordy(w)
    ensures Collapsed(s, Collapse(s))
  {
    hide Join;
    assert s[..|s| - 1] == t;
    assert Words(s) == Words(t);
    if Words(t) != [] {
      JoinEnds(Words(t));
      assert s[0] == t[0];
    }
  }

  lemma {:induction false} TrimOuter(w: string)
    requires w != "" && w[0] != '-' && w[|w| - 1] != '-'
    ensures TrimDashes(w) == w
    ensures TrimDashes("-" + w) == w
    ensures TrimDashes(w + "-") == w
    ensures TrimDashes("-" + w + "-") == w
  {
    TrimFront(w);
    TrimBack(w);
    TrimFront(w + "-");
    assert "-" + (w + "-") == "-" + w + "-";
  }

  lemma {:induction false} TrimFront(w: string)
    ensures TrimDashes("-" + w) == TrimDashes(w)
  {
    assert ("-" + w)[1..] == w;
  }

  lemma {:induction false} TrimBack(w: string)
    requires w != "" && w[0] != '-'
    ensures TrimDashes(w + "-") == TrimDashes(w)
  {
    assert (w + "-")[..|w|] == w;
  }

  /** A file name says what the display name says: the words of the name in lower case, one dash between
      two of them whatever stood there, and the fallback exactly when the name has no word. */
  lemma {:induction false} SlugIsWords(name: string, fallback: string)
    ensures Slug(name, fallback) == if Words(name) == [] then fallback else Join(Words(name), "-")
  {
    hide Collapse, TrimDashes, Words, Join, ToLower;
    var s := ToLower(TrimSpace(name));
    TrimLeftWords(name);
    TrimRightWords(TrimLeft(name));
    WordsOfLower(TrimSpace(name));
    LowerIsLower(TrimSpace(name));
    CollapseIs(s);
    if Words(name) == [] {
      NothingLeft();
    } else {
      WordsAreWordy(s);
      JoinEnds(Words(s));
      var w := Join(Words(s), "-");
      TrimOuter(w);
      assert "" + w + "" == w && "-" + w + "" == "-" + w && "" + w + "-" == w + "-";
    }
  }

  lemma LowerIsLower(s: string)
    ensures forall c <- ToLower(s) :: LowerChar(c) == c
  {
  }

  lemma NothingLeft()
    ensures TrimDashes("-") == "" && TrimDashes("") == ""
  {
  }

  lemma {:induction false} WordGrows(s: string, c: char, t: string, head: seq<string>, w: string, longer: string)
    requires s != "" && Alphanumeric(s[|s| - 1]) && Alphanumeric(c) && t == s + [c]
    requires Words(s) == head + [w] && longer == w + [Small(c)]
    ensures Words(t) == head + [longer]
  {
    assert t[..|s|] == s && (head + [w])[..|head|] == head;
  }

  lemma {:induction false} WordBegins(s: string, c: char, t: string)
    requires (s != "" ==> !Alphanumeric(s[|s| - 1])) && Alphanumeric(c) && t == s + [c]
    ensures Words(t) == Words(s) + [[Small(c)]]
  {
    assert t[..|s|] == s;
  }

  lemma {:induction false} WordEnds(s: string)
    ensures Words(s + " ") == Words(s)
  {
    assert (s + " ")[..|s|] == s;
  }

  lemma GetWords()
    ensures Words("Get ") == ["get"]
  {
    assert Words("") == [];
    hide Words;
    WordBegins("", 'G', "G");
    WordGrows("G", 'e', "Ge", [], "g", "ge");
    WordGrows("Ge", 't', "Get", [], "ge", "get");
    WordEnds("Get");
    assert "Get" + " " == "Get ";
  }

  /** A request called "Get Users" is written to "get-users.yml", whatever it might fall back to. */
  lemma {:induction false} GetUsers(fallback: string)
    ensures Slug("Get Users", fallback) == "get-users"
  {
    SlugIsWords("Get Users", fallback);
    hide Words, Join;
    GetWords();
    WordBegins("Get ", 'U', "Get U");
    WordGrows("Get U", 's', "Get Us", ["get"], "u", "us");
    WordGrows("Get Us", 'e', "Get Use", ["get"], "us", "use");
    WordGrows("Get Use", 'r', "Get User", ["get"], "use", "user");
    WordGrows("Get User", 's', "Get Users", ["get"], "user", "users");
    JoinTwo("get", "users");
    assert ["get"] + ["users"] == ["get", "users"];
    assert "get" + "-" + "users" == "get-users";
  }

  lemma JoinTwo(x: string, y: string)
    ensures Join([x, y], "-") == x + "-" + y
  {
    assert [x, y][1..] == [y];
  }

  // ----- unique names -----

  function Candidate(base: string, i: nat): string
    requires i >= 1
  {
    if i == 1 then base else base + "-" + Itoa(i)
  }

  lemma CandidateInjective(base: string, i: nat, j: nat)
    requires 1 <= i && 1 <= j
    requires Candidate(base, i) == Candidate(base, j)
    ensures i == j
  {
    if i > 1 && j > 1 {
      assert Itoa(i) == Candidate(base, i)[|base| + 1..];
      assert Itoa(j) == Candidate(base, j)[|base| + 1..];
      ItoaInjective(i, j);
    }
  }

  /** The first n candidates. */
  function Tried(base: string, n: nat): set<string> {
    if n == 0 then {} else Tried(base, n - 1) + {Candidate(base, n)}
  }

  lemma {:induction false} TriedAre(base: string, n: nat)
    ensures |Tried(base, n)| == n
    ensures forall x <- Tried(base, n) :: exists j: nat :: 1 <= j <= n && x == Candidate(base, j)
  {
    if n > 0 {
      TriedAre(base, n - 1);
      if Candidate(base, n) in Tried(base, n - 1) {
        var j: nat :| 1 <= j <= n - 1 && Candidate(base, n) == Candidate(base, j);
        CandidateInjective(base, n, j);
      }
    }
  }

  lemma {:induction false} SubsetSize<T>(small: set<T>, large: set<T>)
    requires small <= large
    ensures |small| <= |large|
  {
    if small != {} {
      var x :| x in small;
      SubsetSize(small - {x}, large - {x});
    }
  }

  /** Distinct candidates that are all taken cannot outnumber the taken names. */
  lemma Pigeonhole(base: string, used: set<string>, n: nat)
    requires Tried(base, n) <= used
    ensures n <= |used|
  {
    TriedAre(base, n);
    SubsetSize(Tried(base, n), used);
  }

  /** The first candidate from the i-th on that is not taken. */
  function FirstFree(base: string, used: set<string>, i: nat): (name: string)
    requires i >= 1 && Tried(base, i - 1) <= used
    ensures name !in used
    decreases |used| + 1 - i
  {
    if Candidate(base, i) in used then
      Pigeonhole(base, used, i);
      FirstFree(base, used, i + 1)
    else Candidate(base, i)
  }

  function FreshName(base: string, used: set<string>): string {
    FirstFree(base, used, 1)
  }

  /** `uniqueName`. */
  method UniqueName(base: string, used: set<string>) returns (name: string, taken: set<string>)
    ensures name == FreshName(base, used)
    ensures taken == used + {name}
  {
    name := base;
    var i := 2;
    while name in used
      invariant i >= 2 && name == Candidate(base, i - 1)
      invariant Tried(base, i - 2) <= used
      invariant FirstFree(base, used, i - 1) == FreshName(base, used)
      decreases |used| + 2 - i
    {
      Pigeonhole(base, used, i - 1);
      name := base + "-" + Itoa(i);
      i := i + 1;
    }
    taken := used + {name};
  }

  lemma {:induction false} FirstFreeIs(base: string, used: set<string>, i: nat) returns (n: nat)
    requires i >= 1 && Tried(base, i - 1) <= used
    ensures n >= i && FirstFree(base, used, i) == Candidate(base, n)
    ensures forall j: nat :: i <= j < n ==> Candidate(base, j) in used
    decreases |used| + 1 - i
  {
    hide Candidate;
    if Candidate(base, i) in used {
      Pigeonhole(base, used, i);
      n := FirstFreeIs(base, used, i + 1);
    } else {
      n := i;
    }
  }

  /** A fresh name is the base itself unless that is taken, and otherwise the base with the smallest
      free number from 2 on. */
  lemma FreshNameIsLeast(base: string, used: set<string>) returns (n: nat)
    ensures n >= 1 && FreshName(base, used) == Candidate(base, n) && Candidate(base, n) !in used
    ensures forall j: nat :: 1 <= j < n ==> Candidate(base, j) in used
  {
    n := FirstFreeIs(base, used, 1);
  }

  lemma FreshNameIsSlug(base: string, used: set<string>)
    requires IsSlug(base)
    ensures IsSlug(FreshName(base, used))
  {
    var n := FreshNameIsLeast(base, used);
    if n > 1 {
      var num := Itoa(n);
      var name := base + "-" + num;
      assert name[|name| - 1] == num[|num| - 1];
      assert IsDigit(num[|num| - 1]);
    }
  }

  lemma NumberedIsSlug(word: string, n: nat)
    requires IsSlug(word)
    ensures IsSlug(word + "-" + Itoa(n))
  {
    var num := Itoa(n);
    var name := word + "-" + num;
    assert name[|name| - 1] == num[|num| - 1];
    assert IsDigit(num[|num| - 1]);
  }
}
