/** `internal/storage/secrets.go`: every secret value of a collection has a positional key; saving
    takes the values out into a store, loading fills them back in. */
module Secrets {
  import opened Text
  import opened Model

  /** A secret-bearing field: the segments of its key, and its value. */
  datatype Field = Field(path: seq<string>, value: string)

  /** A place under some prefix that holds a secret, or does not. */
  datatype Slot = Slot(tag: string, held: Option<string>)

  function Key(path: seq<string>): string { Join(path, "/") }

  lemma {:induction false} KeySnoc(path: seq<string>, tag: string)
    requires path != []
    ensures Key(path + [tag]) == Key(path) + "/" + tag
  {
    if |path| == 1 {
      assert (path + [tag])[1..] == [tag];
    } else {
      KeySnoc(path[1..], tag);
      assert (path + [tag])[1..] == path[1..] + [tag];
      assert (path + [tag])[0] == path[0];
    }
  }

  // ----- the secret fields, in visiting order -----

  function SlotFields(q: seq<string>, slots: seq<Slot>, n: nat): seq<Field>
    requires n <= |slots|
  {
    if n == 0 then []
    else
      SlotFields(q, slots, n - 1)
      + match slots[n - 1].held
        case None => []
        case Some(v) => [Field(q + [slots[n - 1].tag], v)]
  }

  const AUTH_TAGS: seq<string> := [
    "basic.password", "bearer.token", "apikey.value", "oauth2.clientSecret", "wsse.password", "oauth1.consumerSecret",
    "oauth1.tokenSecret", "awsv4.secretAccessKey", "awsv4.sessionToken", "digest.password", "ntlm.password"]

  function AuthSecrets(a: Auth): (held: seq<Option<string>>)
    ensures |held| == 11
  {
    [if a.basic.Some? then Some(a.basic.value.password) else None,
     if a.bearer.Some? then Some(a.bearer.value.token) else None,
     if a.apiKey.Some? then Some(a.apiKey.value.value) else None,
     if a.oauth2.Some? then Some(a.oauth2.value.clientSecret) else None,
     if a.wsse.Some? then Some(a.wsse.value.password) else None,
     if a.oauth1.Some? then Some(a.oauth1.value.consumerSecret) else None,
     if a.oauth1.Some? then Some(a.oauth1.value.tokenSecret) else None,
     if a.awsv4.Some? then Some(a.awsv4.value.secretAccessKey) else None,
     if a.awsv4.Some? then Some(a.awsv4.value.sessionToken) else None,
     if a.digest.Some? then Some(a.digest.value.password) else None,
     if a.ntlm.Some? then Some(a.ntlm.value.password) else None]
  }

  function AuthSlots(a: Auth): (slots: seq<Slot>)
    ensures |slots| == 11
  {
    seq(11, i requires 0 <= i < 11 => Slot(AUTH_TAGS[i], AuthSecrets(a)[i]))
  }

  function AuthFields(q: seq<string>, a: Auth): seq<Field> {
    SlotFields(q + ["auth"], AuthSlots(a), 11)
  }

  function VarSlots(tag: string, vs: seq<Variable>): (slots: seq<Slot>)
    ensures |slots| == |vs|
  {
    seq(|vs|, j requires 0 <= j < |vs| => Slot(tag + Itoa(j), if vs[j].secret then Some(vs[j].value) else None))
  }

  function VarFields(q: seq<string>, tag: string, vs: seq<Variable>): seq<Field> {
    SlotFields(q, VarSlots(tag, vs), |vs|)
  }

  function RequestFields(q: seq<string>, r: Request): seq<Field> {
    AuthFields(q, r.auth) + VarFields(q, "v", r.variables)
  }

  function RequestsFields(q: seq<string>, rs: seq<Request>, n: nat): seq<Field>
    requires n <= |rs|
  {
    if n == 0 then [] else RequestsFields(q, rs, n - 1) + RequestFields(q + ["r" + Itoa(n - 1)], rs[n - 1])
  }

  function FolderFields(q: seq<string>, f: Folder): seq<Field>
    decreases f
  {
    AuthFields(q, f.auth) + VarFields(q, "v", f.variables)
    + RequestsFields(q, f.items.requests, |f.items.requests|)
    + FoldersFields(q, f.items.folders, |f.items.folders|)
  }

  function FoldersFields(q: seq<string>, fs: seq<Folder>, n: nat): seq<Field>
    requires n <= |fs|
    decreases fs, n
  {
    if n == 0 then [] else FoldersFields(q, fs, n - 1) + FolderFields(q + ["f" + Itoa(n - 1)], fs[n - 1])
  }

  function EnvFields(es: seq<Environment>, n: nat): seq<Field>
    requires n <= |es|
  {
    if n == 0 then [] else EnvFields(es, n - 1) + VarFields(["e" + Itoa(n - 1)], "v", es[n - 1].variables)
  }

  function Fields(c: Collection): seq<Field> {
    AuthFields(["col"], c.auth)
    + RequestsFields([], c.items.requests, |c.items.requests|)
    + FoldersFields([], c.items.folders, |c.items.folders|)
    + EnvFields(c.environments, |c.environments|)
    + VarFields([], "cv", c.variables)
  }

  // ----- the keys are pairwise distinct -----

  ghost predicate Distinct(fs: seq<Field>) {
    forall i, j :: 0 <= i < j < |fs| ==> fs[i].path != fs[j].path
  }

  /** Every path extends q, next by a segment that starts with c; no segment contains a slash. */
  ghost predicate Tagged(fs: seq<Field>, q: seq<string>, c: char) {
    forall f <- fs :: |f.path| > |q| && f.path[..|q|] == q && f.path[|q|] != "" && f.path[|q|][0] == c
  }

  ghost predicate Under(fs: seq<Field>, q: seq<string>) {
    forall f <- fs :: |f.path| >= |q| && f.path[..|q|] == q
  }

  predicate SlashFree(path: seq<string>) {
    forall s <- path :: '/' !in s
  }

  ghost predicate Clean(fs: seq<Field>) {
    forall f <- fs :: f.path != [] && SlashFree(f.path)
  }

  lemma DistinctAppend(xs: seq<Field>, ys: seq<Field>)
    requires Distinct(xs) && Distinct(ys)
    requires forall x <- xs, y <- ys :: x.path != y.path
    ensures Distinct(xs + ys)
  {
    forall i, j | 0 <= i < j < |xs + ys|
      ensures (xs + ys)[i].path != (xs + ys)[j].path
    {
      if i < |xs| <= j {
        assert xs[i] in xs && ys[j - |xs|] in ys;
      }
    }
  }

  lemma TagsApart(xs: seq<Field>, ys: seq<Field>, q: seq<string>, c: char, d: char)
    requires Tagged(xs, q, c) && Tagged(ys, q, d) && c != d
    ensures forall x <- xs, y <- ys :: x.path != y.path
  {
  }

  lemma UnderTagged(fs: seq<Field>, q: seq<string>, s: string)
    requires Under(fs, q + [s]) && s != ""
    ensures Tagged(fs, q, s[0])
  {
    forall f <- fs
      ensures |f.path| > |q| && f.path[..|q|] == q && f.path[|q|] == s
    {
      assert f.path[..|q|] == f.path[..|q| + 1][..|q|];
      assert f.path[|q|] == f.path[..|q| + 1][|q|];
    }
  }

  lemma TagsDiffer(tag: string, m: nat, n: nat)
    requires tag + Itoa(m) == tag + Itoa(n)
    ensures m == n
  {
    assert Itoa(m) == (tag + Itoa(m))[|tag|..];
    assert Itoa(n) == (tag + Itoa(n))[|tag|..];
    ItoaInjective(m, n);
  }

  lemma {:induction false} SlotsDistinct(q: seq<string>, slots: seq<Slot>, n: nat)
    requires n <= |slots|
    requires forall i, j :: 0 <= i < j < |slots| ==> slots[i].tag != slots[j].tag
    ensures Distinct(SlotFields(q, slots, n)) && Under(SlotFields(q, slots, n), q)
    ensures forall f <- SlotFields(q, slots, n) :: exists i :: 0 <= i < n && f.path == q + [slots[i].tag]
  {
    if n > 0 {
      SlotsDistinct(q, slots, n - 1);
      var before, v := SlotFields(q, slots, n - 1), slots[n - 1].held;
      if v.Some? {
        var last := Field(q + [slots[n - 1].tag], v.value);
        forall f <- before
          ensures f.path != last.path
        {
          var i :| 0 <= i < n - 1 && f.path == q + [slots[i].tag];
          assert f.path[|q|] != last.path[|q|];
        }
        DistinctAppend(before, [last]);
      }
    }
  }

  /** Length and first character tell the eleven tags of an auth apart. */
  function Mark(tag: string): int {
    if tag == "" then 0 else 2 * |tag| + (if tag[0] < 'b' || tag[0] == 'n' then 0 else 1)
  }

  lemma TagMarks()
    ensures forall i :: 0 <= i < 11 ==>
        Mark(AUTH_TAGS[i]) == [29, 25, 24, 39, 27, 43, 37, 42, 36, 31, 26][i]
  {
  }

  lemma ShortTagsSlashFree()
    ensures '/' !in "basic.password" && '/' !in "bearer.token" && '/' !in "apikey.value"
    ensures '/' !in "wsse.password" && '/' !in "digest.password" && '/' !in "ntlm.password"
  {
  }

  lemma LongTagsSlashFree()
    ensures '/' !in "oauth2.clientSecret" && '/' !in "oauth1.consumerSecret" && '/' !in "oauth1.tokenSecret"
    ensures '/' !in "awsv4.secretAccessKey" && '/' !in "awsv4.sessionToken"
  {
  }

  lemma TagsSlashFree()
    ensures forall i :: 0 <= i < 11 ==> '/' !in AUTH_TAGS[i]
  {
    ShortTagsSlashFree();
    LongTagsSlashFree();
  }

  lemma AuthTags(a: Auth)
    ensures forall i, j :: 0 <= i < j < 11 ==> AuthSlots(a)[i].tag != AuthSlots(a)[j].tag
    ensures forall i :: 0 <= i < 11 ==> '/' !in AuthSlots(a)[i].tag
  {
    hide Mark, AuthSecrets;
    TagMarks();
    TagsSlashFree();
    forall i, j | 0 <= i < j < 11
      ensures AUTH_TAGS[i] != AUTH_TAGS[j]
    {
      assert Mark(AUTH_TAGS[i]) != Mark(AUTH_TAGS[j]);
    }
  }

  lemma AuthDistinct(q: seq<string>, a: Auth)
    ensures Distinct(AuthFields(q, a)) && Under(AuthFields(q, a), q + ["auth"])
    ensures forall f <- AuthFields(q, a) :: |f.path| == |q| + 2
    ensures SlashFree(q) ==> Clean(AuthFields(q, a))
  {
    hide AuthSlots;
    AuthTags(a);
    SlotsDistinct(q + ["auth"], AuthSlots(a), 11);
  }

  lemma NumberedTags(tag: string, vs: seq<Variable>)
    requires tag != "" && '/' !in tag
    ensures forall i, j :: 0 <= i < j < |vs| ==> VarSlots(tag, vs)[i].tag != VarSlots(tag, vs)[j].tag
    ensures forall i :: 0 <= i < |vs| ==> '/' !in VarSlots(tag, vs)[i].tag && VarSlots(tag, vs)[i].tag != "" && VarSlots(tag, vs)[i].tag[0] == tag[0]
  {
    forall i, j | 0 <= i < j < |vs|
      ensures tag + Itoa(i) != tag + Itoa(j)
    {
      if tag + Itoa(i) == tag + Itoa(j) {
        TagsDiffer(tag, i, j);
      }
    }
  }

  lemma VarsDistinct(q: seq<string>, tag: string, vs: seq<Variable>)
    requires tag != "" && '/' !in tag
    ensures Distinct(VarFields(q, tag, vs)) && Tagged(VarFields(q, tag, vs), q, tag[0])
    ensures forall f <- VarFields(q, tag, vs) :: |f.path| == |q| + 1
    ensures SlashFree(q) ==> Clean(VarFields(q, tag, vs))
  {
    hide VarSlots;
    NumberedTags(tag, vs);
    SlotsDistinct(q, VarSlots(tag, vs), |vs|);
    forall f <- VarFields(q, tag, vs)
      ensures |f.path| == |q| + 1 && f.path[..|q|] == q && f.path[|q|] != "" && f.path[|q|][0] == tag[0]
    {
      var i :| 0 <= i < |vs| && f.path == q + [VarSlots(tag, vs)[i].tag];
      assert f.path[|q|] == VarSlots(tag, vs)[i].tag;
    }
  }

  lemma RequestDistinct(q: seq<string>, r: Request)
    ensures Distinct(RequestFields(q, r)) && Under(RequestFields(q, r), q)
    ensures SlashFree(q) ==> Clean(RequestFields(q, r))
  {
    hide AuthFields, VarFields, Distinct;
    AuthDistinct(q, r.auth);
    VarsDistinct(q, "v", r.variables);
    UnderTagged(AuthFields(q, r.auth), q, "auth");
    TagsApart(AuthFields(q, r.auth), VarFields(q, "v", r.variables), q, 'a', 'v');
    DistinctAppend(AuthFields(q, r.auth), VarFields(q, "v", r.variables));
  }

  lemma Longer(q: seq<string>, s: string)
    requires SlashFree(q) && '/' !in s
    ensures SlashFree(q + [s])
  {
  }

  lemma {:induction false} RequestsDistinct(q: seq<string>, rs: seq<Request>, n: nat)
    requires n <= |rs|
    ensures Distinct(RequestsFields(q, rs, n)) && Tagged(RequestsFields(q, rs, n), q, 'r')
    ensures Counted(RequestsFields(q, rs, n), q, "r", n)
    ensures SlashFree(q) ==> Clean(RequestsFields(q, rs, n))
  {
    hide RequestFields, Distinct;
    if n > 0 {
      RequestsDistinct(q, rs, n - 1);
      var s := "r" + Itoa(n - 1);
      var before, last := RequestsFields(q, rs, n - 1), RequestFields(q + [s], rs[n - 1]);
      RequestDistinct(q + [s], rs[n - 1]);
      if SlashFree(q) {
        Longer(q, s);
      }
      NextUnder(before, last, q, "r", n - 1);
      DistinctAppend(before, last);
    } else {
      assert Distinct([]) by { EmptyDistinct(); }
    }
  }

  lemma EmptyDistinct()
    ensures Distinct([])
  {
  }

  ghost predicate IsNumber(s: string, tag: string, n: nat) {
    exists i: nat :: i < n && s == tag + Itoa(i)
  }

  /** The segment after q is the tag with a number below n. */
  ghost predicate Counted(fs: seq<Field>, q: seq<string>, tag: string, n: nat) {
    forall f <- fs :: |f.path| > |q| && IsNumber(f.path[|q|], tag, n)
  }

  lemma NumberGrows(s: string, tag: string, n: nat)
    ensures IsNumber(s, tag, n) ==> IsNumber(s, tag, n + 1) && s != tag + Itoa(n)
    ensures IsNumber(tag + Itoa(n), tag, n + 1)
  {
    if IsNumber(s, tag, n) {
      var i: nat :| i < n && s == tag + Itoa(i);
      if s == tag + Itoa(n) {
        TagsDiffer(tag, i, n);
      }
    }
  }

  /** Fields under the next numbered segment clash with none under the earlier ones. */
  lemma NextUnder(before: seq<Field>, last: seq<Field>, q: seq<string>, tag: string, n: nat)
    requires tag != "" && Tagged(before, q, tag[0]) && Under(last, q + [tag + Itoa(n)])
    requires Counted(before, q, tag, n)
    ensures Tagged(before + last, q, tag[0])
    ensures forall x <- before, y <- last :: x.path != y.path
    ensures Counted(before + last, q, tag, n + 1)
  {
    hide IsNumber;
    var s := tag + Itoa(n);
    UnderTagged(last, q, s);
    forall f <- last
      ensures f.path[|q|] == s && IsNumber(f.path[|q|], tag, n + 1)
    {
      assert f.path[..|q| + 1][|q|] == (q + [s])[|q|];
      NumberGrows(s, tag, n);
    }
    forall f <- before
      ensures f.path[|q|] != s && IsNumber(f.path[|q|], tag, n + 1)
    {
      NumberGrows(f.path[|q|], tag, n);
    }
  }

  lemma {:induction false} FolderDistinct(q: seq<string>, f: Folder)
    ensures Distinct(FolderFields(q, f)) && Under(FolderFields(q, f), q)
    ensures SlashFree(q) ==> Clean(FolderFields(q, f))
    decreases f
  {
    hide AuthFields, VarFields, RequestsFields, FoldersFields, Distinct;
    var a, v := AuthFields(q, f.auth), VarFields(q, "v", f.variables);
    var r, g := RequestsFields(q, f.items.requests, |f.items.requests|), FoldersFields(q, f.items.folders, |f.items.folders|);
    AuthDistinct(q, f.auth);
    UnderTagged(a, q, "auth");
    VarsDistinct(q, "v", f.variables);
    RequestsDistinct(q, f.items.requests, |f.items.requests|);
    FoldersDistinct(q, f.items.folders, |f.items.folders|);
    FourApart(q, a, 'a', v, 'v', r, 'r', g, 'f');
  }

  lemma FourApart(q: seq<string>, a: seq<Field>, ca: char, b: seq<Field>, cb: char, c: seq<Field>, cc: char,
                  d: seq<Field>, cd: char)
    requires Tagged(a, q, ca) && Tagged(b, q, cb) && Tagged(c, q, cc) && Tagged(d, q, cd)
    requires ca != cb && ca != cc && ca != cd && cb != cc && cb != cd && cc != cd
    requires Distinct(a) && Distinct(b) && Distinct(c) && Distinct(d)
    ensures Distinct(a + b + c + d) && Under(a + b + c + d, q)
  {
    hide Distinct, Tagged;
    TagsApart(a, b, q, ca, cb);
    TagsApart(a, c, q, ca, cc);
    TagsApart(a, d, q, ca, cd);
    TagsApart(b, c, q, cb, cc);
    TagsApart(b, d, q, cb, cd);
    TagsApart(c, d, q, cc, cd);
    DistinctAppend(a, b);
    DistinctAppend(a + b, c);
    DistinctAppend(a + b + c, d);
    TaggedUnder(a, q, ca);
    TaggedUnder(b, q, cb);
    TaggedUnder(c, q, cc);
    TaggedUnder(d, q, cd);
  }

  lemma TaggedUnder(fs: seq<Field>, q: seq<string>, c: char)
    requires Tagged(fs, q, c)
    ensures Under(fs, q)
  {
  }

  lemma {:induction false} FoldersDistinct(q: seq<string>, fs: seq<Folder>, n: nat)
    requires n <= |fs|
    ensures Distinct(FoldersFields(q, fs, n)) && Tagged(FoldersFields(q, fs, n), q, 'f')
    ensures Counted(FoldersFields(q, fs, n), q, "f", n)
    ensures SlashFree(q) ==> Clean(FoldersFields(q, fs, n))
    decreases fs, n
  {
    hide FolderFields, Distinct;
    if n > 0 {
      FoldersDistinct(q, fs, n - 1);
      var s := "f" + Itoa(n - 1);
      var before, last := FoldersFields(q, fs, n - 1), FolderFields(q + [s], fs[n - 1]);
      FolderDistinct(q + [s], fs[n - 1]);
      if SlashFree(q) {
        Longer(q, s);
      }
      NextUnder(before, last, q, "f", n - 1);
      DistinctAppend(before, last);
    } else {
      assert Distinct([]) by { EmptyDistinct(); }
    }
  }

  lemma {:induction false} EnvsDistinct(es: seq<Environment>, n: nat)
    requires n <= |es|
    ensures Distinct(EnvFields(es, n)) && Tagged(EnvFields(es, n), [], 'e') && Clean(EnvFields(es, n))
    ensures Counted(EnvFields(es, n), [], "e", n)
  {
    hide VarFields, Distinct;
    if n > 0 {
      EnvsDistinct(es, n - 1);
      var s := "e" + Itoa(n - 1);
      var before, last := EnvFields(es, n - 1), VarFields([s], "v", es[n - 1].variables);
      VarsDistinct([s], "v", es[n - 1].variables);
      Longer([], s);
      assert [] + [s] == [s];
      TaggedUnder(last, [s], 'v');
      NextUnder(before, last, [], "e", n - 1);
      DistinctAppend(before, last);
    } else {
      assert Distinct([]) by { EmptyDistinct(); }
    }
  }

  /** No two secret fields of a collection share a key, at any depth. */
  lemma KeysDistinct(c: Collection)
    ensures forall i, j :: 0 <= i < j < |Fields(c)| ==> Key(Fields(c)[i].path) != Key(Fields(c)[j].path)
  {
    hide Key;
    PathsDistinct(c);
    var fs := Fields(c);
    forall i, j | 0 <= i < j < |fs|
      ensures Key(fs[i].path) != Key(fs[j].path)
    {
      assert fs[i] in fs && fs[j] in fs;
      KeyInjective(fs[i].path, fs[j].path);
    }
  }

  lemma KeyInjective(p: seq<string>, q: seq<string>)
    requires p != [] && q != [] && SlashFree(p) && SlashFree(q)
    ensures Key(p) == Key(q) ==> p == q
  {
    if Key(p) == Key(q) {
      JoinInjective(p, q, '/');
    }
  }

  lemma PathsDistinct(c: Collection)
    ensures Distinct(Fields(c)) && Clean(Fields(c))
  {
    hide AuthFields, RequestsFields, FoldersFields, EnvFields, VarFields, Distinct;
    var a, v := AuthFields(["col"], c.auth), VarFields([], "cv", c.variables);
    var r, g := RequestsFields([], c.items.requests, |c.items.requests|), FoldersFields([], c.items.folders, |c.items.folders|);
    var e := EnvFields(c.environments, |c.environments|);
    AuthDistinct(["col"], c.auth);
    assert ["col"] + ["auth"] == ["col", "auth"];
    forall f <- a
      ensures f.path[0] == "col"
    {
      assert f.path[..2][0] == "col";
    }
    assert Tagged(a, [], 'c');
    RequestsDistinct([], c.items.requests, |c.items.requests|);
    FoldersDistinct([], c.items.folders, |c.items.folders|);
    EnvsDistinct(c.environments, |c.environments|);
    FourApart([], a, 'c', r, 'r', g, 'f', e, 'e');
    VarsDistinct([], "cv", c.variables);
    TagsApart(r, v, [], 'r', 'c');
    TagsApart(g, v, [], 'f', 'c');
    TagsApart(e, v, [], 'e', 'c');
    assert forall x <- a, y <- v :: x.path != y.path;
    DistinctAppend(a + r + g + e, v);
  }
}
