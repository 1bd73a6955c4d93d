/** Which of the YAML keys Helena does not know a file keeps when it is loaded and saved over some file. The
    design asks for all of them, on every level of a file. A save takes them from the file it replaces, which
    is its own only as long as the name stays the same; `DirectoryKeys` says what becomes of a directory. */
module UnknownKeys {
  import opened Text
  import opened Model
  import opened OpenCollection
  import opened Store
  import opened StoreCollection
  import opened SaveLoad

  // ----- rows -----

  /** The same rows by name, each with the unknown keys it had. */
  ghost predicate SameKeys<T>(was: seq<Ext<T>>, now: seq<Ext<T>>, key: T -> string) {
    |now| == |was| && forall i | 0 <= i < |was| :: key(now[i].core) == key(was[i].core) && now[i].extra == was[i].extra
  }

  /** Rows of one name carry the same unknown keys. */
  ghost predicate NamesAgree<T(!new)>(rows: seq<Ext<T>>, key: T -> string) {
    forall r, q | r in rows && q in rows && key(r.core) == key(q.core) :: r.extra == q.extra
  }

  ghost predicate NoKeys<T>(rows: seq<Ext<T>>) { forall r <- rows :: r.extra == map[] }

  /** Under the name of each row, the earlier rows have its unknown keys last. */
  ghost predicate RowsGiven<T(!new)>(rows: seq<Ext<T>>, prev: seq<Ext<T>>, key: T -> string) {
    forall r <- rows :: LastExtra(prev, key, key(r.core)).GetOr(map[]) == r.extra
  }

  /** Rows rebuilt without unknown keys and merged with earlier rows have their own keys back exactly when
      the earlier rows give them. */
  lemma {:induction false} MergedKeys<T(!new)>(rows: seq<Ext<T>>, next: seq<Ext<T>>, prev: seq<Ext<T>>, key: T -> string)
    requires |next| == |rows| && NoKeys(next)
    requires forall i | 0 <= i < |rows| :: key(next[i].core) == key(rows[i].core)
    ensures SameKeys(rows, Merged(next, prev, key), key) <==> RowsGiven(rows, prev, key)
  {
    var out := Merged(next, prev, key);
    forall i | 0 <= i < |rows|
      ensures out[i].extra == LastExtra(prev, key, key(rows[i].core)).GetOr(map[]) && rows[i] in rows
    {
      assert next[i] in next;
    }
  }

  lemma {:induction false} AgreedExtra<T(!new)>(rows: seq<Ext<T>>, key: T -> string, r: Ext<T>)
    requires NamesAgree(rows, key) && r in rows
    ensures LastExtra(rows, key, key(r.core)).GetOr(map[]) == r.extra
  {
    LastExtraAgain(rows, key, key(r.core), if r.extra == map[] then None else Some(r.extra));
  }

  /** Rows give themselves their keys exactly when those of one name agree; otherwise the last of them wins. */
  lemma {:induction false} OwnRows<T(!new)>(rows: seq<Ext<T>>, prev: seq<Ext<T>>, key: T -> string)
    requires forall r :: r in rows <==> r in prev
    ensures RowsGiven(rows, prev, key) <==> NamesAgree(prev, key)
  {
    if NamesAgree(prev, key) {
      forall r <- rows
        ensures LastExtra(prev, key, key(r.core)).GetOr(map[]) == r.extra
      {
        AgreedExtra(prev, key, r);
      }
    }
    if RowsGiven(rows, prev, key) {
      forall r, q | r in prev && q in prev && key(r.core) == key(q.core)
        ensures r.extra == q.extra
      {
        assert r in rows && q in rows;
      }
    }
  }

  /** Parameter rows in the order they are written: query before path. */
  function Regrouped(rows: seq<Ext<Row>>): seq<Ext<Row>> { Select(rows, false) + Select(rows, true) }

  lemma {:induction false} RegroupedHas(rows: seq<Ext<Row>>)
    ensures forall r :: r in Regrouped(rows) <==> r in rows
  {
    if rows != [] {
      RegroupedHas(rows[..|rows| - 1]);
      assert rows == rows[..|rows| - 1] + [rows[|rows| - 1]];
    }
  }

  /** Chain rows are paired by alias, and a row without one with nothing. */
  lemma {:induction false} OwnChain(rows: seq<Ext<ChainStep>>)
    ensures RowsGiven(rows, Aliased(rows), StepAlias)
       <==> NamesAgree(rows, StepAlias) && forall r <- rows :: r.core.alias == "" ==> r.extra == map[]
  {
    hide LastExtra;
    LastAliased(rows);
    if RowsGiven(rows, Aliased(rows), StepAlias) {
      forall r <- rows | r.core.alias == ""
        ensures r.extra == map[]
      {
        assert StepAlias(r.core) == "";
      }
    }
    if forall r <- rows :: r.core.alias == "" ==> r.extra == map[] {
      forall i | 0 <= i < |rows|
        ensures Aliased(rows)[i] == rows[i]
      {
        assert rows[i] in rows;
      }
      assert Aliased(rows) == rows;
      OwnRows(rows, rows, StepAlias);
    }
  }

  // ----- auth blocks -----

  /** The unknown keys of a block that may be absent. */
  function KeysOf<T>(block: Option<Ext<T>>): Extra { if block.None? then map[] else block.value.extra }

  const NO_SCHEME_KEYS: seq<Extra> := [map[], map[], map[], map[], map[], map[], map[], map[], map[]]

  /** Those of an auth block and of each of its scheme blocks. */
  function AuthKeys(a: Option<AuthBlock>): (keys: (Extra, seq<Extra>))
    ensures |keys.1| == 9
  {
    if a.None? then (map[], NO_SCHEME_KEYS)
    else
      var b := a.value;
      (b.extra, [KeysOf(b.basic), KeysOf(b.bearer), KeysOf(b.apiKey), KeysOf(b.oauth2), KeysOf(b.wsse),
                 KeysOf(b.oauth1), KeysOf(b.awsv4), KeysOf(b.digest), KeysOf(b.ntlm)])
  }

  const SCHEMES := ["basic", "bearer", "apikey", "oauth2", "wsse", "oauth1", "awsv4", "digest", "ntlm"]

  /** Which scheme blocks an auth has. */
  function Present(a: Auth): (present: seq<bool>)
    ensures |present| == 9
  {
    [a.basic.Some?, a.bearer.Some?, a.apiKey.Some?, a.oauth2.Some?, a.wsse.Some?,
     a.oauth1.Some?, a.awsv4.Some?, a.digest.Some?, a.ntlm.Some?]
  }

  predicate Inherits(typ: string) { typ == "" || typ == AUTH_INHERIT }

  /** The unknown keys of a scheme the type selects, if both the auth and the earlier block have it. */
  function Given<T, U>(chosen: bool, x: Option<T>, prev: Option<Ext<U>>): Extra {
    if chosen && x.Some? then KeysOf(prev) else map[]
  }

  /** The unknown keys an auth gets from the block it replaces: those of the block itself, and those of the
      scheme its type selects. */
  function AuthGiven(a: Auth, prev: Option<AuthBlock>): (keys: (Extra, seq<Extra>))
    ensures |keys.1| == 9
  {
    if Inherits(a.typ) || prev.None? then (map[], NO_SCHEME_KEYS)
    else
      var p := prev.value;
      (p.extra, [Given(a.typ == "basic", a.basic, p.basic), Given(a.typ == "bearer", a.bearer, p.bearer),
                 Given(a.typ == "apikey", a.apiKey, p.apiKey), Given(a.typ == "oauth2", a.oauth2, p.oauth2),
                 Given(a.typ == "wsse", a.wsse, p.wsse), Given(a.typ == "oauth1", a.oauth1, p.oauth1),
                 Given(a.typ == "awsv4", a.awsv4, p.awsv4), Given(a.typ == "digest", a.digest, p.digest),
                 Given(a.typ == "ntlm", a.ntlm, p.ntlm)])
  }

  function Block<T>(chosen: bool, x: Option<T>): Option<Ext<T>> { if chosen then Wrap(x) else None }

  lemma BlockGiven<T>(chosen: bool, x: Option<T>, prev: Option<Ext<T>>)
    ensures KeysOf(Carry(Block(chosen, x), prev)) == Given(chosen, x, prev)
  {
  }

  lemma WrittenAuth(a: Auth)
    requires !Inherits(a.typ)
    ensures AuthToFile(a)
         == Some(AuthBlock(a.typ, Block(a.typ == "basic", a.basic), Block(a.typ == "bearer", a.bearer),
                           Block(a.typ == "apikey", a.apiKey), Block(a.typ == "oauth2", a.oauth2), Block(a.typ == "wsse", a.wsse),
                           Block(a.typ == "oauth1", a.oauth1), Block(a.typ == "awsv4", a.awsv4),
                           Block(a.typ == "digest", a.digest), Block(a.typ == "ntlm", a.ntlm), map[]))
  {
    hide Wrap;
  }

  lemma {:induction false} MergedAuthKeys(a: Auth, prev: Option<AuthBlock>)
    ensures AuthKeys(MergeAuth(AuthToFile(a), prev)) == AuthGiven(a, prev)
  {
    if Inherits(a.typ) {
      assert AuthToFile(a) == None;
    } else if prev.None? {
      FreshAuthKeys(a);
    } else {
      SchemesGiven(a, prev.value);
    }
  }

  lemma {:induction false} FreshAuthKeys(a: Auth)
    ensures AuthKeys(AuthToFile(a)) == (map[], NO_SCHEME_KEYS)
  {
    hide Wrap, KeysOf;
    WrapKeys(a.basic);
    WrapKeys(a.bearer);
    WrapKeys(a.apiKey);
    WrapKeys(a.oauth2);
    WrapKeys(a.wsse);
    WrapKeys(a.oauth1);
    WrapKeys(a.awsv4);
    WrapKeys(a.digest);
    WrapKeys(a.ntlm);
    NoBlockKeys();
  }

  lemma WrapKeys<T>(x: Option<T>)
    ensures KeysOf(Wrap(x)) == map[]
  {
  }

  lemma NoBlockKeys()
    ensures KeysOf<BasicAuth>(None) == KeysOf<BearerAuth>(None) == KeysOf<APIKeyAuth>(None) == map[]
    ensures KeysOf<OAuth2Auth>(None) == KeysOf<WSSEAuth>(None) == KeysOf<OAuth1Auth>(None) == map[]
    ensures KeysOf<AWSV4Auth>(None) == KeysOf<DigestAuth>(None) == KeysOf<NTLMAuth>(None) == map[]
  {
  }

  lemma {:induction false} SchemesGiven(a: Auth, p: AuthBlock)
    requires !Inherits(a.typ)
    ensures AuthKeys(MergeAuth(AuthToFile(a), Some(p))) == AuthGiven(a, Some(p))
  {
    hide AuthToFile, KeysOf, Carry, Block, Given;
    WrittenAuth(a);
    BlockGiven(a.typ == "basic", a.basic, p.basic);
    BlockGiven(a.typ == "bearer", a.bearer, p.bearer);
    BlockGiven(a.typ == "apikey", a.apiKey, p.apiKey);
    BlockGiven(a.typ == "oauth2", a.oauth2, p.oauth2);
    BlockGiven(a.typ == "wsse", a.wsse, p.wsse);
    BlockGiven(a.typ == "oauth1", a.oauth1, p.oauth1);
    BlockGiven(a.typ == "awsv4", a.awsv4, p.awsv4);
    BlockGiven(a.typ == "digest", a.digest, p.digest);
    BlockGiven(a.typ == "ntlm", a.ntlm, p.ntlm);
  }

  /** An inheriting auth carries no unknown keys, any other none outside the block of its type. */
  ghost predicate AuthKeysSafe(a: Option<AuthBlock>) {
    var (outer, inner) := AuthKeys(a);
    && (a.Some? && Inherits(a.value.typ) ==> outer == map[])
    && (forall i | 0 <= i < 9 && inner[i] != map[] :: a.value.typ == SCHEMES[i])
  }

  lemma {:induction false} OwnSchemes(b: AuthBlock, missing: string)
    requires !Inherits(b.typ)
    ensures var given, inner := AuthGiven(ReadAuth(Some(b), missing), Some(b)).1, AuthKeys(Some(b)).1;
            forall i | 0 <= i < 9 :: given[i] == if b.typ == SCHEMES[i] then inner[i] else map[]
  {
    hide KeysOf, Given;
    OwnScheme(b.typ == "basic", b.basic);
    OwnScheme(b.typ == "bearer", b.bearer);
    OwnScheme(b.typ == "apikey", b.apiKey);
    OwnScheme(b.typ == "oauth2", b.oauth2);
    OwnScheme(b.typ == "wsse", b.wsse);
    OwnScheme(b.typ == "oauth1", b.oauth1);
    OwnScheme(b.typ == "awsv4", b.awsv4);
    OwnScheme(b.typ == "digest", b.digest);
    OwnScheme(b.typ == "ntlm", b.ntlm);
  }

  lemma OwnScheme<T>(chosen: bool, block: Option<Ext<T>>)
    ensures Given(chosen, Unwrap(block), block) == if chosen then KeysOf(block) else map[]
  {
  }

  /** An auth block gives itself its keys exactly when its type leaves none of them out. */
  lemma {:induction false} OwnAuth(a: Option<AuthBlock>, missing: string)
    ensures AuthGiven(ReadAuth(a, missing), a) == AuthKeys(a) <==> AuthKeysSafe(a)
  {
    var (outer, inner) := AuthKeys(a);
    if a.Some? {
      if Inherits(a.value.typ) {
        assert forall i | 0 <= i < 9 :: SCHEMES[i] != a.value.typ;
        assert inner == NO_SCHEME_KEYS <==> forall i | 0 <= i < 9 :: inner[i] == map[];
      } else {
        var given := AuthGiven(ReadAuth(a, missing), a).1;
        OwnSchemes(a.value, missing);
        assert given == inner <==> forall i | 0 <= i < 9 :: given[i] == inner[i];
      }
    }
  }

  // ----- request files -----

  /** The http block of a file, a missing one being empty. */
  function HttpOf(p: RequestFile): Http {
    if p.http.None? then Http("", "", [], [], None, None, map[]) else p.http.value
  }

  function SourceOf(a: AssertionRow): string { a.source }
  function VarName(v: VarRow): string { v.name }

  /** Every unknown key of p is in f where it was, parameter rows being regrouped, and there are no others. */
  ghost predicate KeysSurvive(p: RequestFile, f: RequestFile) {
    var g, h := HttpOf(p), HttpOf(f);
    && f.extra == p.extra && f.info.extra == p.info.extra && h.extra == g.extra
    && SameKeys(g.headers, h.headers, RowName)
    && SameKeys(Regrouped(g.params), h.params, RowName)
    && KeysOf(h.body) == KeysOf(g.body)
    && AuthKeys(h.auth) == AuthKeys(g.auth)
    && KeysOf(f.scripts) == KeysOf(p.scripts)
    && SameKeys(p.chain, f.chain, StepAlias)
    && SameKeys(p.assertions, f.assertions, SourceOf)
    && SameKeys(p.vars, f.vars, VarName)
  }

  const NOTHING := RequestFile(FreshInfo("", "", "", 0), None, "", None, [], [], [], map[])

  predicate HasBody(b: Option<Ext<BodyBlock>>) { b.Some? && b.value.core.typ !in {"", "none"} }

  /** The file that a save replaces has, level by level, the unknown keys of p: on the blocks the save writes,
      and under the names of the rows. Assertion and variable rows and steps without an alias are given
      nothing. */
  ghost predicate KeysGiven(p: RequestFile, prev: Option<RequestFile>) {
    var q := prev.GetOr(NOTHING);
    var g, h := HttpOf(p), HttpOf(q);
    && q.extra == p.extra && q.info.extra == p.info.extra && h.extra == g.extra
    && RowsGiven(Regrouped(g.params), h.params, RowName) && RowsGiven(g.headers, h.headers, RowName)
    && KeysOf(g.body) == (if HasBody(g.body) then KeysOf(h.body) else map[])
    && AuthGiven(ReadAuth(g.auth, AUTH_INHERIT), h.auth) == AuthKeys(g.auth)
    && KeysOf(q.scripts) == KeysOf(p.scripts)
    && RowsGiven(p.chain, Aliased(q.chain), StepAlias)
    && NoKeys(p.assertions) && NoKeys(p.vars)
  }

  /** The same variables by name. */
  ghost predicate SameVars(vs: seq<Variable>, ws: seq<Variable>) {
    |vs| == |ws| && forall i | 0 <= i < |vs| :: vs[i].key == ws[i].key
  }

  predicate SameScheme(a: Auth, b: Auth) { a.typ == b.typ && Present(a) == Present(b) }

  /** r is s with other values in its auth and its variables, as filling in or blanking secrets leaves it. */
  ghost predicate Alike(r: Request, s: Request) {
    r == s.(auth := r.auth, variables := r.variables) && SameScheme(r.auth, s.auth) && SameVars(r.variables, s.variables)
  }

  lemma {:induction false} SavedIsReplacing(r: Request, seqNo: int, prev: Option<RequestFile>)
    ensures SavedRequest(r, seqNo, prev) == Replacing(RequestFileOf(r, seqNo), prev.GetOr(NOTHING))
  {
    hide AuthToFile, MergeAuth, Merged, RowsOf, ChainRowsOf, BodyToFile, ScriptsToFile;
    if prev.None? {
      assert Aliased([]) == [];
      MergeNothing(RequestFileOf(r, seqNo).chain, StepAlias);
    }
  }

  lemma {:induction false} HeaderKeys(p: RequestFile, r: Request, seqNo: int, q: RequestFile)
    requires Alike(r, RequestOf(p, r.id))
    ensures SameKeys(HttpOf(p).headers, HttpOf(Replacing(RequestFileOf(r, seqNo), q)).headers, RowName)
       <==> RowsGiven(HttpOf(p).headers, HttpOf(q).headers, RowName)
  {
    hide Merged, MergeAuth, AuthToFile, Select, ReadAuth, LastExtra, Aliased, BodyToFile, ScriptsToFile;
    var rows, next := HttpOf(p).headers, RowsOf(r.headers, "");
    assert |r.headers| == |rows| && forall i | 0 <= i < |rows| :: r.headers[i] == PairOf(rows[i].core);
    MergedKeys(rows, next, HttpOf(q).headers, RowName);
    MergeNothing(next, RowName);
  }

  lemma {:induction false} ParamKeys(p: RequestFile, r: Request, seqNo: int, q: RequestFile)
    requires Alike(r, RequestOf(p, r.id))
    ensures SameKeys(Regrouped(HttpOf(p).params), HttpOf(Replacing(RequestFileOf(r, seqNo), q)).params, RowName)
       <==> RowsGiven(Regrouped(HttpOf(p).params), HttpOf(q).params, RowName)
  {
    hide Merged, MergeAuth, AuthToFile, Select, ReadAuth, LastExtra, Aliased, BodyToFile, ScriptsToFile;
    var query, path := Select(HttpOf(p).params, false), Select(HttpOf(p).params, true);
    NothingSelected();
    assert r.params == PairsOf(query) && r.pathParams == PairsOf(path);
    var next := RowsOf(r.params, "query") + RowsOf(r.pathParams, "path");
    MergedKeys(query + path, next, HttpOf(q).params, RowName);
    MergeNothing(next, RowName);
  }

  lemma NothingSelected()
    ensures Select([], false) == [] && Select([], true) == []
  {
  }

  lemma {:induction false} BlockKeys(p: RequestFile, r: Request, seqNo: int, q: RequestFile)
    requires Alike(r, RequestOf(p, r.id))
    ensures var f := Replacing(RequestFileOf(r, seqNo), q);
            && f.extra == q.extra && f.info.extra == q.info.extra && HttpOf(f).extra == HttpOf(q).extra
            && KeysOf(f.scripts) == KeysOf(q.scripts)
            && KeysOf(HttpOf(f).body) == (if HasBody(HttpOf(p).body) then KeysOf(HttpOf(q).body) else map[])
            && AuthKeys(HttpOf(f).auth) == AuthGiven(ReadAuth(HttpOf(p).auth, AUTH_INHERIT), HttpOf(q).auth)
  {
    hide Merged, Select, AuthKeys, RowsOf, PairsOf, AuthToFile, MergeAuth, Aliased, AuthGiven, ReadAuth, Present;
    InheritKeys(AuthToFile(r.auth));
    MergedAuthKeys(r.auth, HttpOf(q).auth);
    SameGiven(r.auth, ReadAuth(HttpOf(p).auth, AUTH_INHERIT), HttpOf(q).auth);
  }

  lemma SameGiven(a: Auth, b: Auth, prev: Option<AuthBlock>)
    requires SameScheme(a, b)
    ensures AuthGiven(a, prev) == AuthGiven(b, prev)
  {
    hide KeysOf;
    assert Present(a)[0] == Present(b)[0] && Present(a)[1] == Present(b)[1] && Present(a)[2] == Present(b)[2];
    assert Present(a)[3] == Present(b)[3] && Present(a)[4] == Present(b)[4] && Present(a)[5] == Present(b)[5];
    assert Present(a)[6] == Present(b)[6] && Present(a)[7] == Present(b)[7] && Present(a)[8] == Present(b)[8];
  }

  lemma InheritKeys(next: Option<AuthBlock>)
    ensures ReadAuth(None, AUTH_INHERIT) == BareAuth(AUTH_INHERIT)
    ensures MergeAuth(next, None) == next
  {
  }

  lemma {:induction false} BareRows(p: RequestFile, r: Request, seqNo: int, q: RequestFile)
    requires Alike(r, RequestOf(p, r.id))
    ensures var f := Replacing(RequestFileOf(r, seqNo), q);
            && f.vars == VarRowsOf(r.variables) && f.assertions == AssertionRowsOf(AssertionsOf(p.assertions))
            && f.chain == Merged(ChainRowsOf(ChainOf(p.chain)), Aliased(q.chain), StepAlias)
            && SameVars(r.variables, VariablesOf(p.vars))
  {
    hide Merged, MergeAuth, AuthToFile, Select, ReadAuth, VarRowsOf, AssertionRowsOf, ChainRowsOf, Present;
  }

  lemma {:induction false} VarKeys(rows: seq<Ext<VarRow>>, vs: seq<Variable>)
    requires SameVars(vs, VariablesOf(rows))
    ensures SameKeys(rows, VarRowsOf(vs), VarName) <==> NoKeys(rows)
  {
    assert forall i | 0 <= i < |rows| :: rows[i] in rows && VarRowsOf(vs)[i].extra == map[];
  }

  lemma {:induction false} AssertionKeys(rows: seq<Ext<AssertionRow>>)
    ensures SameKeys(rows, AssertionRowsOf(AssertionsOf(rows)), SourceOf) <==> NoKeys(rows)
  {
    assert forall i | 0 <= i < |rows| :: rows[i] in rows && AssertionRowsOf(AssertionsOf(rows))[i].extra == map[];
  }

  lemma {:induction false} ChainKeys(rows: seq<Ext<ChainStep>>, prev: seq<Ext<ChainStep>>)
    ensures SameKeys(rows, Merged(ChainRowsOf(ChainOf(rows)), prev, StepAlias), StepAlias) <==> RowsGiven(rows, prev, StepAlias)
  {
    MergedKeys(rows, ChainRowsOf(ChainOf(rows)), prev, StepAlias);
  }

  /** A request read from the file p and saved over `prev` keeps the unknown keys of p exactly when `prev`
      gives them. */
  lemma {:induction false} KeysSurviveIff(p: RequestFile, r: Request, seqNo: int, prev: Option<RequestFile>)
    requires Alike(r, RequestOf(p, r.id))
    ensures KeysSurvive(p, SavedRequest(r, seqNo, prev)) <==> KeysGiven(p, prev)
  {
    hide SameKeys, NamesAgree, AuthKeys, AuthGiven, KeysOf, HttpOf, Regrouped, NoKeys, Merged, Aliased, VarRowsOf,
         AssertionRowsOf, ChainRowsOf, SavedRequest, Replacing, RequestFileOf, Alike, RowsGiven, ReadAuth;
    var q := prev.GetOr(NOTHING);
    SavedIsReplacing(r, seqNo, prev);
    HeaderKeys(p, r, seqNo, q);
    ParamKeys(p, r, seqNo, q);
    BlockKeys(p, r, seqNo, q);
    BareRows(p, r, seqNo, q);
    ChainKeys(p.chain, Aliased(q.chain));
    VarKeys(p.vars, r.variables);
    AssertionKeys(p.assertions);
  }

  /** Header and parameter rows of one name agree on their unknown keys, and so do chain rows of one alias;
      there are none on chain rows without an alias, on a "none" body, on what an auth type leaves out, or on
      assertion and variable rows. */
  ghost predicate KeysSafe(p: RequestFile) {
    var g := HttpOf(p);
    && NamesAgree(g.headers, RowName) && NamesAgree(g.params, RowName)
    && (!HasBody(g.body) ==> KeysOf(g.body) == map[])
    && AuthKeysSafe(g.auth)
    && NamesAgree(p.chain, StepAlias) && (forall r <- p.chain :: r.core.alias == "" ==> r.extra == map[])
    && NoKeys(p.assertions) && NoKeys(p.vars)
  }

  /** A file saved over itself is given its keys exactly when it is safe. */
  lemma {:induction false} OwnFileGives(p: RequestFile)
    ensures KeysGiven(p, Some(p)) <==> KeysSafe(p)
  {
    hide NamesAgree, AuthKeysSafe, AuthKeys, AuthGiven, KeysOf, NoKeys, Aliased, RowsGiven, ReadAuth, Regrouped;
    var g := HttpOf(p);
    OwnRows(g.headers, g.headers, RowName);
    RegroupedHas(g.params);
    OwnRows(Regrouped(g.params), g.params, RowName);
    OwnChain(p.chain);
    OwnAuth(g.auth, AUTH_INHERIT);
  }

  /** A request with a note another tool left on a variable and on a chain step without an alias. */
  function Noted(note: string): RequestFile {
    RequestFile(FreshInfo("r", "1", "http", 1), None, "", None,
                [Ext(ChainStep("", "Login", ""), map["note" := note])], [],
                [Ext(VarRow("host", "h", false, false), map["note" := note])], map[])
  }

  /** Both notes are gone after a load and a save, whatever file is replaced. */
  lemma {:induction false} NotesLost(seqNo: int, newID: string, note: string, prev: Option<RequestFile>)
    ensures var f := SavedRequest(RequestOf(Noted(note), newID), seqNo, prev);
            && f.vars == [Plain(VarRow("host", "h", false, false))] && f.chain == [Plain(ChainStep("", "Login", ""))]
            && !KeysSurvive(Noted(note), f)
  {
    hide MergeAuth, AuthToFile, ReadAuth, Select, KeysSurvive, Replacing, RequestFileOf, SavedRequest;
    var p, q := Noted(note), prev.GetOr(NOTHING);
    var r := RequestOf(p, newID);
    KeysSurviveIff(p, r, seqNo, prev);
    assert !NoKeys(p.vars) by {
      assert p.vars[0] in p.vars && "note" in p.vars[0].extra;
    }
    SavedIsReplacing(r, seqNo, prev);
    BareRows(p, r, seqNo, q);
    var next := ChainRowsOf(ChainOf(p.chain));
    MergedAliased(next, q.chain);
    var out := Merged(next, Aliased(q.chain), StepAlias);
    assert out[0].core == ChainStep("", "Login", "") && Aliased(out)[0] == Plain(out[0].core);
    assert r.variables == VariablesOf(p.vars);
    assert VarRowsOf(r.variables)[0] == Plain(VarRow("host", "h", false, false));
  }

  // ----- the other files -----

  /** The same for the auth and the variables of a folder or a collection. */
  ghost predicate AlikePlace(auth: Auth, vars: seq<Variable>, wasAuth: Auth, wasVars: seq<Variable>) {
    SameScheme(auth, wasAuth) && SameVars(vars, wasVars)
  }

  const NO_FOLDER := FolderFile(FreshInfo("", "", "", 0), None, [], map[])

  ghost predicate FolderKeysSurvive(p: FolderFile, f: FolderFile) {
    f.extra == p.extra && f.info.extra == p.info.extra && AuthKeys(f.auth) == AuthKeys(p.auth) && SameKeys(p.vars, f.vars, VarName)
  }

  ghost predicate FolderKeysGiven(p: FolderFile, prev: Option<FolderFile>) {
    var q := prev.GetOr(NO_FOLDER);
    && q.extra == p.extra && q.info.extra == p.info.extra
    && AuthGiven(ReadAuth(p.auth, AUTH_INHERIT), q.auth) == AuthKeys(p.auth)
    && NoKeys(p.vars)
  }

  /** So does the file of a folder ... */
  lemma {:induction false} FolderKeysSurviveIff(p: FolderFile, f: Folder, seqNo: int, prev: Option<FolderFile>)
    requires AlikePlace(f.auth, f.variables, ReadAuth(p.auth, AUTH_INHERIT), VariablesOf(p.vars))
    ensures FolderKeysSurvive(p, SavedFolder(f, seqNo, prev)) <==> FolderKeysGiven(p, prev)
  {
    hide AuthToFile, MergeAuth, ReadAuth, AuthKeys, AuthGiven, SameKeys, NoKeys, VarRowsOf, VariablesOf, Present;
    var q := prev.GetOr(NO_FOLDER);
    MergedAuthKeys(f.auth, q.auth);
    SameGiven(f.auth, ReadAuth(p.auth, AUTH_INHERIT), q.auth);
    InheritKeys(AuthToFile(f.auth));
    VarKeys(p.vars, f.variables);
  }

  ghost predicate RootKeysSurvive(p: CollectionFile, f: CollectionFile) {
    f.extra == p.extra && f.info.extra == p.info.extra && AuthKeys(f.auth) == AuthKeys(p.auth) && SameKeys(p.vars, f.vars, VarName)
  }

  /** ... and that of a collection, which always replaces itself, ... */
  lemma {:induction false} RootKeysSurviveIff(p: CollectionFile, c: Collection)
    requires AlikePlace(c.auth, c.variables, ReadAuth(p.auth, AUTH_NONE), VariablesOf(p.vars))
    ensures RootKeysSurvive(p, SavedRoot(c, Some(p))) <==> AuthKeysSafe(p.auth) && NoKeys(p.vars)
  {
    hide AuthToFile, MergeAuth, ReadAuth, AuthKeys, AuthGiven, AuthKeysSafe, SameKeys, NoKeys, VarRowsOf, VariablesOf, Present;
    MergedAuthKeys(c.auth, p.auth);
    SameGiven(c.auth, ReadAuth(p.auth, AUTH_NONE), p.auth);
    OwnAuth(p.auth, AUTH_NONE);
    VarKeys(p.vars, c.variables);
  }

  const NO_ENV := EnvironmentFile(FreshInfo("", "", "", 0), [], map[])

  ghost predicate EnvKeysSurvive(p: EnvironmentFile, f: EnvironmentFile) {
    f.extra == p.extra && f.info.extra == p.info.extra && SameKeys(p.vars, f.vars, VarName)
  }

  ghost predicate EnvKeysGiven(p: EnvironmentFile, prev: Option<EnvironmentFile>) {
    var q := prev.GetOr(NO_ENV);
    q.extra == p.extra && q.info.extra == p.info.extra && NoKeys(p.vars)
  }

  /** ... and that of an environment. */
  lemma {:induction false} EnvKeysSurviveIff(p: EnvironmentFile, e: Environment, seqNo: int, prev: Option<EnvironmentFile>)
    requires SameVars(e.variables, VariablesOf(p.vars))
    ensures EnvKeysSurvive(p, SavedEnv(e, seqNo, prev)) <==> EnvKeysGiven(p, prev)
  {
    hide SameKeys, NoKeys, VarRowsOf, VariablesOf;
    VarKeys(p.vars, e.variables);
  }
}
