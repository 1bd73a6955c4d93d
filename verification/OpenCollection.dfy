/** The on-disk file shapes of `internal/storage/opencollection.go` and the mappings between them
    and the domain model. Every level of a file keeps the keys Helena does not know in an `extra`
    map; a re-save copies those maps over from the file it replaces. */
module OpenCollection {
  import opened Text
  import opened Model

  /** Unknown YAML keys with their nodes, kept as text. */
  type Extra = map<string, string>

  datatype Ext<T> = Ext(core: T, extra: Extra)

  datatype Info = Info(name: string, id: string, typ: string, seqNo: int, tags: seq<string>, extra: Extra)

  /** `ocKV` and `ocParam`; a header row has no type. */
  datatype Row = Row(name: string, value: string, typ: string, disabled: bool)
  datatype VarRow = VarRow(name: string, value: string, disabled: bool, secret: bool)
  datatype AssertionRow = AssertionRow(source: string, op: string, expected: string, disabled: bool)
  datatype BodyBlock = BodyBlock(typ: string, data: string, filePath: string, contentType: string, graphQLVars: string)

  datatype AuthBlock = AuthBlock(typ: string,
                                 basic: Option<Ext<BasicAuth>>, bearer: Option<Ext<BearerAuth>>,
                                 apiKey: Option<Ext<APIKeyAuth>>, oauth2: Option<Ext<OAuth2Auth>>,
                                 wsse: Option<Ext<WSSEAuth>>, oauth1: Option<Ext<OAuth1Auth>>,
                                 awsv4: Option<Ext<AWSV4Auth>>, digest: Option<Ext<DigestAuth>>,
                                 ntlm: Option<Ext<NTLMAuth>>, extra: Extra)

  datatype Http = Http(httpMethod: string, url: string, headers: seq<Ext<Row>>, params: seq<Ext<Row>>,
                       body: Option<Ext<BodyBlock>>, auth: Option<AuthBlock>, extra: Extra)

  datatype RequestFile = RequestFile(info: Info, http: Option<Http>, docs: string, scripts: Option<Ext<Scripts>>,
                                     chain: seq<Ext<ChainStep>>, assertions: seq<Ext<AssertionRow>>,
                                     vars: seq<Ext<VarRow>>, extra: Extra)
  datatype FolderFile = FolderFile(info: Info, auth: Option<AuthBlock>, vars: seq<Ext<VarRow>>, extra: Extra)
  datatype CollectionFile = CollectionFile(info: Info, auth: Option<AuthBlock>, vars: seq<Ext<VarRow>>, extra: Extra)
  datatype EnvironmentFile = EnvironmentFile(info: Info, vars: seq<Ext<VarRow>>, extra: Extra)

  function Plain<T>(x: T): Ext<T> { Ext(x, map[]) }

  function FreshInfo(name: string, id: string, typ: string, seqNo: int): Info {
    Info(name, id, typ, seqNo, [], map[])
  }

  // ----- rows -----

  function RowOf(kv: KeyValue, typ: string): Row { Row(kv.key, kv.value, typ, !kv.enabled) }

  function RowsOf(kvs: seq<KeyValue>, typ: string): (rows: seq<Ext<Row>>)
    ensures |rows| == |kvs|
  {
    seq(|kvs|, i requires 0 <= i < |kvs| => Plain(RowOf(kvs[i], typ)))
  }

  method RowsToFile(kvs: seq<KeyValue>, typ: string) returns (rows: seq<Ext<Row>>)
    ensures rows == RowsOf(kvs, typ)
  {
    rows := [];
    for i := 0 to |kvs|
      invariant rows == RowsOf(kvs, typ)[..i]
    {
      rows := rows + [Plain(RowOf(kvs[i], typ))];
    }
  }

  /** What a stored row reads back as; the description is not stored. */
  function PairOf(row: Row): KeyValue { KeyValue(!row.disabled, row.name, row.value, "") }

  function PairsOf(rows: seq<Ext<Row>>): (kvs: seq<KeyValue>)
    ensures |kvs| == |rows|
  {
    seq(|rows|, i requires 0 <= i < |rows| => PairOf(rows[i].core))
  }

  /** The rows whose type is, or is not, "path", in order. */
  function Select(rows: seq<Ext<Row>>, path: bool): (picked: seq<Ext<Row>>) {
    if rows == [] then []
    else
      var rest := Select(rows[..|rows| - 1], path);
      if (rows[|rows| - 1].core.typ == "path") == path then rest + [rows[|rows| - 1]] else rest
  }

  lemma {:induction false} SelectAppend(xs: seq<Ext<Row>>, ys: seq<Ext<Row>>, path: bool)
    ensures Select(xs + ys, path) == Select(xs, path) + Select(ys, path)
  {
    if ys == [] {
      assert xs + ys == xs;
    } else {
      assert (xs + ys)[..|xs + ys| - 1] == xs + ys[..|ys| - 1];
      SelectAppend(xs, ys[..|ys| - 1], path);
    }
  }

  lemma {:induction false} SelectUniform(rows: seq<Ext<Row>>, path: bool, all: bool)
    requires forall r <- rows :: (r.core.typ == "path") == all
    ensures Select(rows, path) == if path == all then rows else []
  {
    if rows != [] {
      SelectUniform(rows[..|rows| - 1], path, all);
      assert rows == rows[..|rows| - 1] + [rows[|rows| - 1]];
    }
  }

  function Stored(kv: KeyValue): KeyValue { kv.(description := "") }

  function StoredAll(kvs: seq<KeyValue>): seq<KeyValue> {
    seq(|kvs|, i requires 0 <= i < |kvs| => Stored(kvs[i]))
  }

  // ----- variables, assertions, chain steps -----

  function VarRowOf(v: Variable): VarRow { VarRow(v.key, v.value, !v.enabled, v.secret) }
  function VariableOf(v: VarRow): Variable { Variable(!v.disabled, v.name, v.value, v.secret) }
  function AssertionRowOf(a: Assertion): AssertionRow { AssertionRow(a.source, a.op, a.expected, !a.enabled) }
  function AssertionOf(a: AssertionRow): Assertion { Assertion(!a.disabled, a.source, a.op, a.expected) }

  function VarRowsOf(vs: seq<Variable>): (rows: seq<Ext<VarRow>>)
    ensures |rows| == |vs|
  {
    seq(|vs|, i requires 0 <= i < |vs| => Plain(VarRowOf(vs[i])))
  }

  function VariablesOf(rows: seq<Ext<VarRow>>): (vs: seq<Variable>)
    ensures |vs| == |rows|
  {
    seq(|rows|, i requires 0 <= i < |rows| => VariableOf(rows[i].core))
  }

  method VarsToFile(vs: seq<Variable>) returns (rows: seq<Ext<VarRow>>)
    ensures rows == VarRowsOf(vs)
  {
    rows := [];
    for i := 0 to |vs|
      invariant rows == VarRowsOf(vs)[..i]
    {
      rows := rows + [Plain(VarRowOf(vs[i]))];
    }
  }

  method FileToVars(rows: seq<Ext<VarRow>>) returns (vs: seq<Variable>)
    ensures vs == VariablesOf(rows)
  {
    vs := [];
    for i := 0 to |rows|
      invariant vs == VariablesOf(rows)[..i]
    {
      vs := vs + [VariableOf(rows[i].core)];
    }
  }

  lemma VarsRoundTrip(vs: seq<Variable>)
    ensures VariablesOf(VarRowsOf(vs)) == vs
  {
  }

  function AssertionRowsOf(xs: seq<Assertion>): (rows: seq<Ext<AssertionRow>>) {
    seq(|xs|, i requires 0 <= i < |xs| => Plain(AssertionRowOf(xs[i])))
  }

  function AssertionsOf(rows: seq<Ext<AssertionRow>>): seq<Assertion> {
    seq(|rows|, i requires 0 <= i < |rows| => AssertionOf(rows[i].core))
  }

  function ChainRowsOf(steps: seq<ChainStep>): (rows: seq<Ext<ChainStep>>)
    ensures |rows| == |steps|
  {
    seq(|steps|, i requires 0 <= i < |steps| => Plain(steps[i]))
  }

  function ChainOf(rows: seq<Ext<ChainStep>>): seq<ChainStep> {
    seq(|rows|, i requires 0 <= i < |rows| => rows[i].core)
  }

  // ----- auth -----

  function Wrap<T>(x: Option<T>): Option<Ext<T>> {
    match x
    case None => None
    case Some(v) => Some(Plain(v))
  }

  function Unwrap<T>(x: Option<Ext<T>>): Option<T> {
    match x
    case None => None
    case Some(v) => Some(v.core)
  }

  /** `authToFile`: nothing for an inheriting auth, otherwise only the block its type selects. */
  function AuthToFile(a: Auth): Option<AuthBlock> {
    if a.typ == "" || a.typ == AUTH_INHERIT then None
    else
      var bare := AuthBlock(a.typ, None, None, None, None, None, None, None, None, None, map[]);
      Some(match a.typ
           case "basic" => bare.(basic := Wrap(a.basic))
           case "bearer" => bare.(bearer := Wrap(a.bearer))
           case "apikey" => bare.(apiKey := Wrap(a.apiKey))
           case "oauth2" => bare.(oauth2 := Wrap(a.oauth2))
           case "wsse" => bare.(wsse := Wrap(a.wsse))
           case "oauth1" => bare.(oauth1 := Wrap(a.oauth1))
           case "awsv4" => bare.(awsv4 := Wrap(a.awsv4))
           case "digest" => bare.(digest := Wrap(a.digest))
           case "ntlm" => bare.(ntlm := Wrap(a.ntlm))
           case _ => bare)
  }

  function FileToAuth(f: AuthBlock): Auth {
    Auth(f.typ, Unwrap(f.basic), Unwrap(f.bearer), Unwrap(f.apiKey), Unwrap(f.oauth2), Unwrap(f.wsse),
         Unwrap(f.oauth1), Unwrap(f.awsv4), Unwrap(f.digest), Unwrap(f.ntlm))
  }

  /** Reading an optional auth block; an absent one means `missing`. */
  function ReadAuth(f: Option<AuthBlock>, missing: string): Auth {
    if f.None? then BareAuth(missing) else FileToAuth(f.value)
  }

  /** `a` without the blocks its type does not select. */
  function OnType(a: Auth): Auth {
    a.(basic := if a.typ == "basic" then a.basic else None,
       bearer := if a.typ == "bearer" then a.bearer else None,
       apiKey := if a.typ == "apikey" then a.apiKey else None,
       oauth2 := if a.typ == "oauth2" then a.oauth2 else None,
       wsse := if a.typ == "wsse" then a.wsse else None,
       oauth1 := if a.typ == "oauth1" then a.oauth1 else None,
       awsv4 := if a.typ == "awsv4" then a.awsv4 else None,
       digest := if a.typ == "digest" then a.digest else None,
       ntlm := if a.typ == "ntlm" then a.ntlm else None)
  }

  /** What survives of an auth when it is stored in a place whose default is `missing`. */
  function StoredAuth(a: Auth, missing: string): Auth {
    if a.typ == "" || a.typ == AUTH_INHERIT then BareAuth(missing) else OnType(a)
  }

  function Carry<T>(next: Option<Ext<T>>, prev: Option<Ext<T>>): Option<Ext<T>> {
    if next.Some? && prev.Some? then Some(next.value.(extra := prev.value.extra)) else next
  }

  function MergeAuth(next: Option<AuthBlock>, prev: Option<AuthBlock>): Option<AuthBlock> {
    if next.None? || prev.None? then next
    else
      var n, p := next.value, prev.value;
      Some(AuthBlock(n.typ, Carry(n.basic, p.basic), Carry(n.bearer, p.bearer), Carry(n.apiKey, p.apiKey),
                     Carry(n.oauth2, p.oauth2), Carry(n.wsse, p.wsse), Carry(n.oauth1, p.oauth1),
                     Carry(n.awsv4, p.awsv4), Carry(n.digest, p.digest), Carry(n.ntlm, p.ntlm), p.extra))
  }

  lemma UnwrapWrap<T>(x: Option<T>)
    ensures Unwrap(Wrap(x)) == x
  {
  }

  lemma UnwrapCarry<T>(next: Option<Ext<T>>, prev: Option<Ext<T>>)
    ensures Unwrap(Carry(next, prev)) == Unwrap(next)
    ensures Carry(next, Carry(next, prev)) == Carry(next, prev)
  {
  }

  lemma NothingToUnwrap()
    ensures Unwrap<BasicAuth>(None) == None && Unwrap<BearerAuth>(None) == None && Unwrap<APIKeyAuth>(None) == None
    ensures Unwrap<OAuth2Auth>(None) == None && Unwrap<WSSEAuth>(None) == None && Unwrap<OAuth1Auth>(None) == None
    ensures Unwrap<AWSV4Auth>(None) == None && Unwrap<DigestAuth>(None) == None && Unwrap<NTLMAuth>(None) == None
  {
  }

  /** Reading back a stored auth leaves what `StoredAuth` says. */
  lemma AuthRoundTrip(a: Auth, missing: string)
    ensures ReadAuth(AuthToFile(a), missing) == StoredAuth(a, missing)
  {
    hide Wrap, Unwrap;
    UnwrapWrap(a.basic);
    UnwrapWrap(a.bearer);
    UnwrapWrap(a.apiKey);
    UnwrapWrap(a.oauth2);
    UnwrapWrap(a.wsse);
    UnwrapWrap(a.oauth1);
    UnwrapWrap(a.awsv4);
    UnwrapWrap(a.digest);
    UnwrapWrap(a.ntlm);
    NothingToUnwrap();
  }

  /** Carrying unknown keys over changes nothing that is read, and doing it twice is doing it once. */
  lemma MergeAuthReads(next: Option<AuthBlock>, prev: Option<AuthBlock>, missing: string)
    ensures ReadAuth(MergeAuth(next, prev), missing) == ReadAuth(next, missing)
    ensures MergeAuth(next, MergeAuth(next, prev)) == MergeAuth(next, prev)
  {
    if next.Some? && prev.Some? {
      hide Carry, Unwrap;
      var n, p := next.value, prev.value;
      UnwrapCarry(n.basic, p.basic);
      UnwrapCarry(n.bearer, p.bearer);
      UnwrapCarry(n.apiKey, p.apiKey);
      UnwrapCarry(n.oauth2, p.oauth2);
      UnwrapCarry(n.wsse, p.wsse);
      UnwrapCarry(n.oauth1, p.oauth1);
      UnwrapCarry(n.awsv4, p.awsv4);
      UnwrapCarry(n.digest, p.digest);
      UnwrapCarry(n.ntlm, p.ntlm);
    }
  }

  // ----- carrying the unknown keys of rows -----

  /** The unknown keys of the last row of that name that has any. */
  function LastExtra<T>(prev: seq<Ext<T>>, key: T -> string, name: string): Option<Extra> {
    if prev == [] then None
    else
      var last := prev[|prev| - 1];
      if key(last.core) == name && last.extra != map[] then Some(last.extra)
      else LastExtra(prev[..|prev| - 1], key, name)
  }

  function Merged<T>(next: seq<Ext<T>>, prev: seq<Ext<T>>, key: T -> string): (out: seq<Ext<T>>)
    ensures |out| == |next|
  {
    seq(|next|, i requires 0 <= i < |next| =>
      next[i].(extra := LastExtra(prev, key, key(next[i].core)).GetOr(next[i].extra)))
  }

  /** `mergeKVExtras`, `mergeParamExtras` and the chain pairing of `saveItems`: index the earlier rows
      by name, then hand each new row what its name finds. */
  method MergeExtras<T>(next: seq<Ext<T>>, prev: seq<Ext<T>>, key: T -> string) returns (out: seq<Ext<T>>)
    ensures out == Merged(next, prev, key)
  {
    out := next;
    var byName: map<string, Extra> := map[];
    for i := 0 to |prev|
      invariant forall n :: n in byName <==> LastExtra(prev[..i], key, n).Some?
      invariant forall n <- byName :: LastExtra(prev[..i], key, n) == Some(byName[n])
    {
      assert prev[..i + 1][..i] == prev[..i];
      if prev[i].extra != map[] {
        byName := byName[key(prev[i].core) := prev[i].extra];
      }
    }
    assert prev[..|prev|] == prev;
    for i := 0 to |next|
      invariant |out| == |next|
      invariant out[..i] == Merged(next, prev, key)[..i]
      invariant out[i..] == next[i..]
    {
      if key(next[i].core) in byName {
        out := out[i := next[i].(extra := byName[key(next[i].core)])];
      }
    }
  }

  lemma {:induction false} LastExtraAgain<T>(rows: seq<Ext<T>>, key: T -> string, name: string, e: Option<Extra>)
    requires e.Some? ==> e.value != map[]
    requires forall r <- rows :: key(r.core) == name ==> r.extra == e.GetOr(map[])
    ensures LastExtra(rows, key, name).Some? ==> LastExtra(rows, key, name) == e
    ensures (exists r :: r in rows && key(r.core) == name) ==> LastExtra(rows, key, name) == e
  {
    if rows != [] {
      LastExtraAgain(rows[..|rows| - 1], key, name, e);
      assert rows == rows[..|rows| - 1] + [rows[|rows| - 1]];
    }
  }

  lemma {:induction false} LastExtraNonEmpty<T>(rows: seq<Ext<T>>, key: T -> string, name: string)
    ensures LastExtra(rows, key, name).Some? ==> LastExtra(rows, key, name).value != map[]
  {
    if rows != [] {
      LastExtraNonEmpty(rows[..|rows| - 1], key, name);
    }
  }

  /** Rows saved without unknown keys of their own reach a fixed point after one merge. */
  lemma {:induction false} MergeTwice<T>(next: seq<Ext<T>>, prev: seq<Ext<T>>, key: T -> string)
    requires forall r <- next :: r.extra == map[]
    ensures Merged(next, Merged(next, prev, key), key) == Merged(next, prev, key)
  {
    var once := Merged(next, prev, key);
    forall i | 0 <= i < |next|
      ensures Merged(next, once, key)[i] == once[i]
    {
      var name := key(next[i].core);
      var e := LastExtra(prev, key, name);
      LastExtraNonEmpty(prev, key, name);
      forall r | r in once && key(r.core) == name
        ensures r.extra == e.GetOr(map[])
      {
        var j :| 0 <= j < |once| && once[j] == r;
        assert once[j].core == next[j].core;
        assert next[j] in next;
      }
      assert once[i] in once && key(once[i].core) == name;
      LastExtraAgain(once, key, name, e);
      assert next[i] in next;
    }
  }

  // ----- request files -----

  function BodyToFile(b: Body): Option<Ext<BodyBlock>> {
    if b.typ == "" || b.typ == "none" then None
    else Some(Plain(BodyBlock(b.typ, b.content, b.filePath, b.contentType, b.graphQLVariables)))
  }

  function FileToBody(f: Option<Ext<BodyBlock>>): Body {
    if f.None? then NO_BODY
    else
      var b := f.value.core;
      Body(b.typ, b.data, [], b.filePath, b.contentType, b.graphQLVars)
  }

  function ScriptsToFile(s: Scripts): Option<Ext<Scripts>> {
    if s == NO_SCRIPTS then None else Some(Plain(s))
  }

  function FileToScripts(f: Option<Ext<Scripts>>): Scripts {
    if f.None? then NO_SCRIPTS else f.value.core
  }

  function RequestFileOf(r: Request, seqNo: int): RequestFile {
    RequestFile(FreshInfo(r.name, r.id, "http", seqNo),
                Some(Http(if r.httpMethod == "" then "GET" else r.httpMethod, r.url, RowsOf(r.headers, ""),
                          RowsOf(r.params, "query") + RowsOf(r.pathParams, "path"),
                          BodyToFile(r.body), AuthToFile(r.auth), map[])),
                r.docs, ScriptsToFile(r.scripts), ChainRowsOf(r.chain), AssertionRowsOf(r.assertions),
                VarRowsOf(r.variables), map[])
  }

  /** `requestToFile`. */
  method RequestToFile(r: Request, seqNo: int) returns (f: RequestFile)
    ensures f == RequestFileOf(r, seqNo)
  {
    var httpMethod := r.httpMethod;
    if httpMethod == "" {
      httpMethod := "GET";
    }
    var headers := RowsToFile(r.headers, "");
    var params := RowsToFile(r.params, "query");
    var pathParams := RowsToFile(r.pathParams, "path");
    var chain := [];
    for i := 0 to |r.chain|
      invariant chain == ChainRowsOf(r.chain)[..i]
    {
      chain := chain + [Plain(r.chain[i])];
    }
    var assertions := [];
    for i := 0 to |r.assertions|
      invariant assertions == AssertionRowsOf(r.assertions)[..i]
    {
      assertions := assertions + [Plain(AssertionRowOf(r.assertions[i]))];
    }
    var vars := VarsToFile(r.variables);
    var http := Http(httpMethod, r.url, headers, params + pathParams, BodyToFile(r.body), AuthToFile(r.auth), map[]);
    f := RequestFile(FreshInfo(r.name, r.id, "http", seqNo), Some(http), r.docs, ScriptsToFile(r.scripts),
      chain, assertions, vars, map[]);
  }

  function RequestOf(f: RequestFile, newID: string): Request {
    var id := if f.info.id == "" then newID else f.info.id;
    var bare := Request(id, f.info.name, "", "", [], [], [], NO_BODY, f.docs, BareAuth(AUTH_INHERIT),
                        FileToScripts(f.scripts), ChainOf(f.chain), AssertionsOf(f.assertions), VariablesOf(f.vars));
    if f.http.None? then bare
    else
      var h := f.http.value;
      bare.(httpMethod := h.httpMethod, url := h.url, headers := PairsOf(h.headers),
            params := PairsOf(Select(h.params, false)), pathParams := PairsOf(Select(h.params, true)),
            body := FileToBody(h.body), auth := ReadAuth(h.auth, AUTH_INHERIT))
  }

  /** `fileToRequest`; `newID` is what `NewID` would hand out. */
  method FileToRequest(f: RequestFile, newID: string) returns (r: Request)
    ensures r == RequestOf(f, newID)
  {
    var id := if f.info.id == "" then newID else f.info.id;
    var chain := [];
    for i := 0 to |f.chain|
      invariant chain == ChainOf(f.chain)[..i]
    {
      chain := chain + [f.chain[i].core];
    }
    var assertions := [];
    for i := 0 to |f.assertions|
      invariant assertions == AssertionsOf(f.assertions)[..i]
    {
      assertions := assertions + [AssertionOf(f.assertions[i].core)];
    }
    var vars := FileToVars(f.vars);
    r := Request(id, f.info.name, "", "", [], [], [], NO_BODY, f.docs, BareAuth(AUTH_INHERIT),
      FileToScripts(f.scripts), chain, assertions, vars);
    if f.http.None? {
      return;
    }
    var h := f.http.value;
    var headers := [];
    for i := 0 to |h.headers|
      invariant headers == PairsOf(h.headers)[..i]
    {
      headers := headers + [PairOf(h.headers[i].core)];
    }
    var params, pathParams := [], [];
    for i := 0 to |h.params|
      invariant params == PairsOf(Select(h.params[..i], false))
      invariant pathParams == PairsOf(Select(h.params[..i], true))
    {
      assert h.params[..i + 1][..i] == h.params[..i];
      if h.params[i].core.typ == "path" {
        pathParams := pathParams + [PairOf(h.params[i].core)];
      } else {
        params := params + [PairOf(h.params[i].core)];
      }
    }
    assert h.params[..|h.params|] == h.params;
    r := r.(httpMethod := h.httpMethod, url := h.url, headers := headers, params := params, pathParams := pathParams,
            body := FileToBody(h.body), auth := ReadAuth(h.auth, AUTH_INHERIT));
  }

  /** What storing keeps of a request: everything but row descriptions, form rows, the content of a
      "none" body and auth blocks of other types; an empty method becomes GET, an empty ID `newID`. */
  function StoredRequest(r: Request, newID: string): Request {
    r.(id := if r.id == "" then newID else r.id,
       httpMethod := if r.httpMethod == "" then "GET" else r.httpMethod,
       params := StoredAll(r.params), pathParams := StoredAll(r.pathParams), headers := StoredAll(r.headers),
       body := if r.body.typ == "" || r.body.typ == "none" then NO_BODY else r.body.(form := []),
       auth := StoredAuth(r.auth, AUTH_INHERIT))
  }

  function RowName(row: Row): string { row.name }
  function StepAlias(step: ChainStep): string { step.alias }

  /** Chain rows without an alias cannot be paired, so their unknown keys are dropped. */
  function Aliased(rows: seq<Ext<ChainStep>>): (out: seq<Ext<ChainStep>>)
    ensures |out| == |rows|
  {
    seq(|rows|, i requires 0 <= i < |rows| => if rows[i].core.alias == "" then Plain(rows[i].core) else rows[i])
  }

  function CarryScripts(next: Option<Ext<Scripts>>, prev: Option<Ext<Scripts>>): Option<Ext<Scripts>> {
    if prev.Some? && prev.value.extra != map[] then Some(Ext(FileToScripts(next), prev.value.extra)) else next
  }

  /** The file that replaces `p` when `f` is saved under the same name. */
  function Replacing(f: RequestFile, p: RequestFile): RequestFile {
    f.(extra := p.extra,
       info := f.info.(extra := p.info.extra, tags := p.info.tags),
       http := if f.http.None? || p.http.None? then f.http
               else Some(f.http.value.(
                           extra := p.http.value.extra,
                           headers := Merged(f.http.value.headers, p.http.value.headers, RowName),
                           params := Merged(f.http.value.params, p.http.value.params, RowName),
                           body := Carry(f.http.value.body, p.http.value.body),
                           auth := MergeAuth(f.http.value.auth, p.http.value.auth))),
       scripts := CarryScripts(f.scripts, p.scripts),
       chain := Merged(f.chain, Aliased(p.chain), StepAlias))
  }

  /** The merge block of `saveItems`. */
  method MergeRequest(f: RequestFile, p: RequestFile) returns (out: RequestFile)
    ensures out == Replacing(f, p)
  {
    out := f.(extra := p.extra, info := f.info.(extra := p.info.extra, tags := p.info.tags));
    if f.http.Some? && p.http.Some? {
      var h, q := f.http.value, p.http.value;
      var headers := MergeExtras(h.headers, q.headers, RowName);
      var params := MergeExtras(h.params, q.params, RowName);
      out := out.(http := Some(h.(extra := q.extra, headers := headers, params := params,
                                  body := Carry(h.body, q.body), auth := MergeAuth(h.auth, q.auth))));
    }
    if p.scripts.Some? && p.scripts.value.extra != map[] {
      out := out.(scripts := Some(Ext(FileToScripts(f.scripts), p.scripts.value.extra)));
    }
    var chain := MergeExtras(f.chain, Aliased(p.chain), StepAlias);
    out := out.(chain := chain);
  }

  /** What is written for the request at position `seqNo` over the file `prev`, if any. */
  function SavedRequest(r: Request, seqNo: int, prev: Option<RequestFile>): RequestFile {
    if prev.None? then RequestFileOf(r, seqNo) else Replacing(RequestFileOf(r, seqNo), prev.value)
  }

  lemma RowsRoundTrip(kvs: seq<KeyValue>, typ: string)
    ensures PairsOf(RowsOf(kvs, typ)) == StoredAll(kvs)
  {
  }

  lemma MergedPairs(next: seq<Ext<Row>>, prev: seq<Ext<Row>>)
    ensures PairsOf(Merged(next, prev, RowName)) == PairsOf(next)
  {
  }

  lemma {:induction false} MergedSelect(next: seq<Ext<Row>>, prev: seq<Ext<Row>>, path: bool)
    ensures PairsOf(Select(Merged(next, prev, RowName), path)) == PairsOf(Select(next, path))
  {
    if next != [] {
      var n := |next| - 1;
      MergedSelect(next[..n], prev, path);
      var out := Merged(next, prev, RowName);
      assert out[..n] == Merged(next[..n], prev, RowName);
      assert PairsOf(Select(next[..n], path) + [next[n]]) == PairsOf(Select(next[..n], path)) + [PairOf(next[n].core)];
      assert PairsOf(Select(out[..n], path) + [out[n]]) == PairsOf(Select(out[..n], path)) + [PairOf(out[n].core)];
    }
  }

  lemma ParamsSplit(r: Request)
    ensures PairsOf(Select(RowsOf(r.params, "query") + RowsOf(r.pathParams, "path"), false)) == StoredAll(r.params)
    ensures PairsOf(Select(RowsOf(r.params, "query") + RowsOf(r.pathParams, "path"), true)) == StoredAll(r.pathParams)
  {
    hide RowsOf, PairsOf, StoredAll, Select;
    var q, p := RowsOf(r.params, "query"), RowsOf(r.pathParams, "path");
    RowsTyped(r.params, "query");
    RowsTyped(r.pathParams, "path");
    SelectAppend(q, p, false);
    SelectAppend(q, p, true);
    SelectUniform(q, false, false);
    SelectUniform(q, true, false);
    SelectUniform(p, false, true);
    SelectUniform(p, true, true);
    assert q + [] == q && [] + p == p;
    RowsRoundTrip(r.params, "query");
    RowsRoundTrip(r.pathParams, "path");
  }

  lemma RowsTyped(kvs: seq<KeyValue>, typ: string)
    ensures forall r <- RowsOf(kvs, typ) :: r.core.typ == typ
  {
  }

  /** Reading back a request file gives the request up to what storing keeps, whatever file it
      replaced. */
  lemma RequestRoundTrip(r: Request, seqNo: int, prev: Option<RequestFile>, newID: string)
    ensures RequestOf(SavedRequest(r, seqNo, prev), newID) == StoredRequest(r, newID)
    ensures SavedRequest(r, seqNo, prev).info.seqNo == seqNo
    ensures SavedRequest(r, seqNo, prev).info.typ == "http"
  {
    hide AuthToFile, ReadAuth, StoredAuth, MergeAuth, Select;
    var f := RequestFileOf(r, seqNo);
    ParamsSplit(r);
    RowsRoundTrip(r.headers, "");
    AuthRoundTrip(r.auth, AUTH_INHERIT);
    assert ChainOf(f.chain) == r.chain;
    assert AssertionsOf(f.assertions) == r.assertions;
    VarsRoundTrip(r.variables);
    assert RequestOf(f, newID) == StoredRequest(r, newID);
    if prev.Some? {
      var p := prev.value;
      assert ChainOf(Merged(f.chain, Aliased(p.chain), StepAlias)) == ChainOf(f.chain);
      if p.http.Some? {
        MergedPairs(f.http.value.headers, p.http.value.headers);
        MergedSelect(f.http.value.params, p.http.value.params, false);
        MergedSelect(f.http.value.params, p.http.value.params, true);
        MergeAuthReads(f.http.value.auth, p.http.value.auth, AUTH_INHERIT);
      }
    }
  }

  lemma MergeNothing<T>(next: seq<Ext<T>>, key: T -> string)
    ensures Merged(next, [], key) == next
  {
  }

  lemma {:induction false} LastAliased(rows: seq<Ext<ChainStep>>)
    ensures LastExtra(Aliased(rows), StepAlias, "") == None
  {
    if rows != [] {
      LastAliased(rows[..|rows| - 1]);
      assert Aliased(rows)[..|rows| - 1] == Aliased(rows[..|rows| - 1]);
    }
  }

  /** A merged chain has no unknown keys left on steps without an alias. */
  lemma MergedAliased(next: seq<Ext<ChainStep>>, prev: seq<Ext<ChainStep>>)
    requires forall r <- next :: r.extra == map[]
    ensures Aliased(Merged(next, Aliased(prev), StepAlias)) == Merged(next, Aliased(prev), StepAlias)
  {
    LastAliased(prev);
    forall i | 0 <= i < |next| && next[i].core.alias == ""
      ensures Merged(next, Aliased(prev), StepAlias)[i] == Plain(next[i].core)
    {
      assert next[i] in next;
      var r := Merged(next, Aliased(prev), StepAlias)[i];
      assert StepAlias(next[i].core) == "";
      assert LastExtra(Aliased(prev), StepAlias, StepAlias(next[i].core)) == None;
      assert r.core == next[i].core;
      assert r.extra == next[i].extra;
    }
  }

  lemma ReplacingTwice(f: RequestFile, p: RequestFile)
    requires f.http.Some?
    requires forall r <- f.http.value.headers :: r.extra == map[]
    requires forall r <- f.http.value.params :: r.extra == map[]
    requires forall r <- f.chain :: r.extra == map[]
    ensures Replacing(f, Replacing(f, p)) == Replacing(f, p)
  {
    hide MergeAuth, LastExtra, Merged;
    var h := f.http.value;
    MergeTwice(f.chain, Aliased(p.chain), StepAlias);
    MergedAliased(f.chain, p.chain);
    if p.http.Some? {
      var q := p.http.value;
      MergeTwice(h.headers, q.headers, RowName);
      MergeTwice(h.params, q.params, RowName);
      MergeAuthReads(h.auth, q.auth, AUTH_INHERIT);
    } else {
      MergeNothing(h.headers, RowName);
      MergeNothing(h.params, RowName);
      MergeTwice(h.headers, [], RowName);
      MergeTwice(h.params, [], RowName);
      MergeAuthSelf(h.auth);
    }
  }

  lemma MergeAuthSelf(a: Option<AuthBlock>)
    ensures MergeAuth(a, a) == a
  {
  }

  /** Saving the same request over its own file changes nothing, unknown keys included. */
  lemma SavedRequestStable(r: Request, seqNo: int, prev: Option<RequestFile>)
    ensures SavedRequest(r, seqNo, Some(SavedRequest(r, seqNo, prev))) == SavedRequest(r, seqNo, prev)
  {
    hide AuthToFile, MergeAuth, LastExtra, Replacing;
    var f := RequestFileOf(r, seqNo);
    if prev.Some? {
      ReplacingTwice(f, prev.value);
    } else {
      ReplacingSelf(f);
    }
  }

  lemma ReplacingSelf(f: RequestFile)
    requires f.http.Some?
    requires forall r <- f.http.value.headers :: r.extra == map[]
    requires forall r <- f.http.value.params :: r.extra == map[]
    requires forall r <- f.chain :: r.extra == map[]
    ensures Replacing(f, f) == f
  {
    hide MergeAuth;
    MergeAuthSelf(f.http.value.auth);
    assert Aliased(f.chain) == f.chain by {
      forall i | 0 <= i < |f.chain|
        ensures Aliased(f.chain)[i] == f.chain[i]
      {
        assert f.chain[i] in f.chain;
      }
    }
    MergeNothing(f.chain, StepAlias);
    MergeTwice(f.chain, [], StepAlias);
    MergeNothing(f.http.value.headers, RowName);
    MergeTwice(f.http.value.headers, [], RowName);
    MergeNothing(f.http.value.params, RowName);
    MergeTwice(f.http.value.params, [], RowName);
  }
}
