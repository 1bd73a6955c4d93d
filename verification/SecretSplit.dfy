/** `splitSecrets` and `applySecrets` of `internal/storage/secrets.go`: one walk over the secret fields,
    run once to take the values out and once to put them back. */
module SecretSplit {
  import opened Text
  import opened Model
  import opened Secrets

  type Store = map<string, string>
  /** What a walk writes back into a field, given its key and value. */
  type Swap = (string, string) -> string

  // ----- rewriting every secret field -----

  /** The key of the i-th secret of an auth, in the order of `AUTH_TAGS`. */
  function AuthKey(q: seq<string>, i: nat): string
    requires i < 11
  {
    Key(q + ["auth"] + [AUTH_TAGS[i]])
  }

  function MapAuth(q: seq<string>, a: Auth, g: Swap): Auth {
    a.(basic := match a.basic
       case None => None
       case Some(b) => Some(b.(password := g(AuthKey(q, 0), b.password))),
       bearer := match a.bearer
       case None => None
       case Some(b) => Some(b.(token := g(AuthKey(q, 1), b.token))),
       apiKey := match a.apiKey
       case None => None
       case Some(b) => Some(b.(value := g(AuthKey(q, 2), b.value))),
       oauth2 := match a.oauth2
       case None => None
       case Some(b) => Some(b.(clientSecret := g(AuthKey(q, 3), b.clientSecret))),
       wsse := match a.wsse
       case None => None
       case Some(b) => Some(b.(password := g(AuthKey(q, 4), b.password))),
       oauth1 := match a.oauth1
       case None => None
       case Some(b) => Some(b.(consumerSecret := g(AuthKey(q, 5), b.consumerSecret),
                               tokenSecret := g(AuthKey(q, 6), b.tokenSecret))),
       awsv4 := match a.awsv4
       case None => None
       case Some(b) => Some(b.(secretAccessKey := g(AuthKey(q, 7), b.secretAccessKey),
                               sessionToken := g(AuthKey(q, 8), b.sessionToken))),
       digest := match a.digest
       case None => None
       case Some(b) => Some(b.(password := g(AuthKey(q, 9), b.password))),
       ntlm := match a.ntlm
       case None => None
       case Some(b) => Some(b.(password := g(AuthKey(q, 10), b.password))))
  }

  function MapVar(q: seq<string>, tag: string, v: Variable, j: nat, g: Swap): Variable {
    if v.secret then v.(value := g(Key(q + [tag + Itoa(j)]), v.value)) else v
  }

  function MapVars(q: seq<string>, tag: string, vs: seq<Variable>, g: Swap): (out: seq<Variable>)
    ensures |out| == |vs|
  {
    seq(|vs|, j requires 0 <= j < |vs| => MapVar(q, tag, vs[j], j, g))
  }

  function MapRequest(q: seq<string>, r: Request, g: Swap): Request {
    r.(auth := MapAuth(q, r.auth, g), variables := MapVars(q, "v", r.variables, g))
  }

  function MapRequests(q: seq<string>, rs: seq<Request>, g: Swap): (out: seq<Request>)
    ensures |out| == |rs|
  {
    seq(|rs|, i requires 0 <= i < |rs| => MapRequest(q + ["r" + Itoa(i)], rs[i], g))
  }

  function MapFolder(q: seq<string>, f: Folder, g: Swap): Folder
    decreases f, 1
  {
    f.(auth := MapAuth(q, f.auth, g), variables := MapVars(q, "v", f.variables, g), items := MapItems(q, f.items, g))
  }

  function MapFolders(q: seq<string>, fs: seq<Folder>, g: Swap): (out: seq<Folder>)
    ensures |out| == |fs|
    decreases fs, 0
  {
    seq(|fs|, i requires 0 <= i < |fs| => MapFolder(q + ["f" + Itoa(i)], fs[i], g))
  }

  function MapItems(q: seq<string>, c: Container, g: Swap): Container
    decreases c, 0
  {
    Container(MapFolders(q, c.folders, g), MapRequests(q, c.requests, g))
  }

  function MapEnvs(es: seq<Environment>, g: Swap): (out: seq<Environment>)
    ensures |out| == |es|
  {
    seq(|es|, i requires 0 <= i < |es| => es[i].(variables := MapVars(["e" + Itoa(i)], "v", es[i].variables, g)))
  }

  function MapCollection(c: Collection, g: Swap): Collection {
    c.(auth := MapAuth(["col"], c.auth, g), items := MapItems([], c.items, g),
       environments := MapEnvs(c.environments, g), variables := MapVars([], "cv", c.variables, g))
  }

  // ----- the fields of a rewritten collection -----

  function MapFields(fs: seq<Field>, g: Swap): (out: seq<Field>)
    ensures |out| == |fs|
  {
    seq(|fs|, i requires 0 <= i < |fs| => fs[i].(value := g(Key(fs[i].path), fs[i].value)))
  }

  lemma MapFieldsAppend(xs: seq<Field>, ys: seq<Field>, g: Swap)
    ensures MapFields(xs + ys, g) == MapFields(xs, g) + MapFields(ys, g)
  {
  }

  ghost predicate SlotsMapped(q: seq<string>, xs: seq<Slot>, ys: seq<Slot>, g: Swap) {
    && |xs| == |ys|
    && forall i | 0 <= i < |xs| ::
         && xs[i].tag == ys[i].tag
         && ys[i].held == MapHeld(xs[i].held, Key(q + [xs[i].tag]), g)
  }

  lemma {:induction false} SlotFieldsMapped(q: seq<string>, xs: seq<Slot>, ys: seq<Slot>, g: Swap, n: nat)
    requires SlotsMapped(q, xs, ys, g) && n <= |xs|
    ensures SlotFields(q, ys, n) == MapFields(SlotFields(q, xs, n), g)
  {
    if n > 0 {
      SlotFieldsMapped(q, xs, ys, g, n - 1);
    }
  }

  function MapHeld(held: Option<string>, k: string, g: Swap): Option<string> {
    match held
    case None => None
    case Some(v) => Some(g(k, v))
  }

  lemma {:induction false} FirstSecretsMapped(q: seq<string>, a: Auth, g: Swap)
    ensures var s, t := AuthSecrets(a), AuthSecrets(MapAuth(q, a, g));
            && t[0] == MapHeld(s[0], AuthKey(q, 0), g) && t[1] == MapHeld(s[1], AuthKey(q, 1), g)
            && t[2] == MapHeld(s[2], AuthKey(q, 2), g) && t[3] == MapHeld(s[3], AuthKey(q, 3), g)
            && t[4] == MapHeld(s[4], AuthKey(q, 4), g)
  {
    hide AuthKey;
  }

  lemma {:induction false} LastSecretsMapped(q: seq<string>, a: Auth, g: Swap)
    ensures var s, t := AuthSecrets(a), AuthSecrets(MapAuth(q, a, g));
            && t[5] == MapHeld(s[5], AuthKey(q, 5), g) && t[6] == MapHeld(s[6], AuthKey(q, 6), g)
            && t[7] == MapHeld(s[7], AuthKey(q, 7), g) && t[8] == MapHeld(s[8], AuthKey(q, 8), g)
            && t[9] == MapHeld(s[9], AuthKey(q, 9), g) && t[10] == MapHeld(s[10], AuthKey(q, 10), g)
  {
    hide AuthKey;
  }

  lemma {:induction false} AuthSecretsMapped(q: seq<string>, a: Auth, g: Swap)
    ensures forall i: nat | i < 11 :: AuthSecrets(MapAuth(q, a, g))[i] == MapHeld(AuthSecrets(a)[i], AuthKey(q, i), g)
  {
    hide AuthKey, MapAuth, AuthSecrets, MapHeld;
    FirstSecretsMapped(q, a, g);
    LastSecretsMapped(q, a, g);
  }

  lemma {:induction false} AuthFieldsMapped(q: seq<string>, a: Auth, g: Swap)
    ensures AuthFields(q, MapAuth(q, a, g)) == MapFields(AuthFields(q, a), g)
  {
    hide Key, SlotFields, AuthSecrets, MapAuth;
    AuthSecretsMapped(q, a, g);
    var xs, ys := AuthSlots(a), AuthSlots(MapAuth(q, a, g));
    forall i: nat | i < 11
      ensures ys[i].held == MapHeld(xs[i].held, Key(q + ["auth"] + [xs[i].tag]), g)
    {
      assert xs[i].tag == AUTH_TAGS[i];
    }
    SlotFieldsMapped(q + ["auth"], xs, ys, g, 11);
  }

  lemma {:induction false} VarFieldsMapped(q: seq<string>, tag: string, vs: seq<Variable>, g: Swap)
    ensures VarFields(q, tag, MapVars(q, tag, vs, g)) == MapFields(VarFields(q, tag, vs), g)
  {
    hide Key, SlotFields;
    SlotFieldsMapped(q, VarSlots(tag, vs), VarSlots(tag, MapVars(q, tag, vs, g)), g, |vs|);
  }

  lemma {:induction false} RequestFieldsMapped(q: seq<string>, r: Request, g: Swap)
    ensures RequestFields(q, MapRequest(q, r, g)) == MapFields(RequestFields(q, r), g)
  {
    hide AuthFields, VarFields, MapAuth, MapVars;
    AuthFieldsMapped(q, r.auth, g);
    VarFieldsMapped(q, "v", r.variables, g);
    MapFieldsAppend(AuthFields(q, r.auth), VarFields(q, "v", r.variables), g);
  }

  lemma {:induction false} RequestsFieldsMapped(q: seq<string>, rs: seq<Request>, g: Swap, n: nat)
    requires n <= |rs|
    ensures RequestsFields(q, MapRequests(q, rs, g), n) == MapFields(RequestsFields(q, rs, n), g)
  {
    hide RequestFields, MapRequest;
    if n > 0 {
      var p := q + ["r" + Itoa(n - 1)];
      RequestsFieldsMapped(q, rs, g, n - 1);
      RequestFieldsMapped(p, rs[n - 1], g);
      MapFieldsAppend(RequestsFields(q, rs, n - 1), RequestFields(p, rs[n - 1]), g);
    }
  }

  lemma {:induction false} FolderFieldsMapped(q: seq<string>, f: Folder, g: Swap)
    ensures FolderFields(q, MapFolder(q, f, g)) == MapFields(FolderFields(q, f), g)
    decreases f
  {
    hide AuthFields, VarFields, RequestsFields, FoldersFields, MapAuth, MapVars, MapRequests, MapFolders;
    AuthFieldsMapped(q, f.auth, g);
    VarFieldsMapped(q, "v", f.variables, g);
    RequestsFieldsMapped(q, f.items.requests, g, |f.items.requests|);
    FoldersFieldsMapped(q, f.items.folders, g, |f.items.folders|);
    var a, v := AuthFields(q, f.auth), VarFields(q, "v", f.variables);
    var r := RequestsFields(q, f.items.requests, |f.items.requests|);
    MapFieldsAppend(a, v, g);
    MapFieldsAppend(a + v, r, g);
    MapFieldsAppend(a + v + r, FoldersFields(q, f.items.folders, |f.items.folders|), g);
  }

  lemma {:induction false} FoldersFieldsMapped(q: seq<string>, fs: seq<Folder>, g: Swap, n: nat)
    requires n <= |fs|
    ensures FoldersFields(q, MapFolders(q, fs, g), n) == MapFields(FoldersFields(q, fs, n), g)
    decreases fs, n
  {
    hide FolderFields, MapFolder;
    if n > 0 {
      var p := q + ["f" + Itoa(n - 1)];
      FoldersFieldsMapped(q, fs, g, n - 1);
      FolderFieldsMapped(p, fs[n - 1], g);
      MapFieldsAppend(FoldersFields(q, fs, n - 1), FolderFields(p, fs[n - 1]), g);
    }
  }

  lemma {:induction false} EnvFieldsMapped(es: seq<Environment>, g: Swap, n: nat)
    requires n <= |es|
    ensures EnvFields(MapEnvs(es, g), n) == MapFields(EnvFields(es, n), g)
  {
    hide VarFields, MapVars;
    if n > 0 {
      var p := ["e" + Itoa(n - 1)];
      EnvFieldsMapped(es, g, n - 1);
      VarFieldsMapped(p, "v", es[n - 1].variables, g);
      MapFieldsAppend(EnvFields(es, n - 1), VarFields(p, "v", es[n - 1].variables), g);
    }
  }

  /** Rewriting the fields rewrites exactly the values the walk visits, in place and in order. */
  lemma {:induction false} FieldsMapped(c: Collection, g: Swap)
    ensures Fields(MapCollection(c, g)) == MapFields(Fields(c), g)
  {
    hide AuthFields, VarFields, RequestsFields, FoldersFields, EnvFields, MapAuth, MapVars, MapRequests, MapFolders, MapEnvs;
    AuthFieldsMapped(["col"], c.auth, g);
    RequestsFieldsMapped([], c.items.requests, g, |c.items.requests|);
    FoldersFieldsMapped([], c.items.folders, g, |c.items.folders|);
    EnvFieldsMapped(c.environments, g, |c.environments|);
    VarFieldsMapped([], "cv", c.variables, g);
    var a, r := AuthFields(["col"], c.auth), RequestsFields([], c.items.requests, |c.items.requests|);
    var f, e := FoldersFields([], c.items.folders, |c.items.folders|), EnvFields(c.environments, |c.environments|);
    MapFieldsAppend(a, r, g);
    MapFieldsAppend(a + r, f, g);
    MapFieldsAppend(a + r + f, e, g);
    MapFieldsAppend(a + r + f + e, VarFields([], "cv", c.variables), g);
  }

  // ----- undoing a rewrite -----

  /** h puts back what g replaced, on every one of these fields. */
  ghost predicate Undoes(fs: seq<Field>, g: Swap, h: Swap) {
    forall f <- fs :: h(Key(f.path), g(Key(f.path), f.value)) == f.value
  }

  lemma {:induction false} SlotUndone(q: seq<string>, slots: seq<Slot>, n: nat, i: nat, g: Swap, h: Swap)
    requires i < n <= |slots| && Undoes(SlotFields(q, slots, n), g, h)
    ensures slots[i].held.Some? ==>
        h(Key(q + [slots[i].tag]), g(Key(q + [slots[i].tag]), slots[i].held.value)) == slots[i].held.value
  {
    hide Key;
    if i < n - 1 {
      SlotUndone(q, slots, n - 1, i, g, h);
    } else if slots[i].held.Some? {
      var f := Field(q + [slots[i].tag], slots[i].held.value);
      assert SlotFields(q, slots, n) == SlotFields(q, slots, n - 1) + [f];
      assert f in SlotFields(q, slots, n);
    }
  }

  ghost predicate HeldUndone(held: Option<string>, k: string, g: Swap, h: Swap) {
    held.Some? ==> h(k, g(k, held.value)) == held.value
  }

  lemma {:induction false} AuthUndone(q: seq<string>, a: Auth, g: Swap, h: Swap)
    requires Undoes(AuthFields(q, a), g, h)
    ensures MapAuth(q, MapAuth(q, a, g), h) == a
  {
    hide Key, SlotFields, Undoes, AuthSecrets, MapAuth;
    forall i: nat | i < 11
      ensures HeldUndone(AuthSecrets(a)[i], AuthKey(q, i), g, h)
    {
      assert AuthSlots(a)[i] == Slot(AUTH_TAGS[i], AuthSecrets(a)[i]);
      SlotUndone(q + ["auth"], AuthSlots(a), 11, i, g, h);
    }
    FirstBlocksUndone(q, a, g, h);
    LastBlocksUndone(q, a, g, h);
    SameAuth(q, a, g, h);
  }

  lemma {:induction false} FirstBlocksUndone(q: seq<string>, a: Auth, g: Swap, h: Swap)
    requires forall i: nat | i < 11 :: HeldUndone(AuthSecrets(a)[i], AuthKey(q, i), g, h)
    ensures var b := MapAuth(q, MapAuth(q, a, g), h);
            b.basic == a.basic && b.bearer == a.bearer && b.apiKey == a.apiKey && b.oauth2 == a.oauth2 && b.wsse == a.wsse
  {
    hide AuthKey;
    var s := AuthSecrets(a);
    assert HeldUndone(s[0], AuthKey(q, 0), g, h) && HeldUndone(s[1], AuthKey(q, 1), g, h);
    assert HeldUndone(s[2], AuthKey(q, 2), g, h) && HeldUndone(s[3], AuthKey(q, 3), g, h);
    assert HeldUndone(s[4], AuthKey(q, 4), g, h);
  }

  lemma {:induction false} LastBlocksUndone(q: seq<string>, a: Auth, g: Swap, h: Swap)
    requires forall i: nat | i < 11 :: HeldUndone(AuthSecrets(a)[i], AuthKey(q, i), g, h)
    ensures var b := MapAuth(q, MapAuth(q, a, g), h);
            b.oauth1 == a.oauth1 && b.awsv4 == a.awsv4 && b.digest == a.digest && b.ntlm == a.ntlm
  {
    hide AuthKey;
    var s := AuthSecrets(a);
    assert HeldUndone(s[5], AuthKey(q, 5), g, h) && HeldUndone(s[6], AuthKey(q, 6), g, h);
    assert HeldUndone(s[7], AuthKey(q, 7), g, h) && HeldUndone(s[8], AuthKey(q, 8), g, h);
    assert HeldUndone(s[9], AuthKey(q, 9), g, h) && HeldUndone(s[10], AuthKey(q, 10), g, h);
  }

  lemma {:induction false} SameAuth(q: seq<string>, a: Auth, g: Swap, h: Swap)
    requires var b := MapAuth(q, MapAuth(q, a, g), h);
             && b.basic == a.basic && b.bearer == a.bearer && b.apiKey == a.apiKey && b.oauth2 == a.oauth2
             && b.wsse == a.wsse && b.oauth1 == a.oauth1 && b.awsv4 == a.awsv4 && b.digest == a.digest && b.ntlm == a.ntlm
    ensures MapAuth(q, MapAuth(q, a, g), h) == a
  {
    hide AuthKey;
    assert MapAuth(q, MapAuth(q, a, g), h).typ == a.typ;
  }

  lemma {:induction false} VarsUndone(q: seq<string>, tag: string, vs: seq<Variable>, g: Swap, h: Swap)
    requires Undoes(VarFields(q, tag, vs), g, h)
    ensures MapVars(q, tag, MapVars(q, tag, vs, g), h) == vs
  {
    hide Key, SlotFields, Undoes;
    forall j | 0 <= j < |vs|
      ensures MapVars(q, tag, MapVars(q, tag, vs, g), h)[j] == vs[j]
    {
      SlotUndone(q, VarSlots(tag, vs), |vs|, j, g, h);
    }
  }

  lemma {:induction false} RequestUndone(q: seq<string>, r: Request, g: Swap, h: Swap)
    requires Undoes(RequestFields(q, r), g, h)
    ensures MapRequest(q, MapRequest(q, r, g), h) == r
  {
    hide AuthFields, VarFields, MapAuth, MapVars;
    assert Undoes(AuthFields(q, r.auth), g, h) && Undoes(VarFields(q, "v", r.variables), g, h);
    AuthUndone(q, r.auth, g, h);
    VarsUndone(q, "v", r.variables, g, h);
  }

  lemma {:induction false} RequestsUndone(q: seq<string>, rs: seq<Request>, n: nat, i: nat, g: Swap, h: Swap)
    requires i < n <= |rs| && Undoes(RequestsFields(q, rs, n), g, h)
    ensures MapRequest(q + ["r" + Itoa(i)], MapRequest(q + ["r" + Itoa(i)], rs[i], g), h) == rs[i]
  {
    hide RequestFields, MapRequest;
    if i < n - 1 {
      RequestsUndone(q, rs, n - 1, i, g, h);
    } else {
      RequestUndone(q + ["r" + Itoa(i)], rs[i], g, h);
    }
  }

  lemma {:induction false} FolderUndone(q: seq<string>, f: Folder, g: Swap, h: Swap)
    requires Undoes(FolderFields(q, f), g, h)
    ensures MapFolder(q, MapFolder(q, f, g), h) == f
    decreases f, 1
  {
    hide AuthFields, VarFields, RequestsFields, FoldersFields, MapAuth, MapVars, MapItems;
    AuthUndone(q, f.auth, g, h);
    VarsUndone(q, "v", f.variables, g, h);
    ItemsUndone(q, f.items, g, h);
  }

  lemma {:induction false} ItemsUndone(q: seq<string>, c: Container, g: Swap, h: Swap)
    requires Undoes(RequestsFields(q, c.requests, |c.requests|), g, h)
    requires Undoes(FoldersFields(q, c.folders, |c.folders|), g, h)
    ensures MapItems(q, MapItems(q, c, g), h) == c
    decreases c, 0
  {
    hide MapRequest, MapFolder, Undoes;
    assert MapRequests(q, MapRequests(q, c.requests, g), h) == c.requests by {
      forall i | 0 <= i < |c.requests|
        ensures MapRequests(q, MapRequests(q, c.requests, g), h)[i] == c.requests[i]
      {
        RequestsUndone(q, c.requests, |c.requests|, i, g, h);
      }
    }
    AllFoldersUndone(q, c.folders, g, h);
  }

  lemma {:induction false} AllFoldersUndone(q: seq<string>, fs: seq<Folder>, g: Swap, h: Swap)
    requires Undoes(FoldersFields(q, fs, |fs|), g, h)
    ensures MapFolders(q, MapFolders(q, fs, g), h) == fs
    decreases fs, |fs| + 1
  {
    hide MapFolder, Undoes;
    var once := MapFolders(q, fs, g);
    var back := MapFolders(q, once, h);
    forall i | 0 <= i < |fs|
      ensures back[i] == fs[i]
    {
      var p := q + ["f" + Itoa(i)];
      FoldersUndone(q, fs, |fs|, i, g, h);
      assert once[i] == MapFolder(p, fs[i], g);
      assert back[i] == MapFolder(p, once[i], h);
    }
  }

  lemma {:induction false} FoldersUndone(q: seq<string>, fs: seq<Folder>, n: nat, i: nat, g: Swap, h: Swap)
    requires i < n <= |fs| && Undoes(FoldersFields(q, fs, n), g, h)
    ensures MapFolder(q + ["f" + Itoa(i)], MapFolder(q + ["f" + Itoa(i)], fs[i], g), h) == fs[i]
    decreases fs, n
  {
    hide FolderFields, MapFolder;
    if i < n - 1 {
      FoldersUndone(q, fs, n - 1, i, g, h);
    } else {
      FolderUndone(q + ["f" + Itoa(i)], fs[i], g, h);
    }
  }

  lemma {:induction false} EnvUndone(es: seq<Environment>, n: nat, i: nat, g: Swap, h: Swap)
    requires i < n <= |es| && Undoes(EnvFields(es, n), g, h)
    ensures MapVars(["e" + Itoa(i)], "v", MapVars(["e" + Itoa(i)], "v", es[i].variables, g), h) == es[i].variables
  {
    hide VarFields, MapVars;
    if i < n - 1 {
      EnvUndone(es, n - 1, i, g, h);
    } else {
      VarsUndone(["e" + Itoa(i)], "v", es[i].variables, g, h);
    }
  }

  lemma {:induction false} CollectionUndone(c: Collection, g: Swap, h: Swap)
    requires Undoes(Fields(c), g, h)
    ensures MapCollection(MapCollection(c, g), h) == c
  {
    hide AuthFields, VarFields, RequestsFields, FoldersFields, EnvFields, MapAuth, MapVars, MapItems;
    AuthUndone(["col"], c.auth, g, h);
    ItemsUndone([], c.items, g, h);
    forall i | 0 <= i < |c.environments|
      ensures MapEnvs(MapEnvs(c.environments, g), h)[i] == c.environments[i]
    {
      EnvUndone(c.environments, |c.environments|, i, g, h);
    }
    VarsUndone([], "cv", c.variables, g, h);
  }

  // ----- taking the values out and putting them back -----

  function Blank(k: string, val: string): string { "" }

  /** An empty field takes what the store has for it; any other is left alone. */
  function FillFrom(store: Store): Swap {
    (k: string, val: string) => if val == "" && k in store then store[k] else val
  }

  /** The store after every non-empty value has been put in, in visiting order. */
  function Collect(store: Store, fs: seq<Field>): Store {
    if fs == [] then store
    else
      var f := fs[|fs| - 1];
      var before := Collect(store, fs[..|fs| - 1]);
      if f.value == "" then before else before[Key(f.path) := f.value]
  }

  lemma {:induction false} CollectAppend(store: Store, xs: seq<Field>, ys: seq<Field>)
    ensures Collect(store, xs + ys) == Collect(Collect(store, xs), ys)
  {
    hide Key;
    if ys == [] {
      assert xs + ys == xs;
    } else {
      assert (xs + ys)[..|xs + ys| - 1] == xs + ys[..|ys| - 1];
      CollectAppend(store, xs, ys[..|ys| - 1]);
    }
  }

  function Swapped(taking: bool, store: Store): Swap {
    if taking then Blank else FillFrom(store)
  }

  function Gathered(taking: bool, store: Store, fs: seq<Field>): Store {
    if taking then Collect(store, fs) else store
  }

  lemma GatheredAppend(taking: bool, store: Store, xs: seq<Field>, ys: seq<Field>)
    ensures Gathered(taking, Gathered(taking, store, xs), ys) == Gathered(taking, store, xs + ys)
    ensures Swapped(taking, Gathered(taking, store, xs)) == Swapped(taking, store)
  {
    CollectAppend(store, xs, ys);
  }

  /** The walk `eachSecret` with the callback of `splitSecrets` (taking) or of `applySecrets`. */
  class Walk {
    const taking: bool
    var secrets: Store

    constructor (taking: bool, secrets: Store)
      ensures this.taking == taking && this.secrets == secrets
    {
      this.taking := taking;
      this.secrets := secrets;
    }

    /** The callback. */
    method Visit(key: string, val: string, ghost path: seq<string>) returns (out: string)
      requires key == Key(path)
      modifies this
      ensures out == Swapped(taking, old(secrets))(key, val)
      ensures secrets == Gathered(taking, old(secrets), [Field(path, val)])
    {
      hide Key;
      assert [Field(path, val)][..0] == [];
      assert Collect(secrets, []) == secrets;
      out := val;
      if taking {
        if val != "" {
          secrets := secrets[key := val];
          out := "";
        }
      } else if val == "" && key in secrets {
        out := secrets[key];
      }
    }

    /** One optional secret of an auth. */
    method VisitHeld(prefix: string, i: nat, held: Option<string>, ghost q: seq<string>) returns (out: Option<string>)
      requires q != [] && prefix == Key(q) && i < 11
      modifies this
      ensures out == MapHeld(held, AuthKey(q, i), Swapped(taking, old(secrets)))
      ensures secrets == Gathered(taking, old(secrets), if held.None? then [] else [Field(q + ["auth"] + [AUTH_TAGS[i]], held.value)])
    {
      hide Key;
      KeySnoc(q, "auth");
      KeySnoc(q + ["auth"], AUTH_TAGS[i]);
      out := held;
      if held.Some? {
        var v := Visit(prefix + "/" + "auth" + "/" + AUTH_TAGS[i], held.value, q + ["auth"] + [AUTH_TAGS[i]]);
        out := Some(v);
      }
    }

    /** `authSecrets`: the secrets present, in the order of `AUTH_TAGS`. */
    method VisitSecrets(prefix: string, held: seq<Option<string>>, ghost q: seq<string>, ghost a: Auth)
      returns (out: seq<Option<string>>)
      requires q != [] && prefix == Key(q) && held == AuthSecrets(a)
      modifies this
      ensures |out| == 11
      ensures forall i: nat | i < 11 :: out[i] == MapHeld(held[i], AuthKey(q, i), Swapped(taking, old(secrets)))
      ensures secrets == Gathered(taking, old(secrets), AuthFields(q, a))
    {
      hide Key, AuthSecrets, AuthKey, Swapped, Gathered;
      out := [];
      ghost var p, slots := q + ["auth"], AuthSlots(a);
      assert secrets == Gathered(taking, secrets, SlotFields(p, slots, 0)) by {
        NothingGathered(taking, secrets);
      }
      for i := 0 to 11
        invariant |out| == i
        invariant forall k: nat | k < i :: out[k] == MapHeld(held[k], AuthKey(q, k), Swapped(taking, old(secrets)))
        invariant secrets == Gathered(taking, old(secrets), SlotFields(p, slots, i))
      {
        ghost var next := if held[i].None? then [] else [Field(p + [AUTH_TAGS[i]], held[i].value)];
        GatheredAppend(taking, old(secrets), SlotFields(p, slots, i), next);
        var v := VisitHeld(prefix, i, held[i], q);
        assert slots[i] == Slot(AUTH_TAGS[i], held[i]);
        assert SlotFields(p, slots, i + 1) == SlotFields(p, slots, i) + next;
        out := out + [v];
      }
    }

    method VisitAuth(prefix: string, a: Auth, ghost q: seq<string>) returns (out: Auth)
      requires q != [] && prefix == Key(q)
      modifies this
      ensures out == MapAuth(q, a, Swapped(taking, old(secrets)))
      ensures secrets == Gathered(taking, old(secrets), AuthFields(q, a))
    {
      hide Key, AuthKey, Swapped, Gathered, AuthFields, AuthSecrets, MapAuth;
      var s := VisitSecrets(prefix, AuthSecrets(a), q, a);
      out := Rebuilt(a, s);
      RebuiltIsMapped(q, a, s, Swapped(taking, old(secrets)));
    }

    method VisitVar(prefix: string, tag: string, v: Variable, j: nat, ghost q: seq<string>) returns (out: Variable)
      requires prefix == if q == [] then "" else Key(q) + "/"
      modifies this
      ensures out == MapVar(q, tag, v, j, Swapped(taking, old(secrets)))
      ensures secrets == Gathered(taking, old(secrets), if v.secret then [Field(q + [tag + Itoa(j)], v.value)] else [])
    {
      hide Key, Swapped, Gathered;
      NothingGathered(taking, secrets);
      out := v;
      if v.secret {
        PrefixedKey(prefix, q, tag + Itoa(j));
        assert prefix + tag + Itoa(j) == prefix + (tag + Itoa(j));
        var val := Visit(prefix + tag + Itoa(j), v.value, q + [tag + Itoa(j)]);
        out := v.(value := val);
      }
    }

    /** `variableSecrets`, and the loops of `eachSecret` over environment and collection variables. */
    method VisitVars(prefix: string, tag: string, vs: seq<Variable>, ghost q: seq<string>) returns (out: seq<Variable>)
      requires prefix == if q == [] then "" else Key(q) + "/"
      modifies this
      ensures out == MapVars(q, tag, vs, Swapped(taking, old(secrets)))
      ensures secrets == Gathered(taking, old(secrets), VarFields(q, tag, vs))
    {
      hide Key, Swapped, Gathered, MapVar;
      out := vs;
      ghost var slots := VarSlots(tag, vs);
      NothingGathered(taking, secrets);
      for j := 0 to |vs|
        invariant |out| == |vs|
        invariant forall k :: j <= k < |vs| ==> out[k] == vs[k]
        invariant forall k :: 0 <= k < j ==> out[k] == MapVar(q, tag, vs[k], k, Swapped(taking, old(secrets)))
        invariant secrets == Gathered(taking, old(secrets), SlotFields(q, slots, j))
      {
        ghost var next := if vs[j].secret then [Field(q + [tag + Itoa(j)], vs[j].value)] else [];
        GatheredAppend(taking, old(secrets), SlotFields(q, slots, j), next);
        var v := VisitVar(prefix, tag, vs[j], j, q);
        out := out[j := v];
        assert SlotFields(q, slots, j + 1) == SlotFields(q, slots, j) + next;
      }
    }

    method VisitRequest(prefix: string, r: Request, ghost q: seq<string>) returns (out: Request)
      requires q != [] && prefix == Key(q)
      modifies this
      ensures out == MapRequest(q, r, Swapped(taking, old(secrets)))
      ensures secrets == Gathered(taking, old(secrets), RequestFields(q, r))
    {
      hide Key, Swapped, Gathered, MapAuth, MapVars, AuthFields, VarFields;
      GatheredAppend(taking, secrets, AuthFields(q, r.auth), VarFields(q, "v", r.variables));
      var a := VisitAuth(prefix, r.auth, q);
      var vs := VisitVars(prefix + "/", "v", r.variables, q);
      out := r.(auth := a, variables := vs);
    }

    method VisitRequests(prefix: string, rs: seq<Request>, ghost q: seq<string>) returns (out: seq<Request>)
      requires prefix == if q == [] then "" else Key(q) + "/"
      modifies this
      ensures out == MapRequests(q, rs, Swapped(taking, old(secrets)))
      ensures secrets == Gathered(taking, old(secrets), RequestsFields(q, rs, |rs|))
    {
      hide Key, Swapped, Gathered, MapRequest, RequestFields;
      out := rs;
      NothingGathered(taking, secrets);
      for i := 0 to |rs|
        invariant |out| == |rs|
        invariant forall k :: i <= k < |rs| ==> out[k] == rs[k]
        invariant forall k :: 0 <= k < i ==> out[k] == MapRequest(q + ["r" + Itoa(k)], rs[k], Swapped(taking, old(secrets)))
        invariant secrets == Gathered(taking, old(secrets), RequestsFields(q, rs, i))
      {
        ghost var p := q + ["r" + Itoa(i)];
        PrefixedKey(prefix, q, "r" + Itoa(i));
        GatheredAppend(taking, old(secrets), RequestsFields(q, rs, i), RequestFields(p, rs[i]));
        var r := VisitRequest(prefix + ("r" + Itoa(i)), rs[i], p);
        out := out[i := r];
      }
    }

    method VisitFolder(prefix: string, f: Folder, ghost q: seq<string>) returns (out: Folder)
      requires q != [] && prefix == Key(q)
      modifies this
      ensures out == MapFolder(q, f, Swapped(taking, old(secrets)))
      ensures secrets == Gathered(taking, old(secrets), FolderFields(q, f))
      decreases f, 1
    {
      hide Key, Swapped, Gathered, MapAuth, MapVars, MapRequests, MapFolders, AuthFields, VarFields, RequestsFields, FoldersFields;
      ghost var s0, a, v := secrets, AuthFields(q, f.auth), VarFields(q, "v", f.variables);
      ghost var r, g := RequestsFields(q, f.items.requests, |f.items.requests|), FoldersFields(q, f.items.folders, |f.items.folders|);
      GatheredAppend(taking, s0, a, v);
      GatheredAppend(taking, s0, a + v, r);
      GatheredAppend(taking, s0, a + v + r, g);
      var auth := VisitAuth(prefix, f.auth, q);
      var vs := VisitVars(prefix + "/", "v", f.variables, q);
      var rs := VisitRequests(prefix + "/", f.items.requests, q);
      var fs := VisitFolders(prefix + "/", f.items.folders, q);
      out := f.(auth := auth, variables := vs, items := Container(fs, rs));
    }

    /** `eachFolderSecret`. */
    method VisitFolders(prefix: string, fs: seq<Folder>, ghost q: seq<string>) returns (out: seq<Folder>)
      requires prefix == if q == [] then "" else Key(q) + "/"
      modifies this
      ensures out == MapFolders(q, fs, Swapped(taking, old(secrets)))
      ensures secrets == Gathered(taking, old(secrets), FoldersFields(q, fs, |fs|))
      decreases fs, 0
    {
      hide Key, Swapped, Gathered, MapFolder, FolderFields;
      out := fs;
      NothingGathered(taking, secrets);
      for i := 0 to |fs|
        invariant |out| == |fs|
        invariant forall k :: i <= k < |fs| ==> out[k] == fs[k]
        invariant forall k :: 0 <= k < i ==> out[k] == MapFolder(q + ["f" + Itoa(k)], fs[k], Swapped(taking, old(secrets)))
        invariant secrets == Gathered(taking, old(secrets), FoldersFields(q, fs, i))
      {
        ghost var p := q + ["f" + Itoa(i)];
        PrefixedKey(prefix, q, "f" + Itoa(i));
        GatheredAppend(taking, old(secrets), FoldersFields(q, fs, i), FolderFields(p, fs[i]));
        var f := VisitFolder(prefix + ("f" + Itoa(i)), fs[i], p);
        out := out[i := f];
      }
    }

    method VisitEnvs(es: seq<Environment>) returns (out: seq<Environment>)
      modifies this
      ensures out == MapEnvs(es, Swapped(taking, old(secrets)))
      ensures secrets == Gathered(taking, old(secrets), EnvFields(es, |es|))
    {
      hide Swapped, Gathered, MapVars, VarFields;
      out := es;
      NothingGathered(taking, secrets);
      for i := 0 to |es|
        invariant |out| == |es|
        invariant forall k :: i <= k < |es| ==> out[k] == es[k]
        invariant forall k :: 0 <= k < i ==>
          out[k] == es[k].(variables := MapVars(["e" + Itoa(k)], "v", es[k].variables, Swapped(taking, old(secrets))))
        invariant secrets == Gathered(taking, old(secrets), EnvFields(es, i))
      {
        GatheredAppend(taking, old(secrets), EnvFields(es, i), VarFields(["e" + Itoa(i)], "v", es[i].variables));
        var vs := VisitVars("e" + Itoa(i) + "/", "v", es[i].variables, ["e" + Itoa(i)]);
        out := out[i := es[i].(variables := vs)];
      }
    }

    /** `eachSecret`. */
    method EachSecret(c: Collection) returns (out: Collection)
      modifies this
      ensures out == MapCollection(c, Swapped(taking, old(secrets)))
      ensures secrets == Gathered(taking, old(secrets), Fields(c))
    {
      hide Swapped, Gathered, MapAuth, MapVars, MapRequests, MapFolders, MapEnvs;
      hide AuthFields, VarFields, RequestsFields, FoldersFields, EnvFields;
      ghost var s0, a, v := secrets, AuthFields(["col"], c.auth), VarFields([], "cv", c.variables);
      ghost var r, g := RequestsFields([], c.items.requests, |c.items.requests|), FoldersFields([], c.items.folders, |c.items.folders|);
      ghost var e := EnvFields(c.environments, |c.environments|);
      GatheredAppend(taking, s0, a, r);
      GatheredAppend(taking, s0, a + r, g);
      GatheredAppend(taking, s0, a + r + g, e);
      GatheredAppend(taking, s0, a + r + g + e, v);
      var auth := VisitAuth("col", c.auth, ["col"]);
      var rs := VisitRequests("", c.items.requests, []);
      var fs := VisitFolders("", c.items.folders, []);
      var es := VisitEnvs(c.environments);
      var vs := VisitVars("", "cv", c.variables, []);
      out := c.(auth := auth, items := Container(fs, rs), environments := es, variables := vs);
    }
  }

  /** `splitSecrets`. The copy it works on is a value here, so the caller's collection keeps its
      secrets by construction. */
  method SplitSecrets(c: Collection) returns (clone: Collection, secrets: Store)
    ensures clone == Blanked(c) && secrets == Extracted(c)
  {
    var walk := new Walk(true, map[]);
    clone := walk.EachSecret(c);
    secrets := walk.secrets;
  }

  /** `applySecrets`. */
  method ApplySecrets(c: Collection, secrets: Store) returns (out: Collection)
    ensures out == Filled(c, secrets)
  {
    if |secrets| == 0 {
      NothingToFill(c, secrets);
      return c;
    }
    var walk := new Walk(false, secrets);
    out := walk.EachSecret(c);
  }

  function Blanked(c: Collection): Collection { MapCollection(c, Blank) }
  function Extracted(c: Collection): Store { Collect(map[], Fields(c)) }
  function Filled(c: Collection, store: Store): Collection { MapCollection(c, FillFrom(store)) }

  // ----- what the pair promises -----

  function Keep(k: string, val: string): string { val }

  lemma {:induction false} KeepAuth(q: seq<string>, a: Auth)
    ensures MapAuth(q, a, Keep) == a
  {
    hide AuthKey;
  }

  lemma {:induction false} KeepVars(q: seq<string>, tag: string, vs: seq<Variable>)
    ensures MapVars(q, tag, vs, Keep) == vs
  {
  }

  lemma {:induction false} KeepRequests(q: seq<string>, rs: seq<Request>)
    ensures MapRequests(q, rs, Keep) == rs
  {
    hide MapAuth, MapVars;
    forall i | 0 <= i < |rs|
      ensures MapRequests(q, rs, Keep)[i] == rs[i]
    {
      var p := q + ["r" + Itoa(i)];
      KeepAuth(p, rs[i].auth);
      KeepVars(p, "v", rs[i].variables);
    }
  }

  lemma {:induction false} KeepFolders(q: seq<string>, fs: seq<Folder>)
    ensures MapFolders(q, fs, Keep) == fs
    decreases fs
  {
    hide MapAuth, MapVars, MapRequests;
    forall i | 0 <= i < |fs|
      ensures MapFolders(q, fs, Keep)[i] == fs[i]
    {
      var p := q + ["f" + Itoa(i)];
      KeepAuth(p, fs[i].auth);
      KeepVars(p, "v", fs[i].variables);
      KeepRequests(p, fs[i].items.requests);
      KeepFolders(p, fs[i].items.folders);
      assert MapFolder(p, fs[i], Keep) == fs[i];
    }
  }

  lemma {:induction false} KeepCollection(c: Collection)
    ensures MapCollection(c, Keep) == c
  {
    hide MapAuth, MapVars, MapRequests, MapFolders;
    KeepAuth(["col"], c.auth);
    KeepRequests([], c.items.requests);
    KeepFolders([], c.items.folders);
    forall i | 0 <= i < |c.environments|
      ensures MapEnvs(c.environments, Keep)[i] == c.environments[i]
    {
      KeepVars(["e" + Itoa(i)], "v", c.environments[i].variables);
    }
    KeepVars([], "cv", c.variables);
  }

  /** A collection none of whose secret fields the store can fill is left as it is; in particular one
      that still carries every secret in clear. */
  lemma {:induction false} NothingToFill(c: Collection, store: Store)
    requires forall f <- Fields(c) :: f.value != "" || Key(f.path) !in store
    ensures Filled(c, store) == c
  {
    hide MapCollection, Key, Fields;
    KeepCollection(c);
    assert Undoes(Fields(c), Keep, FillFrom(store));
    CollectionUndone(c, Keep, FillFrom(store));
  }

  lemma {:induction false} CollectFinds(store: Store, fs: seq<Field>, i: nat)
    requires i < |fs| && Key(fs[i].path) !in store
    requires forall j, k :: 0 <= j < k < |fs| ==> Key(fs[j].path) != Key(fs[k].path)
    ensures fs[i].value == "" ==> Key(fs[i].path) !in Collect(store, fs)
    ensures fs[i].value != "" ==> Key(fs[i].path) in Collect(store, fs) && Collect(store, fs)[Key(fs[i].path)] == fs[i].value
  {
    hide Key;
    var n := |fs| - 1;
    if i < n {
      CollectFinds(store, fs[..n], i);
      assert Key(fs[i].path) != Key(fs[n].path);
    } else {
      CollectMisses(store, fs[..n], Key(fs[i].path));
    }
  }

  lemma {:induction false} CollectMisses(store: Store, fs: seq<Field>, k: string)
    requires k !in store && forall f <- fs :: Key(f.path) != k
    ensures k !in Collect(store, fs)
  {
    hide Key;
    if fs != [] {
      CollectMisses(store, fs[..|fs| - 1], k);
      assert fs[|fs| - 1] in fs;
    }
  }

  lemma {:induction false} StoreHolds(c: Collection, i: nat)
    requires i < |Fields(c)|
    ensures var f := Fields(c)[i];
            FillFrom(Extracted(c))(Key(f.path), "") == f.value
  {
    hide Key, Fields;
    KeysDistinct(c);
    CollectFinds(map[], Fields(c), i);
  }

  /** Applying the extracted secrets to the split collection restores it exactly. */
  lemma {:induction false} ApplyUndoesSplit(c: Collection)
    ensures Filled(Blanked(c), Extracted(c)) == c
  {
    hide MapCollection, Key, Fields, Extracted;
    var fs := Fields(c);
    forall f <- fs
      ensures FillFrom(Extracted(c))(Key(f.path), Blank(Key(f.path), f.value)) == f.value
    {
      var i :| 0 <= i < |fs| && fs[i] == f;
      StoreHolds(c, i);
    }
    CollectionUndone(c, Blank, FillFrom(Extracted(c)));
  }

  /** The split collection has the same secret fields, every one empty. */
  lemma {:induction false} SplitHoldsNoSecret(c: Collection)
    ensures |Fields(Blanked(c))| == |Fields(c)|
    ensures forall i :: 0 <= i < |Fields(c)| ==> Fields(Blanked(c))[i] == Field(Fields(c)[i].path, "")
  {
    hide MapCollection, Key, Fields;
    FieldsMapped(c, Blank);
    forall i | 0 <= i < |Fields(c)|
      ensures MapFields(Fields(c), Blank)[i] == Field(Fields(c)[i].path, "")
    {
      var f := Fields(c)[i];
      assert MapFields(Fields(c), Blank)[i] == f.(value := Blank(Key(f.path), f.value));
    }
  }

  lemma NothingGathered(taking: bool, store: Store)
    ensures Gathered(taking, store, []) == store
  {
  }

  lemma PrefixedKey(prefix: string, q: seq<string>, s: string)
    requires prefix == if q == [] then "" else Key(q) + "/"
    ensures Key(q + [s]) == prefix + s
  {
    if q == [] {
      assert q + [s] == [s];
    } else {
      KeySnoc(q, s);
    }
  }

  /** `a` with the visited secrets written back. */
  function Rebuilt(a: Auth, s: seq<Option<string>>): Auth
    requires |s| == 11
  {
    a.(basic := if a.basic.Some? then Some(a.basic.value.(password := s[0].GetOr(""))) else None,
       bearer := if a.bearer.Some? then Some(a.bearer.value.(token := s[1].GetOr(""))) else None,
       apiKey := if a.apiKey.Some? then Some(a.apiKey.value.(value := s[2].GetOr(""))) else None,
       oauth2 := if a.oauth2.Some? then Some(a.oauth2.value.(clientSecret := s[3].GetOr(""))) else None,
       wsse := if a.wsse.Some? then Some(a.wsse.value.(password := s[4].GetOr(""))) else None,
       oauth1 := if a.oauth1.Some? then Some(a.oauth1.value.(consumerSecret := s[5].GetOr(""), tokenSecret := s[6].GetOr(""))) else None,
       awsv4 := if a.awsv4.Some? then Some(a.awsv4.value.(secretAccessKey := s[7].GetOr(""), sessionToken := s[8].GetOr(""))) else None,
       digest := if a.digest.Some? then Some(a.digest.value.(password := s[9].GetOr(""))) else None,
       ntlm := if a.ntlm.Some? then Some(a.ntlm.value.(password := s[10].GetOr(""))) else None)
  }

  lemma {:induction false} RebuiltIsMapped(q: seq<string>, a: Auth, s: seq<Option<string>>, g: Swap)
    requires |s| == 11
    requires forall i: nat | i < 11 :: s[i] == MapHeld(AuthSecrets(a)[i], AuthKey(q, i), g)
    ensures Rebuilt(a, s) == MapAuth(q, a, g)
  {
    hide AuthKey;
    var t := AuthSecrets(a);
    assert s[0] == MapHeld(t[0], AuthKey(q, 0), g) && s[1] == MapHeld(t[1], AuthKey(q, 1), g);
    assert s[2] == MapHeld(t[2], AuthKey(q, 2), g) && s[3] == MapHeld(t[3], AuthKey(q, 3), g);
    assert s[4] == MapHeld(t[4], AuthKey(q, 4), g) && s[5] == MapHeld(t[5], AuthKey(q, 5), g);
    assert s[6] == MapHeld(t[6], AuthKey(q, 6), g) && s[7] == MapHeld(t[7], AuthKey(q, 7), g);
    assert s[8] == MapHeld(t[8], AuthKey(q, 8), g) && s[9] == MapHeld(t[9], AuthKey(q, 9), g);
    assert s[10] == MapHeld(t[10], AuthKey(q, 10), g);
  }
}
