/** Which values a save keeps out of the collection directory: field by field, what the collection that is
    written holds in place of the one that is open. */
module SecretFields {
  import opened Text
  import opened Model
  import opened SecretSplit

  /** An auth without its passwords, tokens and keys; names, places and URLs stay. */
  predicate AuthCleared(was: Auth, now: Auth) {
    && now.typ == was.typ
    && now.basic == (match was.basic case None => None case Some(b) => Some(BasicAuth(b.username, "")))
    && now.bearer == (match was.bearer case None => None case Some(_) => Some(BearerAuth("")))
    && now.apiKey == (match was.apiKey case None => None case Some(k) => Some(APIKeyAuth(k.name, "", k.placement)))
    && now.oauth2 == (match was.oauth2 case None => None case Some(o) =>
         Some(OAuth2Auth(o.grant, o.tokenURL, o.authURL, o.clientID, "", o.scope, o.redirectURI, o.usePKCE, o.audience)))
    && now.wsse == (match was.wsse case None => None case Some(w) => Some(WSSEAuth(w.username, "")))
    && now.oauth1 == (match was.oauth1 case None => None case Some(o) => Some(OAuth1Auth(o.consumerKey, "", o.token, "")))
    && now.awsv4 == (match was.awsv4 case None => None case Some(k) =>
         Some(AWSV4Auth(k.accessKeyID, "", k.region, k.service, "")))
    && now.digest == (match was.digest case None => None case Some(d) => Some(DigestAuth(d.username, "")))
    && now.ntlm == (match was.ntlm case None => None case Some(n) => Some(NTLMAuth(n.username, "", n.domain, n.workstation)))
  }

  /** Variables marked secret lose their values, no others do. */
  ghost predicate VarsCleared(was: seq<Variable>, now: seq<Variable>) {
    && |now| == |was|
    && forall i :: 0 <= i < |was| ==> now[i] == if was[i].secret then was[i].(value := "") else was[i]
  }

  ghost predicate RequestCleared(was: Request, now: Request) {
    && AuthCleared(was.auth, now.auth) && VarsCleared(was.variables, now.variables)
    && now.(auth := was.auth, variables := was.variables) == was
  }

  ghost predicate ItemsCleared(was: Container, now: Container)
    decreases was
  {
    && |now.requests| == |was.requests| && |now.folders| == |was.folders|
    && (forall i :: 0 <= i < |was.requests| ==> RequestCleared(was.requests[i], now.requests[i]))
    && (forall j :: 0 <= j < |was.folders| ==>
          && now.folders[j].id == was.folders[j].id && now.folders[j].name == was.folders[j].name
          && AuthCleared(was.folders[j].auth, now.folders[j].auth)
          && VarsCleared(was.folders[j].variables, now.folders[j].variables)
          && ItemsCleared(was.folders[j].items, now.folders[j].items))
  }

  /** What a save writes of a collection: everything, less the secrets. */
  ghost predicate Cleared(was: Collection, now: Collection) {
    && now.id == was.id && now.name == was.name
    && AuthCleared(was.auth, now.auth) && VarsCleared(was.variables, now.variables)
    && ItemsCleared(was.items, now.items)
    && |now.environments| == |was.environments|
    && forall i :: 0 <= i < |was.environments| ==>
                     && now.environments[i].(variables := was.environments[i].variables) == was.environments[i]
                     && VarsCleared(was.environments[i].variables, now.environments[i].variables)
  }

  lemma AuthIsCleared(q: seq<string>, a: Auth)
    ensures AuthCleared(a, MapAuth(q, a, Blank))
  {
    hide AuthKey;
  }

  lemma VarsAreCleared(q: seq<string>, tag: string, vs: seq<Variable>)
    ensures VarsCleared(vs, MapVars(q, tag, vs, Blank))
  {
  }

  lemma FolderIs(q: seq<string>, c: Container, j: nat)
    requires j < |c.folders|
    ensures var at, f := q + ["f" + Itoa(j)], c.folders[j];
            MapItems(q, c, Blank).folders[j] ==
            Folder(f.id, f.name, MapItems(at, f.items, Blank), MapAuth(at, f.auth, Blank), MapVars(at, "v", f.variables, Blank))
  {
    hide MapAuth, MapVars;
    assert MapItems(q, c, Blank).folders == MapFolders(q, c.folders, Blank);
    assert MapFolders(q, c.folders, Blank)[j] == MapFolder(q + ["f" + Itoa(j)], c.folders[j], Blank);
  }

  lemma {:induction false} ItemsAreCleared(q: seq<string>, c: Container)
    ensures ItemsCleared(c, MapItems(q, c, Blank))
    decreases c
  {
    hide AuthCleared, VarsCleared, MapAuth, MapVars;
    var now := MapItems(q, c, Blank);
    forall i | 0 <= i < |c.requests| ensures RequestCleared(c.requests[i], now.requests[i]) {
      var at := q + ["r" + Itoa(i)];
      AuthIsCleared(at, c.requests[i].auth);
      VarsAreCleared(at, "v", c.requests[i].variables);
    }
    forall j | 0 <= j < |c.folders|
      ensures now.folders[j].id == c.folders[j].id && now.folders[j].name == c.folders[j].name
      ensures AuthCleared(c.folders[j].auth, now.folders[j].auth)
      ensures VarsCleared(c.folders[j].variables, now.folders[j].variables)
      ensures ItemsCleared(c.folders[j].items, now.folders[j].items)
    {
      var at := q + ["f" + Itoa(j)];
      FolderIs(q, c, j);
      AuthIsCleared(at, c.folders[j].auth);
      VarsAreCleared(at, "v", c.folders[j].variables);
      ItemsAreCleared(at, c.folders[j].items);
    }
  }

  /** The collection that is written is the open one less exactly its secrets, at every depth. */
  lemma {:induction false} SavedIsCleared(c: Collection)
    ensures Cleared(c, Blanked(c))
  {
    hide AuthCleared, VarsCleared, MapAuth, MapVars, MapItems;
    AuthIsCleared(["col"], c.auth);
    ItemsAreCleared([], c.items);
    VarsAreCleared([], "cv", c.variables);
    forall i | 0 <= i < |c.environments|
      ensures VarsCleared(c.environments[i].variables, Blanked(c).environments[i].variables)
    {
      VarsAreCleared(["e" + Itoa(i)], "v", c.environments[i].variables);
    }
  }
}
