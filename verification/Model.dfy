/** The domain types of `internal/model`. The pair (folders, requests) that every container of the
    source carries, and that its tree code always passes around together, is one `Container`. */
module Model {
  import opened Text

  datatype BasicAuth = BasicAuth(username: string, password: string)
  datatype BearerAuth = BearerAuth(token: string)
  datatype APIKeyAuth = APIKeyAuth(name: string, value: string, placement: string)
  datatype OAuth2Auth = OAuth2Auth(grant: string, tokenURL: string, authURL: string, clientID: string,
                                   clientSecret: string, scope: string, redirectURI: string,
                                   usePKCE: bool, audience: string)
  datatype WSSEAuth = WSSEAuth(username: string, password: string)
  datatype OAuth1Auth = OAuth1Auth(consumerKey: string, consumerSecret: string, token: string, tokenSecret: string)
  datatype AWSV4Auth = AWSV4Auth(accessKeyID: string, secretAccessKey: string, region: string,
                                 service: string, sessionToken: string)
  datatype DigestAuth = DigestAuth(username: string, password: string)
  datatype NTLMAuth = NTLMAuth(username: string, password: string, domain: string, workstation: string)

  const AUTH_NONE := "none"
  const AUTH_INHERIT := "inherit"

  datatype Auth = Auth(typ: string,
                       basic: Option<BasicAuth>, bearer: Option<BearerAuth>, apiKey: Option<APIKeyAuth>,
                       oauth2: Option<OAuth2Auth>, wsse: Option<WSSEAuth>, oauth1: Option<OAuth1Auth>,
                       awsv4: Option<AWSV4Auth>, digest: Option<DigestAuth>, ntlm: Option<NTLMAuth>)

  /** An Auth of the given type with every scheme block absent. */
  function BareAuth(typ: string): Auth {
    Auth(typ, None, None, None, None, None, None, None, None, None)
  }

  datatype KeyValue = KeyValue(enabled: bool, key: string, value: string, description: string)
  datatype Variable = Variable(enabled: bool, key: string, value: string, secret: bool)
  datatype Body = Body(typ: string, content: string, form: seq<KeyValue>, filePath: string,
                       contentType: string, graphQLVariables: string)
  datatype Scripts = Scripts(preRequest: string, postResponse: string)
  datatype ChainStep = ChainStep(alias: string, request: string, requestID: string)
  datatype Assertion = Assertion(enabled: bool, source: string, op: string, expected: string)

  datatype Request = Request(id: string, name: string, httpMethod: string, url: string,
                             params: seq<KeyValue>, pathParams: seq<KeyValue>, headers: seq<KeyValue>,
                             body: Body, docs: string, auth: Auth, scripts: Scripts,
                             chain: seq<ChainStep>, assertions: seq<Assertion>, variables: seq<Variable>)

  datatype Folder = Folder(id: string, name: string, items: Container, auth: Auth, variables: seq<Variable>)
  datatype Container = Container(folders: seq<Folder>, requests: seq<Request>)
  datatype Environment = Environment(id: string, name: string, variables: seq<Variable>)
  datatype Collection = Collection(id: string, name: string, items: Container,
                                   environments: seq<Environment>, variables: seq<Variable>, auth: Auth)

  const NO_BODY := Body("none", "", [], "", "", "")
  const NO_SCRIPTS := Scripts("", "")

  const EMPTY := Container([], [])

  /** What AddRequest appends: a GET request with the zero value everywhere else. */
  function NewRequest(id: string, name: string): Request {
    Request(id, name, "GET", "", [], [], [], NO_BODY, "", BareAuth(""), NO_SCRIPTS, [], [], [])
  }

  /** What AddFolder appends. */
  function NewFolder(id: string, name: string): Folder {
    Folder(id, name, EMPTY, BareAuth(""), [])
  }
}
