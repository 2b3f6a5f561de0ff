/** `Klarna::Checkout::Client`: configuration (environment and shared secret),
    host resolution, and the create/read/update protocol for checkout orders.
    The HTTPS transport is an oracle: every request the client sends is
    appended to its `sent` log and answered by a `Server` that sees that log. */
module Checkout {
  import opened Outcomes
  import opened RubyText
  import opened StatusCodes
  import opened Signing

  // ---------------------------------------------------------------- values

  /** The two members of `VALID_ENVS`. */
  datatype Env = Test | Production

  const ProductionHost: string := "https://checkout.klarna.com"
  const TestHost: string := "https://checkout.testdrive.klarna.com"
  const OrdersPath: string := "/checkout/orders"
  const EnvironmentMessage: string := "Environment must be one of: test, production"

  /** `VALID_ENVS.include?(name.to_sym)`, and which member it is. */
  function EnvironmentNamed(name: string): (r: Option<Env>)
    ensures r == Some(Test) <==> name == "test"
    ensures r == Some(Production) <==> name == "production"
  {
    if name == "test" then Some(Test)
    else if name == "production" then Some(Production)
    else None
  }

  /** A Ruby value passed as a request body or as update attributes.
      `to_json` and `to_s` of a Hash are library code, so a Hash carries what
      they give for it; every other truthy value is known by its `to_s`. */
  datatype Value =
    | Nil
    | False
    | Hash(size: nat, json: string, text: string)
    | Scalar(text: string)
  {
    predicate Truthy() { !Nil? && !False? }

    /** `"#{value}"`. */
    function ToS(): string {
      match this
      case Nil => ""
      case False => "false"
      case Hash(_, _, text) => text
      case Scalar(text) => text
    }
  }

  /** `attributes.present? && attributes.is_a?(Hash)`, then `to_json`: a
      non-empty Hash is encoded, anything else is left as it is. */
  function UpdateBody(attributes: Value): (r: Value)
    ensures attributes.Hash? && attributes.size > 0 ==> r == Scalar(attributes.json)
    ensures !(attributes.Hash? && attributes.size > 0) ==> r == attributes
  {
    if attributes.Hash? && attributes.size > 0 then Scalar(attributes.json) else attributes
  }

  /** `request_body ||= order.to_json` in `write_order`. */
  function WriteBody(requestBody: Value, orderJson: string): (r: Value)
    ensures r.Truthy()
    ensures requestBody.Truthy() ==> r == requestBody
    ensures !requestBody.Truthy() ==> r == Scalar(orderJson)
  {
    if requestBody.Truthy() then requestBody else Scalar(orderJson)
  }

  /** The path `write_order` posts to: the collection, or the order itself
      once it has an id (`if order.id`: any String, even "", is truthy). */
  function WritePath(id: Option<string>): (p: string)
    ensures |p| >= |OrdersPath| && p[..|OrdersPath|] == OrdersPath
    ensures p == OrdersPath <==> id.None?
  {
    if id.Some? then OrdersPath + "/" + id.value else OrdersPath
  }

  /** The path `read_order` gets: `"/checkout/orders/#{id}"`. */
  function ReadPath(id: string): (p: string)
    ensures |p| == |OrdersPath| + 1 + |id|
    ensures p[..|OrdersPath| + 1] == OrdersPath + "/"
    ensures p[|OrdersPath| + 1..] == id
  {
    OrdersPath + "/" + id
  }

  /** The id a write path addresses; undoes `WritePath`. */
  function PathId(path: string): Option<string>
  {
    if |path| > |OrdersPath| then Some(path[|OrdersPath| + 1..]) else None
  }

  lemma WritePathRoundTrip(id: Option<string>)
    ensures PathId(WritePath(id)) == id
  {
  }

  /** Distinct ids are written to distinct paths; an id that is set is
      updated where it is read. */
  lemma {:induction false} WritePathInjective(a: Option<string>, b: Option<string>)
    requires WritePath(a) == WritePath(b)
    ensures a == b
  {
    WritePathRoundTrip(a);
    WritePathRoundTrip(b);
  }

  lemma WriteTargetsReadPath(id: string)
    ensures WritePath(Some(id)) == ReadPath(id)
  {
  }

  /** After a create, the follow-up `read_order` in `update_order` gets the
      very resource the `Location` header names. */
  lemma FollowUpReadsLocation(base: string, id: string)
    requires id != [] && '/' !in id
    ensures Interpolate(LastSegment(base + ReadPath(id))) == id
  {
    assert base + ReadPath(id) == (base + OrdersPath) + "/" + id;
    LastSegmentOfUrl(base + OrdersPath, id);
  }

  /** What `update_order` transmits: the encoded attributes for a non-empty
      Hash, the whole order for `nil` or `false`, and any other value as given. */
  lemma UpdateTransmits(attributes: Value, orderJson: string)
    ensures attributes.Hash? && attributes.size > 0 ==>
      WriteBody(UpdateBody(attributes), orderJson) == Scalar(attributes.json)
    ensures !attributes.Truthy() ==> WriteBody(UpdateBody(attributes), orderJson) == Scalar(orderJson)
    ensures attributes.Truthy() && !(attributes.Hash? && attributes.size > 0) ==>
      WriteBody(UpdateBody(attributes), orderJson) == attributes
  {
  }

  // ------------------------------------------------------------- transport

  datatype Verb = Get | Post

  /** A request as it leaves the client: the connection's host, the verb and
      path, the token of the `Authorization: Klarna <token>` header, and the
      body (`Nil` for a GET). */
  datatype Request = Request(host: string, verb: Verb, path: string, authorization: Digest, body: Value)

  /** The status, `Location` header and body of a response. */
  datatype Response = Response(status: int, location: Option<string>, body: string)

  /** The remote API: it answers the last request of the log it is given. */
  type Server = seq<Request> -> Response

  /** A request signed over exactly what it transmits, as the server checks it. */
  predicate SignedOver(req: Request, sharedSecret: Option<string>) {
    req.authorization == SignPayload(req.body.ToS(), sharedSecret)
  }

  /** An exception the client lets through to its caller. */
  datatype Error =
    | Api(error: ApiError)          // raised by handle_status_code
    | RuntimeError(message: string) // raised by environment=
    | NoMethodError(name: string)   // `split` called on a missing Location header

  /** `handle_status_code(response.status, response.body)` followed by the rest
      of the caller: a raise propagates, a yield or a fall-through proceeds. */
  function Checked(resp: Response): (r: Result<Response, Error>)
    ensures r.Failure? <==> resp.status in ErrorCodes
    ensures r.Success? ==> r.value == resp
    ensures r.Failure? ==> r.error.Api? && StatusCode(r.error.error) == resp.status
                           && r.error.error.msg == resp.body
  {
    match HandleStatusCode(resp.status, resp.body)
    case Raise(e) => Failure(Api(e))
    case _ => Success(resp)
  }

  /** What the order operations return: `false` for an invalid order, the
      order passed in, or `Order.new(JSON.parse(body))` for a response body. */
  datatype Reply = Declined | Created(order: Order) | Parsed(body: string)

  // ----------------------------------------------------------------- order

  /** The part of `Klarna::Checkout::Order` the client uses: its id, which
      `create_order` assigns in place, what `valid?` answers and what
      `to_json` produces. */
  class Order {
    var id: Option<string>
    const valid: bool
    const json: string

    constructor (id: Option<string>, valid: bool, json: string)
      ensures this.id == id && this.valid == valid && this.json == json
    {
      this.id := id;
      this.valid := valid;
      this.json := json;
    }
  }

  // ---------------------------------------------------------- configuration

  /** A key/value pair of the Hash given to `Client.new`. */
  datatype Setting = SharedSecret(secret: Option<string>) | EnvironmentName(name: string)

  datatype Config = Config(environment: Option<Env>, sharedSecret: Option<string>)

  /** `args.each { |(k, v)| public_send("#{k}=", v) }` from `start`: the
      configuration the setters leave, and the error that stopped them. */
  function ApplySettings(args: seq<Setting>, start: Config): (Config, Option<Error>)
    decreases |args|
  {
    if args == [] then (start, None)
    else
      match args[0]
      case SharedSecret(s) => ApplySettings(args[1..], start.(sharedSecret := s))
      case EnvironmentName(n) =>
        match EnvironmentNamed(n)
        case None => (start, Some(RuntimeError(EnvironmentMessage)))
        case Some(e) => ApplySettings(args[1..], start.(environment := Some(e)))
  }

  predicate InvalidName(s: Setting) {
    s.EnvironmentName? && EnvironmentNamed(s.name).None?
  }

  /** The settings fail exactly when one of them names an unknown
      environment, and then with the configuration error. */
  lemma {:induction false} SettingsFailOnUnknownEnvironment(args: seq<Setting>, start: Config)
    ensures ApplySettings(args, start).1.Some? <==> exists i :: 0 <= i < |args| && InvalidName(args[i])
    ensures ApplySettings(args, start).1.Some? ==>
      ApplySettings(args, start).1 == Some(RuntimeError(EnvironmentMessage))
    decreases |args|
  {
    if args != [] {
      var next := match args[0]
        case SharedSecret(s) => start.(sharedSecret := s)
        case EnvironmentName(n) => start.(environment := EnvironmentNamed(n));
      SettingsFailOnUnknownEnvironment(args[1..], next);
      if !InvalidName(args[0]) {
        assert ApplySettings(args, start) == ApplySettings(args[1..], next);
        assert forall i :: 1 <= i < |args| ==> args[i] == args[1..][i - 1];
        assert (exists i :: 0 <= i < |args| && InvalidName(args[i]))
           <==> (exists i :: 0 <= i < |args[1..]| && InvalidName(args[1..][i]));
      }
    }
  }

  /** An independent reading of the settings: the value of each key is that
      of its last occurrence. */
  function LastEnvironment(args: seq<Setting>, default: Option<Env>): Option<Env>
  {
    if args == [] then default
    else
      var last := args[|args| - 1];
      if last.EnvironmentName? then EnvironmentNamed(last.name)
      else LastEnvironment(args[..|args| - 1], default)
  }

  function LastSecret(args: seq<Setting>, default: Option<string>): Option<string>
  {
    if args == [] then default
    else
      var last := args[|args| - 1];
      if last.SharedSecret? then last.secret
      else LastSecret(args[..|args| - 1], default)
  }

  lemma {:induction false} SettingsLastWins(args: seq<Setting>, start: Config)
    requires ApplySettings(args, start).1.None?
    ensures ApplySettings(args, start).0
         == Config(LastEnvironment(args, start.environment), LastSecret(args, start.sharedSecret))
    decreases |args|
  {
    if args != [] {
      var next := match args[0]
        case SharedSecret(s) => start.(sharedSecret := s)
        case EnvironmentName(n) => start.(environment := EnvironmentNamed(n));
      assert ApplySettings(args, start) == ApplySettings(args[1..], next);
      SettingsLastWins(args[1..], next);
      LastOfTail(args, start.environment, start.sharedSecret, next);
    }
  }

  /** Reading the settings from the back agrees with reading them from the
      front, one setting at a time. */
  lemma {:induction false} LastOfTail(args: seq<Setting>, env: Option<Env>, secret: Option<string>, next: Config)
    requires args != []
    requires args[0].EnvironmentName? ==> next == Config(EnvironmentNamed(args[0].name), secret)
    requires args[0].SharedSecret? ==> next == Config(env, args[0].secret)
    ensures LastEnvironment(args[1..], next.environment) == LastEnvironment(args, env)
    ensures LastSecret(args[1..], next.sharedSecret) == LastSecret(args, secret)
    decreases |args|
  {
    if |args| > 1 {
      var init := args[..|args| - 1];
      assert init[1..] == args[1..][..|args[1..]| - 1];
      assert init[0] == args[0];
      LastOfTail(init, env, secret, next);
    }
  }

  // ----------------------------------------------------------------- client

  /** The connection `Faraday.new(url: host)` returns, known by its host. */
  datatype Connection = Connection(host: string)

  class Client {
    var sharedSecret: Option<string>
    var environment: Option<Env>       // @environment, nil until assigned
    var connection: Option<Connection> // @https_connection, nil until first use
    var sent: seq<Request>             // every request sent, oldest first

    /** Once the connection exists every request goes through it; none is
        sent before. */
    ghost predicate Valid()
      reads this
    {
      (connection.None? ==> sent == [])
      && (connection.Some? ==> forall i :: 0 <= i < |sent| ==> sent[i].host == connection.value.host)
    }

    /** `Client.allocate`: no field assigned, nothing sent. */
    constructor ()
      ensures Valid()
      ensures sharedSecret.None? && environment.None? && connection.None? && sent == []
    {
      sharedSecret := None;
      environment := None;
      connection := None;
      sent := [];
    }

    /** `initialize(args)`: each setting through its setter, in order; then
        `self.shared_secret ||= Klarna::Checkout.shared_secret`. */
    method Initialize(args: seq<Setting>, defaultSecret: Option<string>) returns (r: Result<(), Error>)
      requires Valid()
      modifies this`sharedSecret, this`environment
      ensures Valid()
      ensures var (cfg, err) := ApplySettings(args, Config(old(environment), old(sharedSecret)));
        environment == cfg.environment
        && (err.Some? ==> r == Failure(err.value) && sharedSecret == cfg.sharedSecret)
        && (err.None? ==>
              r == Success(()) && sharedSecret == if cfg.sharedSecret.Some? then cfg.sharedSecret else defaultSecret)
    {
      ghost var start := Config(environment, sharedSecret);
      var i := 0;
      while i < |args|
        invariant 0 <= i <= |args|
        invariant Valid()
        invariant ApplySettings(args[i..], Config(environment, sharedSecret)) == ApplySettings(args, start)
      {
        assert args[i..][1..] == args[i + 1..];
        match args[i] {
          case SharedSecret(s) =>
            SetSharedSecret(s);
          case EnvironmentName(n) =>
            var stored := SetEnvironment(n);
            if stored.Failure? {
              return Failure(stored.error);
            }
        }
        i := i + 1;
      }
      if sharedSecret.None? {
        sharedSecret := defaultSecret;
      }
      r := Success(());
    }

    /** `shared_secret=`. */
    method SetSharedSecret(s: Option<string>)
      requires Valid()
      modifies this`sharedSecret
      ensures Valid()
      ensures sharedSecret == s
    {
      sharedSecret := s;
    }

    /** `environment`: the stored value, `:test` when none was ever set. */
    function Environment(): (env: Env)
      reads this
      ensures environment.None? ==> env == Test
      ensures environment.Some? ==> env == environment.value
    {
      environment.GetOr(Test)
    }

    /** `environment=`: a valid name is stored, any other raises and leaves
        the stored environment as it was. */
    method SetEnvironment(name: string) returns (r: Result<(), Error>)
      requires Valid()
      modifies this`environment
      ensures Valid()
      ensures EnvironmentNamed(name).Some? ==> r == Success(()) && environment == EnvironmentNamed(name)
      ensures EnvironmentNamed(name).None? ==>
        r == Failure(RuntimeError(EnvironmentMessage)) && environment == old(environment)
    {
      var env := EnvironmentNamed(name);
      if env.None? {
        return Failure(RuntimeError(EnvironmentMessage));
      }
      environment := env;
      r := Success(());
    }

    /** `host`: production's URL exactly in the production environment, the
        testdrive URL otherwise (an environment never set included). */
    function Host(): (h: string)
      reads this
      ensures h == ProductionHost <==> environment == Some(Production)
      ensures h == TestHost <==> environment != Some(Production)
    {
      if Environment() == Production then ProductionHost else TestHost
    }

    /** The host the next request goes to. */
    ghost function NextHost(): string
      reads this
    {
      if connection.Some? then connection.value.host else Host()
    }

    /** `https_connection`: created for the current host on first use, the
        same connection ever after. */
    method HttpsConnection() returns (c: Connection)
      requires Valid()
      modifies this`connection
      ensures Valid()
      ensures old(connection).Some? ==> c == old(connection).value
      ensures old(connection).None? ==> c == Connection(Host())
      ensures connection == Some(c)
    {
      if connection.None? {
        connection := Some(Connection(Host()));
      }
      c := connection.value;
    }

    /** One exchange through the connection: the request is logged and the
        server answers it. */
    method Send(server: Server, verb: Verb, path: string, authorization: Digest, body: Value)
      returns (resp: Response)
      requires Valid()
      modifies this`connection, this`sent
      ensures Valid()
      ensures connection == Some(Connection(old(NextHost())))
      ensures sent == old(sent) + [Request(old(NextHost()), verb, path, authorization, body)]
      ensures resp == server(sent)
    {
      var c := HttpsConnection();
      sent := sent + [Request(c.host, verb, path, authorization, body)];
      resp := server(sent);
    }

    /** `write_order(order, request_body)`: one signed POST to the order's
        path, its status checked. */
    method WriteOrder(server: Server, order: Order, requestBody: Value) returns (r: Result<Response, Error>)
      requires Valid()
      modifies this`connection, this`sent
      ensures Valid()
      ensures connection == Some(Connection(old(NextHost())))
      ensures |sent| == |old(sent)| + 1 && sent[..|old(sent)|] == old(sent)
      ensures var req := sent[|sent| - 1];
        req.host == old(NextHost()) && req.verb == Post && req.path == WritePath(order.id)
        && req.body == WriteBody(requestBody, order.json) && SignedOver(req, sharedSecret)
      ensures r == Checked(server(sent))
    {
      var path := WritePath(order.id);
      var body := WriteBody(requestBody, order.json);
      var resp := Send(server, Post, path, SignPayload(body.ToS(), sharedSecret), body);
      r := Checked(resp);
    }

    /** `create_order(order)`: nothing is sent for an invalid order; otherwise
        one write, after which the order takes the last segment of the
        `Location` header as its id and is returned. */
    method CreateOrder(server: Server, order: Order) returns (r: Result<Reply, Error>)
      requires Valid()
      modifies this`connection, this`sent, order`id
      ensures Valid()
      ensures !order.valid ==>
        r == Success(Declined) && sent == old(sent) && connection == old(connection) && order.id == old(order.id)
      ensures order.valid ==>
        |sent| == |old(sent)| + 1 && sent[..|old(sent)|] == old(sent)
        && sent[|sent| - 1] == Request(old(NextHost()), Post, WritePath(old(order.id)),
                                       SignPayload(order.json, sharedSecret), Scalar(order.json))
      ensures order.valid ==> match Checked(server(sent))
        case Failure(e) => r == Failure(e) && order.id == old(order.id)
        case Success(resp) =>
          if resp.location.None? then r == Failure(NoMethodError("split")) && order.id == old(order.id)
          else r == Success(Created(order)) && order.id == LastSegment(resp.location.value)
    {
      if !order.valid {
        return Success(Declined);
      }
      var w := WriteOrder(server, order, Nil);
      if w.Failure? {
        return Failure(w.error);
      }
      if w.value.location.None? {
        return Failure(NoMethodError("split"));
      }
      order.id := LastSegment(w.value.location.value);
      r := Success(Created(order));
    }

    /** `read_order(id)`: one GET signed over the empty body; the parsed body
        unless the status raised. */
    method ReadOrder(server: Server, id: string) returns (r: Result<Reply, Error>)
      requires Valid()
      modifies this`connection, this`sent
      ensures Valid()
      ensures connection == Some(Connection(old(NextHost())))
      ensures sent == old(sent) + [Request(old(NextHost()), Get, ReadPath(id), SignPayload("", sharedSecret), Nil)]
      ensures SignedOver(sent[|sent| - 1], sharedSecret)
      ensures match Checked(server(sent))
        case Failure(e) => r == Failure(e)
        case Success(resp) => r == Success(Parsed(resp.body))
    {
      var resp := Send(server, Get, ReadPath(id), SignPayload("", sharedSecret), Nil);
      var c := Checked(resp);
      if c.Failure? {
        return Failure(c.error);
      }
      r := Success(Parsed(resp.body));
    }

    /** `update_order(order, attributes)`: nothing is sent for an invalid
        order; otherwise one write, and the result is parsed from its body
        when the order's id is present, or read back in exactly one more
        request from the id in the `Location` header when it is not. */
    method UpdateOrder(server: Server, order: Order, attributes: Value) returns (r: Result<Reply, Error>)
      requires Valid()
      modifies this`connection, this`sent
      ensures Valid()
      ensures !order.valid ==> r == Success(Declined) && sent == old(sent) && connection == old(connection)
      ensures order.valid ==>
        |sent| >= |old(sent)| + 1 && sent[..|old(sent)|] == old(sent)
        && sent[|old(sent)|] == Request(old(NextHost()), Post, WritePath(order.id),
                                        SignPayload(WriteBody(UpdateBody(attributes), order.json).ToS(), sharedSecret),
                                        WriteBody(UpdateBody(attributes), order.json))
      ensures order.valid ==> match Checked(server(sent[..|old(sent)| + 1]))
        case Failure(e) => r == Failure(e) && |sent| == |old(sent)| + 1
        case Success(resp) =>
          if Present(order.id) then r == Success(Parsed(resp.body)) && |sent| == |old(sent)| + 1
          else if resp.location.None? then r == Failure(NoMethodError("split")) && |sent| == |old(sent)| + 1
          else
            |sent| == |old(sent)| + 2
            && sent[|sent| - 1] == Request(old(NextHost()), Get, ReadPath(Interpolate(LastSegment(resp.location.value))),
                                           SignPayload("", sharedSecret), Nil)
            && match Checked(server(sent))
               case Failure(e) => r == Failure(e)
               case Success(read) => r == Success(Parsed(read.body))
    {
      if !order.valid {
        return Success(Declined);
      }
      var body := UpdateBody(attributes);
      var w := WriteOrder(server, order, body);
      ghost var written := sent;
      assert sent[..|old(sent)| + 1] == written;
      if w.Failure? {
        return Failure(w.error);
      }
      if Present(order.id) {
        return Success(Parsed(w.value.body));
      }
      if w.value.location.None? {
        return Failure(NoMethodError("split"));
      }
      var id := LastSegment(w.value.location.value);
      r := ReadOrder(server, Interpolate(id));
      assert sent[..|old(sent)| + 1] == written;
    }
  }
}
