/**
 * The HitBTC REST client: its configuration, the URLs of its public and
 * private calls, the nonce/apikey/signature injection into the caller's
 * options Hash, the signature over the trading path and the encoded
 * parameters, and the selection of what each call returns.
 */
module Hitbtc {
  import opened Wrappers
  import opened Json
  import opened Foreign
  import opened RubyHash
  import opened NonceFormat

  // ------------------------------------------------------------------
  // Configuration
  // ------------------------------------------------------------------

  const DefaultVersion := "1"
  const DefaultBaseUri := "api.hitbtc.com"

  /** The `options` Hash of the constructor: `:version` and `:base_uri`, each possibly nil. */
  datatype Options = Options(version: Option<string>, baseUri: Option<string>)

  /** What the `key.yml` credentials file holds under "key" and "secret". */
  datatype KeyFile = KeyFile(key: string, secret: string)

  /** A client's instance variables; they are set once, by Initialize. */
  datatype Client = Client(apiKey: string, apiSecret: string, apiVersion: string, baseUri: string)

  /** A request handed to the transport. */
  datatype Request =
    | Get(url: string, options: seq<Entry>)
    | Post(url: string, body: string)

  /**
   * `options[:version] ||= '1'` and `options[:base_uri] ||= 'api.hitbtc.com'`:
   * the caller's options after the constructor has filled in the defaults.
   * A given value, even an empty string, is kept.
   */
  function WithDefaults(o: Options): (r: Options)
    ensures r.version.Some? && r.baseUri.Some?
    ensures o.version.Some? ==> r.version == o.version
    ensures o.baseUri.Some? ==> r.baseUri == o.baseUri
    ensures o.version.None? ==> r.version == Some(DefaultVersion)
    ensures o.baseUri.None? ==> r.baseUri == Some(DefaultBaseUri)
  {
    Options(
      Some(if o.version.Some? then o.version.value else DefaultVersion),
      Some(if o.baseUri.Some? then o.baseUri.value else DefaultBaseUri))
  }

  /**
   * The constructor: a key or secret that is not given is read from the
   * credentials file; version and host come from WithDefaults.
   */
  function Initialize(apiKey: Option<string>, apiSecret: Option<string>, options: Options, file: KeyFile): (c: Client)
    ensures c.apiKey == if apiKey.Some? then apiKey.value else file.key
    ensures c.apiSecret == if apiSecret.Some? then apiSecret.value else file.secret
    ensures Some(c.apiVersion) == WithDefaults(options).version
    ensures Some(c.baseUri) == WithDefaults(options).baseUri
  {
    var o := WithDefaults(options);
    Client(
      if apiKey.Some? then apiKey.value else file.key,
      if apiSecret.Some? then apiSecret.value else file.secret,
      o.version.value,
      o.baseUri.value)
  }

  /** A client built with no options talks to version 1 at api.hitbtc.com. */
  lemma InitializeDefaults(key: string, secret: string, file: KeyFile)
    ensures Initialize(Some(key), Some(secret), Options(None, None), file)
         == Client(key, secret, "1", "api.hitbtc.com")
    ensures Initialize(None, None, Options(None, None), file)
         == Client(file.key, file.secret, "1", "api.hitbtc.com")
  {
  }

  // ------------------------------------------------------------------
  // Public calls
  // ------------------------------------------------------------------

  /** The public URL: the http scheme and host, then the name last. */
  function PublicUrl(c: Client, name: string): (r: string)
    ensures |r| == 20 + |c.baseUri| + |c.apiVersion| + |name|
    ensures r[..7] == "http://" && r[7..7 + |c.baseUri|] == c.baseUri
    ensures r[|r| - |name|..] == name
  {
    var prefix := "http://" + c.baseUri + "/api/" + c.apiVersion + "/public/";
    assert prefix[..7] == "http://" && prefix[7..7 + |c.baseUri|] == c.baseUri;
    SuffixOf(prefix, name);
    prefix + name
  }

  /** get_public: a GET of the public URL with the caller's options passed on. */
  function GetPublic(c: Client, name: string, opts: seq<Entry>): (r: Request)
    ensures r.Get? && r.url == PublicUrl(c, name) && r.options == opts
  {
    Get(PublicUrl(c, name), opts)
  }

  /** server_time and symbols fetch `time` and `symbols` with no options. */
  function ServerTimeRequest(c: Client): (r: Request)
    ensures r.Get? && r.url == PublicUrl(c, "time") && r.options == []
  {
    GetPublic(c, "time", [])
  }

  function SymbolsRequest(c: Client): (r: Request)
    ensures r.Get? && r.url == PublicUrl(c, "symbols") && r.options == []
  {
    GetPublic(c, "symbols", [])
  }

  function TickerRequest(c: Client, symbol: string): Request { GetPublic(c, symbol + "/ticker", []) }
  function OrderBookRequest(c: Client, symbol: string, opts: seq<Entry>): Request { GetPublic(c, symbol + "/orderbook", opts) }
  function TradesRequest(c: Client, symbol: string, opts: seq<Entry>): Request { GetPublic(c, symbol + "/trades", opts) }

  /** server_time: the `timestamp` of the response to ServerTimeRequest; absent or null is nil. */
  function ServerTime(c: Client, transport: Request -> Object): (r: Option<Value>)
    ensures var response := transport(ServerTimeRequest(c));
            && (r.Some? <==> "timestamp" in response && response["timestamp"] != Null)
            && (r.Some? ==> r.value == response["timestamp"])
  {
    MashField(transport(GetPublic(c, "time", [])), "timestamp")
  }

  /** The last `|suffix|` characters of a concatenation are the suffix. */
  lemma SuffixOf(prefix: string, suffix: string)
    ensures (prefix + suffix)[|prefix|..] == suffix
  {
  }

  /** Different public method names give different URLs: the URL determines the call. */
  lemma PublicUrlInjective(c: Client, a: string, b: string)
    requires PublicUrl(c, a) == PublicUrl(c, b)
    ensures a == b
  {
    var prefix := "http://" + c.baseUri + "/api/" + c.apiVersion + "/public/";
    assert PublicUrl(c, a) == prefix + a && PublicUrl(c, b) == prefix + b;
    SuffixOf(prefix, a);
    SuffixOf(prefix, b);
  }

  /**
   * The symbol-scoped calls: each requests `http://HOST/api/V/public/`
   * followed by the symbol and its suffix, ticker without options and order
   * book and trades with the caller's.
   */
  lemma SymbolScopedRequests(c: Client, symbol: string, opts: seq<Entry>)
    ensures TickerRequest(c, symbol)
         == Get("http://" + c.baseUri + "/api/" + c.apiVersion + "/public/" + symbol + "/ticker", [])
    ensures OrderBookRequest(c, symbol, opts)
         == Get("http://" + c.baseUri + "/api/" + c.apiVersion + "/public/" + symbol + "/orderbook", opts)
    ensures TradesRequest(c, symbol, opts)
         == Get("http://" + c.baseUri + "/api/" + c.apiVersion + "/public/" + symbol + "/trades", opts)
  {
    var prefix := "http://" + c.baseUri + "/api/" + c.apiVersion + "/public/";
    assert prefix + (symbol + "/ticker") == prefix + symbol + "/ticker";
    assert prefix + (symbol + "/orderbook") == prefix + symbol + "/orderbook";
    assert prefix + (symbol + "/trades") == prefix + symbol + "/trades";
  }

  /** Two symbols' tickers are different requests unless the symbols are equal. */
  lemma TickerDeterminesSymbol(c: Client, s1: string, s2: string)
    requires TickerRequest(c, s1) == TickerRequest(c, s2)
    ensures s1 == s2
  {
    PublicUrlInjective(c, s1 + "/ticker", s2 + "/ticker");
    assert s1 == (s1 + "/ticker")[..|s1|];
    assert |s1| == |s2|;
    assert s2 == (s2 + "/ticker")[..|s2|];
  }

  // ------------------------------------------------------------------
  // Paths and the signature
  // ------------------------------------------------------------------

  /** url_path */
  function UrlPath(c: Client, name: string): (r: string)
    ensures |r| == 14 + |c.apiVersion| + |name|
    ensures r[..5] == "/api/" && r[5..5 + |c.apiVersion|] == c.apiVersion
    ensures r[5 + |c.apiVersion|..14 + |c.apiVersion|] == "/trading/"
    ensures r[|r| - |name|..] == name
  {
    "/api/" + c.apiVersion + "/trading/" + name
  }

  /** The URL of a private call: the trading path once, appended to the host. */
  function PrivateUrl(c: Client, name: string): (r: string)
    ensures |r| == 8 + |c.baseUri| + |UrlPath(c, name)|
    ensures r[..8] == "https://" && r[8..8 + |c.baseUri|] == c.baseUri
    ensures r[8 + |c.baseUri|..] == UrlPath(c, name)
  {
    "https://" + c.baseUri + UrlPath(c, name)
  }

  /** generate_message: the trading path of its first argument, then the data. */
  function GenerateMessage(c: Client, name: string, data: string): (r: string)
    ensures |r| == |UrlPath(c, name)| + |data|
    ensures r[..|UrlPath(c, name)|] == UrlPath(c, name) && r[|UrlPath(c, name)|..] == data
  {
    UrlPath(c, name) + data
  }

  /** generate_hmac: the strict Base64 encoding of the HMAC-SHA512 digest. */
  function GenerateHmac(lib: Library, key: string, message: string): string {
    lib.strictEncode64(lib.hmacSha512(key, message))
  }

  /** generate_signature: keyed by the Base64-decoded secret, lower-cased. */
  function GenerateSignature(c: Client, lib: Library, name: string, postData: string): string {
    lib.downcase(GenerateHmac(lib, lib.decode64(c.apiSecret), GenerateMessage(c, name, postData)))
  }

  /** The signature a private call to `name` computes over `postData`. */
  function RequestSignature(c: Client, lib: Library, name: string, postData: string): string {
    GenerateSignature(c, lib, UrlPath(c, name), postData)
  }

  /** Different trading method names give different paths. */
  lemma UrlPathInjective(c: Client, a: string, b: string)
    requires UrlPath(c, a) == UrlPath(c, b)
    ensures a == b
  {
    var prefix := "/api/" + c.apiVersion + "/trading/";
    SuffixOf(prefix, a);
    SuffixOf(prefix, b);
  }

  /**
   * A public URL is never a private one: the schemes differ
   * ("http://" against "https://").
   */
  lemma PublicNeverPrivate(c: Client, a: string, b: string)
    ensures PublicUrl(c, a) != PrivateUrl(c, b)
  {
    assert PublicUrl(c, a)[4] == ':';
    assert PrivateUrl(c, b)[4] == 's';
  }

  /**
   * The private URL carries the trading path once, while the signed message
   * carries it twice: url_path is applied by the caller of
   * generate_signature and again inside generate_message. So the message is
   * `/api/V/trading//api/V/trading/NAME` followed by the data, longer than
   * the sent path followed by the data by the length of `/api/V/trading/`,
   * and never equal to it.
   */
  lemma SignedMessageDoublesPath(c: Client, name: string, data: string)
    ensures PrivateUrl(c, name) == "https://" + c.baseUri + "/api/" + c.apiVersion + "/trading/" + name
    ensures GenerateMessage(c, UrlPath(c, name), data)
         == "/api/" + c.apiVersion + "/trading/" + "/api/" + c.apiVersion + "/trading/" + name + data
    ensures GenerateMessage(c, UrlPath(c, name), data) == UrlPath(c, "") + UrlPath(c, name) + data
    ensures |GenerateMessage(c, UrlPath(c, name), data)| == |UrlPath(c, name) + data| + 14 + |c.apiVersion|
    ensures GenerateMessage(c, UrlPath(c, name), data) != UrlPath(c, name) + data
  {
    var v := c.apiVersion;
    assert UrlPath(c, "") == "/api/" + v + "/trading/";
    assert UrlPath(c, UrlPath(c, name)) == "/api/" + v + "/trading/" + ("/api/" + v + "/trading/" + name);
  }

  /**
   * The signature pipeline, written out: lower-cased strict Base64 of
   * HMAC-SHA512 keyed by the decoded secret over the doubled path and the
   * data. It depends on the secret, the version, the method name and the
   * data alone: two clients that share secret and version sign alike,
   * whatever their key and host.
   */
  lemma SignaturePipeline(c: Client, d: Client, lib: Library, name: string, postData: string)
    requires c.apiSecret == d.apiSecret && c.apiVersion == d.apiVersion
    ensures RequestSignature(c, lib, name, postData)
         == lib.downcase(lib.strictEncode64(lib.hmacSha512(lib.decode64(c.apiSecret),
              "/api/" + c.apiVersion + "/trading/" + "/api/" + c.apiVersion + "/trading/" + name + postData)))
    ensures RequestSignature(c, lib, name, postData) == RequestSignature(d, lib, name, postData)
  {
    SignedMessageDoublesPath(c, name, postData);
  }

  // ------------------------------------------------------------------
  // Private calls: building the parameters
  // ------------------------------------------------------------------

  const NonceKey := "nonce"
  const ApiKeyKey := "apikey"
  const SignatureKey := "signature"

  /** The options after `opts['nonce'] = nonce` and `opts['apikey'] = @api_key`. */
  function WithCredentials(c: Client, seconds: int, opts: seq<Entry>): seq<Entry> {
    Store(Store(opts, NonceKey, Nonce(seconds)), ApiKeyKey, c.apiKey)
  }

  /** post_data: the encoding of the options before the signature is added. */
  function PostData(c: Client, lib: Library, seconds: int, opts: seq<Entry>): string {
    lib.encodeQuery(WithCredentials(c, seconds, opts))
  }

  /** The options after `opts['signature'] = generate_signature(url_path(method), post_data)`. */
  function SignedParams(c: Client, lib: Library, seconds: int, name: string, opts: seq<Entry>): seq<Entry> {
    Store(WithCredentials(c, seconds, opts), SignatureKey,
          RequestSignature(c, lib, name, PostData(c, lib, seconds, opts)))
  }

  /**
   * After a private call the caller's Hash maps 'nonce' to the nonce,
   * 'apikey' to the client's key and 'signature' to the signature over the
   * encoding of the Hash as it stood before the signature was stored; every
   * other key keeps its value, and no key is lost or gained besides those.
   */
  lemma SignedParamsContents(c: Client, lib: Library, seconds: int, name: string, opts: seq<Entry>, k: string)
    ensures Lookup(SignedParams(c, lib, seconds, name, opts), NonceKey) == Some(Nonce(seconds))
    ensures Lookup(SignedParams(c, lib, seconds, name, opts), ApiKeyKey) == Some(c.apiKey)
    ensures Lookup(SignedParams(c, lib, seconds, name, opts), SignatureKey)
         == Some(RequestSignature(c, lib, name, lib.encodeQuery(WithCredentials(c, seconds, opts))))
    ensures k != NonceKey && k != ApiKeyKey && k != SignatureKey ==>
              Lookup(SignedParams(c, lib, seconds, name, opts), k) == Lookup(opts, k)
  {
  }

  /**
   * The order of the keys: the caller's keys stay where they were and each
   * of 'nonce', 'apikey' and 'signature' that was absent is appended, in
   * that order; for a Hash holding none of them they are its last three keys.
   */
  lemma SignedParamsKeyOrder(c: Client, lib: Library, seconds: int, name: string, opts: seq<Entry>)
    ensures KeysOf(SignedParams(c, lib, seconds, name, opts))
         == AddKey(AddKey(AddKey(KeysOf(opts), NonceKey), ApiKeyKey), SignatureKey)
    ensures NonceKey !in KeysOf(opts) && ApiKeyKey !in KeysOf(opts) && SignatureKey !in KeysOf(opts) ==>
              KeysOf(SignedParams(c, lib, seconds, name, opts)) == KeysOf(opts) + [NonceKey, ApiKeyKey, SignatureKey]
  {
    var ks := KeysOf(opts);
    if NonceKey !in ks && ApiKeyKey !in ks && SignatureKey !in ks {
      assert ApiKeyKey !in ks + [NonceKey] by { assert ApiKeyKey[0] != NonceKey[0]; }
      assert SignatureKey !in ks + [NonceKey, ApiKeyKey] by {
        assert SignatureKey[0] != NonceKey[0] && SignatureKey[0] != ApiKeyKey[0];
      }
      assert ks + [NonceKey] + [ApiKeyKey] + [SignatureKey] == ks + [NonceKey, ApiKeyKey, SignatureKey];
    }
  }

  /**
   * What is signed holds no signature of this call: the encoded Hash has a
   * 'signature' entry only if the caller's Hash already had one, the same.
   */
  lemma PostDataPrecedesSignature(c: Client, seconds: int, opts: seq<Entry>)
    ensures Lookup(WithCredentials(c, seconds, opts), SignatureKey) == Lookup(opts, SignatureKey)
    ensures SignatureKey !in KeysOf(opts) ==> SignatureKey !in KeysOf(WithCredentials(c, seconds, opts))
  {
    ToMapKeys(opts, SignatureKey);
    ToMapKeys(WithCredentials(c, seconds, opts), SignatureKey);
  }

  /**
   * Because the Hash is changed in place, a Hash used for a second private
   * call still holds the first call's signature when the second call
   * encodes it, so the second signature covers the first one.
   */
  lemma ReusedHashSignsOldSignature(c: Client, lib: Library, s1: int, s2: int, n1: string, opts: seq<Entry>)
    ensures Lookup(WithCredentials(c, s2, SignedParams(c, lib, s1, n1, opts)), SignatureKey)
         == Some(RequestSignature(c, lib, n1, PostData(c, lib, s1, opts)))
  {
    SignedParamsContents(c, lib, s1, n1, opts, SignatureKey);
    PostDataPrecedesSignature(c, s2, SignedParams(c, lib, s1, n1, opts));
  }

  // ------------------------------------------------------------------
  // Private calls: what they return
  // ------------------------------------------------------------------

  /** What post_private hands back. */
  datatype PostReply =
    | Success(result: Option<Value>)   // the `result` payload (nil when absent)
    | ExchangeError(error: Value)      // the non-empty `error` value itself
    | NoMethodError                    // `error` is nil or has no `empty?`

  /**
   * `r['error'].empty? ? r['result'] : r['error']`: the result when the
   * envelope's error is an empty string (or empty array or hash), the error
   * itself when it is a non-empty one; a missing error, or one without
   * `empty?`, raises.
   */
  function SelectPostReply(r: Object): (reply: PostReply)
    ensures reply.Success? <==> "error" in r && r["error"] in {Str(""), Arr([]), Obj(map[])}
    ensures reply.Success? ==> reply.result == Field(r, "result")
    ensures reply.ExchangeError? <==> "error" in r && EmptyTest(r["error"]) == Some(false)
    ensures reply.ExchangeError? ==> reply.error == r["error"]
    ensures reply.NoMethodError? <==> "error" !in r || EmptyTest(r["error"]).None?
  {
    if "error" !in r then NoMethodError
    else match EmptyTest(r["error"])
      case None => NoMethodError
      case Some(empty) => if empty then Success(Field(r, "result")) else ExchangeError(r["error"])
  }

  /** A string error: empty yields the result, non-empty is returned as the error. */
  lemma StringErrorEnvelope(r: Object, e: string)
    requires "error" in r && r["error"] == Str(e)
    ensures e == "" ==> SelectPostReply(r) == Success(Field(r, "result"))
    ensures e != "" ==> SelectPostReply(r) == ExchangeError(Str(e))
  {
  }

  /** An exchange rejection is surfaced as the error text, not as a result. */
  lemma InsufficientFundsIsError()
    ensures SelectPostReply(map["result" := Obj(map[]), "error" := Str("Insufficient funds")])
         == ExchangeError(Str("Insufficient funds"))
  {
  }

  /** get_private: `hash[:result]`, nil when absent. */
  function SelectGetReply(r: Object): (result: Option<Value>)
    ensures result.Some? <==> "result" in r && r["result"] != Null
    ensures result.Some? ==> result.value == r["result"]
  {
    MashField(r, "result")
  }

  /**
   * get_private returns the result whatever the error says: an envelope
   * carrying an error gives the same reply as one without.
   */
  lemma GetReplyIgnoresError(r: Object, e: Value)
    ensures SelectGetReply(r["error" := e]) == SelectGetReply(r)
    ensures SelectGetReply(r["error" := e]) == SelectGetReply(map k | k in r && k != "error" :: r[k])
  {
  }

  // ------------------------------------------------------------------
  // Private calls: the two operations
  // ------------------------------------------------------------------

  /**
   * post_private: stores the nonce and the key in the caller's Hash, encodes
   * it, stores the signature over that encoding, encodes it again and
   * POSTs that as the body to the private URL.
   */
  method PostPrivate(c: Client, lib: Library, seconds: int, name: string, opts: Hash, transport: Request -> Object)
    returns (sent: Request, reply: PostReply)
    requires opts.Valid()
    modifies opts
    ensures opts.Valid()
    ensures opts.entries == SignedParams(c, lib, seconds, name, old(opts.entries))
    ensures sent == Post(PrivateUrl(c, name), lib.encodeQuery(opts.entries))
    ensures reply == SelectPostReply(transport(sent))
  {
    opts.Put(NonceKey, Nonce(seconds));
    opts.Put(ApiKeyKey, c.apiKey);
    var postData := lib.encodeQuery(opts.entries);
    opts.Put(SignatureKey, GenerateSignature(c, lib, UrlPath(c, name), postData));
    var signedData := lib.encodeQuery(opts.entries);
    var url := "https://" + c.baseUri + UrlPath(c, name);
    sent := Post(url, signedData);
    var r := transport(sent);
    reply := SelectPostReply(r);
  }

  /**
   * get_private: the same injection, then a GET of the private URL with the
   * signed Hash passed on; returns the `result` field.
   */
  method GetPrivate(c: Client, lib: Library, seconds: int, name: string, opts: Hash, transport: Request -> Object)
    returns (sent: Request, result: Option<Value>)
    requires opts.Valid()
    modifies opts
    ensures opts.Valid()
    ensures opts.entries == SignedParams(c, lib, seconds, name, old(opts.entries))
    ensures sent == Get(PrivateUrl(c, name), opts.entries)
    ensures result == SelectGetReply(transport(sent))
  {
    opts.Put(NonceKey, Nonce(seconds));
    opts.Put(ApiKeyKey, c.apiKey);
    var postData := lib.encodeQuery(opts.entries);
    opts.Put(SignatureKey, GenerateSignature(c, lib, UrlPath(c, name), postData));
    var url := "https://" + c.baseUri + UrlPath(c, name);
    sent := Get(url, opts.entries);
    var r := transport(sent);
    result := SelectGetReply(r);
  }

  /** The private operations of the client and the trading method each calls. */
  datatype PrivateCall = Balance | ActiveOrders | CancelOrder | TradeHistory | RecentOrders | CreateOrder

  function TradingMethod(op: PrivateCall): string {
    match op
    case Balance => "balance"
    case ActiveOrders => "orders/active"
    case CancelOrder => "cancel_order"
    case TradeHistory => "trades"
    case RecentOrders => "orders/recent"
    case CreateOrder => "new_order"
  }

  /** Distinct private operations call distinct trading methods. */
  lemma TradingMethodsDistinct(a: PrivateCall, b: PrivateCall)
    ensures TradingMethod(a) == TradingMethod(b) <==> a == b
  {
  }

  /** Only create_order goes through post_private. */
  predicate IsPost(op: PrivateCall) {
    op == CreateOrder
  }

  /**
   * Whether the caller's Hash is passed on: balance takes none and
   * recent_orders accepts one but calls get_private without it.
   */
  predicate ForwardsOptions(op: PrivateCall) {
    op != Balance && op != RecentOrders
  }

  datatype PrivateReply = Posted(post: PostReply) | Fetched(result: Option<Value>)

  /**
   * One of the client's private operations. A caller's Hash that is passed
   * on receives the nonce, key and signature; one that is not is left as it
   * was, and the request is signed over a fresh empty Hash instead.
   */
  method CallPrivate(c: Client, lib: Library, seconds: int, op: PrivateCall, opts: Hash, transport: Request -> Object)
    returns (sent: Request, reply: PrivateReply)
    requires opts.Valid()
    modifies opts
    ensures opts.Valid()
    ensures ForwardsOptions(op) ==> opts.entries == SignedParams(c, lib, seconds, TradingMethod(op), old(opts.entries))
    ensures !ForwardsOptions(op) ==> opts.entries == old(opts.entries)
    ensures sent.url == PrivateUrl(c, TradingMethod(op))
    ensures IsPost(op) <==> sent.Post?
    ensures IsPost(op) ==> sent.body == lib.encodeQuery(opts.entries)
    ensures !IsPost(op) ==> sent.options == SignedParams(c, lib, seconds, TradingMethod(op),
                                                         if ForwardsOptions(op) then old(opts.entries) else [])
    ensures reply == if IsPost(op) then Posted(SelectPostReply(transport(sent)))
                     else Fetched(SelectGetReply(transport(sent)))
  {
    var given := opts;
    if !ForwardsOptions(op) {
      given := new Hash();
    }
    if IsPost(op) {
      var r;
      sent, r := PostPrivate(c, lib, seconds, TradingMethod(op), given, transport);
      reply := Posted(r);
    } else {
      var r;
      sent, r := GetPrivate(c, lib, seconds, TradingMethod(op), given, transport);
      reply := Fetched(r);
    }
  }

  // ------------------------------------------------------------------
  // symbols
  // ------------------------------------------------------------------

  /** One entry of the exchange's symbol list: its `symbol` and its other fields. */
  datatype SymbolInfo = SymbolInfo(symbol: string, details: Object)

  /** The argument of `symbols`: an array of symbol names, or a single String. */
  datatype SymbolQuery = Names(names: seq<string>) | Text(text: string)

  predicate QueryEmpty(q: SymbolQuery) {
    match q
    case Names(ns) => |ns| == 0
    case Text(t) => |t| == 0
  }

  function QueryLength(q: SymbolQuery): nat {
    match q
    case Names(ns) => |ns|
    case Text(t) => |t|
  }

  /** `s` occurs in `t` at some position. */
  predicate IsSubstring(s: string, t: string)
    decreases |t|
  {
    |s| <= |t| && (t[..|s|] == s || (|t| > 0 && IsSubstring(s, t[1..])))
  }

  /**
   * `opts.include?(h.symbol)`: membership for an array, and for a String
   * Ruby's substring test.
   */
  predicate Includes(q: SymbolQuery, symbol: string) {
    match q
    case Names(ns) => symbol in ns
    case Text(t) => IsSubstring(symbol, t)
  }

  /** `select { |h| opts.include?(h.symbol) }` */
  function Select(listing: seq<SymbolInfo>, q: SymbolQuery): (r: seq<SymbolInfo>)
    ensures |r| <= |listing|
    ensures forall x :: x in r <==> x in listing && Includes(q, x.symbol)
  {
    if listing == [] then []
    else (if Includes(q, listing[0].symbol) then [listing[0]] else []) + Select(listing[1..], q)
  }

  /** `first`: nil for an empty selection. */
  function First(s: seq<SymbolInfo>): Option<SymbolInfo> {
    if s == [] then None else Some(s[0])
  }

  /** What `symbols` returns. */
  datatype SymbolsReply =
    | AllSymbols(all: seq<SymbolInfo>)
    | FirstMatch(first: Option<SymbolInfo>)
    | Matches(matches: seq<SymbolInfo>)

  /**
   * symbols: the whole list for an empty argument; the first match for an
   * argument of length one or a String; every match otherwise.
   */
  function Symbols(listing: seq<SymbolInfo>, q: SymbolQuery): SymbolsReply {
    if QueryEmpty(q) then AllSymbols(listing)
    else if QueryLength(q) == 1 || q.Text? then FirstMatch(First(Select(listing, q)))
    else Matches(Select(listing, q))
  }

  /** The selection keeps the original order: it distributes over concatenation. */
  lemma {:induction false} SelectAppend(a: seq<SymbolInfo>, b: seq<SymbolInfo>, q: SymbolQuery)
    ensures Select(a + b, q) == Select(a, q) + Select(b, q)
  {
    if a == [] {
      assert a + b == b;
    } else {
      assert (a + b)[0] == a[0];
      assert (a + b)[1..] == a[1..] + b;
      SelectAppend(a[1..], b, q);
      var head := if Includes(q, a[0].symbol) then [a[0]] else [];
      assert Select(a + b, q) == head + (Select(a[1..], q) + Select(b, q));
      assert Select(a, q) == head + Select(a[1..], q);
    }
  }

  /**
   * The first match is the earliest matching entry of the list, and there is
   * none exactly when no entry matches.
   */
  lemma {:induction false} FirstMatchIsEarliest(listing: seq<SymbolInfo>, q: SymbolQuery)
    ensures First(Select(listing, q)).None? <==> forall i :: 0 <= i < |listing| ==> !Includes(q, listing[i].symbol)
    ensures First(Select(listing, q)).Some? ==>
              exists i :: 0 <= i < |listing| && listing[i] == First(Select(listing, q)).value
                       && Includes(q, listing[i].symbol)
                       && forall j :: 0 <= j < i ==> !Includes(q, listing[j].symbol)
  {
    if listing != [] {
      FirstMatchIsEarliest(listing[1..], q);
      if !Includes(q, listing[0].symbol) {
        assert Select(listing, q) == Select(listing[1..], q);
        if First(Select(listing, q)).Some? {
          var i :| 0 <= i < |listing[1..]| && listing[1..][i] == First(Select(listing, q)).value
                   && Includes(q, listing[1..][i].symbol)
                   && forall j :: 0 <= j < i ==> !Includes(q, listing[1..][j].symbol);
          assert listing[i + 1] == listing[1..][i];
          forall j | 0 <= j < i + 1 ensures !Includes(q, listing[j].symbol) {
            if j > 0 { assert listing[j] == listing[1..][j - 1]; }
          }
        } else {
          forall i | 0 <= i < |listing| ensures !Includes(q, listing[i].symbol) {
            if i > 0 { assert listing[i] == listing[1..][i - 1]; }
          }
        }
      } else {
        assert Select(listing, q)[0] == listing[0];
      }
    }
  }

  /**
   * The selection rule of `symbols`: an empty argument gives the whole
   * list; a one-element array or any String gives the earliest matching
   * entry, or nil when none matches; a longer array gives exactly the
   * matching entries.
   */
  lemma SymbolsSelection(listing: seq<SymbolInfo>, q: SymbolQuery)
    ensures QueryEmpty(q) ==> Symbols(listing, q) == AllSymbols(listing)
    ensures !QueryEmpty(q) && (QueryLength(q) == 1 || q.Text?) ==>
              && Symbols(listing, q).FirstMatch?
              && (Symbols(listing, q).first.None? <==> forall i :: 0 <= i < |listing| ==> !Includes(q, listing[i].symbol))
              && (Symbols(listing, q).first.Some? ==>
                    exists i :: 0 <= i < |listing| && listing[i] == Symbols(listing, q).first.value
                             && Includes(q, listing[i].symbol)
                             && forall j :: 0 <= j < i ==> !Includes(q, listing[j].symbol))
    ensures !QueryEmpty(q) && QueryLength(q) != 1 && q.Names? ==>
              && Symbols(listing, q).Matches?
              && forall x :: x in Symbols(listing, q).matches <==> x in listing && x.symbol in q.names
  {
    FirstMatchIsEarliest(listing, q);
  }

  /**
   * For a String argument, Ruby's `include?` is a substring test. It is
   * equality when the symbol is as long as the argument, `symbols("BTCUSD")`
   * matches it exactly when it is "BTCUSD". A shorter symbol occurring
   * inside the argument matches too.
   */
  lemma TextMatchIsEquality(symbol: string, text: string)
    requires |symbol| == |text|
    ensures Includes(Text(text), symbol) <==> symbol == text
  {
    assert text[..|symbol|] == text;
    if |text| > 0 {
      assert !IsSubstring(symbol, text[1..]);
    }
  }
}
