# HitBTC REST client: request construction and reply selection

This project models the deterministic core of the Ruby client for the HitBTC
exchange (`Hitbtc::Client` in `lib/hitbtc/client.rb`) and proves properties
of it in Dafny:

- **Configuration** (`initialize`): the API key and secret, falling back to
  the credentials file when not given, and the `:version` / `:base_uri`
  options defaulting to `"1"` and `"api.hitbtc.com"`.
- **Public requests** (`get_public` and its callers `server_time`, `symbols`,
  `ticker`, `order_book`, `trades`): `http://HOST/api/V/public/NAME`, with the
  symbol-scoped suffixes `/ticker`, `/orderbook` and `/trades`; `server_time`
  reads the response's `timestamp` field (`ServerTime`).
- **Private requests** (`post_private`, `get_private` and their callers
  `balance`, `active_orders`, `cancel_order`, `trade_history`,
  `recent_orders`, `create_order`): the caller's options Hash is changed in
  place (balance takes none; recent_orders ignores its own). First `nonce` and `apikey` are stored. Then the Hash is encoded into
  `post_data`. Then `signature` is stored. The request goes to
  `https://HOST/api/V/trading/NAME`.
- **Nonce**: the clock's whole seconds in decimal, right-padded with `'0'`
  to 16 characters.
- **Signature**: `downcase(strict_encode64(HMAC_SHA512(decode64(secret), message)))`.
  The message is `generate_message(url_path(NAME), post_data)`. Because
  `url_path` is applied twice, the signed message is
  `/api/V/trading//api/V/trading/NAME` followed by `post_data`. The URL
  actually requested carries the path once (`SignedMessageDoublesPath`).
- **Replies**: `post_private` returns the `result` when the envelope's
  `error` is empty and the `error` itself otherwise. `get_private` always
  returns `result`. `symbols` returns the whole list, the first match or all
  matches, depending on its argument.

Files: `wrappers.dfy` (Option), `json.dfy` (decoded JSON values),
`foreign.dfy` (the library calls as function values), `ruby_hash.dfy` (the
insertion-ordered Ruby Hash, as a class changed in place), `nonce_format.dfy`
(Integer#to_s, String#ljust, the nonce) and `client.dfy` (module `Hitbtc`:
everything else).

How the library calls are modelled: Base64 decoding, strict Base64
encoding, HMAC-SHA512, String#downcase and the Addressable query encoder
are the fields of a `Foreign.Library` value of total functions that every
signing operation receives. Nothing is assumed about what they compute. In
particular, nothing is assumed about key order or percent-encoding. Every
property holds for any choice of them.

Other modelling choices:
- The HTTP transport is a function from the `Request` sent to the decoded
  response object.
- The clock reading is an integer parameter.
- The credentials file is a `KeyFile` value.
- The client's instance variables are written once, so `Client` is a
  datatype; the Hash the private calls change is an object.

What the code does, and the model follows as written:
- No `X-Signature` header is sent. The signature is stored in the options
  Hash, and that Hash is the GET's options or the POST's encoded body.
- The private POST URL has no `?apikey=...&nonce=...` query part. Nonce and
  key travel in the body.
- The signed message contains the trading path twice and no query part.
- The signature is lower-cased Base64, not hexadecimal, and the secret is
  Base64-decoded before it keys the HMAC.
- The nonce is seconds padded to 16 digits, not milliseconds. Two calls in
  the same second share a nonce. Outside ten-digit second counts, distinct
  seconds can share one too (`NoncePaddingCollides`).
- No symbol is validated or upper-cased, and no trade filter is checked;
  symbols go into the URL as given.

## Model

| member | source | states |
|---|---|---|
| `Hitbtc.WithDefaults` | lib/hitbtc/client.rb:14-15 | missing `:version` / `:base_uri` become `"1"` / `"api.hitbtc.com"`; a given value, even empty, is kept |
| `Hitbtc.Initialize` | lib/hitbtc/client.rb:11-16 | a given key/secret wins over the credentials file; version and host are those of WithDefaults |
| `Hitbtc.InitializeDefaults` | lib/hitbtc/client.rb:11-16 | with no options the client uses version "1" at api.hitbtc.com, with given or file credentials |
| `Hitbtc.ServerTime` | lib/hitbtc/client.rb:22-25 | server_time is the `timestamp` field of the transport's response to ServerTimeRequest; absent or null reads as nil |
| `Hitbtc.ServerTimeRequest` | lib/hitbtc/client.rb:23 | server_time sends a GET of PublicUrl "time" with no options |
| `Hitbtc.SymbolsRequest` | lib/hitbtc/client.rb:28 | symbols sends a GET of PublicUrl "symbols" with no options |
| `Hitbtc.PublicUrl` | lib/hitbtc/client.rb:69 | the URL has length 20 + host + version + name, starts with `http://` and the host and ends with the method name; PublicUrlInjective and PublicNeverPrivate prove it determines the call and is never a private URL |
| `Hitbtc.GetPublic` | lib/hitbtc/client.rb:68-73 | get_public sends a GET of PublicUrl with the caller's options unchanged |
| `Hitbtc.PublicUrlInjective` | lib/hitbtc/client.rb:68-69 | the public URL determines the public method name |
| `Hitbtc.SymbolScopedRequests` | lib/hitbtc/client.rb:38-66 | ticker, order_book and trades GET `http://HOST/api/V/public/` + symbol + `/ticker`, `/orderbook`, `/trades`; only the last two pass the caller's options (the members TickerRequest, OrderBookRequest, TradesRequest) |
| `Hitbtc.TickerDeterminesSymbol` | lib/hitbtc/client.rb:38-40 | two ticker requests are equal only for equal symbols |
| `Hitbtc.UrlPath` | lib/hitbtc/client.rb:166-168 | the path is `/api/`, the version, `/trading/`, then the method name, of length 14 + version + name; UrlPathInjective proves it injective |
| `Hitbtc.PrivateUrl` | lib/hitbtc/client.rb:124 | the private URL is `https://`, the host, then UrlPath of the name exactly once |
| `Hitbtc.GenerateMessage` | lib/hitbtc/client.rb:158-160 | the message is UrlPath of its first argument followed by the data, and nothing else |
| `Hitbtc.GenerateHmac` | lib/hitbtc/client.rb:162-164 | no contract of its own: strict Base64 of the HMAC-SHA512 digest over uninterpreted library calls, written out in SignaturePipeline |
| `Hitbtc.GenerateSignature` | lib/hitbtc/client.rb:152-156 | no contract of its own: keyed by the Base64-decoded secret and lower-cased; SignaturePipeline states the whole composition |
| `Hitbtc.RequestSignature` | lib/hitbtc/client.rb:120 | no contract of its own: `generate_signature(url_path(method), post_data)`; SignedMessageDoublesPath and SignaturePipeline state what it signs |
| `Hitbtc.UrlPathInjective` | lib/hitbtc/client.rb:166-168 | `url_path` is injective in the trading method name |
| `Hitbtc.PublicNeverPrivate` | lib/hitbtc/client.rb:124 | no public URL (http) equals a private URL (https) |
| `Hitbtc.SignedMessageDoublesPath` | lib/hitbtc/client.rb:152-168 | the private URL is `https://HOST/api/V/trading/NAME`; the signed message is `/api/V/trading//api/V/trading/NAME` + data, longer by 14 plus the length of V than path + data and never equal to it |
| `Hitbtc.SignaturePipeline` | lib/hitbtc/client.rb:152-164 | the signature is downcase(strict_encode64(HMAC-SHA512(decode64(secret), doubled path + post_data))), depending on secret, version, name and post_data only |
| `RubyHash.Store` | lib/hitbtc/client.rb:117-120 | `hash[k] = v`: the dictionary becomes old[k := v], a present key keeps its place, a new key is appended, keys stay distinct under StoreKeepsDistinct |
| `RubyHash.Hash.Put` | lib/hitbtc/client.rb:117-118 | the Hash object's entries become Store(old entries, k, v) and remain a valid Hash |
| `Hitbtc.WithCredentials` | lib/hitbtc/client.rb:117-118 | no contract of its own: the Hash after the nonce and the key are stored; SignedParamsContents and PostDataPrecedesSignature state its contents |
| `Hitbtc.PostData` | lib/hitbtc/client.rb:119 | no contract of its own: the encoding of WithCredentials; SignedParamsContents states that the signature covers it |
| `Hitbtc.SignedParams` | lib/hitbtc/client.rb:120 | no contract of its own: the Hash after the signature is stored; SignedParamsContents and SignedParamsKeyOrder state its contents and key order |
| `Hitbtc.SignedParamsContents` | lib/hitbtc/client.rb:116-120 | after injection 'nonce', 'apikey', 'signature' hold the nonce, the key and the signature over the encoding made before the signature was stored; every other key keeps its value |
| `Hitbtc.SignedParamsKeyOrder` | lib/hitbtc/client.rb:129-133 | caller keys keep their order; absent 'nonce', 'apikey', 'signature' are appended in that order |
| `Hitbtc.PostDataPrecedesSignature` | lib/hitbtc/client.rb:117-120 | the encoded Hash holds a 'signature' only if the caller's Hash already held it, unchanged |
| `Hitbtc.ReusedHashSignsOldSignature` | lib/hitbtc/client.rb:116-120 | a Hash reused for a second private call carries the first call's signature into the second post_data |
| `Hitbtc.PostPrivate` | lib/hitbtc/client.rb:116-127 | the caller's Hash ends as SignedParams of its old entries; the POST goes to the private URL with the encoded signed Hash as body; the reply is SelectPostReply of the response |
| `Hitbtc.GetPrivate` | lib/hitbtc/client.rb:129-140 | the caller's Hash ends as SignedParams of its old entries; the GET goes to the private URL with that Hash; the reply is the response's `result` |
| `Hitbtc.TradingMethod` | lib/hitbtc/client.rb:79-102 | no contract of its own: the trading method each private operation calls; TradingMethodsDistinct proves the table injective |
| `Hitbtc.TradingMethodsDistinct` | lib/hitbtc/client.rb:79-102 | two private operations call the same trading method exactly when they are the same operation |
| `Hitbtc.CallPrivate` | lib/hitbtc/client.rb:79-102 | each private operation calls its trading method by GET, create_order by POST with the encoded signed Hash as body; balance and recent_orders leave the caller's Hash untouched and sign a fresh empty one |
| `Hitbtc.SelectPostReply` | lib/hitbtc/client.rb:126 | the result when `error` is empty, the error value when it is non-empty, NoMethodError when it is nil or has no `empty?` (each an if-and-only-if) |
| `Json.EmptyTest` | lib/hitbtc/client.rb:126 | Ruby's `empty?` on the error value: defined exactly for strings, arrays and hashes, true exactly for the empty ones |
| `Hitbtc.StringErrorEnvelope` | lib/hitbtc/client.rb:126 | an empty error string yields the result, a non-empty one is returned as the error |
| `Hitbtc.InsufficientFundsIsError` | lib/hitbtc/client.rb:125-126 | `{"result": {}, "error": "Insufficient funds"}` yields the error text, not a result |
| `Hitbtc.SelectGetReply` | lib/hitbtc/client.rb:139 | get_private returns the `result` field, nil when absent or null |
| `Json.MashField` | lib/hitbtc/client.rb:139 | Mash field access: the value under the key, nil when the key is absent or holds null |
| `Hitbtc.GetReplyIgnoresError` | lib/hitbtc/client.rb:137-139 | the `error` field, present or not, never changes what get_private returns |
| `NonceFormat.LJust` | lib/hitbtc/client.rb:143 | `ljust`: length the larger of width and the length of s, prefix s never truncated, the rest all pad characters |
| `NonceFormat.Nonce` | lib/hitbtc/client.rb:142-144 | the nonce starts with the decimal seconds, has at least 16 characters, is zero-padded, and is all digits for non-negative seconds |
| `NonceFormat.NatToDecimal` | lib/hitbtc/client.rb:143 | `to_s` of a natural: at least one character, all digits, no leading zero; DecimalRoundTrip proves it reads back to the number and DecimalLength gives its length |
| `NonceFormat.IntToDecimal` | lib/hitbtc/client.rb:143 | `to_s` of an integer: NatToDecimal of a non-negative one, '-' then NatToDecimal of the magnitude for a negative one |
| `NonceFormat.DecimalRoundTrip` | lib/hitbtc/client.rb:143 | reading back the digits of `to_s` gives the number |
| `NonceFormat.DecimalLength` | lib/hitbtc/client.rb:143 | a number in [10^(k-1), 10^k) is written by `to_s` with exactly k digits |
| `NonceFormat.NonceTenDigits` | lib/hitbtc/client.rb:143 | for a ten-digit second count the nonce has 16 characters, the digits of the seconds then "000000", value seconds·10^6 |
| `NonceFormat.NonceOrder` | lib/hitbtc/client.rb:143 | over ten-digit second counts the nonce is strictly increasing in value and injective |
| `NonceFormat.NoncePaddingCollides` | lib/hitbtc/client.rb:143 | seconds 1 and 10 give the same 16-character nonce |
| `Hitbtc.Select` | lib/hitbtc/client.rb:32-34 | `select`: an entry is kept exactly when it is in the list and its symbol is included in the argument |
| `Hitbtc.SelectAppend` | lib/hitbtc/client.rb:34 | the selection keeps the list's order (it distributes over concatenation) |
| `Hitbtc.FirstMatchIsEarliest` | lib/hitbtc/client.rb:32 | `select{…}.first` is the earliest matching entry, nil exactly when nothing matches |
| `Hitbtc.Symbols` | lib/hitbtc/client.rb:29-35 | no contract of its own: the three branches of `symbols`; SymbolsSelection states what each returns |
| `Hitbtc.SymbolsSelection` | lib/hitbtc/client.rb:27-36 | empty argument: whole list; one-element array or a String: the earliest match or nil; otherwise exactly the entries whose symbol is in the array |
| `Hitbtc.TextMatchIsEquality` | lib/hitbtc/client.rb:31-32 | for a String argument as long as the symbol, Ruby's substring `include?` is equality |

## Left out

- HTTP: the GET/POST calls are the transport parameter. How HTTParty reads the options Hash it is given is not modelled.
- Console output: the `p url` print at line 70.
- JSON parsing and Hashie::Mash method access (lines 72, 125, 138). Responses arrive as decoded objects. Numbers are integers; floating point is not modelled.
- Hitbtc.SelectPostReply: returns the `result` value as decoded; wrapping it in `Hashie::Mash.new` (line 126) is not modelled. So an absent or null `result` is `Success(None)` / `Success(Some(Null))` here (both standing for nil), where the source returns an empty Mash. A `result` that is not a Hash is returned here as `Success(Some(v))`, where `Mash.new` would raise.
- Hitbtc.Symbols: takes the symbol list (the response to SymbolsRequest) as already read from the response's `symbols` field. A Hash passed as the argument (whose `include?` tests keys) is not modelled.
- Credential file: reading `key.yml` (lines 12-13) is replaced by the `KeyFile` value.
- Hitbtc.WithDefaults: `||=` also writes the defaults into the caller's options Hash; the model returns the filled-in options as a value instead of changing the caller's Hash.
- Clock: `Time.now` (line 143) is replaced by the seconds parameter.
- Foreign libraries: OpenSSL HMAC-SHA512, Base64, `downcase` and the Addressable query encoder (lines 146-150, 153, 163) are uninterpreted function values; no encoding, key-ordering or digest property is claimed.
- Hash keys and values: options Hash keys are strings and values are strings. Symbol keys (which Ruby keeps apart from string keys) and non-string values are not modelled.
- Placeholders: payments and the websocket channel (lines 107, 175) have no code.
- Concurrency: calls from several threads are not modelled.
