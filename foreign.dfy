/**
 * The library calls the client makes and whose behaviour the model does not
 * claim: Base64 decoding of the secret, strict Base64 encoding of the digest,
 * HMAC with SHA-512, String#downcase and the query-string encoder that turns
 * an ordered Ruby Hash into `key=value&...`. Each is a total function value
 * handed to the client, so every property proved holds whatever they compute.
 */
module Foreign {
  import opened RubyHash

  datatype Library = Library(
    decode64: string -> string,
    strictEncode64: string -> string,
    hmacSha512: (string, string) -> string,
    downcase: string -> string,
    encodeQuery: seq<Entry> -> string)
}
