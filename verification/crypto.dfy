/** The symmetric cipher that protects update tokens. The token format is
    not modelled: a cipher suite is a pair of functions, encryption under a
    key and decryption under a key that either yields the plaintext or raises
    (wrong key, corrupt ciphertext). */
module Crypto {
  import opened Wrappers

  /** A key handle; the web application and the agent each hold their own. */
  type Key = string

  datatype Suite = Suite(encrypt: (Key, string) -> string, decrypt: (Key, string) -> Result<string>)

  /** Decrypting under the key that encrypted gives the plaintext back. */
  ghost predicate RoundTrips(suite: Suite) {
    forall k, m :: suite.decrypt(k, suite.encrypt(k, m)) == Ok(m)
  }
}
