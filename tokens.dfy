/** Signed tokens, kept opaque. A token is either one the service signed, carrying
    its key pair, its subject and whether its signature and expiry still check out,
    or any other string a client may send in its place. */
module Tokens {
  import opened Base

  /** The two key pairs the service signs with: one for access tokens, one for
      refresh tokens. */
  datatype KeyPair = AccessKeys | RefreshKeys

  datatype Token =
    | Jwt(keys: KeyPair, sub: Id, live: bool)
    | Opaque(raw: string)

  /** `signJwt({sub}, key)`: a fresh token verifies under its key pair and gives the subject back. */
  function SignJwt(sub: Id, keys: KeyPair): (t: Token)
    ensures VerifyJwt(t, keys) == Some(sub)
  {
    Jwt(keys, sub, true)
  }

  /** `verifyJwt(token, publicKey)`: the subject of a live token signed with the
      matching private key; nothing for anything else (fails closed). */
  function VerifyJwt(t: Token, keys: KeyPair): (sub: Option<Id>)
    ensures sub.Some? <==> t.Jwt? && t.keys == keys && t.live
    ensures sub.Some? ==> sub.value == t.sub
  {
    match t
    case Jwt(k, s, live) => if k == keys && live then Some(s) else None
    case Opaque(_) => None
  }

  /** A token the service signed verifies under its own key pair and no other. */
  lemma SignedVerifies(sub: Id, keys: KeyPair, other: KeyPair)
    ensures VerifyJwt(SignJwt(sub, keys), other) == if other == keys then Some(sub) else None
  {
  }
}
