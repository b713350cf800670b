/**
 Key derivation and the authenticated cipher, idealised: a key is the pair of
 inputs it was derived from, and a ciphertext opens under exactly the key that
 sealed it.
 */
module Crypto {
  import opened Wrappers
  import opened Bytes

  type IPv4 = uint32

  datatype Key = DerivedKey(secret: seq<byte>, salt: seq<byte>)

  datatype Cipher =
    | Sealed(key: Key, nonce: nat, plain: seq<byte>)
    | Forged(raw: seq<byte>)

  function SessionKey(token: seq<byte>, tunnelIP: IPv4): Key {
    DerivedKey(token, token + Put32(tunnelIP))
  }

  function Seal(key: Key, nonce: nat, plain: seq<byte>): Cipher {
    Sealed(key, nonce, plain)
  }

  function Open(key: Key, c: Cipher): Option<seq<byte>> {
    if c.Sealed? && c.key == key then Some(c.plain) else None
  }

  /** Session keys of one token are equal only for equal tunnel addresses. */
  lemma SessionKeyInjective(token: seq<byte>, a: IPv4, b: IPv4)
    requires SessionKey(token, a) == SessionKey(token, b)
    ensures a == b
  {
    assert (token + Put32(a))[|token|..] == Put32(a);
    assert (token + Put32(b))[|token|..] == Put32(b);
    Put32Injective(a, b);
  }
}
