/**
 * The cryptographic primitives the ledger consumes.
 *
 * SHA-256, RSA signing and key containers are library code; the model keeps
 * them uninterpreted by passing them around as a value of type `Crypto`.
 * Only the proof-of-work predicate is modelled concretely.
 */
module Cryptography {
  import opened Wrappers

  /** Name of a private-key container; the private key itself is never visible. */
  type KeyContainer = string

  datatype Crypto = Crypto(
    hash: string -> string,                    // hex digest of a string
    sign: (KeyContainer, string) -> string,    // signature of data with a container's key
    publicKey: KeyContainer -> string,         // public key (the account address) of a container
    verify: (string, string, string) -> bool)  // (signature, data, public key) -> accepted?

  /** The one property of signatures the ledger relies on: a signature made
      with a key verifies against that key's public key. */
  ghost predicate SignaturesSound(c: Crypto)
  {
    forall k, m :: c.verify(c.sign(k, m), m, c.publicKey(k))
  }

  /** Hash of a possibly-null string: null in, null out. */
  function CalculateHash(c: Crypto, s: Option<string>): (r: Option<string>)
    ensures r.None? <==> s.None?
  {
    match s
    case None => None
    case Some(text) => Some(c.hash(text))
  }

  /** `difficulty` copies of the character '0'. */
  function Zeros(difficulty: nat): string
  {
    seq(difficulty, _ => '0')
  }

  /** Proof of work: the hash starts with `difficulty` zero characters.
      The source takes a substring of that length, so the difficulty must
      lie within the hash. */
  predicate HashMatchesDifficulty(hash: string, difficulty: int): (b: bool)
    requires 0 <= difficulty <= |hash|
    ensures b <==> forall i :: 0 <= i < difficulty ==> hash[i] == '0'
  {
    hash[..difficulty] == Zeros(difficulty)
  }

  /** Every hash meets difficulty 0. */
  lemma ZeroDifficultyAlwaysMatches(hash: string)
    ensures HashMatchesDifficulty(hash, 0)
  {
  }

  /** A hash that meets a difficulty meets every smaller one. */
  lemma DifficultyIsDownwardClosed(hash: string, d: int, d': int)
    requires 0 <= d' <= d <= |hash|
    requires HashMatchesDifficulty(hash, d)
    ensures HashMatchesDifficulty(hash, d')
  {
  }
}
