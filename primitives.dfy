/**
 * Machine types and the foreign collaborators of the chat core.
 *
 * The binary serializer (postcard) and the signature scheme (Ed25519) are
 * library code. They are modelled as values carrying functions, so that every
 * operation is defined for ANY serializer and ANY signature scheme; the facts
 * the core relies on (deserialize undoes serialize, a signature made with a key
 * verifies under its public key) are predicates that the lemmas require.
 */
module Primitives {
  import opened Wrappers

  newtype byte = x: int | 0 <= x < 256

  /** Rust `u64`. */
  type u64 = x: int | 0 <= x < 0x1_0000_0000_0000_0000

  /** 32-byte Ed25519 public key; also the identity of an endpoint. */
  datatype PublicKey = PublicKey(bytes: seq<byte>)

  /** 32-byte Ed25519 secret key. */
  datatype SecretKey = SecretKey(bytes: seq<byte>)

  /** 64-byte Ed25519 signature. */
  datatype Signature = Signature(bytes: seq<byte>)

  /** Rust `u128`. */
  type u128 = x: int | 0 <= x < 0x1_0000_0000_0000_0000_0000_0000_0000_0000

  /** A 128-bit message identifier, as produced by `uuid::Uuid::new_v4`. */
  datatype Uuid = Uuid(bits: u128)

  /** A serializer for values of type T and the matching deserializer. */
  datatype Serde<!T(!new)> = Serde(Serialize: T -> seq<byte>, Deserialize: seq<byte> -> Option<T>)
  {
    /** Deserializing what was serialized gives back the value. */
    ghost predicate RoundTrips() {
      forall x: T :: Deserialize(Serialize(x)) == Some(x)
    }
  }

  /** The signature scheme: deriving a public key, signing, verifying. */
  datatype Ed25519 = Ed25519(
    Public: SecretKey -> PublicKey,
    Sign: (SecretKey, seq<byte>) -> Signature,
    Verify: (PublicKey, seq<byte>, Signature) -> bool)
  {
    /** A signature made with a key verifies under that key's public key. */
    ghost predicate Correct() {
      forall key: SecretKey, data: seq<byte> :: Verify(Public(key), data, Sign(key, data))
    }
  }

  /** Rust `char::to_ascii_uppercase`: only `a`-`z` change. */
  function AsciiUpper(c: char): (u: char)
    ensures 'a' <= c <= 'z' ==> 'A' <= u <= 'Z' && u as int == c as int - 32
    ensures !('a' <= c <= 'z') ==> u == c
  {
    if 'a' <= c <= 'z' then (c as int - 32) as char else c
  }

  /** Rust `char::to_ascii_lowercase`: only `A`-`Z` change. */
  function AsciiLower(c: char): (l: char)
    ensures 'A' <= c <= 'Z' ==> 'a' <= l <= 'z' && l as int == c as int + 32
    ensures !('A' <= c <= 'Z') ==> l == c
  {
    if 'A' <= c <= 'Z' then (c as int + 32) as char else c
  }

  /** Rust `str::to_ascii_uppercase`. */
  function UpperString(s: string): (r: string)
    ensures |r| == |s| && forall i | 0 <= i < |s| :: r[i] == AsciiUpper(s[i])
  {
    seq(|s|, i requires 0 <= i < |s| => AsciiUpper(s[i]))
  }

  /** Rust `str::make_ascii_lowercase`, applied to a copy. */
  function LowerString(s: string): (r: string)
    ensures |r| == |s| && forall i | 0 <= i < |s| :: r[i] == AsciiLower(s[i])
  {
    seq(|s|, i requires 0 <= i < |s| => AsciiLower(s[i]))
  }
}
