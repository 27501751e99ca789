/**
 What peers hash and sign.  SHA-256 with the RFC 6962 prefixes is modelled as a
 free algebra: a leaf hash and a node hash never coincide, and equal hashes have
 equal preimages.  Canonical bytes are the message with its signature stripped,
 so they are modelled by the remaining fields.
 */
module Hashing {

  /** Ed25519 key pairs are named by a number; the peer id embeds the public key. */
  type Key = nat

  datatype PeerId =
    | PeerOf(key: Key)
    | BadPeer(raw: nat) // bytes that are no peer id, or carry no public key

  /** A `bytes` field that should hold a 32-byte hash but comes off the wire. */
  datatype HashField = Full(hash: Hash) | WrongLength(len: nat, bits: nat)

  /** What a rating or a comment says, without its link into the rater's chain. */
  datatype Claim =
    | Rating(rater: PeerId, subject: PeerId, dimension: string, score: Score, context: string, timestamp: int)
    | Comment(rater: PeerId, subject: PeerId, textCid: string, language: string, attachedRating: string,
              timestamp: int)

  datatype CanonicalEntry = CanonicalEntry(claim: Claim, prev: HashField)

  /** A float64 as far as the ledger looks at it. */
  datatype Score = Finite(value: real) | NotFinite(code: nat)

  datatype Hash =
    | Zero                               // the 32 zero bytes
    | EmptyRoot                          // SHA-256("")
    | LeafHash(entry: CanonicalEntry)    // SHA-256(0x00 || canonical bytes)
    | NodeHash(left: Hash, right: Hash)  // SHA-256(0x01 || left || right)
    | Arbitrary(bits: nat)               // any other 32 bytes a peer may send

  /** How many predecessors a hash names, transitively. */
  function Depth(h: Hash): nat
  {
    match h
    case LeafHash(e) => if e.prev.Full? then 1 + Depth(e.prev.hash) else 0
    case _ => 0
  }
}
