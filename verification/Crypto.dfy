/**
  The sealed payload (crypto.py): zero padding, ECB block by block (NIST SP 800-38A, section 6.1)
  and a truncated MAC (RFC 2104, section 5), over an abstract cipher, MAC, hash and key agreement.
 */
module Crypto {
  import opened Bytes
  import opened Wrappers

  const BLOCK := 16
  const MAC_SIZE := 2
  const PUB_KEY_SIZE := 32
  const SIGNATURE_SIZE := 64

  datatype Primitives = Primitives(
    aesEncrypt: (bytes, bytes) -> bytes,
    aesDecrypt: (bytes, bytes) -> bytes,
    hmac: (bytes, bytes) -> bytes,
    sha256: bytes -> bytes,
    /** seed, peer public key; None when the peer key is not a curve point */
    ecdh: (bytes, bytes) -> Option<bytes>,
    sign: (bytes, bytes) -> bytes,
    verify: (bytes, bytes, bytes) -> bool)

  /** Decryption inverts encryption on every block; the other primitives have fixed output sizes. */
  ghost predicate Lawful(c: Primitives) {
    && (forall k, b :: |k| == BLOCK && |b| == BLOCK ==>
          |c.aesEncrypt(k, b)| == BLOCK && c.aesDecrypt(k, c.aesEncrypt(k, b)) == b)
    && (forall k, b :: |k| == BLOCK && |b| == BLOCK ==> |c.aesDecrypt(k, b)| == BLOCK)
    && (forall k, m :: |c.hmac(k, m)| == 32)
    && (forall m :: |c.sha256(m)| == 32)
    && (forall s, p :: c.ecdh(s, p).Some? ==> |c.ecdh(s, p).value| == 32)
    && (forall s, m :: |c.sign(s, m)| == SIGNATURE_SIZE)
  }

  type Suite = c: Primitives | Lawful(c)
    witness Primitives((k, b) => b, (k, b) => b, (k, m) => Zeros(32), m => Zeros(32),
                       (s, p) => None, (s, m) => Zeros(64), (p, s, m) => false)

  // ---- padding and ECB ----

  function PadLength(n: nat): (k: nat)
    ensures k < BLOCK && (n + k) % BLOCK == 0
  {
    (n + BLOCK - 1) / BLOCK * BLOCK - n
  }

  function Pad(plain: bytes): bytes {
    plain + Zeros(PadLength(|plain|))
  }

  function EcbEncrypt(c: Suite, key: bytes, plain: bytes): (cipher: bytes)
    requires |key| == BLOCK && |plain| % BLOCK == 0
    ensures |cipher| == |plain|
    decreases |plain|
  {
    if plain == [] then []
    else c.aesEncrypt(key, plain[..BLOCK]) + EcbEncrypt(c, key, plain[BLOCK..])
  }

  function EcbDecrypt(c: Suite, key: bytes, cipher: bytes): (plain: bytes)
    requires |key| == BLOCK && |cipher| % BLOCK == 0
    ensures |plain| == |cipher|
    decreases |cipher|
  {
    if cipher == [] then []
    else c.aesDecrypt(key, cipher[..BLOCK]) + EcbDecrypt(c, key, cipher[BLOCK..])
  }

  lemma {:induction false} EcbRoundTrip(c: Suite, key: bytes, plain: bytes)
    requires |key| == BLOCK && |plain| % BLOCK == 0
    ensures EcbDecrypt(c, key, EcbEncrypt(c, key, plain)) == plain
    decreases |plain|
  {
    if plain != [] {
      var first, rest := plain[..BLOCK], plain[BLOCK..];
      FirstBlock(c, key, c.aesEncrypt(key, first), EcbEncrypt(c, key, rest));
      EcbRoundTrip(c, key, rest);
      assert plain == first + rest;
    }
  }

  lemma FirstBlock(c: Suite, key: bytes, block: bytes, rest: bytes)
    requires |key| == BLOCK && |block| == BLOCK && |rest| % BLOCK == 0
    ensures EcbDecrypt(c, key, block + rest) == c.aesDecrypt(key, block) + EcbDecrypt(c, key, rest)
  {
    assert (block + rest)[..BLOCK] == block && (block + rest)[BLOCK..] == rest;
  }

  // ---- seal and open ----

  function Mac(c: Suite, secret: bytes, cipher: bytes): (mac: bytes)
    ensures |mac| == MAC_SIZE
  {
    var macKey := if |secret| <= PUB_KEY_SIZE then secret else secret[..PUB_KEY_SIZE];
    c.hmac(macKey, cipher)[..MAC_SIZE]
  }

  /** encrypt_then_mac: MAC(2) then ciphertext; an empty plaintext seals to nothing. */
  function Seal(c: Suite, secret: bytes, plain: bytes): bytes
    requires |secret| >= BLOCK
  {
    if plain == [] then []
    else
      var cipher := EcbEncrypt(c, secret[..BLOCK], Pad(plain));
      Mac(c, secret, cipher) + cipher
  }

  /** mac_then_decrypt: the padded plaintext, or None. */
  function Open(c: Suite, secret: bytes, sealed: bytes): (plain: Option<bytes>)
    requires |secret| >= BLOCK
    ensures plain.Some? ==> |plain.value| == |sealed| - MAC_SIZE && |plain.value| >= BLOCK
  {
    if |sealed| <= MAC_SIZE then None
    else
      var cipher := sealed[MAC_SIZE..];
      if |cipher| % BLOCK != 0 then None
      else if sealed[..MAC_SIZE] != Mac(c, secret, cipher) then None
      else Some(EcbDecrypt(c, secret[..BLOCK], cipher))
  }

  /** A sealed plaintext opens to its zero padding, precisely when there was something to seal. */
  lemma SealOpens(c: Suite, secret: bytes, plain: bytes)
    requires |secret| >= BLOCK
    ensures Open(c, secret, Seal(c, secret, plain)) == Some(Pad(plain)) <==> plain != []
  {
    if plain != [] {
      var cipher := EcbEncrypt(c, secret[..BLOCK], Pad(plain));
      var sealed := Seal(c, secret, plain);
      assert sealed[..MAC_SIZE] == Mac(c, secret, cipher) && sealed[MAC_SIZE..] == cipher;
      EcbRoundTrip(c, secret[..BLOCK], Pad(plain));
    }
  }

  /** Sealing grows the plaintext to whole blocks plus the MAC. */
  lemma SealedSize(c: Suite, secret: bytes, plain: bytes)
    requires |secret| >= BLOCK && plain != []
    ensures |Seal(c, secret, plain)| == MAC_SIZE + |Pad(plain)| && |Pad(plain)| >= BLOCK
  {
  }

  // ---- the sealed bytes ----

  /** Block k of the ciphertext is the encryption of block k of the plaintext. */
  lemma {:induction false} EcbBlock(c: Suite, key: bytes, plain: bytes, k: nat)
    requires |key| == BLOCK && |plain| % BLOCK == 0 && (k + 1) * BLOCK <= |plain|
    ensures EcbEncrypt(c, key, plain)[k * BLOCK..(k + 1) * BLOCK]
      == c.aesEncrypt(key, plain[k * BLOCK..(k + 1) * BLOCK])
    decreases k
  {
    var first, rest := c.aesEncrypt(key, plain[..BLOCK]), EcbEncrypt(c, key, plain[BLOCK..]);
    if k == 0 {
      SliceOf(first, rest, 0);
    } else {
      EcbBlock(c, key, plain[BLOCK..], k - 1);
      SliceOf(plain[..BLOCK], plain[BLOCK..], k);
      assert plain == plain[..BLOCK] + plain[BLOCK..];
      SliceOf(first, rest, k);
    }
  }

  /** The blocks of a list are its first block and those of the rest. */
  lemma SliceOf(first: bytes, rest: bytes, k: nat)
    requires |first| == BLOCK && k * BLOCK <= |rest|
    ensures (first + rest)[k * BLOCK..(k + 1) * BLOCK] ==
      if k == 0 then first else rest[(k - 1) * BLOCK..k * BLOCK]
  {
  }

  /**
    A sealed plaintext is two bytes of the HMAC, under the secret, of what follows: the padded plaintext, encrypted.
   */
  lemma SealMac(c: Suite, secret: bytes, plain: bytes)
    requires |secret| == 32 && plain != []
    ensures var sealed := Seal(c, secret, plain);
      && |plain| <= |sealed| - MAC_SIZE < |plain| + BLOCK && (|sealed| - MAC_SIZE) % BLOCK == 0
      && sealed[..MAC_SIZE] == c.hmac(secret, sealed[MAC_SIZE..])[..MAC_SIZE]
  {
    var cipher, sealed := EcbEncrypt(c, secret[..BLOCK], Pad(plain)), Seal(c, secret, plain);
    assert sealed[..MAC_SIZE] == Mac(c, secret, cipher) && sealed[MAC_SIZE..] == cipher;
  }

  /** Block k of it is block k of the plaintext, zero-padded, encrypted under the first 16 bytes of the secret. */
  lemma SealBlock(c: Suite, secret: bytes, plain: bytes, k: nat)
    requires |secret| == 32 && (k + 1) * BLOCK <= |Pad(plain)| && plain != []
    ensures Pad(plain) == plain + Zeros(|Pad(plain)| - |plain|) && |Seal(c, secret, plain)| == MAC_SIZE + |Pad(plain)|
    ensures Seal(c, secret, plain)[MAC_SIZE..][k * BLOCK..(k + 1) * BLOCK] ==
      c.aesEncrypt(secret[..BLOCK], Pad(plain)[k * BLOCK..(k + 1) * BLOCK])
  {
    EcbBlock(c, secret[..BLOCK], Pad(plain), k);
    assert Seal(c, secret, plain)[MAC_SIZE..] == EcbEncrypt(c, secret[..BLOCK], Pad(plain));
  }

  /** Opening succeeds exactly for whole blocks, at least one, behind their two bytes of HMAC. */
  lemma OpenExactly(c: Suite, secret: bytes, sealed: bytes)
    requires |secret| == 32
    ensures Open(c, secret, sealed).Some? <==>
      && |sealed| >= MAC_SIZE + BLOCK && (|sealed| - MAC_SIZE) % BLOCK == 0
      && sealed[..MAC_SIZE] == c.hmac(secret, sealed[MAC_SIZE..])[..MAC_SIZE]
  {
  }
}
