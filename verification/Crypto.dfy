/**
 The cryptographic primitives as parameters. Every result of this project holds
 for every suite that satisfies `Lawful`; nothing is claimed about their strength.
 */
module Crypto {
  import opened Prelude

  const NONCE_LEN := 12
  const TAG_LEN := 16
  const SALT_LEN := 16
  const MAC_LEN := 32
  const KEY_LEN := 32

  type Key = k: Bytes | |k| == KEY_LEN witness Zeros(KEY_LEN)
  type Nonce = n: Bytes | |n| == NONCE_LEN witness Zeros(NONCE_LEN)
  type Salt = s: Bytes | |s| == SALT_LEN witness Zeros(SALT_LEN)
  type Mac = t: Bytes | |t| == MAC_LEN witness Zeros(MAC_LEN)

  datatype Algorithm = Aes256Gcm | ChaCha20Poly1305 {
    function Id(): byte {
      if Aes256Gcm? then 1 else 2
    }
  }

  function AlgorithmFromId(id: byte): (r: Result<Algorithm>)
    ensures r.Ok? ==> r.value.Id() == id
  {
    if id == 1 then Ok(Aes256Gcm) else if id == 2 then Ok(ChaCha20Poly1305) else Err(Unsupported(id))
  }

  datatype KdfParams = KdfParams(mMib: u32, t: u32, p: byte) {
    /** Floors and ceilings enforced on every open. */
    predicate PolicyOk() {
      && 8 <= mMib <= 1024
      && 1 <= t <= 64
      && 1 <= p <= 8
      && mMib * t <= 8192
    }
  }

  /** The extremes are allowed, and nothing beyond them. */
  lemma PolicyEdges(params: KdfParams)
    ensures KdfParams(8, 1, 1).PolicyOk() && KdfParams(1024, 8, 8).PolicyOk() && KdfParams(128, 64, 8).PolicyOk()
    ensures params.mMib < 8 || params.mMib > 1024 || params.t < 1 || params.t > 64 || params.p < 1 || params.p > 8
            || params.mMib * params.t > 8192
       <==> !params.PolicyOk()
  {
  }

  /** `seal` yields ciphertext followed by its tag; `unseal` is None when authentication fails. */
  datatype Suite = Suite(
    seal: (Algorithm, Key, Nonce, Bytes, Bytes) -> Bytes,
    unseal: (Algorithm, Key, Nonce, Bytes, Bytes) -> Option<Bytes>,
    mac: (Key, Bytes) -> Mac,
    crc: Bytes -> u32,
    kdf: (KdfParams, Salt, Bytes) -> Result<Key>)

  ghost predicate Lawful(c: Suite) {
    forall alg, k, n, pt, aad ::
      && |c.seal(alg, k, n, pt, aad)| == |pt| + TAG_LEN
      && c.unseal(alg, k, n, c.seal(alg, k, n, pt, aad), aad) == Some(pt)
  }

  function Unseal(c: Suite, alg: Algorithm, k: Key, n: Nonce, ct: Bytes, aad: Bytes): Result<Bytes> {
    match c.unseal(alg, k, n, ct, aad)
    case Some(pt) => Ok(pt)
    case None => Err(Decrypt)
  }

  /** A toy instance: the laws are satisfiable. */
  function Toy(): Suite {
    Suite(
      (alg, k, n, pt: Bytes, aad) => pt + Zeros(TAG_LEN),
      (alg, k, n, ct: Bytes, aad) => if |ct| < TAG_LEN then None else Some(ct[..|ct| - TAG_LEN]),
      (k: Key, m) => k,
      m => 0,
      (params, salt: Salt, password) => Ok(salt + salt))
  }

  lemma ToyIsLawful()
    ensures Lawful(Toy())
  {
    var c := Toy();
    forall alg, k, n, pt, aad
      ensures |c.seal(alg, k, n, pt, aad)| == |pt| + TAG_LEN
      ensures c.unseal(alg, k, n, c.seal(alg, k, n, pt, aad), aad) == Some(pt)
    {
      var ct := c.seal(alg, k, n, pt, aad);
      assert ct[..|ct| - TAG_LEN] == pt;
    }
  }

  /** A tag that shows four bytes of the message: where a file keeps its encryption counter. */
  function Stamp(k: Key, m: Bytes): Mac {
    if |m| < 39 then k else m[35..39] + Zeros(MAC_LEN - 4)
  }

  /** Another instance, whose tags tell the saves under one key apart. */
  function Stamping(): Suite {
    Toy().(mac := Stamp)
  }

  lemma StampingIsLawful()
    ensures Lawful(Stamping())
  {
    ToyIsLawful();
  }
}
