/** Key provisioning and signing (lib/crypto.js). The file system is a map
    from path to text; Ed25519 (libsodium) and SHA3-256 are opaque functions
    supplied by the caller, and the random key generator is replaced by the
    key pair it produced. */
module KeyStore {
  import opened Common
  import opened Bytes

  const SeedBytes: nat := 32        // crypto_sign_SEEDBYTES
  const PublicKeyBytes: nat := 32   // crypto_sign_PUBLICKEYBYTES
  const SecretKeyBytes: nat := 64   // crypto_sign_SECRETKEYBYTES (seed || public key, RFC 8032 section 5.1.5)
  const DigestBytes: nat := 32      // SHA3-256 (FIPS 202 section 6.1)

  datatype KeyPair = KeyPair(publicKey: Bytes, secretKey: Bytes)

  /** The primitives the module calls: `crypto_sign_seed_keypair`,
      `crypto_sign_ed25519_sk_to_pk`, `crypto_sign_detached` and SHA3-256.
      Their output sizes are the library's business and nothing here relies
      on them. */
  datatype Primitives = Primitives(
    seedKeypair: Bytes -> KeyPair,
    secretToPublic: Bytes -> Bytes,
    signDetached: (Bytes, Bytes) -> Bytes,   // (message, secret key)
    sha3: Bytes -> Bytes)

  type FileSystem = map<string, string>

  datatype KeyError =
    | ReadFailed              // `fs.readFile` rejected: no such file
    | InvalidSecretKey(length: nat)
    | NotASecretKey           // an argument assertion failed
    | AlreadyExists           // `wx` refused to overwrite

  /** `readKey(path)`: reads the file as text, decodes it as hex and
      dispatches on the decoded length. */
  function ReadKey(p: Primitives, fs: FileSystem, path: string): (r: Result<KeyPair, KeyError>)
    ensures path !in fs ==> r == Err(ReadFailed)
    ensures r.Ok? <==> path in fs && |DecodeHex(fs[path])| in {SeedBytes, SecretKeyBytes}
    ensures path in fs && |DecodeHex(fs[path])| !in {SeedBytes, SecretKeyBytes}
      ==> r == Err(InvalidSecretKey(|DecodeHex(fs[path])|))
    ensures path in fs && |DecodeHex(fs[path])| == SeedBytes
      ==> r == Ok(p.seedKeypair(DecodeHex(fs[path])))
    ensures path in fs && |DecodeHex(fs[path])| == SecretKeyBytes
      ==> r == Ok(KeyPair(p.secretToPublic(DecodeHex(fs[path])), DecodeHex(fs[path])))
  {
    if path !in fs then Err(ReadFailed)
    else
      var secretKey := DecodeHex(fs[path]);
      if |secretKey| == SeedBytes then Ok(p.seedKeypair(secretKey))
      else if |secretKey| != SecretKeyBytes then Err(InvalidSecretKey(|secretKey|))
      else Ok(KeyPair(p.secretToPublic(secretKey), secretKey))
  }

  /** `writeKey(path, secretKey)`: writes the hex text with the exclusive
      create flag `wx`, so an existing file is never replaced. */
  function WriteKey(fs: FileSystem, path: string, secretKey: Bytes): (r: Result<FileSystem, KeyError>)
    ensures r.Ok? <==> |secretKey| == SecretKeyBytes && path !in fs
    ensures |secretKey| == SecretKeyBytes && path in fs ==> r == Err(AlreadyExists)
    ensures r.Ok? ==> r.value.Keys == fs.Keys + {path}
    ensures r.Ok? ==> forall q :: q in fs ==> r.value[q] == fs[q]
  {
    if |secretKey| != SecretKeyBytes then Err(NotASecretKey)
    else if path in fs then Err(AlreadyExists)
    else Ok(fs[path := Hex(secretKey)])
  }

  datatype Ensured = Ensured(result: Result<KeyPair, KeyError>, fs: FileSystem)

  /** `ensureKey(path)`: the stored key if it reads, otherwise the freshly
      generated pair, persisted with `writeKey`. */
  function EnsureKey(p: Primitives, fs: FileSystem, path: string, generated: KeyPair): (e: Ensured)
    ensures ReadKey(p, fs, path).Ok? ==> e == Ensured(ReadKey(p, fs, path), fs)
    ensures forall q :: q in fs ==> q in e.fs && e.fs[q] == fs[q]
    ensures path in fs && ReadKey(p, fs, path).Err? ==> e.result.Err? && e.fs == fs
    ensures e.result.Ok? ==> path in e.fs
  {
    match ReadKey(p, fs, path)
    case Ok(keypair) => Ensured(Ok(keypair), fs)
    case Err(_) =>
      match WriteKey(fs, path, generated.secretKey)
      case Ok(fs') => Ensured(Ok(generated), fs')
      case Err(e) => Ensured(Err(e), fs)
  }

  /** `sign(message, secretKey)`: a detached signature over the SHA3-256
      digest of the message, refused for a key of the wrong size. */
  function Sign(p: Primitives, message: Bytes, secretKey: Bytes): (r: Result<Bytes, KeyError>)
    ensures r.Ok? <==> |secretKey| == SecretKeyBytes
    ensures r.Err? ==> r.error == NotASecretKey
  {
    if |secretKey| != SecretKeyBytes then Err(NotASecretKey)
    else Ok(p.signDetached(p.sha3(message), secretKey))
  }

  // ---------------------------------------------------------------------------
  // Properties.

  /** What `writeKey` stores, `readKey` gives back: the same secret key, with
      its public key derived from it. */
  lemma WriteThenRead(p: Primitives, fs: FileSystem, path: string, secretKey: Bytes)
    requires WriteKey(fs, path, secretKey).Ok?
    ensures ReadKey(p, WriteKey(fs, path, secretKey).value, path)
      == Ok(KeyPair(p.secretToPublic(secretKey), secretKey))
  {
    DecodeHexOfHex(secretKey);
  }

  /** A file whose text decodes to a 64-byte secret key yields that key
      unchanged, with the public key derived from it. */
  lemma ReadSecretKeyFile(p: Primitives, fs: FileSystem, path: string, secretKey: Bytes)
    requires |secretKey| == SecretKeyBytes && path in fs && DecodeHex(fs[path]) == secretKey
    ensures ReadKey(p, fs, path) == Ok(KeyPair(p.secretToPublic(secretKey), secretKey))
  {
  }

  /** A legacy file whose text decodes to a 32-byte seed yields the pair
      derived from that seed. */
  lemma ReadSeedFile(p: Primitives, fs: FileSystem, path: string, seed: Bytes)
    requires |seed| == SeedBytes && path in fs && DecodeHex(fs[path]) == seed
    ensures ReadKey(p, fs, path) == Ok(p.seedKeypair(seed))
  {
  }

  /** A file of any other decoded length is refused, naming that length. */
  lemma ReadOtherLengthFails(p: Primitives, fs: FileSystem, path: string, key: Bytes)
    requires |key| != SeedBytes && |key| != SecretKeyBytes
    requires path in fs && DecodeHex(fs[path]) == key
    ensures ReadKey(p, fs, path) == Err(InvalidSecretKey(|key|))
  {
  }

  /** A hand-edited key file: the hex of a key followed by text that does not
      start with a hex digit (a trailing newline, say) reads as that key, since
      hex decoding stops at the first pair that is not two hex digits. */
  lemma ReadKeyWithTrailer(p: Primitives, fs: FileSystem, path: string, secretKey: Bytes, trailer: string)
    requires |secretKey| == SecretKeyBytes && |trailer| >= 1 && !IsHexChar(trailer[0])
    requires path in fs && fs[path] == Hex(secretKey) + trailer
    ensures ReadKey(p, fs, path) == Ok(KeyPair(p.secretToPublic(secretKey), secretKey))
  {
    DecodeHexStopsAtGarbage(secretKey, trailer);
  }

  /** With no file, `ensureKey` returns the generated pair and leaves a file
      that reads back as that secret key. */
  lemma EnsureKeyCreates(p: Primitives, fs: FileSystem, path: string, generated: KeyPair)
    requires path !in fs && |generated.secretKey| == SecretKeyBytes
    ensures var e := EnsureKey(p, fs, path, generated);
      && e.result == Ok(generated)
      && e.fs == fs[path := Hex(generated.secretKey)]
      && ReadKey(p, e.fs, path) == Ok(KeyPair(p.secretToPublic(generated.secretKey), generated.secretKey))
  {
    WriteThenRead(p, fs, path, generated.secretKey);
  }

  /** A second `ensureKey` on the same path reads back the first one's key
      and writes nothing. */
  lemma EnsureKeyStable(p: Primitives, fs: FileSystem, path: string, first: KeyPair, second: KeyPair)
    requires path !in fs && |first.secretKey| == SecretKeyBytes
    ensures var e1 := EnsureKey(p, fs, path, first);
      var e2 := EnsureKey(p, e1.fs, path, second);
      && e2.fs == e1.fs
      && e2.result == Ok(KeyPair(p.secretToPublic(first.secretKey), first.secretKey))
  {
    EnsureKeyCreates(p, fs, path, first);
  }

  /** The signature depends on the message only through its digest. */
  lemma SignsTheDigest(p: Primitives, m1: Bytes, m2: Bytes, secretKey: Bytes)
    requires p.sha3(m1) == p.sha3(m2)
    ensures Sign(p, m1, secretKey) == Sign(p, m2, secretKey)
  {
  }
}
