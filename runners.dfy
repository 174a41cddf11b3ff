/** The timed round-trip runners (Program.cs:115-148) over an abstract cipher.
    The cipher itself, AES in CBC mode with PKCS7 padding from the platform
    library, is modelled as a pair of transforms; the stopwatch is left out. */
module Runners {
  import opened Settings

  type Bytes = seq<bv8>

  /** The two block transforms a provider hands out for one key, mode and padding. */
  datatype Cipher = Cipher(encrypt: Bytes -> Bytes, decrypt: Bytes -> Bytes)

  /** Decrypting what was encrypted gives the input back: the property every
      correct cipher has and the one the chained runners rely on. */
  ghost predicate RoundTripsToIdentity(c: Cipher) {
    forall x :: c.decrypt(c.encrypt(x)) == x
  }

  datatype Kind = Encryptor | Decryptor

  /** A transform handle obtained from a provider. */
  datatype Transform = Transform(kind: Kind, apply: Bytes -> Bytes)

  /** `TransformFinalBlock` over the whole buffer. */
  function TransformFinalBlock(t: Transform, data: Bytes): Bytes {
    t.apply(data)
  }

  /** A provider (`SymmetricAlgorithm`) with a ledger of the handles it has
      created and the handles that have been disposed. */
  class Algorithm {
    const cipher: Cipher
    var encryptorsCreated: nat
    var decryptorsCreated: nat
    var encryptorsDisposed: nat
    var decryptorsDisposed: nat

    constructor (cipher: Cipher)
      ensures this.cipher == cipher
      ensures encryptorsCreated == decryptorsCreated == 0
      ensures encryptorsDisposed == decryptorsDisposed == 0
    {
      this.cipher := cipher;
      encryptorsCreated, decryptorsCreated := 0, 0;
      encryptorsDisposed, decryptorsDisposed := 0, 0;
    }

    method CreateEncryptor() returns (t: Transform)
      modifies this
      ensures t == Transform(Encryptor, cipher.encrypt)
      ensures encryptorsCreated == old(encryptorsCreated) + 1
      ensures decryptorsCreated == old(decryptorsCreated)
      ensures encryptorsDisposed == old(encryptorsDisposed)
      ensures decryptorsDisposed == old(decryptorsDisposed)
    {
      t := Transform(Encryptor, cipher.encrypt);
      encryptorsCreated := encryptorsCreated + 1;
    }

    method CreateDecryptor() returns (t: Transform)
      modifies this
      ensures t == Transform(Decryptor, cipher.decrypt)
      ensures decryptorsCreated == old(decryptorsCreated) + 1
      ensures encryptorsCreated == old(encryptorsCreated)
      ensures encryptorsDisposed == old(encryptorsDisposed)
      ensures decryptorsDisposed == old(decryptorsDisposed)
    {
      t := Transform(Decryptor, cipher.decrypt);
      decryptorsCreated := decryptorsCreated + 1;
    }

    /** Disposing a handle (the end of a `using` block or an explicit `Dispose`). */
    method Dispose(t: Transform)
      modifies this
      ensures encryptorsDisposed == old(encryptorsDisposed) + (if t.kind == Encryptor then 1 else 0)
      ensures decryptorsDisposed == old(decryptorsDisposed) + (if t.kind == Decryptor then 1 else 0)
      ensures encryptorsCreated == old(encryptorsCreated)
      ensures decryptorsCreated == old(decryptorsCreated)
    {
      if t.kind == Encryptor {
        encryptorsDisposed := encryptorsDisposed + 1;
      } else {
        decryptorsDisposed := decryptorsDisposed + 1;
      }
    }
  }

  /** The buffer after `n` chained cycles: each cycle encrypts the previous
      cycle's decrypted output and decrypts the result. */
  function RoundTrips(c: Cipher, data: Bytes, n: nat): Bytes {
    if n == 0 then data else c.decrypt(c.encrypt(RoundTrips(c, data, n - 1)))
  }

  /** For a correct cipher the chaining never corrupts the payload: after any
      number of cycles the buffer is the original one, bit for bit. */
  lemma {:induction false} RoundTripsPreservePayload(c: Cipher, data: Bytes, n: nat)
    requires RoundTripsToIdentity(c)
    ensures RoundTrips(c, data, n) == data
  {
    if n > 0 {
      RoundTripsPreservePayload(c, data, n - 1);
      assert c.decrypt(c.encrypt(data)) == data;
    }
  }

  /** Dispose-each-cycle (Program.cs:115-128): a fresh encryptor and decryptor
      per cycle, both disposed before the next one. The source discards the
      final buffer; it is returned here so that the chaining can be stated. */
  method EncryptDecryptDispose(aes: Algorithm, data: Bytes) returns (result: Bytes)
    modifies aes
    ensures result == RoundTrips(aes.cipher, data, Iterations)
    ensures aes.encryptorsCreated == old(aes.encryptorsCreated) + Iterations
    ensures aes.decryptorsCreated == old(aes.decryptorsCreated) + Iterations
    ensures aes.encryptorsDisposed == old(aes.encryptorsDisposed) + Iterations
    ensures aes.decryptorsDisposed == old(aes.decryptorsDisposed) + Iterations
  {
    result := data;
    for i := 0 to Iterations
      invariant result == RoundTrips(aes.cipher, data, i)
      invariant aes.encryptorsCreated == old(aes.encryptorsCreated) + i
      invariant aes.decryptorsCreated == old(aes.decryptorsCreated) + i
      invariant aes.encryptorsDisposed == old(aes.encryptorsDisposed) + i
      invariant aes.decryptorsDisposed == old(aes.decryptorsDisposed) + i
    {
      var crypto := aes.CreateEncryptor();
      var decryptor := aes.CreateDecryptor();
      var encryptedData := TransformFinalBlock(crypto, result);
      result := TransformFinalBlock(decryptor, encryptedData);
      aes.Dispose(decryptor);
      aes.Dispose(crypto);
    }
  }

  /** Reuse mode (Program.cs:130-148): one encryptor for the whole run; for the
      native provider a new decryptor is created after every cycle and the
      previous one is never disposed; only the last decryptor is disposed. */
  method EncryptDecryptNDispose(aes: Algorithm, data: Bytes, isNative: bool) returns (result: Bytes)
    modifies aes
    ensures result == RoundTrips(aes.cipher, data, Iterations)
    ensures aes.encryptorsCreated == old(aes.encryptorsCreated) + 1
    ensures aes.decryptorsCreated == old(aes.decryptorsCreated) + (if isNative then 1 + Iterations else 1)
    ensures aes.encryptorsDisposed == old(aes.encryptorsDisposed) + 1
    ensures aes.decryptorsDisposed == old(aes.decryptorsDisposed) + 1
  {
    var crypto := aes.CreateEncryptor();
    var decryptor := aes.CreateDecryptor();
    result := data;
    for i := 0 to Iterations
      invariant result == RoundTrips(aes.cipher, data, i)
      invariant decryptor == Transform(Decryptor, aes.cipher.decrypt)
      invariant aes.encryptorsCreated == old(aes.encryptorsCreated) + 1
      invariant aes.decryptorsCreated == old(aes.decryptorsCreated) + (if isNative then 1 + i else 1)
      invariant aes.encryptorsDisposed == old(aes.encryptorsDisposed)
      invariant aes.decryptorsDisposed == old(aes.decryptorsDisposed)
    {
      var encryptedData := TransformFinalBlock(crypto, result);
      result := TransformFinalBlock(decryptor, encryptedData);
      if isNative {
        decryptor := aes.CreateDecryptor();
      }
    }
    aes.Dispose(decryptor);
    aes.Dispose(crypto);
  }
}
