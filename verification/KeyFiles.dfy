/**
 The file that holds the store key, encrypted under a passphrase.
 */
module KeyFiles {
  import opened Wrappers
  import opened Sequences
  import opened Crypto
  import opened EncryptedStream

  const SALT_SIZE: nat := 16
  const IV_SIZE: nat := 16
  const KEY_SIZE: nat := 32
  const MAC_LENGTH: nat := 32
  const VERSION: Byte := 1

  /** WrongKeyLength stands for the panic of a copy between slices of unequal length. */
  datatype KeyError =
    | EmptyPassphrase | InvalidCount | FileNotFound | TruncatedFile | InvalidVersion
    | InvalidKeyMac | WrongKeyLength | Stream(error: StreamError)

  /** The sizes of AES-256, HMAC-SHA256 and the two key derivations. */
  ghost predicate Sized(crypto: Primitives) {
    && (forall k, iv :: |k| == KEY_SIZE && |iv| == IV_SIZE ==> crypto.accepts(k, iv))
    && (forall k, m :: |crypto.hmac(k, m)| == MAC_LENGTH)
    && (forall p, s, n :: |crypto.pbkdf2(p, s, n)| == 2 * KEY_SIZE)
    && (forall k :: |crypto.hkdf(k)| == 2 * KEY_SIZE)
  }

  datatype Keys = Keys(encryption: Bytes, mac: Bytes)

  function SplitKeys(derived: Bytes): Keys
    requires |derived| == 2 * KEY_SIZE
  {
    Keys(derived[..KEY_SIZE], derived[KEY_SIZE..])
  }

  function Rederive(crypto: Primitives, passphrase: string, salt: Bytes, count: bv32): Keys
    requires Sized(crypto)
  {
    SplitKeys(crypto.pbkdf2(passphrase, salt, count))
  }

  // ----- Big-endian counts -----

  function ToBytes(n: bv32): (b: Bytes)
    ensures |b| == 4
  {
    [(n >> 24) as bv8, ((n >> 16) & 0xFF) as bv8, ((n >> 8) & 0xFF) as bv8, (n & 0xFF) as bv8]
  }

  function FromBytes(b: Bytes): bv32
    requires |b| == 4
  {
    ((b[0] as bv32) << 24) | ((b[1] as bv32) << 16) | ((b[2] as bv32) << 8) | (b[3] as bv32)
  }

  lemma CountRoundTrip(n: bv32)
    ensures FromBytes(ToBytes(n)) == n
  {
  }

  /** The most significant byte comes first. */
  lemma CountIsBigEndian(n: bv32)
    ensures var b := ToBytes(n);
            n == (b[0] as bv32) * 0x100_0000 + (b[1] as bv32) * 0x1_0000 + (b[2] as bv32) * 0x100 + (b[3] as bv32)
  {
  }

  // ----- The format -----

  const HEADER_LENGTH: nat := 1 + IV_SIZE + SALT_SIZE + 4 + MAC_LENGTH

  /** The code covers the version, the vector, the salt and the ciphertext. */
  function Authenticated(version: Byte, iv: Bytes, salt: Bytes, ciphertext: Bytes): Bytes {
    [version] + iv + salt + ciphertext
  }

  /** The key file of a store key. */
  function KeyFile(
    crypto: Primitives, passphrase: string, iv: Bytes, salt: Bytes, count: bv32, storeKey: Bytes): Bytes
    requires Sized(crypto)
  {
    var keys := Rederive(crypto, passphrase, salt, count);
    var ciphertext := Cipher(crypto, keys.encryption, iv, storeKey);
    [VERSION] + iv + salt + ToBytes(count)
      + crypto.hmac(keys.mac, Authenticated(VERSION, iv, salt, ciphertext)) + ciphertext
  }

  /** The fields of a key file, cut at their offsets. */
  datatype Fields = Fields(
    version: Byte, iv: Bytes, salt: Bytes, count: bv32, mac: Bytes, ciphertext: Bytes)

  function Parse(data: Bytes): Fields
    requires |data| >= HEADER_LENGTH
  {
    Fields(data[0], data[1..17], data[17..33], FromBytes(data[33..37]), data[37..69],
           data[69..69 + Least(KEY_SIZE, |data| - 69)])
  }

  /** What loading a key file answers. */
  function Load(crypto: Primitives, data: Bytes, passphrase: string): Result<(bv32, Bytes), KeyError>
    requires Sized(crypto)
  {
    if |data| < HEADER_LENGTH then Failure(TruncatedFile)
    else
      var f := Parse(data);
      var keys := Rederive(crypto, passphrase, f.salt, f.count);
      if f.version != VERSION then Failure(InvalidVersion)
      else if f.mac != crypto.hmac(keys.mac, Authenticated(f.version, f.iv, f.salt, f.ciphertext)) then
        Failure(InvalidKeyMac)
      else Success((f.count, Cipher(crypto, keys.encryption, f.iv, f.ciphertext)))
  }

  /** The fields of a file that was put together from fields. */
  lemma ParseConcat(
    version: Byte, iv: Bytes, salt: Bytes, count: bv32, mac: Bytes, ciphertext: Bytes, rest: Bytes)
    requires |iv| == IV_SIZE && |salt| == SALT_SIZE && |mac| == MAC_LENGTH && |ciphertext| == KEY_SIZE
    ensures var data := [version] + iv + salt + ToBytes(count) + mac + ciphertext + rest;
            Parse(data) == Fields(version, iv, salt, count, mac, ciphertext)
  {
  }

  lemma Unparse(data: Bytes)
    requires |data| >= HEADER_LENGTH + KEY_SIZE
    ensures var f := Parse(data);
            data == [f.version] + f.iv + f.salt + ToBytes(f.count) + f.mac + f.ciphertext + data[101..]
  {
  }

  /** Loading is the inverse of writing: a full key comes out exactly if the file is,
      up to trailing bytes, the one written for it under some vector and salt. */
  lemma LoadInvertsKeyFile(crypto: Primitives, data: Bytes, passphrase: string, count: bv32, storeKey: Bytes)
    requires Sized(crypto) && |storeKey| == KEY_SIZE
    ensures Load(crypto, data, passphrase) == Success((count, storeKey))
       <==> exists iv, salt, rest :: |iv| == IV_SIZE && |salt| == SALT_SIZE
              && data == KeyFile(crypto, passphrase, iv, salt, count, storeKey) + rest
  {
    if Load(crypto, data, passphrase) == Success((count, storeKey)) {
      LoadedWasWritten(crypto, data, passphrase, count, storeKey);
    }
    forall iv, salt, rest | |iv| == IV_SIZE && |salt| == SALT_SIZE
      && data == KeyFile(crypto, passphrase, iv, salt, count, storeKey) + rest
      ensures Load(crypto, data, passphrase) == Success((count, storeKey))
    {
      WrittenLoads(crypto, passphrase, iv, salt, count, storeKey, rest);
    }
  }

  lemma LoadedWasWritten(crypto: Primitives, data: Bytes, passphrase: string, count: bv32, storeKey: Bytes)
    requires Sized(crypto) && |storeKey| == KEY_SIZE
    requires Load(crypto, data, passphrase) == Success((count, storeKey))
    ensures |data| >= HEADER_LENGTH + KEY_SIZE
    ensures var f := Parse(data);
            data == KeyFile(crypto, passphrase, f.iv, f.salt, count, storeKey) + data[101..]
  {
    var f := Parse(data);
    var keys := Rederive(crypto, passphrase, f.salt, f.count);
    assert |f.ciphertext| == KEY_SIZE;
    MaskTwice(crypto.keystream(keys.encryption, f.iv), 0, f.ciphertext);
    Unparse(data);
  }

  lemma WrittenLoads(
    crypto: Primitives, passphrase: string, iv: Bytes, salt: Bytes, count: bv32, storeKey: Bytes, rest: Bytes)
    requires Sized(crypto) && |iv| == IV_SIZE && |salt| == SALT_SIZE && |storeKey| == KEY_SIZE
    ensures Load(crypto, KeyFile(crypto, passphrase, iv, salt, count, storeKey) + rest, passphrase)
         == Success((count, storeKey))
  {
    var keys := Rederive(crypto, passphrase, salt, count);
    var ciphertext := Cipher(crypto, keys.encryption, iv, storeKey);
    var mac := crypto.hmac(keys.mac, Authenticated(VERSION, iv, salt, ciphertext));
    ParseConcat(VERSION, iv, salt, count, mac, ciphertext, rest);
    MaskTwice(crypto.keystream(keys.encryption, iv), 0, storeKey);
  }

  /** The key file of a store key, byte by byte: version 1, the vector, the salt, the count,
      the code of all but the count, and the store key combined with the keystream. The keys
      are the halves of what is derived from the passphrase with this salt and count. */
  lemma KeyFileLayout(
    crypto: Primitives, passphrase: string, iv: Bytes, salt: Bytes, count: bv32, storeKey: Bytes)
    requires Sized(crypto) && |iv| == 16 && |salt| == 16 && |storeKey| == 32
    ensures var file, derived := KeyFile(crypto, passphrase, iv, salt, count, storeKey),
                                 crypto.pbkdf2(passphrase, salt, count);
            && |file| == 101 && file[0] == 1 && file[1..17] == iv && file[17..33] == salt
            && count == (file[33] as bv32) * 0x100_0000 + (file[34] as bv32) * 0x1_0000
                          + (file[35] as bv32) * 0x100 + (file[36] as bv32)
            && file[37..69] == crypto.hmac(derived[32..], file[..33] + file[69..])
            && forall i | 0 <= i < 32 :: file[69 + i] == storeKey[i] ^ crypto.keystream(derived[..32], iv)(i)
  {
    var keys := Rederive(crypto, passphrase, salt, count);
    var ciphertext := Cipher(crypto, keys.encryption, iv, storeKey);
    var code := crypto.hmac(keys.mac, Authenticated(VERSION, iv, salt, ciphertext));
    var file := KeyFile(crypto, passphrase, iv, salt, count, storeKey);
    CountIsBigEndian(count);
    FieldsAt(VERSION, iv, salt, ToBytes(count), code, ciphertext);
    assert file == [VERSION] + iv + salt + ToBytes(count) + code + ciphertext;
    assert file[..33] + file[69..] == Authenticated(VERSION, iv, salt, ciphertext);
  }

  /** Where the fields of a key file lie. */
  lemma FieldsAt(version: Byte, iv: Bytes, salt: Bytes, count: Bytes, code: Bytes, ciphertext: Bytes)
    requires |iv| == 16 && |salt| == 16 && |count| == 4 && |code| == 32 && |ciphertext| == 32
    ensures var file := [version] + iv + salt + count + code + ciphertext;
            && |file| == 101 && file[0] == version && file[1..17] == iv && file[17..33] == salt
            && file[33] == count[0] && file[34] == count[1] && file[35] == count[2] && file[36] == count[3]
            && file[37..69] == code && file[69..] == ciphertext && file[..33] == [version] + iv + salt
            && forall i | 0 <= i < 32 :: file[69 + i] == ciphertext[i]
  {
  }

  /** Each error of loading stands for one defect of the bytes. */
  lemma LoadErrorsIff(crypto: Primitives, data: Bytes, passphrase: string)
    requires Sized(crypto)
    ensures var r, written := Load(crypto, data, passphrase), CodeHolds(crypto, data, passphrase);
            && (r == Failure(TruncatedFile) <==> |data| < 69)
            && (r == Failure(InvalidVersion) <==> |data| >= 69 && data[0] != 1)
            && (r == Failure(InvalidKeyMac) <==> |data| >= 69 && data[0] == 1 && !written)
            && (r.Success? <==> |data| >= 69 && data[0] == 1 && written)
  {
    if |data| >= 69 {
      var f := Parse(data);
      assert f.ciphertext == Prefix(data[69..], 32);
      assert data[..33] + f.ciphertext == Authenticated(data[0], f.iv, f.salt, f.ciphertext);
    }
  }

  /** The bytes from 37 on are the code of the other fields, under the key that is derived from
      this passphrase. */
  ghost predicate CodeHolds(crypto: Primitives, data: Bytes, passphrase: string)
    requires Sized(crypto)
  {
    && |data| >= 69
    && var derived := crypto.pbkdf2(passphrase, data[17..33], FromBytes(data[33..37]));
       data[37..69] == crypto.hmac(derived[32..], data[..33] + Prefix(data[69..], 32))
  }

  /** No code is the same under the keys of these two passphrases. */
  ghost predicate NoCommonCode(crypto: Primitives, p: string, q: string)
    requires Sized(crypto)
  {
    forall salt, count, m | |salt| == SALT_SIZE ::
      crypto.hmac(crypto.pbkdf2(p, salt, count)[KEY_SIZE..], m)
        != crypto.hmac(crypto.pbkdf2(q, salt, count)[KEY_SIZE..], m)
  }

  /** A file that one passphrase opens is refused with another. */
  lemma WrongPassphraseRefused(crypto: Primitives, data: Bytes, passphrase: string, other: string)
    requires Sized(crypto) && Load(crypto, data, passphrase).Success? && NoCommonCode(crypto, passphrase, other)
    ensures Load(crypto, data, other) == Failure(InvalidKeyMac)
  {
    LoadErrorsIff(crypto, data, passphrase);
    LoadErrorsIff(crypto, data, other);
  }

  // ----- Reading and writing it -----

  method CalculateHmac(
    crypto: Primitives, version: Byte, iv: Bytes, salt: Bytes, ciphertext: Bytes, macKey: Bytes)
    returns (mac: Mac)
    ensures fresh(mac) && mac.crypto == crypto && mac.key == macKey
    ensures mac.absorbed == Authenticated(version, iv, salt, ciphertext)
  {
    mac := new Mac(crypto, macKey);
    mac.Update([version]);
    mac.Update(iv);
    mac.Update(salt);
    mac.Update(ciphertext);
  }

  method ReadField(file: Source, size: nat) returns (r: Result<Bytes, KeyError>)
    requires file.pos <= |file.data|
    modifies file
    ensures |file.data| - old(file.pos) < size ==> r == Failure(TruncatedFile) && file.pos <= |file.data|
    ensures size <= |file.data| - old(file.pos) ==>
              r == Success(file.data[old(file.pos)..old(file.pos) + size]) && file.pos == old(file.pos) + size
  {
    var field := file.ReadExact(size);
    r := match field case Success(b) => Success(b) case Failure(_) => Failure(TruncatedFile);
  }

  /** Reads the fields in the order in which they lie in the file. */
  method ReadFields(file: Source) returns (r: Result<Fields, KeyError>)
    requires file.pos == 0
    modifies file
    ensures r == if |file.data| < HEADER_LENGTH then Failure(TruncatedFile) else Success(Parse(file.data))
  {
    var version := ReadField(file, 1);
    if version.Failure? { return Failure(version.error); }
    var iv := ReadField(file, IV_SIZE);
    if iv.Failure? { return Failure(iv.error); }
    var salt := ReadField(file, SALT_SIZE);
    if salt.Failure? { return Failure(salt.error); }
    var count := ReadField(file, 4);
    if count.Failure? { return Failure(count.error); }
    var mac := ReadField(file, MAC_LENGTH);
    if mac.Failure? { return Failure(mac.error); }
    var ciphertext := file.TakeToEnd(KEY_SIZE);
    return Success(
      Fields(version.value[0], iv.value, salt.value, FromBytes(count.value), mac.value, ciphertext));
  }

  method LoadStoreKey(crypto: Primitives, file: Source, passphrase: string)
    returns (r: Result<(bv32, Bytes), KeyError>)
    requires Sized(crypto) && file.pos == 0
    modifies file
    ensures r == Load(crypto, file.data, passphrase)
  {
    var fields := ReadFields(file);
    if fields.Failure? {
      return Failure(fields.error);
    }
    var f := fields.value;
    if f.version != VERSION {
      return Failure(InvalidVersion);
    }
    var keys := Rederive(crypto, passphrase, f.salt, f.count);
    var mac := CalculateHmac(crypto, f.version, f.iv, f.salt, f.ciphertext, keys.mac);
    var ok := mac.Verify(f.mac);
    if !ok {
      return Failure(InvalidKeyMac);
    }
    var key := ApplyCipher(crypto, keys.encryption, f.iv, f.ciphertext);
    return Success((f.count, key));
  }

  /** Encrypts or decrypts a copy in place. */
  method ApplyCipher(crypto: Primitives, key: Bytes, iv: Bytes, data: Bytes) returns (out: Bytes)
    ensures out == Cipher(crypto, key, iv, data)
  {
    var cipher := new Ctr(crypto.keystream(key, iv));
    var buf := new Byte[|data|](i requires 0 <= i < |data| => data[i]);
    assert buf[..] == data;
    cipher.ApplyKeystream(buf);
    out := buf[..];
  }

  method WriteHeader(file: Sink, iv: Bytes, salt: Bytes, count: bv32)
    modifies file
    ensures file.bytes == [VERSION] + iv + salt + ToBytes(count)
  {
    file.Truncate();
    file.WriteAll([VERSION]);
    file.WriteAll(iv);
    file.WriteAll(salt);
    file.WriteAll(ToBytes(count));
  }

  /** Writes the key file anew; the vector was drawn by the environment. */
  method EncryptStoreKey(
    crypto: Primitives, passphrase: string, iv: Bytes, salt: Bytes, count: bv32, storeKey: Bytes, file: Sink)
    returns (r: Result<(), KeyError>)
    requires Sized(crypto) && |iv| == IV_SIZE && |salt| == SALT_SIZE
    modifies file
    ensures |storeKey| != KEY_SIZE ==> r == Failure(WrongKeyLength) && file.bytes == old(file.bytes)
    ensures |storeKey| == KEY_SIZE ==>
              r == Success(()) && file.bytes == KeyFile(crypto, passphrase, iv, salt, count, storeKey)
  {
    var keys := Rederive(crypto, passphrase, salt, count);
    if |storeKey| != KEY_SIZE {
      return Failure(WrongKeyLength);
    }
    WriteHeader(file, iv, salt, count);
    var ciphertext := ApplyCipher(crypto, keys.encryption, iv, storeKey);
    var mac := CalculateHmac(crypto, VERSION, iv, salt, ciphertext, keys.mac);
    var tag := mac.FinalizeReset();
    file.WriteAll(tag);
    file.WriteAll(ciphertext);
    return Success(());
  }
}
