/**
 The encrypted directory: a key file beside files that are encrypted under keys
 expanded from the store key.
 */
module EncryptedDirectories {
  import opened Wrappers
  import opened Crypto
  import opened EncryptedStream
  import opened KeyFiles

  /** What lies on disk. */
  datatype Folder = Folder(keyFile: Option<Bytes>, files: map<string, Bytes>)

  /** The random bytes that one operation draws. */
  datatype Draw = Draw(iv: Bytes, salt: Bytes, storeKey: Bytes, fileRandom: Bytes)

  predicate DrawSized(d: Draw) {
    |d.iv| == IV_SIZE && |d.salt| == SALT_SIZE && |d.storeKey| == KEY_SIZE && |d.fileRandom| == IV_SIZE / 2
  }

  function Expand(crypto: Primitives, storeKey: Bytes): (keys: Keys)
    requires Sized(crypto)
    ensures |keys.encryption| == KEY_SIZE
  {
    SplitKeys(crypto.hkdf(storeKey))
  }

  // ----- The operations -----

  function OpenOrCreate(crypto: Primitives, folder: Folder, passphrase: string, count: bv32, draw: Draw)
    : (Folder, Result<Keys, KeyError>)
    requires Sized(crypto)
  {
    if passphrase == "" then (folder, Failure(EmptyPassphrase))
    else if count == 0 then (folder, Failure(InvalidCount))
    else
      match folder.keyFile
      case Some(data) =>
        (match Load(crypto, data, passphrase)
         case Success(loaded) => (folder, Success(Expand(crypto, loaded.1)))
         case Failure(e) => (folder, Failure(e)))
      case None =>
        (folder.(keyFile := Some(KeyFile(crypto, passphrase, draw.iv, draw.salt, count, draw.storeKey))),
         Success(Expand(crypto, draw.storeKey)))
  }

  function ChangePassphrase(
    crypto: Primitives, folder: Folder, oldPhrase: string, newPhrase: string, count: bv32, draw: Draw)
    : (Folder, Result<(), KeyError>)
    requires Sized(crypto)
  {
    if oldPhrase == "" || newPhrase == "" then (folder, Failure(EmptyPassphrase))
    else if count == 0 then (folder, Failure(InvalidCount))
    else if folder.keyFile == None then (folder, Failure(FileNotFound))
    else
      match Load(crypto, folder.keyFile.value, oldPhrase)
      case Failure(e) => (folder, Failure(e))
      case Success(loaded) =>
        if |loaded.1| != KEY_SIZE then (folder, Failure(WrongKeyLength))
        else
          (folder.(keyFile := Some(KeyFile(crypto, newPhrase, draw.iv, draw.salt, count, loaded.1))), Success(()))
  }

  function AtomicWrite(crypto: Primitives, folder: Folder, keys: Keys, name: string, data: Bytes, random: Bytes)
    : Folder
  {
    var file := FileOf(crypto, keys.encryption, keys.mac, NewIv(random, IV_SIZE), data);
    folder.(files := folder.files[name := file])
  }

  function AtomicRead(crypto: Primitives, folder: Folder, keys: Keys, name: string): Result<Bytes, KeyError> {
    if name !in folder.files then Failure(FileNotFound)
    else
      var data := folder.files[name];
      match Verdict(crypto, data, keys.encryption, keys.mac, IV_SIZE, MAC_LENGTH)
      case Some(e) => Failure(Stream(e))
      case None =>
        Success(Cipher(crypto, keys.encryption, data[..IV_SIZE], data[IV_SIZE..|data| - MAC_LENGTH]))
  }

  class FolderDisk {
    var keyFile: Option<Bytes>
    var files: map<string, Bytes>

    constructor ()
      ensures Value() == Folder(None, map[])
    {
      keyFile, files := None, map[];
    }

    function Value(): Folder
      reads this
    {
      Folder(keyFile, files)
    }
  }

  method OpenDirectory(crypto: Primitives, disk: FolderDisk, passphrase: string, count: bv32, draw: Draw)
    returns (r: Result<Keys, KeyError>)
    requires Sized(crypto) && DrawSized(draw)
    modifies disk
    ensures (disk.Value(), r) == OpenOrCreate(crypto, old(disk.Value()), passphrase, count, draw)
  {
    if passphrase == "" {
      return Failure(EmptyPassphrase);
    }
    if count == 0 {
      return Failure(InvalidCount);
    }
    var storeKey := draw.storeKey;
    if disk.keyFile.Some? {
      var file := new Source(disk.keyFile.value, (call, most) => most);
      var loaded := LoadStoreKey(crypto, file, passphrase);
      if loaded.Failure? {
        return Failure(loaded.error);
      }
      storeKey := loaded.value.1;
    } else {
      var file := new Sink();
      var _ := EncryptStoreKey(crypto, passphrase, draw.iv, draw.salt, count, storeKey, file);
      disk.keyFile := Some(file.bytes);
    }
    return Success(Expand(crypto, storeKey));
  }

  method Change(crypto: Primitives, disk: FolderDisk, oldPhrase: string, newPhrase: string, count: bv32, draw: Draw)
    returns (r: Result<(), KeyError>)
    requires Sized(crypto) && DrawSized(draw)
    modifies disk
    ensures (disk.Value(), r) == ChangePassphrase(crypto, old(disk.Value()), oldPhrase, newPhrase, count, draw)
  {
    if oldPhrase == "" || newPhrase == "" {
      return Failure(EmptyPassphrase);
    }
    if count == 0 {
      return Failure(InvalidCount);
    }
    if disk.keyFile.None? {
      return Failure(FileNotFound);
    }
    var source := new Source(disk.keyFile.value, (call, most) => most);
    var loaded := LoadStoreKey(crypto, source, oldPhrase);
    if loaded.Failure? {
      return Failure(loaded.error);
    }
    var file := new Sink();
    r := EncryptStoreKey(crypto, newPhrase, draw.iv, draw.salt, count, loaded.value.1, file);
    if r.Success? {
      disk.keyFile := Some(file.bytes);
    }
  }

  class EncryptedMmapDirectory {
    const crypto: Primitives
    const keys: Keys
    const disk: FolderDisk

    ghost predicate Valid() {
      Sized(crypto) && |keys.encryption| == KEY_SIZE
    }

    constructor (crypto: Primitives, keys: Keys, disk: FolderDisk)
      requires Sized(crypto) && |keys.encryption| == KEY_SIZE
      ensures Valid() && this.crypto == crypto && this.keys == keys && this.disk == disk
    {
      this.crypto, this.keys, this.disk := crypto, keys, disk;
    }

    method Write(name: string, data: Bytes, random: Bytes)
      requires Valid() && |random| == IV_SIZE / 2
      modifies disk
      ensures disk.Value() == AtomicWrite(crypto, old(disk.Value()), keys, name, data, random)
    {
      var encrypted := WriteFile(crypto, keys.encryption, keys.mac, random, IV_SIZE, [data], false);
      assert Concat([data]) == data + Concat([]);
      assert data + [] == data;
      disk.files := disk.files[name := encrypted.value];
    }

    method Read(name: string, sizes: nat -> nat) returns (r: Result<Bytes, KeyError>)
      requires forall k :: sizes(k) > 0
      ensures r == AtomicRead(crypto, disk.Value(), keys, name)
    {
      if name !in disk.files {
        return Failure(FileNotFound);
      }
      var data := disk.files[name];
      var decrypted :=
        ReadFile(crypto, data, (call, most) => most, keys.encryption, keys.mac, IV_SIZE, MAC_LENGTH, sizes);
      r := match decrypted case Success(b) => Success(b) case Failure(e) => Failure(Stream(e));
    }
  }

  // ----- What a user of the directory sees -----

  /** The abstract directory: a passphrase and the contents of the files. */
  datatype Vault = Unset | Set(passphrase: string, contents: map<string, Bytes>)

  datatype Op =
    | Rekey(oldPhrase: string, newPhrase: string, count: bv32, draw: Draw)
    | Save(passphrase: string, count: bv32, draw: Draw, name: string, data: Bytes)


  /** A change of passphrase, or opening the directory and writing a file. */
  function Step(crypto: Primitives, folder: Folder, op: Op): Folder
    requires Sized(crypto)
  {
    match op
    case Rekey(oldPhrase, newPhrase, count, draw) =>
      ChangePassphrase(crypto, folder, oldPhrase, newPhrase, count, draw).0
    case Save(passphrase, count, draw, name, data) =>
      var (after, r) := OpenOrCreate(crypto, folder, passphrase, count, draw);
      if r.Failure? then after else AtomicWrite(crypto, after, r.value, name, data, draw.fileRandom)
  }

  function VaultStep(v: Vault, op: Op): Vault {
    match op
    case Rekey(oldPhrase, newPhrase, count, _) =>
      if v.Set? && oldPhrase == v.passphrase && newPhrase != "" && count != 0 then v.(passphrase := newPhrase) else v
    case Save(passphrase, count, _, name, data) =>
      if passphrase == "" || count == 0 then v
      else if v.Unset? then Set(passphrase, map[name := data])
      else if passphrase == v.passphrase then v.(contents := v.contents[name := data])
      else v
  }

  function Run(crypto: Primitives, folder: Folder, ops: seq<Op>): Folder
    requires Sized(crypto)
    decreases |ops|
  {
    if ops == [] then folder else Run(crypto, Step(crypto, folder, ops[0]), ops[1..])
  }

  function VaultRun(v: Vault, ops: seq<Op>): Vault
    decreases |ops|
  {
    if ops == [] then v else VaultRun(VaultStep(v, ops[0]), ops[1..])
  }

  function Passphrase(op: Op): string {
    if op.Rekey? then op.oldPhrase else op.passphrase
  }

  /** The assumption about the primitives: a wrong passphrase that is tried gives no code in
      common with the one in force. */
  ghost predicate Detects(crypto: Primitives, v: Vault, op: Op)
    requires Sized(crypto)
  {
    v.Set? && Passphrase(op) != v.passphrase ==> NoCommonCode(crypto, v.passphrase, Passphrase(op))
  }

  ghost predicate AllFit(crypto: Primitives, v: Vault, ops: seq<Op>)
    requires Sized(crypto)
    decreases |ops|
  {
    ops == [] || (
      && DrawSized(ops[0].draw) && Detects(crypto, v, ops[0])
      && AllFit(crypto, VaultStep(v, ops[0]), ops[1..]))
  }

  /** A passphrase that differs from the one in force does not open the folder. */
  lemma WrongPassphraseFails(crypto: Primitives, folder: Folder, v: Vault, storeKey: Bytes, passphrase: string)
    requires Sized(crypto) && v.Set? && Holds(crypto, folder, v, storeKey)
    requires passphrase != v.passphrase && NoCommonCode(crypto, v.passphrase, passphrase)
    ensures Load(crypto, folder.keyFile.value, passphrase) == Failure(InvalidKeyMac)
  {
    WrongPassphraseRefused(crypto, folder.keyFile.value, v.passphrase, passphrase);
  }

  ghost predicate IsFileOf(crypto: Primitives, keys: Keys, file: Bytes, data: Bytes) {
    exists iv :: |iv| == IV_SIZE && file == FileOf(crypto, keys.encryption, keys.mac, iv, data)
  }

  /** The folder holds the vault under this store key. */
  ghost predicate Holds(crypto: Primitives, folder: Folder, v: Vault, storeKey: Bytes)
    requires Sized(crypto)
  {
    match v
    case Unset => folder.keyFile == None && folder.files == map[]
    case Set(passphrase, contents) =>
      && passphrase != "" && |storeKey| == KEY_SIZE && folder.keyFile.Some?
      && Load(crypto, folder.keyFile.value, passphrase).Success?
      && Load(crypto, folder.keyFile.value, passphrase).value.1 == storeKey
      && FilesHold(crypto, Expand(crypto, storeKey), folder.files, contents)
  }

  ghost predicate FilesHold(
    crypto: Primitives, keys: Keys, files: map<string, Bytes>, contents: map<string, Bytes>)
  {
    && files.Keys == contents.Keys
    && forall name | name in contents :: IsFileOf(crypto, keys, files[name], contents[name])
  }

  /** Whoever holds the keys of this store reads back every file. */
  lemma ReadsBack(crypto: Primitives, folder: Folder, keys: Keys, contents: map<string, Bytes>, name: string)
    requires Sized(crypto) && |keys.encryption| == KEY_SIZE
    requires FilesHold(crypto, keys, folder.files, contents)
    ensures AtomicRead(crypto, folder, keys, name)
         == if name in contents then Success(contents[name]) else Failure(FileNotFound)
  {
    if name in contents {
      var iv :| |iv| == IV_SIZE
        && folder.files[name] == FileOf(crypto, keys.encryption, keys.mac, iv, contents[name]);
      FileAccepted(crypto, keys.encryption, keys.mac, iv, MAC_LENGTH, contents[name]);
    }
  }

  lemma NewKeyFileLoads(
    crypto: Primitives, passphrase: string, count: bv32, draw: Draw, storeKey: Bytes)
    requires Sized(crypto) && DrawSized(draw) && |storeKey| == KEY_SIZE
    ensures Load(crypto, KeyFile(crypto, passphrase, draw.iv, draw.salt, count, storeKey), passphrase)
         == Success((count, storeKey))
  {
    WrittenLoads(crypto, passphrase, draw.iv, draw.salt, count, storeKey, []);
    var file := KeyFile(crypto, passphrase, draw.iv, draw.salt, count, storeKey);
    assert file + [] == file;
  }

  lemma WriteHolds(
    crypto: Primitives, folder: Folder, keys: Keys, contents: map<string, Bytes>, name: string, data: Bytes, draw: Draw)
    requires DrawSized(draw) && FilesHold(crypto, keys, folder.files, contents)
    ensures var folder' := AtomicWrite(crypto, folder, keys, name, data, draw.fileRandom);
            folder'.keyFile == folder.keyFile
            && FilesHold(crypto, keys, folder'.files, contents[name := data])
  {
  }

  /** The store key that a folder has, or will have after this operation. */
  function KeyAfter(v: Vault, storeKey: Bytes, op: Op): Bytes {
    if v.Unset? then op.draw.storeKey else storeKey
  }

  lemma RekeyHolds(crypto: Primitives, folder: Folder, v: Vault, storeKey: Bytes, op: Op)
    requires Sized(crypto) && DrawSized(op.draw) && Detects(crypto, v, op) && op.Rekey?
    requires Holds(crypto, folder, v, storeKey)
    ensures Holds(crypto, Step(crypto, folder, op), VaultStep(v, op), KeyAfter(v, storeKey, op))
  {
    if v.Set? && op.oldPhrase == v.passphrase {
      NewKeyFileLoads(crypto, op.newPhrase, op.count, op.draw, storeKey);
    } else if v.Set? {
      WrongPassphraseFails(crypto, folder, v, storeKey, op.oldPhrase);
    }
  }

  lemma SaveHolds(crypto: Primitives, folder: Folder, v: Vault, storeKey: Bytes, op: Op)
    requires Sized(crypto) && DrawSized(op.draw) && Detects(crypto, v, op) && op.Save?
    requires Holds(crypto, folder, v, storeKey)
    ensures Holds(crypto, Step(crypto, folder, op), VaultStep(v, op), KeyAfter(v, storeKey, op))
  {
    var (after, r) := OpenOrCreate(crypto, folder, op.passphrase, op.count, op.draw);
    if v.Set? && op.passphrase != v.passphrase {
      WrongPassphraseFails(crypto, folder, v, storeKey, op.passphrase);
    } else if r.Success? {
      var contents := if v.Unset? then map[] else v.contents;
      if v.Unset? {
        NewKeyFileLoads(crypto, op.passphrase, op.count, op.draw, op.draw.storeKey);
      }
      WriteHolds(crypto, after, r.value, contents, op.name, op.data, op.draw);
    }
  }

  /** Every run of openings, writes and passphrase changes, good or bad, keeps the
      contents; once there is a store key it never changes. */
  lemma {:induction false} RunHolds(crypto: Primitives, folder: Folder, v: Vault, storeKey: Bytes, ops: seq<Op>)
    returns (key: Bytes)
    requires Sized(crypto) && AllFit(crypto, v, ops) && Holds(crypto, folder, v, storeKey)
    ensures Holds(crypto, Run(crypto, folder, ops), VaultRun(v, ops), key)
    ensures v.Set? ==> key == storeKey
    decreases |ops|
  {
    key := storeKey;
    if ops == [] {
    } else {
      if ops[0].Rekey? {
        RekeyHolds(crypto, folder, v, storeKey, ops[0]);
      } else {
        SaveHolds(crypto, folder, v, storeKey, ops[0]);
      }
      var next := KeyAfter(v, storeKey, ops[0]);
      key := RunHolds(crypto, Step(crypto, folder, ops[0]), VaultStep(v, ops[0]), next, ops[1..]);
    }
  }

  /** From an empty directory: opening with the current passphrase reads every file as
      it was last written, however often the passphrase was changed since. */
  lemma FilesSurvive(crypto: Primitives, ops: seq<Op>, count: bv32, draw: Draw, name: string)
    requires Sized(crypto) && AllFit(crypto, Unset, ops) && count != 0
    requires VaultRun(Unset, ops).Set?
    ensures var folder, v := Run(crypto, Folder(None, map[]), ops), VaultRun(Unset, ops);
            var (_, keys) := OpenOrCreate(crypto, folder, v.passphrase, count, draw);
            && keys.Success?
            && AtomicRead(crypto, folder, keys.value, name)
               == if name in v.contents then Success(v.contents[name]) else Failure(FileNotFound)
  {
    var folder, v := Run(crypto, Folder(None, map[]), ops), VaultRun(Unset, ops);
    var key := RunHolds(crypto, Folder(None, map[]), Unset, [], ops);
    ReadsBack(crypto, folder, Expand(crypto, key), v.contents, name);
  }

  /** A directory that was opened earlier keeps working through passphrase changes. */
  lemma OpenHandleSurvives(
    crypto: Primitives, folder: Folder, v: Vault, storeKey: Bytes, ops: seq<Op>, name: string)
    requires Sized(crypto) && v.Set? && Holds(crypto, folder, v, storeKey) && AllFit(crypto, v, ops)
    ensures var v' := VaultRun(v, ops);
            && v'.Set?
            && AtomicRead(crypto, Run(crypto, folder, ops), Expand(crypto, storeKey), name)
               == if name in v'.contents then Success(v'.contents[name]) else Failure(FileNotFound)
  {
    var key := RunHolds(crypto, folder, v, storeKey, ops);
    StaysSet(v, ops);
    ReadsBack(crypto, Run(crypto, folder, ops), Expand(crypto, storeKey), VaultRun(v, ops).contents, name);
  }

  lemma {:induction false} StaysSet(v: Vault, ops: seq<Op>)
    requires v.Set?
    ensures VaultRun(v, ops).Set?
    decreases |ops|
  {
    if ops == [] {
    } else {
      StaysSet(VaultStep(v, ops[0]), ops[1..]);
    }
  }

  // ----- What each operation answers -----

  /** What opening a folder answers: the keys are the halves of what is expanded from the store
      key; each error stands for one reason. */
  lemma OpenAnswers(
    crypto: Primitives, folder: Folder, v: Vault, storeKey: Bytes, passphrase: string, count: bv32, draw: Draw)
    requires Sized(crypto) && DrawSized(draw) && v.Set? && Holds(crypto, folder, v, storeKey)
    requires passphrase != v.passphrase ==> NoCommonCode(crypto, v.passphrase, passphrase)
    ensures var (folder', r) := OpenOrCreate(crypto, folder, passphrase, count, draw);
            && folder' == folder
            && (r == Failure(EmptyPassphrase) <==> passphrase == "")
            && (r == Failure(InvalidCount) <==> passphrase != "" && count == 0)
            && (r == Failure(InvalidKeyMac) <==> passphrase != "" && passphrase != v.passphrase && count != 0)
            && (passphrase == v.passphrase && count != 0 ==>
                  r == Success(Keys(crypto.hkdf(storeKey)[..32], crypto.hkdf(storeKey)[32..])))
  {
    if passphrase != v.passphrase {
      WrongPassphraseFails(crypto, folder, v, storeKey, passphrase);
    }
  }

  /** A change of passphrase that succeeds lets the new one in and locks the old one out; one
      that fails changes nothing, and says why. */
  lemma ChangeAnswers(
    crypto: Primitives, folder: Folder, v: Vault, storeKey: Bytes,
    oldPhrase: string, newPhrase: string, count: bv32, draw: Draw)
    requires Sized(crypto) && DrawSized(draw) && v.Set? && Holds(crypto, folder, v, storeKey)
    requires oldPhrase != v.passphrase ==> NoCommonCode(crypto, v.passphrase, oldPhrase)
    requires newPhrase != v.passphrase ==> NoCommonCode(crypto, newPhrase, v.passphrase)
    ensures var (folder', r) := ChangePassphrase(crypto, folder, oldPhrase, newPhrase, count, draw);
            && (r == Failure(EmptyPassphrase) <==> oldPhrase == "" || newPhrase == "")
            && (r == Failure(InvalidCount) <==> oldPhrase != "" && newPhrase != "" && count == 0)
            && (r == Failure(InvalidKeyMac) <==>
                  oldPhrase != "" && newPhrase != "" && count != 0 && oldPhrase != v.passphrase)
            && (r.Failure? ==> folder' == folder)
            && (r.Success? ==>
                  && folder'.files == folder.files
                  && Load(crypto, folder'.keyFile.value, newPhrase) == Success((count, storeKey))
                  && (newPhrase != oldPhrase ==>
                        Load(crypto, folder'.keyFile.value, oldPhrase) == Failure(InvalidKeyMac)))
  {
    if oldPhrase != v.passphrase {
      WrongPassphraseFails(crypto, folder, v, storeKey, oldPhrase);
    } else if newPhrase != "" && count != 0 {
      NewKeyFileLoads(crypto, newPhrase, count, draw, storeKey);
      if newPhrase != oldPhrase {
        WrongPassphraseRefused(
          crypto, KeyFile(crypto, newPhrase, draw.iv, draw.salt, count, storeKey), newPhrase, oldPhrase);
      }
    }
  }

  /** A file is read as this content exactly if it was written with this content under the
      same keys. */
  lemma ReadIffWritten(crypto: Primitives, folder: Folder, keys: Keys, name: string, data: Bytes)
    requires Sized(crypto) && |keys.encryption| == KEY_SIZE
    ensures AtomicRead(crypto, folder, keys, name) == Success(data) <==>
              name in folder.files && IsFileOf(crypto, keys, folder.files[name], data)
  {
    if name in folder.files {
      var file := folder.files[name];
      VerdictIff(crypto, file, keys.encryption, keys.mac, IV_SIZE, MAC_LENGTH);
      forall iv, plain | |iv| == IV_SIZE && file == FileOf(crypto, keys.encryption, keys.mac, iv, plain)
        ensures AtomicRead(crypto, folder, keys, name) == Success(plain)
      {
        FileAccepted(crypto, keys.encryption, keys.mac, iv, MAC_LENGTH, plain);
      }
    }
  }

  /** Stores with different keys do not accept each other's files. */
  lemma ForeignFileRefused(
    crypto: Primitives, storeKey: Bytes, foreign: Bytes, folder: Folder, name: string, data: Bytes, random: Bytes)
    requires Sized(crypto) && |random| == IV_SIZE / 2
    requires forall m :: crypto.hmac(crypto.hkdf(storeKey)[32..], m) != crypto.hmac(crypto.hkdf(foreign)[32..], m)
    ensures var folder' := AtomicWrite(crypto, folder, Expand(crypto, foreign), name, data, random);
            AtomicRead(crypto, folder', Expand(crypto, storeKey), name) == Failure(Stream(InvalidMac))
  {
    var keys, own := Expand(crypto, foreign), Expand(crypto, storeKey);
    var iv := NewIv(random, IV_SIZE);
    var file := FileOf(crypto, keys.encryption, keys.mac, iv, data);
    FileLayout(crypto, keys.encryption, keys.mac, iv, data);
    var macStart := |iv| + |data|;
    assert file[macStart..] == crypto.hmac(keys.mac, file[IV_SIZE..macStart]);
    assert crypto.hmac(own.mac, file[IV_SIZE..macStart]) != file[macStart..];
  }
}
