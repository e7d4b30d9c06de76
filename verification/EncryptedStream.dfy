/**
 Files that are encrypted and authenticated as a stream: the writer, the reader, and
 what the reader recovers.
 */
module EncryptedStream {
  import opened Wrappers
  import opened Sequences
  import opened Crypto

  datatype StreamError = InvalidKeyOrIv | AlreadyFinalized | UnexpectedEof | NoIvOrMac | InvalidMac

  const BUFFER_SIZE: nat := 8192

  function Cipher(crypto: Primitives, key: Bytes, iv: Bytes, plain: Bytes): Bytes {
    Mask(crypto.keystream(key, iv), 0, plain)
  }

  /** The format of a file: the vector, the ciphertext, the code of the ciphertext. */
  function FileOf(crypto: Primitives, key: Bytes, macKey: Bytes, iv: Bytes, plain: Bytes): Bytes {
    var ciphertext := Cipher(crypto, key, iv, plain);
    iv + ciphertext + crypto.hmac(macKey, ciphertext)
  }

  function Concat(chunks: seq<Bytes>): Bytes {
    if chunks == [] then [] else chunks[0] + Concat(chunks[1..])
  }

  lemma {:induction false} ConcatSnoc(chunks: seq<Bytes>, n: nat)
    requires n < |chunks|
    ensures Concat(chunks[..n + 1]) == Concat(chunks[..n]) + chunks[n]
  {
    if n == 0 {
      assert chunks[..1] == [chunks[0]] && chunks[..0] == [];
    } else {
      ConcatSnoc(chunks[1..], n - 1);
      assert chunks[..n + 1][1..] == chunks[1..][..n];
      assert chunks[..n][1..] == chunks[1..][..n - 1];
    }
  }

  // ----- Writing -----

  class Sink {
    var bytes: Bytes

    constructor ()
      ensures bytes == []
    {
      bytes := [];
    }

    method Truncate()
      modifies this
      ensures bytes == []
    {
      bytes := [];
    }

    method WriteAll(data: Bytes)
      modifies this
      ensures bytes == old(bytes) + data
    {
      bytes := bytes + data;
    }
  }

  class AesWriter {
    const crypto: Primitives
    const key: Bytes
    const iv: Bytes
    const writer: Sink
    const enc: Ctr
    const mac: Mac
    var finalized: bool

    /** All that was written to the stream. */
    ghost var plain: Bytes
    /** What the sink held before. */
    ghost const before: Bytes

    ghost predicate Valid()
      reads this, writer, enc, mac
    {
      && enc.ks == crypto.keystream(key, iv) && mac.crypto == crypto
      && (finalized ==> writer.bytes == before + FileOf(crypto, key, mac.key, iv, plain))
      && (!finalized ==>
            && writer.bytes == before + iv + Cipher(crypto, key, iv, plain)
            && mac.absorbed == Cipher(crypto, key, iv, plain)
            && enc.pos == |plain|)
    }

    constructor (crypto: Primitives, writer: Sink, key: Bytes, macKey: Bytes, iv: Bytes)
      modifies writer
      ensures Valid() && !finalized && plain == []
      ensures this.crypto == crypto && this.key == key && this.iv == iv && mac.key == macKey
      ensures this.writer == writer && before == old(writer.bytes)
      ensures fresh(enc) && fresh(mac)
    {
      this.crypto, this.key, this.iv := crypto, key, iv;
      this.writer := writer;
      enc := new Ctr(crypto.keystream(key, iv));
      mac := new Mac(crypto, macKey);
      finalized := false;
      plain := [];
      before := writer.bytes;
      new;
      writer.WriteAll(iv);
      assert writer.bytes == before + iv + Cipher(crypto, key, iv, plain);
    }

    method EncryptWrite(buf: array<Byte>) returns (r: Result<nat, StreamError>)
      requires Valid()
      modifies this, writer, enc, mac, buf
      ensures Valid() && finalized == old(finalized)
      ensures finalized ==> r == Failure(AlreadyFinalized) && plain == old(plain)
      ensures !finalized ==> r == Success(buf.Length) && plain == old(plain) + old(buf[..])
    {
      if finalized {
        return Failure(AlreadyFinalized);
      }
      MaskConcat(enc.ks, 0, plain, buf[..]);
      plain := plain + buf[..];
      enc.ApplyKeystream(buf);
      writer.WriteAll(buf[..]);
      mac.Update(buf[..]);
      return Success(buf.Length);
    }

    method Finalize() returns (r: Result<(), StreamError>)
      requires Valid()
      modifies this, writer, enc, mac
      ensures Valid() && finalized && plain == old(plain)
      ensures r == if old(finalized) then Failure(AlreadyFinalized) else Success(())
    {
      var empty := new Byte[0];
      var w := EncryptWrite(empty);
      if w.Failure? {
        return Failure(w.error);
      }
      var tag := mac.FinalizeReset();
      writer.WriteAll(tag);
      finalized := true;
      return Success(());
    }

    /** Encrypts a copy, so that the caller's buffer keeps the plaintext. */
    method Write(buf: Bytes) returns (r: Result<nat, StreamError>)
      requires Valid()
      modifies this, writer, enc, mac
      ensures Valid() && finalized == old(finalized)
      ensures finalized ==> r == Failure(AlreadyFinalized) && plain == old(plain)
      ensures !finalized ==> r == Success(|buf|) && plain == old(plain) + buf
    {
      var copy := new Byte[|buf|](i requires 0 <= i < |buf| => buf[i]);
      assert copy[..] == buf;
      r := EncryptWrite(copy);
    }

    method Drop()
      requires Valid()
      modifies this, writer, enc, mac
      ensures Valid() && finalized && plain == old(plain)
    {
      if finalized {
        return;
      }
      var _ := Finalize();
    }
  }

  /** A random first half; the counter in the second half starts at zero. */
  function NewIv(random: Bytes, size: nat): (iv: Bytes)
    ensures |random| == size / 2 ==>
              && |iv| == size && iv[..size / 2] == random
              && forall i | size / 2 <= i < size :: iv[i] == 0
  {
    random + seq(size - size / 2, i => 0)
  }

  /** Opens a stream with a new vector, unless the cipher refuses the key. */
  method Create(crypto: Primitives, sink: Sink, key: Bytes, macKey: Bytes, random: Bytes, ivSize: nat)
    returns (r: Result<AesWriter, StreamError>)
    requires |random| == ivSize / 2
    modifies sink
    ensures var iv := NewIv(random, ivSize);
            && (!crypto.accepts(key, iv) ==> r == Failure(InvalidKeyOrIv) && sink.bytes == old(sink.bytes))
            && (crypto.accepts(key, iv) ==>
                  && r.Success? && fresh(r.value) && fresh(r.value.enc) && fresh(r.value.mac)
                  && r.value.Valid() && !r.value.finalized && r.value.plain == []
                  && r.value.crypto == crypto && r.value.key == key && r.value.mac.key == macKey
                  && r.value.iv == iv && r.value.writer == sink && r.value.before == old(sink.bytes))
  {
    var iv := NewIv(random, ivSize);
    if !crypto.accepts(key, iv) {
      return Failure(InvalidKeyOrIv);
    }
    var w := new AesWriter(crypto, sink, key, macKey, iv);
    return Success(w);
  }

  /** Writes a file in any number of pieces, with an explicit end or by dropping the
      writer. The bytes depend on the pieces only through their concatenation. */
  method WriteFile(
    crypto: Primitives, key: Bytes, macKey: Bytes, random: Bytes, ivSize: nat,
    chunks: seq<Bytes>, explicitly: bool)
    returns (r: Result<Bytes, StreamError>)
    requires |random| == ivSize / 2
    ensures var iv := NewIv(random, ivSize);
            r == if crypto.accepts(key, iv)
                 then Success(FileOf(crypto, key, macKey, iv, Concat(chunks)))
                 else Failure(InvalidKeyOrIv)
  {
    var sink := new Sink();
    var created := Create(crypto, sink, key, macKey, random, ivSize);
    if created.Failure? {
      return Failure(created.error);
    }
    var w := created.value;
    for i := 0 to |chunks|
      invariant w.Valid() && !w.finalized && w.plain == Concat(chunks[..i])
    {
      ConcatSnoc(chunks, i);
      var _ := w.Write(chunks[i]);
    }
    assert chunks[..|chunks|] == chunks;
    if explicitly {
      var _ := w.Finalize();
    }
    w.Drop();
    assert sink.bytes == FileOf(crypto, key, macKey, NewIv(random, ivSize), Concat(chunks));
    return Success(sink.bytes);
  }

  // ----- Reading -----

  /** How much of what it could deliver a reader delivers in each of its calls. */
  type Policy = p: (nat, nat) -> nat | forall call, most :: most > 0 ==> 0 < p(call, most) <= most
    witness (call, most) => most

  ghost predicate Fills(policy: Policy) {
    forall call, most :: policy(call, most) == most
  }

  /** A seekable source that may deliver less than it is asked for. */
  class Source {
    const data: Bytes
    const policy: Policy
    var pos: nat
    var calls: nat

    constructor (data: Bytes, policy: Policy)
      ensures this.data == data && this.policy == policy && pos == 0
    {
      this.data, this.policy := data, policy;
      pos, calls := 0, 0;
    }

    /** Reads into the first `most` elements of the buffer. */
    method Read(buf: array<Byte>, most: nat) returns (n: nat)
      requires most <= buf.Length && pos <= |data|
      modifies this, buf
      ensures n <= Least(most, |data| - old(pos)) && pos == old(pos) + n
      ensures n == 0 <==> most == 0 || old(pos) == |data|
      ensures Fills(policy) ==> n == Least(most, |data| - old(pos))
      ensures buf[..n] == data[old(pos)..pos]
    {
      var can := Least(most, |data| - pos);
      n := if can == 0 then 0 else policy(calls, can);
      forall i | 0 <= i < n {
        buf[i] := data[pos + i];
      }
      pos, calls := pos + n, calls + 1;
    }

    /** Fills the buffer, over as many reads as that takes. */
    method ReadExact(size: nat) returns (r: Result<Bytes, StreamError>)
      requires pos <= |data|
      modifies this
      ensures |data| - old(pos) < size ==> r == Failure(UnexpectedEof) && pos <= |data|
      ensures size <= |data| - old(pos) ==>
                r == Success(data[old(pos)..old(pos) + size]) && pos == old(pos) + size
    {
      var got: Bytes := [];
      while |got| < size
        invariant old(pos) <= pos <= |data| && got == data[old(pos)..pos] && |got| <= size
        decreases size - |got|
      {
        var buf := new Byte[size - |got|];
        var n := Read(buf, buf.Length);
        if n == 0 {
          return Failure(UnexpectedEof);
        }
        got := got + buf[..n];
      }
      return Success(got);
    }

    /** Reads until the end, but no more than the limit. */
    method TakeToEnd(limit: nat) returns (got: Bytes)
      requires pos <= |data|
      modifies this
      ensures got == data[old(pos)..old(pos) + Least(limit, |data| - old(pos))]
      ensures pos == old(pos) + |got|
    {
      got := [];
      var n := 1;
      while n != 0
        invariant old(pos) <= pos <= |data| && got == data[old(pos)..pos] && |got| <= limit
        invariant n == 0 ==> |got| == limit || pos == |data|
        decreases limit - |got|, n
      {
        var buf := new Byte[limit - |got|];
        n := Read(buf, buf.Length);
        got := got + buf[..n];
      }
    }

    method Seek(to: nat)
      modifies this
      ensures pos == to
    {
      pos := to;
    }
  }

  /** Exactly what is wrong with a file, in the order in which it is found. */
  function Verdict(crypto: Primitives, data: Bytes, key: Bytes, macKey: Bytes, ivSize: nat, macSize: nat)
    : Option<StreamError>
  {
    if |data| < ivSize then Some(UnexpectedEof)
    else if |data| < ivSize + macSize then Some(NoIvOrMac)
    else
      var macStart := |data| - macSize;
      if data[macStart..] != crypto.hmac(macKey, data[ivSize..macStart]) then Some(InvalidMac)
      else if !crypto.accepts(key, data[..ivSize]) then Some(InvalidKeyOrIv)
      else None
  }

  /** Reads at most up to the code at the end. */
  method ReadUntilMac(buffer: array<Byte>, reader: Source, totalLength: nat, macLength: nat) returns (n: nat)
    requires macLength <= totalLength == |reader.data| && reader.pos <= totalLength
    modifies buffer, reader
    ensures reader.pos == old(reader.pos) + n && n <= buffer.Length
    ensures n == 0 <==> buffer.Length == 0 || old(reader.pos) >= totalLength - macLength
    ensures n > 0 ==> reader.pos <= totalLength - macLength
    ensures Fills(reader.policy) && old(reader.pos) <= totalLength - macLength ==>
              n == Least(buffer.Length, totalLength - macLength - old(reader.pos))
    ensures buffer[..n] == reader.data[old(reader.pos)..reader.pos]
  {
    var currentPos := reader.pos;
    var macStart := totalLength - macLength;
    if currentPos >= macStart {
      return 0;
    }
    var maxToRead := Least(buffer.Length, macStart - currentPos);
    n := reader.Read(buffer, maxToRead);
  }

  class AesReader {
    const reader: Source
    const dec: Ctr
    const length: nat
    const macLength: nat

    constructor (reader: Source, ks: Keystream, length: nat, macLength: nat)
      ensures this.reader == reader && this.length == length && this.macLength == macLength
      ensures fresh(dec) && dec.ks == ks && dec.pos == 0
    {
      this.reader, this.length, this.macLength := reader, length, macLength;
      dec := new Ctr(ks);
    }

    ghost predicate Valid()
      reads this, reader
    {
      macLength <= length == |reader.data| && reader.pos <= length - macLength
    }

    /** Decrypts what was read; the keystream runs over the whole buffer. */
    method ReadDecrypt(buf: array<Byte>) returns (n: nat)
      requires Valid()
      modifies reader, dec, buf
      ensures Valid() && reader.pos == old(reader.pos) + n && n <= buf.Length
      ensures n == 0 <==> buf.Length == 0 || old(reader.pos) == length - macLength
      ensures Fills(reader.policy) ==> n == Least(buf.Length, length - macLength - old(reader.pos))
      ensures buf[..n] == Mask(dec.ks, old(dec.pos), reader.data[old(reader.pos)..reader.pos])
      ensures dec.pos == old(dec.pos) + buf.Length
    {
      n := ReadUntilMac(buf, reader, length, macLength);
      ghost var got := buf[..];
      dec.ApplyKeystream(buf);
      assert got[..n] == reader.data[old(reader.pos)..reader.pos];
      assert buf[..n] == Mask(dec.ks, old(dec.pos), got[..n]);
    }
  }

  /** Opens a file: its code is checked over the whole ciphertext first. */
  method Open(crypto: Primitives, reader: Source, key: Bytes, macKey: Bytes, ivSize: nat, macSize: nat)
    returns (r: Result<AesReader, StreamError>)
    requires reader.pos == 0
    modifies reader
    ensures var verdict := Verdict(crypto, reader.data, key, macKey, ivSize, macSize);
            && (verdict.Some? ==> r == Failure(verdict.value))
            && (verdict.None? ==>
                  && r.Success? && fresh(r.value) && fresh(r.value.dec) && r.value.Valid()
                  && r.value.reader == reader && reader.pos == ivSize && r.value.macLength == macSize
                  && r.value.dec.ks == crypto.keystream(key, reader.data[..ivSize]) && r.value.dec.pos == 0)
  {
    var mac := new Mac(crypto, macKey);
    var iv := reader.ReadExact(ivSize);
    if iv.Failure? {
      return Failure(iv.error);
    }
    var end := |reader.data|;
    if end < ivSize + macSize {
      return Failure(NoIvOrMac);
    }
    reader.Seek(end - macSize);
    var expectedMac := reader.ReadExact(macSize);
    assert reader.data[end - macSize..] == reader.data[end - macSize..end];
    reader.Seek(ivSize);

    var buffer := new Byte[BUFFER_SIZE];
    var read := 1;
    while read != 0
      invariant ivSize <= reader.pos <= end - macSize
      invariant mac.absorbed == reader.data[ivSize..reader.pos]
      invariant read == 0 ==> reader.pos == end - macSize
      decreases end - reader.pos, read
    {
      read := ReadUntilMac(buffer, reader, end, macSize);
      mac.Update(buffer[..read]);
    }

    var ok := mac.Verify(expectedMac.value);
    if !ok {
      return Failure(InvalidMac);
    }
    reader.Seek(ivSize);
    if !crypto.accepts(key, iv.value) {
      return Failure(InvalidKeyOrIv);
    }
    assert iv.value == reader.data[..ivSize];
    var aes := new AesReader(reader, crypto.keystream(key, iv.value), end, macSize);
    return Success(aes);
  }

  // ----- What is read -----

  /** The reads so far: for each the size of its buffer and what it delivered. */
  datatype Trace = Start | Then(earlier: Trace, size: nat, got: nat)

  function Delivered(t: Trace): nat {
    if t.Start? then 0 else Delivered(t.earlier) + t.got
  }

  function Consumed(t: Trace): nat {
    if t.Start? then 0 else Consumed(t.earlier) + t.size
  }

  /** The output of a sequence of reads: each takes the next bytes of the ciphertext,
      but the keystream where the buffers of the earlier reads have left it. */
  function Output(ks: Keystream, ciphertext: Bytes, t: Trace): (out: Bytes)
    requires Delivered(t) <= |ciphertext|
    ensures |out| == Delivered(t)
  {
    if t.Start? then []
    else
      Output(ks, ciphertext, t.earlier)
        + Mask(ks, Consumed(t.earlier), ciphertext[Delivered(t.earlier)..Delivered(t.earlier) + t.got])
  }

  /** Each read that delivers something finds the keystream where the ciphertext is. */
  predicate InStep(t: Trace) {
    t.Start? || (
      && InStep(t.earlier)
      && (t.got > 0 ==> Consumed(t.earlier) == Delivered(t.earlier)))
  }

  lemma {:induction false} InStepDecrypts(ks: Keystream, plain: Bytes, t: Trace)
    requires Delivered(t) <= |plain| && InStep(t)
    ensures Output(ks, Mask(ks, 0, plain), t) == plain[..Delivered(t)]
  {
    if t.Then? {
      InStepDecrypts(ks, plain, t.earlier);
      var offset, next := Delivered(t.earlier), Delivered(t);
      MaskSlice(ks, plain, offset, next);
      MaskTwice(ks, offset, plain[offset..next]);
      assert plain[..next] == plain[..offset] + plain[offset..next];
    }
  }

  /** A keystream that is not zero at one place only. */
  function Spike(at: nat): Keystream {
    i => if i == at then 1 else 0
  }

  lemma XorNoise(a: Byte)
    ensures (a ^ 1) ^ 0 != a
  {
  }

  lemma SpikeShows(plain: Bytes, offset: nat, pos: nat, next: nat)
    requires offset < next <= |plain| && pos != offset
    ensures Mask(Spike(offset), pos, Mask(Spike(offset), 0, plain)[offset..next]) != plain[offset..next]
  {
    XorNoise(plain[offset]);
    assert Mask(Spike(offset), 0, plain)[offset..next][0] == plain[offset] ^ 1;
    assert Mask(Spike(offset), pos, Mask(Spike(offset), 0, plain)[offset..next])[0] != plain[offset..next][0];
  }

  lemma ConcatDiffers(a: Bytes, b: Bytes, c: Bytes, d: Bytes)
    requires |a| == |c| && (a != c || b != d)
    ensures a + b != c + d
  {
    assert a == (a + b)[..|a|] && b == (a + b)[|a|..];
    assert c == (c + d)[..|c|] && d == (c + d)[|c|..];
  }

  lemma {:induction false} OutOfStepFails(plain: Bytes, t: Trace) returns (at: nat)
    requires Delivered(t) <= |plain| && !InStep(t)
    ensures Output(Spike(at), Mask(Spike(at), 0, plain), t) != plain[..Delivered(t)]
  {
    var offset, next := Delivered(t.earlier), Delivered(t);
    if InStep(t.earlier) {
      at := offset;
      SpikeShows(plain, offset, Consumed(t.earlier), next);
    } else {
      at := OutOfStepFails(plain, t.earlier);
    }
    var ciphertext := Mask(Spike(at), 0, plain);
    assert plain[..next] == plain[..offset] + plain[offset..next];
    ConcatDiffers(Output(Spike(at), ciphertext, t.earlier),
                  Mask(Spike(at), Consumed(t.earlier), ciphertext[offset..next]),
                  plain[..offset], plain[offset..next]);
  }

  /** Reads decrypt under every keystream exactly if they stay in step. */
  lemma DecryptsIffInStep(plain: Bytes, t: Trace)
    requires Delivered(t) <= |plain|
    ensures (forall ks: Keystream :: Output(ks, Mask(ks, 0, plain), t) == plain[..Delivered(t)]) <==> InStep(t)
  {
    if InStep(t) {
      forall ks: Keystream
        ensures Output(ks, Mask(ks, 0, plain), t) == plain[..Delivered(t)]
      {
        InStepDecrypts(ks, plain, t);
      }
    } else {
      var at := OutOfStepFails(plain, t);
    }
  }

  /** Reads until nothing is delivered, with buffers of any positive sizes. */
  method ReadToEnd(r: AesReader, sizes: nat -> nat) returns (out: Bytes, t: Trace)
    requires r.Valid() && r.dec.pos == 0 && forall k :: sizes(k) > 0
    modifies r.reader, r.dec
    ensures var ciphertext := r.reader.data[old(r.reader.pos)..r.length - r.macLength];
            && Delivered(t) == |ciphertext|
            && out == Output(r.dec.ks, ciphertext, t)
    ensures Fills(r.reader.policy) ==> InStep(t)
  {
    ghost var start := r.reader.pos;
    out, t := [], Start;
    var k, n := 0, 1;
    while n != 0
      invariant r.Valid() && HasRead(r, start, out, t)
      invariant n == 0 ==> r.reader.pos == r.length - r.macLength
      decreases r.length - r.reader.pos, n
    {
      out, t, n := ReadOnce(r, sizes(k), start, out, t);
      k := k + 1;
    }
  }

  /** The output so far, with the position of the reader and that of the keystream. */
  ghost predicate HasRead(r: AesReader, start: nat, out: Bytes, t: Trace)
    requires r.Valid()
    reads r, r.reader, r.dec
  {
    && start <= r.length - r.macLength
    && IsRead(r.dec.ks, r.reader.data[start..r.length - r.macLength], Fills(r.reader.policy),
              r.reader.pos - start, r.dec.pos, out, t)
  }

  ghost predicate IsRead(
    ks: Keystream, ciphertext: Bytes, fills: bool, offset: int, pos: nat, out: Bytes, t: Trace)
  {
    && offset == Delivered(t) <= |ciphertext| && pos == Consumed(t) && out == Output(ks, ciphertext, t)
    && (fills ==> InStep(t) && (Consumed(t) == Delivered(t) || Delivered(t) == |ciphertext|))
  }

  lemma {:induction false} OutputThen(ks: Keystream, ciphertext: Bytes, t: Trace, size: nat, n: nat)
    requires Delivered(t) + n <= |ciphertext|
    ensures Delivered(Then(t, size, n)) == Delivered(t) + n
    ensures Output(ks, ciphertext, Then(t, size, n))
         == Output(ks, ciphertext, t) + Mask(ks, Consumed(t), ciphertext[Delivered(t)..Delivered(t) + n])
  {
  }

  lemma {:induction false} StepThen(length: nat, t: Trace, size: nat, n: nat)
    requires Delivered(t) <= length && n == Least(size, length - Delivered(t))
    requires InStep(t) && (Consumed(t) == Delivered(t) || Delivered(t) == length)
    ensures var next := Then(t, size, n);
            InStep(next) && (Consumed(next) == Delivered(next) || Delivered(next) == length)
  {
  }

  /** One more read. */
  lemma {:induction false} ReadMore(
    ks: Keystream, ciphertext: Bytes, fills: bool, out: Bytes, more: Bytes, t: Trace, size: nat, n: nat)
    requires IsRead(ks, ciphertext, fills, Delivered(t), Consumed(t), out, t) && Delivered(t) + n <= |ciphertext|
    requires more == Mask(ks, Consumed(t), ciphertext[Delivered(t)..Delivered(t) + n])
    requires fills ==> n == Least(size, |ciphertext| - Delivered(t))
    ensures IsRead(ks, ciphertext, fills, Delivered(t) + n, Consumed(t) + size, out + more, Then(t, size, n))
  {
    OutputThen(ks, ciphertext, t, size, n);
    if fills {
      StepThen(|ciphertext|, t, size, n);
    }
  }

  /** One more read into a new buffer. */
  method ReadOnce(r: AesReader, size: nat, ghost start: nat, out: Bytes, t: Trace)
    returns (out': Bytes, t': Trace, n: nat)
    requires r.Valid() && HasRead(r, start, out, t) && size > 0
    modifies r.reader, r.dec
    ensures r.Valid() && HasRead(r, start, out', t') && r.reader.pos == old(r.reader.pos) + n
    ensures n == 0 ==> r.reader.pos == r.length - r.macLength
  {
    ghost var ciphertext := r.reader.data[start..r.length - r.macLength];
    var buf := new Byte[size];
    n := r.ReadDecrypt(buf);
    out', t' := out + buf[..n], Then(t, size, n);
    SliceOfSlice(r.reader.data, start, r.length - r.macLength, Delivered(t), Delivered(t) + n);
    ReadMore(r.dec.ks, ciphertext, Fills(r.reader.policy), out, buf[..n], t, size, n);
  }

  lemma SliceOfSlice(data: Bytes, a: nat, b: nat, i: nat, j: nat)
    requires a <= b <= |data| && i <= j <= b - a
    ensures data[a..b][i..j] == data[a + i..a + j]
  {
    forall k | 0 <= k < j - i
      ensures data[a..b][i..j][k] == data[a + i..a + j][k]
    {
      assert data[a..b][i + k] == data[a + i + k];
    }
  }

  /** Opens a byte string and reads all of it. */
  method ReadFile(
    crypto: Primitives, data: Bytes, policy: Policy, key: Bytes, macKey: Bytes, ivSize: nat, macSize: nat,
    sizes: nat -> nat) returns (r: Result<Bytes, StreamError>)
    requires forall k :: sizes(k) > 0
    ensures var verdict := Verdict(crypto, data, key, macKey, ivSize, macSize);
            && (verdict.Some? ==> r == Failure(verdict.value))
            && (verdict.None? ==> r.Success?)
            && (verdict.None? && Fills(policy) ==>
                  r.value == Cipher(crypto, key, data[..ivSize], data[ivSize..|data| - macSize]))
    ensures (forall m :: |crypto.hmac(macKey, m)| == macSize) ==>
              (r.Success? <==> IsWritten(crypto, data, key, macKey, ivSize) && crypto.accepts(key, data[..ivSize]))
  {
    if forall m :: |crypto.hmac(macKey, m)| == macSize {
      VerdictIff(crypto, data, key, macKey, ivSize, macSize);
    }
    var source := new Source(data, policy);
    var aes := Open(crypto, source, key, macKey, ivSize, macSize);
    if aes.Failure? {
      return Failure(aes.error);
    }
    var out, t := ReadToEnd(aes.value, sizes);
    ghost var ks := crypto.keystream(key, data[..ivSize]);
    ghost var ciphertext := data[ivSize..|data| - macSize];
    if Fills(policy) {
      MaskTwice(ks, 0, ciphertext);
      InStepDecrypts(ks, Mask(ks, 0, ciphertext), t);
    }
    return Success(out);
  }

  // ----- The round trip -----

  /** What the writer produced is accepted exactly if the cipher takes the key. */
  lemma FileAccepted(crypto: Primitives, key: Bytes, macKey: Bytes, iv: Bytes, macSize: nat, plain: Bytes)
    requires |crypto.hmac(macKey, Cipher(crypto, key, iv, plain))| == macSize
    ensures var file := FileOf(crypto, key, macKey, iv, plain);
            && Verdict(crypto, file, key, macKey, |iv|, macSize)
               == (if crypto.accepts(key, iv) then None else Some(InvalidKeyOrIv))
            && file[..|iv|] == iv
            && Cipher(crypto, key, iv, file[|iv|..|file| - macSize]) == plain
  {
    var file, ciphertext := FileOf(crypto, key, macKey, iv, plain), Cipher(crypto, key, iv, plain);
    assert file[..|iv|] == iv;
    assert file[|iv|..|file| - macSize] == ciphertext;
    assert file[|file| - macSize..] == crypto.hmac(macKey, ciphertext);
    MaskTwice(crypto.keystream(key, iv), 0, plain);
  }

  // ----- What is accepted, and why not -----

  /** The layout of a file: the vector, each byte of the plaintext combined with the keystream
      at its position, and the code of these bytes. */
  lemma FileLayout(crypto: Primitives, key: Bytes, macKey: Bytes, iv: Bytes, plain: Bytes)
    ensures var file, macStart := FileOf(crypto, key, macKey, iv, plain), |iv| + |plain|;
            && |file| >= macStart && file[..|iv|] == iv
            && (forall i | 0 <= i < |plain| :: file[|iv| + i] == plain[i] ^ crypto.keystream(key, iv)(i))
            && file[macStart..] == crypto.hmac(macKey, file[|iv|..macStart])
  {
    var file, ciphertext := FileOf(crypto, key, macKey, iv, plain), Cipher(crypto, key, iv, plain);
    assert file[|iv|..|iv| + |plain|] == ciphertext;
    assert forall i | 0 <= i < |plain| :: file[|iv| + i] == ciphertext[i];
  }

  /** The data is the file of some vector and plaintext under these keys. */
  ghost predicate IsWritten(crypto: Primitives, data: Bytes, key: Bytes, macKey: Bytes, ivSize: nat) {
    exists iv, plain :: |iv| == ivSize && data == FileOf(crypto, key, macKey, iv, plain)
  }

  lemma WrittenAgain(crypto: Primitives, data: Bytes, key: Bytes, macKey: Bytes, ivSize: nat, macSize: nat)
    requires |data| >= ivSize + macSize
    requires var macStart := |data| - macSize;
             data[macStart..] == crypto.hmac(macKey, data[ivSize..macStart])
    ensures var plain := Cipher(crypto, key, data[..ivSize], data[ivSize..|data| - macSize]);
            data == FileOf(crypto, key, macKey, data[..ivSize], plain)
  {
    var iv, ciphertext := data[..ivSize], data[ivSize..|data| - macSize];
    MaskTwice(crypto.keystream(key, iv), 0, ciphertext);
    assert data == iv + ciphertext + data[|data| - macSize..];
  }

  /** A byte string is accepted exactly if it is a file that was written under these keys, with
      a vector that the cipher takes; and each error stands for one defect. */
  lemma VerdictIff(crypto: Primitives, data: Bytes, key: Bytes, macKey: Bytes, ivSize: nat, macSize: nat)
    requires forall m :: |crypto.hmac(macKey, m)| == macSize
    ensures var verdict, written := Verdict(crypto, data, key, macKey, ivSize, macSize),
                                    IsWritten(crypto, data, key, macKey, ivSize);
            && (verdict == Some(UnexpectedEof) <==> |data| < ivSize)
            && (verdict == Some(NoIvOrMac) <==> ivSize <= |data| < ivSize + macSize)
            && (verdict == Some(InvalidMac) <==> |data| >= ivSize + macSize && !written)
            && (verdict == Some(InvalidKeyOrIv) <==> written && !crypto.accepts(key, data[..ivSize]))
            && (verdict == None <==> written && crypto.accepts(key, data[..ivSize]))
  {
    if IsWritten(crypto, data, key, macKey, ivSize) {
      var iv, plain :| |iv| == ivSize && data == FileOf(crypto, key, macKey, iv, plain);
      FileAccepted(crypto, key, macKey, iv, macSize, plain);
    } else if |data| >= ivSize + macSize
      && data[|data| - macSize..] == crypto.hmac(macKey, data[ivSize..|data| - macSize]) {
      WrittenAgain(crypto, data, key, macKey, ivSize, macSize);
    }
  }

  /** Whatever was written in whatever pieces is read back, with buffers of any sizes,
      from a source that fills them. */
  method WriteThenRead(
    crypto: Primitives, key: Bytes, macKey: Bytes, random: Bytes, ivSize: nat, macSize: nat,
    chunks: seq<Bytes>, explicitly: bool, policy: Policy, sizes: nat -> nat)
    returns (r: Result<Bytes, StreamError>)
    requires |random| == ivSize / 2
    requires Fills(policy) && forall k :: sizes(k) > 0
    requires forall m :: |crypto.hmac(macKey, m)| == macSize
    ensures r == if crypto.accepts(key, NewIv(random, ivSize)) then Success(Concat(chunks))
                 else Failure(InvalidKeyOrIv)
  {
    var file := WriteFile(crypto, key, macKey, random, ivSize, chunks, explicitly);
    if file.Failure? {
      return file;
    }
    FileAccepted(crypto, key, macKey, NewIv(random, ivSize), macSize, Concat(chunks));
    r := ReadFile(crypto, file.value, policy, key, macKey, ivSize, macSize, sizes);
  }
}
