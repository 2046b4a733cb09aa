/** The writer and the reader, and the structures written and read field by field. */
module Serialize {
  import opened Arith
  import opened Codecs
  import opened Primitives
  import opened Wire

  // --- Writing ---

  class Writer {
    var bytes: Bytes

    constructor ()
      ensures bytes == []
    {
      bytes := [];
    }

    method WriteUnsigned(value: nat, n: nat)
      modifies this
      ensures bytes == old(bytes) + Unsigned(n).enc(value)
    {
      var rest, k := value, 0;
      while k < n
        invariant k <= n && bytes + ToLittle(rest, n - k) == old(bytes) + ToLittle(value, n)
      {
        bytes := bytes + [rest % 256];
        rest, k := rest / 256, k + 1;
      }
    }

    method WriteI64(value: int)
      modifies this
      ensures bytes == old(bytes) + Signed64().enc(value)
    {
      WriteUnsigned(ToTwos(value), 8);
    }

    method WriteBytes(raw: Bytes)
      modifies this
      ensures bytes == old(bytes) + raw
    {
      bytes := bytes + raw;
    }

    method WriteHash256(hash: Hash256)
      modifies this
      ensures bytes == old(bytes) + Digest().enc(hash)
    {
      WriteBytes(ToBig(hash.value, HASH_SIZE));
    }

    method WriteCompactSize(value: nat)
      modifies this
      ensures bytes == old(bytes) + CompactEnc(value)
    {
      hide ToLittle;
      if value < 0xFD {
        bytes := bytes + [value];
      } else if value <= 0xFFFF {
        bytes := bytes + [0xFD];
        WriteUnsigned(value, 2);
      } else if value <= 0xFFFF_FFFF {
        bytes := bytes + [0xFE];
        WriteUnsigned(value, 4);
      } else {
        bytes := bytes + [0xFF];
        WriteUnsigned(value, 8);
      }
    }

    method WriteByteString(raw: Bytes)
      modifies this
      ensures forall max :: bytes == old(bytes) + ByteString(max).enc(raw)
    {
      WriteCompactSize(|raw|);
      WriteBytes(raw);
    }
  }

  lemma ManyEncSnoc<A>(c: Codec<A>, vs: seq<A>, k: nat)
    requires k < |vs|
    ensures ManyEnc(c, vs[..k + 1]) == ManyEnc(c, vs[..k]) + c.enc(vs[k])
  {
    if k == 0 {
      assert vs[..1][1..] == [];
    } else {
      assert vs[1..][..k] == vs[..k + 1][1..] && vs[1..][..k - 1] == vs[..k][1..];
      ManyEncSnoc(c, vs[1..], k - 1);
    }
  }

  method SerializeInput(w: Writer, v: TxInput)
    modifies w
    ensures w.bytes == old(w.bytes) + TxInputCodec().enc(v)
  {
    w.WriteHash256(v.outpoint.txid);
    w.WriteUnsigned(v.outpoint.index, 4);
    w.WriteUnsigned(v.sequence, 4);
  }

  method SerializeOutput(w: Writer, v: TxOutput, ghost max: nat)
    modifies w
    ensures w.bytes == old(w.bytes) + TxOutputCodec(max).enc(v)
  {
    w.WriteI64(v.amount);
    w.WriteUnsigned(v.lock.version, 1);
    w.WriteByteString(v.lock.program);
  }

  method SerializeKey(w: Writer, v: PublicKey, ghost max: nat)
    modifies w
    ensures w.bytes == old(w.bytes) + PublicKeyCodec(max).enc(v)
  {
    w.WriteUnsigned(v.scheme, 2);
    w.WriteByteString(v.bytes);
  }

  method SerializeSignature(w: Writer, v: Signature, ghost max: nat)
    modifies w
    ensures w.bytes == old(w.bytes) + SignatureCodec(max).enc(v)
  {
    w.WriteUnsigned(v.scheme, 2);
    w.WriteByteString(v.bytes);
  }

  lemma ManyEncEnds<A>(c: Codec<A>, vs: seq<A>)
    ensures ManyEnc(c, vs[..0]) == [] && vs[..|vs|] == vs
  {
  }

  method SerializeKeys(w: Writer, vs: seq<PublicKey>, ghost l: TxLimits)
    modifies w
    ensures w.bytes == old(w.bytes) + List(PublicKeyCodec(l.maxKeySize), l.maxKeys).enc(vs)
  {
    hide ManyEnc, CompactEnc, PublicKeyCodec;
    w.WriteCompactSize(|vs|);
    ghost var c, before := PublicKeyCodec(l.maxKeySize), w.bytes;
    ManyEncEnds(c, vs);
    for i := 0 to |vs|
      invariant w.bytes == before + ManyEnc(c, vs[..i])
    {
      ManyEncSnoc(c, vs, i);
      SerializeKey(w, vs[i], l.maxKeySize);
    }
  }

  method SerializeCondition(w: Writer, v: SpendCondition, ghost l: TxLimits)
    modifies w
    ensures w.bytes == old(w.bytes) + ConditionCodec(l).enc(v)
  {
    hide List, Unsigned, PublicKeyCodec;
    w.WriteUnsigned(v.version, 1);
    w.WriteUnsigned(v.threshold, 1);
    SerializeKeys(w, v.keys, l);
  }

  method SerializeSignatures(w: Writer, vs: seq<Signature>, ghost l: TxLimits)
    modifies w
    ensures w.bytes == old(w.bytes) + List(SignatureCodec(l.maxSignatureSize), l.maxSignatures).enc(vs)
  {
    hide ManyEnc, CompactEnc, SignatureCodec;
    w.WriteCompactSize(|vs|);
    ghost var c, before := SignatureCodec(l.maxSignatureSize), w.bytes;
    ManyEncEnds(c, vs);
    for i := 0 to |vs|
      invariant w.bytes == before + ManyEnc(c, vs[..i])
    {
      ManyEncSnoc(c, vs, i);
      SerializeSignature(w, vs[i], l.maxSignatureSize);
    }
  }

  method SerializeWitness(w: Writer, v: Witness, ghost l: TxLimits)
    modifies w
    ensures w.bytes == old(w.bytes) + WitnessCodec(l).enc(v)
  {
    hide List, ConditionCodec, SignatureCodec;
    SerializeCondition(w, v.condition, l);
    SerializeSignatures(w, v.signatures, l);
  }

  method SerializeInputs(w: Writer, vs: seq<TxInput>, ghost l: TxLimits)
    modifies w
    ensures w.bytes == old(w.bytes) + List(TxInputCodec(), l.maxInputs).enc(vs)
  {
    hide ManyEnc, CompactEnc, TxInputCodec;
    w.WriteCompactSize(|vs|);
    ghost var c, before := TxInputCodec(), w.bytes;
    ManyEncEnds(c, vs);
    for i := 0 to |vs|
      invariant w.bytes == before + ManyEnc(c, vs[..i])
    {
      ManyEncSnoc(c, vs, i);
      SerializeInput(w, vs[i]);
    }
  }

  method SerializeOutputs(w: Writer, vs: seq<TxOutput>, ghost l: TxLimits)
    modifies w
    ensures w.bytes == old(w.bytes) + List(TxOutputCodec(l.maxLockProgram), l.maxOutputs).enc(vs)
  {
    hide ManyEnc, CompactEnc, TxOutputCodec;
    w.WriteCompactSize(|vs|);
    ghost var c, before := TxOutputCodec(l.maxLockProgram), w.bytes;
    ManyEncEnds(c, vs);
    for i := 0 to |vs|
      invariant w.bytes == before + ManyEnc(c, vs[..i])
    {
      ManyEncSnoc(c, vs, i);
      SerializeOutput(w, vs[i], l.maxLockProgram);
    }
  }

  method SerializeWitnesses(w: Writer, vs: seq<Witness>, ghost l: TxLimits)
    modifies w
    ensures w.bytes == old(w.bytes) + List(WitnessCodec(l), l.maxWitnesses).enc(vs)
  {
    hide ManyEnc, CompactEnc, WitnessCodec;
    w.WriteCompactSize(|vs|);
    ghost var c, before := WitnessCodec(l), w.bytes;
    ManyEncEnds(c, vs);
    for i := 0 to |vs|
      invariant w.bytes == before + ManyEnc(c, vs[..i])
    {
      ManyEncSnoc(c, vs, i);
      SerializeWitness(w, vs[i], l);
    }
  }

  /** The txid preimage. */
  method SerializeWithoutWitnesses(w: Writer, tx: Transaction, ghost l: TxLimits)
    modifies w
    ensures w.bytes == old(w.bytes) + PrefixCodec(l).enc(PrefixOf(tx))
  {
    hide List, Unsigned, TxInputCodec, TxOutputCodec;
    w.WriteUnsigned(tx.version, 4);
    SerializeInputs(w, tx.inputs, l);
    SerializeOutputs(w, tx.outputs, l);
    w.WriteUnsigned(tx.locktime, 4);
  }

  method SerializeTransaction(w: Writer, tx: Transaction, ghost l: TxLimits)
    modifies w
    ensures w.bytes == old(w.bytes) + TransactionCodec(l).enc(tx)
  {
    hide List, PrefixCodec, WitnessCodec, ByteString;
    SerializeWithoutWitnesses(w, tx, l);
    if tx.IsCoinbase() {
      w.WriteByteString(tx.coinbaseData);
      assert TailCodec(l, CreatesCoins(tx.inputs)).enc(TailOf(tx))
          == ByteString(l.maxCoinbaseData).enc(tx.coinbaseData);
    } else {
      SerializeWitnesses(w, tx.witnesses, l);
    }
  }

  method SerializeHeader(w: Writer, h: BlockHeader)
    modifies w
    ensures w.bytes == old(w.bytes) + HeaderCodec().enc(h)
  {
    hide HeaderStart, HeaderEnd;
    SerializeHeaderStart(w, FieldsOf(h).0);
    SerializeHeaderEnd(w, FieldsOf(h).1);
  }

  method SerializeHeaderStart(w: Writer, v: (nat, (nat, Hash256)))
    modifies w
    ensures w.bytes == old(w.bytes) + HeaderStart().enc(v)
  {
    hide Unsigned, Digest;
    w.WriteUnsigned(v.0, 4);
    w.WriteUnsigned(v.1.0, 4);
    w.WriteHash256(v.1.1);
  }

  method SerializeHeaderEnd(w: Writer, v: (Hash256, (int, (nat, nat))))
    modifies w
    ensures w.bytes == old(w.bytes) + HeaderEnd().enc(v)
  {
    hide Unsigned, Digest, Signed64;
    w.WriteHash256(v.0);
    w.WriteI64(v.1.0);
    w.WriteUnsigned(v.1.1.0, 4);
    w.WriteUnsigned(v.1.1.1, 8);
  }

  method SerializeTransactions(w: Writer, vs: seq<Transaction>, ghost l: BlockLimits)
    modifies w
    ensures w.bytes == old(w.bytes) + List(TransactionCodec(l.tx), l.maxTransactions).enc(vs)
  {
    hide ManyEnc, CompactEnc, TransactionCodec;
    w.WriteCompactSize(|vs|);
    ghost var c, before := TransactionCodec(l.tx), w.bytes;
    ManyEncEnds(c, vs);
    for i := 0 to |vs|
      invariant w.bytes == before + ManyEnc(c, vs[..i])
    {
      ManyEncSnoc(c, vs, i);
      SerializeTransaction(w, vs[i], l.tx);
    }
  }

  method SerializeBlock(w: Writer, b: Block, ghost l: BlockLimits)
    modifies w
    ensures w.bytes == old(w.bytes) + BlockCodec(l).enc(b)
  {
    hide List, HeaderCodec, TransactionCodec;
    SerializeHeader(w, b.header);
    SerializeTransactions(w, b.transactions, l);
  }

  // --- Reading ---

  /** What a read does: it takes exactly what the decoder takes, or fails for good. */
  ghost predicate Took<T(!new)>(ok0: bool, pos0: nat, res: Option<Parsed<T>>, r: Option<T>, ok: bool, pos: nat) {
    if ok0 && res.Some? then r == Some(res.value.value) && ok && pos == pos0 + res.value.used
    else r.None? && !ok
  }

  class Reader {
    const bytes: Bytes
    var pos: nat
    var ok: bool

    ghost predicate Valid()
      reads this
    {
      pos <= |bytes|
    }

    /** What has not been read. */
    ghost function Rest(): Bytes
      requires Valid()
      reads this
    {
      bytes[pos..]
    }

    constructor (bytes: Bytes)
      ensures Valid() && ok && this.bytes == bytes && Rest() == bytes
    {
      this.bytes, pos, ok := bytes, 0, true;
    }

    function Remaining(): (n: nat)
      requires Valid()
      reads this
    {
      if ok then |bytes| - pos else 0
    }

    method Fail()
      modifies this`ok
      ensures !ok
    {
      ok := false;
    }

    /** True only if nothing failed and the input was exactly consumed. */
    method Finish() returns (r: bool)
      requires Valid()
      modifies this`ok
      ensures r == ok == (old(ok) && Rest() == [])
    {
      if pos != |bytes| {
        ok := false;
      }
      return ok;
    }

    method Consume(count: nat) returns (r: Option<Bytes>)
      requires Valid()
      modifies this
      ensures Valid() && Took(old(ok), old(pos), Raw(count).dec(old(Rest())), r, ok, pos)
    {
      if !ok || |bytes| - pos < count {
        ok := false;
        return None;
      }
      assert bytes[pos..][..count] == bytes[pos..pos + count];
      r := Some(bytes[pos..pos + count]);
      pos := pos + count;
    }

    method ReadUnsigned(n: nat) returns (r: Option<nat>)
      requires Valid()
      modifies this
      ensures Valid() && Took(old(ok), old(pos), Unsigned(n).dec(old(Rest())), r, ok, pos)
    {
      var raw := Consume(n);
      if raw.None? {
        return None;
      }
      LittleBack(raw.value);
      return Some(FromLittle(raw.value));
    }

    method ReadI64() returns (r: Option<int>)
      requires Valid()
      modifies this
      ensures Valid() && Took(old(ok), old(pos), Signed64().dec(old(Rest())), r, ok, pos)
    {
      ghost var rest := Rest();
      var raw := ReadUnsigned(8);
      if raw.None? {
        return None;
      }
      UnsignedLawful(8);
      Powers();
      assert Unsigned(8).ok(Unsigned(8).dec(rest).value.value);
      return Some(FromTwos(raw.value));
    }

    method ReadHash256() returns (r: Option<Hash256>)
      requires Valid()
      modifies this
      ensures Valid() && Took(old(ok), old(pos), Digest().dec(old(Rest())), r, ok, pos)
    {
      hide Pow;
      var raw := Consume(HASH_SIZE);
      if raw.None? {
        return None;
      }
      BigBack(raw.value);
      return Some(Hash256(FromBig(raw.value)));
    }

    /** A canonical length that the bytes left could satisfy. */
    method ReadCompactSize(minElementBytes: nat) returns (r: Option<nat>)
      requires Valid()
      modifies this
      ensures Valid() && Took(old(ok), old(pos), PlausibleDec(minElementBytes, old(Rest())), r, ok, pos)
    {
      if minElementBytes == 0 {
        ok := false;
        return None;
      }
      var value := ReadTagged();
      if value.None? {
        return None;
      }
      if value.value > Remaining() / minElementBytes {
        ok := false;
        return None;
      }
      return value;
    }

    /** The tag byte, and the wider form it announces. */
    method ReadTagged() returns (r: Option<nat>)
      requires Valid()
      modifies this
      ensures Valid() && Took(old(ok), old(pos), CompactDec(old(Rest())), r, ok, pos)
    {
      ghost var rest := Rest();
      TagByte(rest);
      var tag := ReadUnsigned(1);
      if tag.None? {
        return None;
      }
      if tag.value < 0xFD {
        return tag;
      }
      if tag.value == 0xFD {
        r := ReadWide(2, 0xFD, rest);
      } else if tag.value == 0xFE {
        r := ReadWide(4, 0x1_0000, rest);
      } else {
        r := ReadWide(8, 0x1_0000_0000, rest);
      }
    }

    method ReadWide(n: nat, least: nat, ghost rest: Bytes) returns (r: Option<nat>)
      requires Valid() && ok && pos >= 1 && rest == bytes[pos - 1..]
      modifies this
      ensures Valid() && Took(true, old(pos) - 1, WideDec(rest, n, least), r, ok, pos)
    {
      UnsignedRead(n, Rest());
      assert Rest() == rest[1..] && (n < |rest| ==> rest[1..n + 1] == rest[1..][..n]);
      var wide := ReadUnsigned(n);
      if wide.None? {
        return None;
      }
      if wide.value < least {
        ok := false;
        return None;
      }
      return wide;
    }

    method ReadByteString(maxLen: nat) returns (r: Option<Bytes>)
      requires Valid()
      modifies this
      ensures Valid() && Took(old(ok), old(pos), ByteString(maxLen).dec(old(Rest())), r, ok, pos)
    {
      hide CompactDec;
      ghost var rest := Rest();
      var len := ReadCompactSize(1);
      if len.None? {
        return None;
      }
      if len.value > maxLen {
        ok := false;
        return None;
      }
      ghost var n := PlausibleDec(1, rest).value;
      assert rest[n.used..][..n.value] == rest[n.used..n.used + n.value];
      r := Consume(len.value);
    }

    method ReadCount(max: nat, minElementBytes: nat) returns (r: Option<nat>)
      requires Valid()
      modifies this
      ensures Valid() && Took(old(ok), old(pos), CountDec(minElementBytes, max, old(Rest())), r, ok, pos)
    {
      hide CompactDec, PlausibleDec;
      r := ReadCompactSize(minElementBytes);
      if r.None? || r.value > max {
        Fail();
        return None;
      }
    }
  }

  lemma UnsignedRead(n: nat, s: Bytes)
    ensures Unsigned(n).dec(s) == if |s| < n then None else Some(Parsed(FromLittle(s[..n]), n))
  {
    if |s| >= n {
      LittleBack(s[..n]);
    }
  }

  lemma TagByte(rest: Bytes)
    ensures rest != [] ==> Unsigned(1).dec(rest) == Some(Parsed(rest[0], 1))
    ensures rest == [] ==> Unsigned(1).dec(rest).None?
  {
    if rest != [] {
      assert rest[..1][1..] == [];
      assert FromLittle(rest[..1]) == rest[0];
    }
  }

  // --- One after the other, and counted sequences, at a place in the bytes ---

  lemma PairReads<A(!new), B(!new)>(a: Codec<A>, b: Codec<B>, bytes: Bytes, pos: nat)
    requires pos <= |bytes|
    ensures a.dec(bytes[pos..]).None? ==> Pair(a, b).dec(bytes[pos..]).None?
    ensures a.dec(bytes[pos..]).Some? && pos + a.dec(bytes[pos..]).value.used <= |bytes| ==>
              var x := a.dec(bytes[pos..]).value;
              Pair(a, b).dec(bytes[pos..]) == match b.dec(bytes[pos + x.used..])
                                              case None => None
                                              case Some(y) => Some(Parsed((x.value, y.value), x.used + y.used))
  {
    if a.dec(bytes[pos..]).Some? && pos + a.dec(bytes[pos..]).value.used <= |bytes| {
      var x := a.dec(bytes[pos..]).value;
      assert bytes[pos..][x.used..] == bytes[pos + x.used..];
    }
  }

  ghost function Joined<A>(vs: seq<A>, used: nat, res: Option<Parsed<seq<A>>>): Option<Parsed<seq<A>>> {
    match res
    case None => None
    case Some(xs) => Some(Parsed(vs + xs.value, used + xs.used))
  }

  /** Having read `vs`, the list that began at `start` is `vs` and what the `left` elements still to come
      decode to. */
  ghost predicate Midway<A(!new)>(c: Codec<A>, max: nat, bytes: Bytes, start: nat, vs: seq<A>, left: nat, pos: nat)
    requires c.min > 0
  {
    && start <= pos <= |bytes|
    && List(c, max).dec(bytes[start..]) == Joined(vs, pos - start, ManyDec(c, left, bytes[pos..]))
  }

  lemma ListBegins<A(!new)>(c: Codec<A>, max: nat, bytes: Bytes, start: nat)
    requires c.min > 0 && start <= |bytes|
    ensures CountDec(c.min, max, bytes[start..]).None? ==> List(c, max).dec(bytes[start..]).None?
    ensures var n := CountDec(c.min, max, bytes[start..]);
            n.Some? && start + n.value.used <= |bytes| ==>
              Midway(c, max, bytes, start, [], n.value.value, start + n.value.used)
  {
    hide CountDec, ManyDec;
    var count := CountDec(c.min, max, bytes[start..]);
    if count.Some? && start + count.value.used <= |bytes| {
      var n := count.value;
      var rest := ManyDec(c, n.value, bytes[start + n.used..]);
      assert bytes[start..][n.used..] == bytes[start + n.used..];
      if rest.Some? {
        assert [] + rest.value.value == rest.value.value;
      }
    }
  }

  lemma ListContinues<A(!new)>(c: Codec<A>, max: nat, bytes: Bytes, start: nat, vs: seq<A>, left: nat, pos: nat)
    requires c.min > 0 && Midway(c, max, bytes, start, vs, left, pos) && left > 0
    ensures c.dec(bytes[pos..]).None? ==> List(c, max).dec(bytes[start..]).None?
    ensures c.dec(bytes[pos..]).Some? && pos + c.dec(bytes[pos..]).value.used <= |bytes| ==>
              var x := c.dec(bytes[pos..]).value;
              Midway(c, max, bytes, start, vs + [x.value], left - 1, pos + x.used)
  {
    hide List;
    if c.dec(bytes[pos..]).Some? && pos + c.dec(bytes[pos..]).value.used <= |bytes| {
      var x := c.dec(bytes[pos..]).value;
      assert bytes[pos..][x.used..] == bytes[pos + x.used..];
      var tail := ManyDec(c, left - 1, bytes[pos + x.used..]);
      if tail.Some? {
        assert vs + ([x.value] + tail.value.value) == vs + [x.value] + tail.value.value;
      }
    }
  }

  lemma ListEnds<A(!new)>(c: Codec<A>, max: nat, bytes: Bytes, start: nat, vs: seq<A>, pos: nat)
    requires c.min > 0 && Midway(c, max, bytes, start, vs, 0, pos)
    ensures List(c, max).dec(bytes[start..]) == Some(Parsed(vs, pos - start))
  {
    hide List;
    assert vs + [] == vs;
  }

  // --- Structures ---

  method DeserializeOutPoint(reader: Reader) returns (r: Option<OutPoint>)
    requires reader.Valid()
    modifies reader
    ensures reader.Valid()
    ensures Took(old(reader.ok), old(reader.pos), OutPointCodec().dec(old(reader.Rest())), r, reader.ok, reader.pos)
  {
    hide Digest, Unsigned, Pair;
    PairReads(Digest(), Unsigned(4), reader.bytes, reader.pos);
    var txid := reader.ReadHash256();
    if txid.None? {
      return None;
    }
    var index := reader.ReadUnsigned(4);
    if index.None? {
      return None;
    }
    return Some(OutPoint(txid.value, index.value));
  }

  method DeserializeInput(reader: Reader) returns (r: Option<TxInput>)
    requires reader.Valid()
    modifies reader
    ensures reader.Valid()
    ensures Took(old(reader.ok), old(reader.pos), TxInputCodec().dec(old(reader.Rest())), r, reader.ok, reader.pos)
  {
    hide OutPointCodec, Unsigned, Pair;
    PairReads(OutPointCodec(), Unsigned(4), reader.bytes, reader.pos);
    var outpoint := DeserializeOutPoint(reader);
    if outpoint.None? {
      return None;
    }
    var sequence := reader.ReadUnsigned(4);
    if sequence.None? {
      return None;
    }
    return Some(TxInput(outpoint.value, sequence.value));
  }

  method DeserializeInputs(reader: Reader, l: TxLimits) returns (r: Option<seq<TxInput>>)
    requires reader.Valid()
    modifies reader
    ensures reader.Valid()
    ensures Took(old(reader.ok), old(reader.pos), List(TxInputCodec(), l.maxInputs).dec(old(reader.Rest())), r,
                 reader.ok, reader.pos)
  {
    hide CountDec, List, Midway, TxInputCodec;
    ghost var c, start := TxInputCodec(), reader.pos;
    ListBegins(c, l.maxInputs, reader.bytes, start);
    var count := reader.ReadCount(l.maxInputs, TX_INPUT_SIZE);
    if count.None? {
      return None;
    }
    var vs: seq<TxInput> := [];
    for i := 0 to count.value
      invariant reader.Valid() && reader.ok
      invariant Midway(c, l.maxInputs, reader.bytes, start, vs, count.value - i, reader.pos)
    {
      ListContinues(c, l.maxInputs, reader.bytes, start, vs, count.value - i, reader.pos);
      var v := DeserializeInput(reader);
      if v.None? {
        return None;
      }
      vs := vs + [v.value];
    }
    ListEnds(c, l.maxInputs, reader.bytes, start, vs, reader.pos);
    return Some(vs);
  }

  method DeserializeLock(reader: Reader, max: nat) returns (r: Option<Lock>)
    requires reader.Valid()
    modifies reader
    ensures reader.Valid()
    ensures Took(old(reader.ok), old(reader.pos), LockCodec(max).dec(old(reader.Rest())), r, reader.ok, reader.pos)
  {
    hide Unsigned, ByteString, Pair;
    PairReads(Unsigned(1), ByteString(max), reader.bytes, reader.pos);
    var version := reader.ReadUnsigned(1);
    if version.None? {
      return None;
    }
    var program := reader.ReadByteString(max);
    if program.None? {
      return None;
    }
    return Some(Lock(version.value, program.value));
  }

  method DeserializeOutput(reader: Reader, max: nat) returns (r: Option<TxOutput>)
    requires reader.Valid()
    modifies reader
    ensures reader.Valid()
    ensures Took(old(reader.ok), old(reader.pos), TxOutputCodec(max).dec(old(reader.Rest())), r, reader.ok, reader.pos)
  {
    hide Signed64, LockCodec, Pair;
    PairReads(Signed64(), LockCodec(max), reader.bytes, reader.pos);
    var amount := reader.ReadI64();
    if amount.None? {
      return None;
    }
    var lock := DeserializeLock(reader, max);
    if lock.None? {
      return None;
    }
    if !IsValidAmount(amount.value) {
      reader.Fail();
      return None;
    }
    return Some(TxOutput(amount.value, lock.value));
  }

  method DeserializeOutputs(reader: Reader, l: TxLimits) returns (r: Option<seq<TxOutput>>)
    requires reader.Valid()
    modifies reader
    ensures reader.Valid()
    ensures var c := List(TxOutputCodec(l.maxLockProgram), l.maxOutputs);
            Took(old(reader.ok), old(reader.pos), c.dec(old(reader.Rest())), r, reader.ok, reader.pos)
  {
    hide CountDec, List, Midway, TxOutputCodec;
    ghost var c, start := TxOutputCodec(l.maxLockProgram), reader.pos;
    ListBegins(c, l.maxOutputs, reader.bytes, start);
    var count := reader.ReadCount(l.maxOutputs, TX_OUTPUT_MIN);
    if count.None? {
      return None;
    }
    var vs: seq<TxOutput> := [];
    for i := 0 to count.value
      invariant reader.Valid() && reader.ok
      invariant Midway(c, l.maxOutputs, reader.bytes, start, vs, count.value - i, reader.pos)
    {
      ListContinues(c, l.maxOutputs, reader.bytes, start, vs, count.value - i, reader.pos);
      var v := DeserializeOutput(reader, l.maxLockProgram);
      if v.None? {
        return None;
      }
      vs := vs + [v.value];
    }
    ListEnds(c, l.maxOutputs, reader.bytes, start, vs, reader.pos);
    return Some(vs);
  }

  method DeserializeKey(reader: Reader, max: nat) returns (r: Option<PublicKey>)
    requires reader.Valid()
    modifies reader
    ensures reader.Valid()
    ensures Took(old(reader.ok), old(reader.pos), PublicKeyCodec(max).dec(old(reader.Rest())), r, reader.ok, reader.pos)
  {
    hide Unsigned, ByteString, Pair;
    PairReads(Unsigned(2), ByteString(max), reader.bytes, reader.pos);
    var scheme := reader.ReadUnsigned(2);
    if scheme.None? {
      return None;
    }
    var raw := reader.ReadByteString(max);
    if raw.None? {
      return None;
    }
    return Some(PublicKey(scheme.value, raw.value));
  }

  method DeserializeSignature(reader: Reader, max: nat) returns (r: Option<Signature>)
    requires reader.Valid()
    modifies reader
    ensures reader.Valid()
    ensures Took(old(reader.ok), old(reader.pos), SignatureCodec(max).dec(old(reader.Rest())), r, reader.ok, reader.pos)
  {
    hide Unsigned, ByteString, Pair;
    PairReads(Unsigned(2), ByteString(max), reader.bytes, reader.pos);
    var scheme := reader.ReadUnsigned(2);
    if scheme.None? {
      return None;
    }
    var raw := reader.ReadByteString(max);
    if raw.None? {
      return None;
    }
    return Some(Signature(scheme.value, raw.value));
  }

  method DeserializeKeys(reader: Reader, l: TxLimits) returns (r: Option<seq<PublicKey>>)
    requires reader.Valid()
    modifies reader
    ensures reader.Valid()
    ensures Took(old(reader.ok), old(reader.pos), List(PublicKeyCodec(l.maxKeySize), l.maxKeys).dec(old(reader.Rest())),
                 r, reader.ok, reader.pos)
  {
    hide CountDec, List, Midway, PublicKeyCodec;
    ghost var c, start := PublicKeyCodec(l.maxKeySize), reader.pos;
    ListBegins(c, l.maxKeys, reader.bytes, start);
    var count := reader.ReadCount(l.maxKeys, KEY_MIN);
    if count.None? {
      return None;
    }
    var vs: seq<PublicKey> := [];
    for i := 0 to count.value
      invariant reader.Valid() && reader.ok
      invariant Midway(c, l.maxKeys, reader.bytes, start, vs, count.value - i, reader.pos)
    {
      ListContinues(c, l.maxKeys, reader.bytes, start, vs, count.value - i, reader.pos);
      var v := DeserializeKey(reader, l.maxKeySize);
      if v.None? {
        return None;
      }
      vs := vs + [v.value];
    }
    ListEnds(c, l.maxKeys, reader.bytes, start, vs, reader.pos);
    return Some(vs);
  }

  method DeserializeSignatures(reader: Reader, l: TxLimits) returns (r: Option<seq<Signature>>)
    requires reader.Valid()
    modifies reader
    ensures reader.Valid()
    ensures var c := List(SignatureCodec(l.maxSignatureSize), l.maxSignatures);
            Took(old(reader.ok), old(reader.pos), c.dec(old(reader.Rest())), r, reader.ok, reader.pos)
  {
    hide CountDec, List, Midway, SignatureCodec;
    ghost var c, start := SignatureCodec(l.maxSignatureSize), reader.pos;
    ListBegins(c, l.maxSignatures, reader.bytes, start);
    var count := reader.ReadCount(l.maxSignatures, SIGNATURE_MIN);
    if count.None? {
      return None;
    }
    var vs: seq<Signature> := [];
    for i := 0 to count.value
      invariant reader.Valid() && reader.ok
      invariant Midway(c, l.maxSignatures, reader.bytes, start, vs, count.value - i, reader.pos)
    {
      ListContinues(c, l.maxSignatures, reader.bytes, start, vs, count.value - i, reader.pos);
      var v := DeserializeSignature(reader, l.maxSignatureSize);
      if v.None? {
        return None;
      }
      vs := vs + [v.value];
    }
    ListEnds(c, l.maxSignatures, reader.bytes, start, vs, reader.pos);
    return Some(vs);
  }

  method DeserializeCondition(reader: Reader, l: TxLimits) returns (r: Option<SpendCondition>)
    requires reader.Valid()
    modifies reader
    ensures reader.Valid()
    ensures Took(old(reader.ok), old(reader.pos), ConditionCodec(l).dec(old(reader.Rest())), r, reader.ok, reader.pos)
  {
    hide Unsigned, List, PublicKeyCodec, Pair;
    PairReads(Unsigned(1), Pair(Unsigned(1), List(PublicKeyCodec(l.maxKeySize), l.maxKeys)), reader.bytes, reader.pos);
    var version := reader.ReadUnsigned(1);
    if version.None? {
      return None;
    }
    PairReads(Unsigned(1), List(PublicKeyCodec(l.maxKeySize), l.maxKeys), reader.bytes, reader.pos);
    var threshold := reader.ReadUnsigned(1);
    if threshold.None? {
      return None;
    }
    var keys := DeserializeKeys(reader, l);
    if keys.None? {
      return None;
    }
    return Some(SpendCondition(version.value, threshold.value, keys.value));
  }

  method DeserializeWitness(reader: Reader, l: TxLimits) returns (r: Option<Witness>)
    requires reader.Valid()
    modifies reader
    ensures reader.Valid()
    ensures Took(old(reader.ok), old(reader.pos), WitnessCodec(l).dec(old(reader.Rest())), r, reader.ok, reader.pos)
  {
    hide ConditionCodec, List, SignatureCodec, Pair;
    PairReads(ConditionCodec(l), List(SignatureCodec(l.maxSignatureSize), l.maxSignatures), reader.bytes, reader.pos);
    var condition := DeserializeCondition(reader, l);
    if condition.None? {
      return None;
    }
    var signatures := DeserializeSignatures(reader, l);
    if signatures.None? {
      return None;
    }
    return Some(Witness(condition.value, signatures.value));
  }

  method DeserializeWitnesses(reader: Reader, l: TxLimits) returns (r: Option<seq<Witness>>)
    requires reader.Valid()
    modifies reader
    ensures reader.Valid()
    ensures Took(old(reader.ok), old(reader.pos), List(WitnessCodec(l), l.maxWitnesses).dec(old(reader.Rest())), r,
                 reader.ok, reader.pos)
  {
    hide CountDec, List, Midway, WitnessCodec;
    ghost var c, start := WitnessCodec(l), reader.pos;
    ListBegins(c, l.maxWitnesses, reader.bytes, start);
    var count := reader.ReadCount(l.maxWitnesses, WITNESS_MIN);
    if count.None? {
      return None;
    }
    var vs: seq<Witness> := [];
    for i := 0 to count.value
      invariant reader.Valid() && reader.ok
      invariant Midway(c, l.maxWitnesses, reader.bytes, start, vs, count.value - i, reader.pos)
    {
      ListContinues(c, l.maxWitnesses, reader.bytes, start, vs, count.value - i, reader.pos);
      var v := DeserializeWitness(reader, l);
      if v.None? {
        return None;
      }
      vs := vs + [v.value];
    }
    ListEnds(c, l.maxWitnesses, reader.bytes, start, vs, reader.pos);
    return Some(vs);
  }

  method DeserializePrefix(reader: Reader, l: TxLimits) returns (r: Option<Prefix>)
    requires reader.Valid()
    modifies reader
    ensures reader.Valid()
    ensures Took(old(reader.ok), old(reader.pos), PrefixCodec(l).dec(old(reader.Rest())), r, reader.ok, reader.pos)
  {
    hide Unsigned, List, TxInputCodec, PrefixEnd, Pair;
    PairReads(Unsigned(4), Pair(List(TxInputCodec(), l.maxInputs), PrefixEnd(l)), reader.bytes, reader.pos);
    var version := reader.ReadUnsigned(4);
    if version.None? {
      return None;
    }
    PairReads(List(TxInputCodec(), l.maxInputs), PrefixEnd(l), reader.bytes, reader.pos);
    var inputs := DeserializeInputs(reader, l);
    if inputs.None? {
      return None;
    }
    var end := DeserializePrefixEnd(reader, l);
    if end.None? {
      return None;
    }
    return Some((version.value, (inputs.value, end.value)));
  }

  method DeserializePrefixEnd(reader: Reader, l: TxLimits) returns (r: Option<(seq<TxOutput>, nat)>)
    requires reader.Valid()
    modifies reader
    ensures reader.Valid()
    ensures Took(old(reader.ok), old(reader.pos), PrefixEnd(l).dec(old(reader.Rest())), r, reader.ok, reader.pos)
  {
    hide Unsigned, List, TxOutputCodec, Pair;
    PairReads(List(TxOutputCodec(l.maxLockProgram), l.maxOutputs), Unsigned(4), reader.bytes, reader.pos);
    var outputs := DeserializeOutputs(reader, l);
    if outputs.None? {
      return None;
    }
    var locktime := reader.ReadUnsigned(4);
    if locktime.None? {
      return None;
    }
    return Some((outputs.value, locktime.value));
  }

  method DeserializeTail(reader: Reader, l: TxLimits, coinbase: bool) returns (r: Option<Tail>)
    requires reader.Valid()
    modifies reader
    ensures reader.Valid()
    ensures Took(old(reader.ok), old(reader.pos), TailCodec(l, coinbase).dec(old(reader.Rest())), r, reader.ok,
                 reader.pos)
  {
    hide ByteString, List, WitnessCodec;
    if coinbase {
      var data := reader.ReadByteString(l.maxCoinbaseData);
      if data.None? {
        return None;
      }
      return Some(([], data.value));
    }
    var witnesses := DeserializeWitnesses(reader, l);
    if witnesses.None? {
      return None;
    }
    return Some((witnesses.value, []));
  }

  method DeserializeTransaction(reader: Reader, l: TxLimits) returns (r: Option<Transaction>)
    requires reader.Valid()
    modifies reader
    ensures reader.Valid()
    ensures Took(old(reader.ok), old(reader.pos), TransactionCodec(l).dec(old(reader.Rest())), r, reader.ok, reader.pos)
  {
    hide PrefixCodec, TailCodec;
    ghost var s0 := reader.Rest();
    var prefix := DeserializePrefix(reader, l);
    if prefix.None? {
      return None;
    }
    assert reader.Rest() == s0[PrefixCodec(l).dec(s0).value.used..];
    var tail := DeserializeTail(reader, l, CreatesCoins(prefix.value.1.0));
    if tail.None? {
      return None;
    }
    return Some(Assemble(prefix.value, tail.value));
  }

  method DeserializeTransactions(reader: Reader, l: BlockLimits) returns (r: Option<seq<Transaction>>)
    requires reader.Valid()
    modifies reader
    ensures reader.Valid()
    ensures var c := List(TransactionCodec(l.tx), l.maxTransactions);
            Took(old(reader.ok), old(reader.pos), c.dec(old(reader.Rest())), r, reader.ok, reader.pos)
  {
    hide CountDec, List, Midway, TransactionCodec;
    ghost var c, start := TransactionCodec(l.tx), reader.pos;
    ListBegins(c, l.maxTransactions, reader.bytes, start);
    var count := reader.ReadCount(l.maxTransactions, TRANSACTION_MIN);
    if count.None? {
      return None;
    }
    var vs: seq<Transaction> := [];
    for i := 0 to count.value
      invariant reader.Valid() && reader.ok
      invariant Midway(c, l.maxTransactions, reader.bytes, start, vs, count.value - i, reader.pos)
    {
      ListContinues(c, l.maxTransactions, reader.bytes, start, vs, count.value - i, reader.pos);
      var v := DeserializeTransaction(reader, l.tx);
      if v.None? {
        return None;
      }
      vs := vs + [v.value];
    }
    ListEnds(c, l.maxTransactions, reader.bytes, start, vs, reader.pos);
    return Some(vs);
  }

  method DeserializeHeaderEnd(reader: Reader) returns (r: Option<(Hash256, (int, (nat, nat)))>)
    requires reader.Valid()
    modifies reader
    ensures reader.Valid()
    ensures Took(old(reader.ok), old(reader.pos), HeaderEnd().dec(old(reader.Rest())), r, reader.ok, reader.pos)
  {
    hide Unsigned, Digest, Signed64, Pair;
    PairReads(Digest(), Pair(Signed64(), Pair(Unsigned(4), Unsigned(8))), reader.bytes, reader.pos);
    var merkleRoot := reader.ReadHash256();
    if merkleRoot.None? {
      return None;
    }
    PairReads(Signed64(), Pair(Unsigned(4), Unsigned(8)), reader.bytes, reader.pos);
    var timestamp := reader.ReadI64();
    if timestamp.None? {
      return None;
    }
    PairReads(Unsigned(4), Unsigned(8), reader.bytes, reader.pos);
    var targetBits := reader.ReadUnsigned(4);
    if targetBits.None? {
      return None;
    }
    var nonce := reader.ReadUnsigned(8);
    if nonce.None? {
      return None;
    }
    return Some((merkleRoot.value, (timestamp.value, (targetBits.value, nonce.value))));
  }

  method DeserializeHeaderStart(reader: Reader) returns (r: Option<(nat, (nat, Hash256))>)
    requires reader.Valid()
    modifies reader
    ensures reader.Valid()
    ensures Took(old(reader.ok), old(reader.pos), HeaderStart().dec(old(reader.Rest())), r, reader.ok, reader.pos)
  {
    hide Unsigned, Digest, Pair;
    PairReads(Unsigned(4), Pair(Unsigned(4), Digest()), reader.bytes, reader.pos);
    var version := reader.ReadUnsigned(4);
    if version.None? {
      return None;
    }
    PairReads(Unsigned(4), Digest(), reader.bytes, reader.pos);
    var height := reader.ReadUnsigned(4);
    if height.None? {
      return None;
    }
    var prevBlock := reader.ReadHash256();
    if prevBlock.None? {
      return None;
    }
    return Some((version.value, (height.value, prevBlock.value)));
  }

  method DeserializeHeader(reader: Reader) returns (r: Option<BlockHeader>)
    requires reader.Valid()
    modifies reader
    ensures reader.Valid()
    ensures Took(old(reader.ok), old(reader.pos), HeaderCodec().dec(old(reader.Rest())), r, reader.ok, reader.pos)
  {
    hide HeaderStart, HeaderEnd, Pair, HeaderOf;
    PairReads(HeaderStart(), HeaderEnd(), reader.bytes, reader.pos);
    var start := DeserializeHeaderStart(reader);
    if start.None? {
      return None;
    }
    var end := DeserializeHeaderEnd(reader);
    if end.None? {
      return None;
    }
    return Some(HeaderOf((start.value, end.value)));
  }

  method DeserializeBlock(reader: Reader, l: BlockLimits) returns (r: Option<Block>)
    requires reader.Valid()
    modifies reader
    ensures reader.Valid()
    ensures Took(old(reader.ok), old(reader.pos), BlockCodec(l).dec(old(reader.Rest())), r, reader.ok, reader.pos)
  {
    hide HeaderCodec, List, TransactionCodec, Pair;
    PairReads(HeaderCodec(), List(TransactionCodec(l.tx), l.maxTransactions), reader.bytes, reader.pos);
    var header := DeserializeHeader(reader);
    if header.None? {
      return None;
    }
    var transactions := DeserializeTransactions(reader, l);
    if transactions.None? {
      return None;
    }
    return Some(Block(header.value, transactions.value));
  }
}
