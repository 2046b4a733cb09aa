/** Where each field stands in its structure's encoding, byte by byte. */
module Layout {
  import opened Arith
  import opened Codecs
  import opened Primitives
  import opened Wire

  // --- Integers and digests ---

  /** The `n` bytes at `at` are `v`, least significant first. */
  ghost predicate LittleAt(b: Bytes, at: nat, v: int, n: nat) {
    at + n <= |b| && forall i :: 0 <= i < n ==> b[at + i] == v / Pow(256, i) % 256
  }

  /** The `n` bytes at `at` are `v`, most significant first. */
  ghost predicate BigAt(b: Bytes, at: nat, v: int, n: nat) {
    at + n <= |b| && forall i :: 0 <= i < n ==> b[at + n - 1 - i] == v / Pow(256, i) % 256
  }

  ghost predicate At(b: Bytes, at: nat, piece: Bytes) {
    at + |piece| <= |b| && b[at..at + |piece|] == piece
  }

  lemma DivStep(v: nat, i: nat)
    ensures v / 256 / Pow(256, i) == v / Pow(256, i + 1)
  {
    DivDiv(v, 256, Pow(256, i));
  }

  lemma DivDiv(v: nat, c: nat, d: nat)
    requires c > 0 && d > 0
    ensures c * d > 0 && v / c / d == v / (c * d)
  {
    MulAtLeast(c, d);
    var y, r := v / c, v % c;
    DivDivStep(v, c, d, y, r, y / d, y % d);
  }

  lemma {:induction false} LittleByte(v: nat, n: nat, i: nat)
    requires i < n
    ensures ToLittle(v, n)[i] == v / Pow(256, i) % 256
    decreases n
  {
    hide Pow;
    if i > 0 {
      LittleByte(v / 256, n - 1, i - 1);
      DivStep(v, i - 1);
    } else {
      PowZero(256);
    }
  }

  lemma {:induction false} BigByte(v: nat, n: nat, i: nat)
    requires i < n
    ensures ToBig(v, n)[i] == v / Pow(256, n - 1 - i) % 256
    decreases n
  {
    hide Pow;
    if i < n - 1 {
      BigByte(v / 256, n - 1, i);
      DivStep(v, n - 2 - i);
    } else {
      PowZero(256);
    }
  }

  lemma LittleStands(b: Bytes, at: nat, v: nat, n: nat)
    requires At(b, at, ToLittle(v, n))
    ensures LittleAt(b, at, v, n)
  {
    hide Pow, ToLittle;
    forall i | 0 <= i < n ensures b[at + i] == v / Pow(256, i) % 256 {
      LittleByte(v, n, i);
      assert b[at + i] == b[at..at + n][i];
    }
  }

  lemma BigStands(b: Bytes, at: nat, v: nat, n: nat)
    requires At(b, at, ToBig(v, n))
    ensures BigAt(b, at, v, n)
  {
    hide Pow, ToBig;
    forall i | 0 <= i < n ensures b[at + n - 1 - i] == v / Pow(256, i) % 256 {
      BigByte(v, n, n - 1 - i);
      assert b[at + n - 1 - i] == b[at..at + n][n - 1 - i];
    }
  }

  /** A number of eight bytes with a sign. */
  function TwosComplement(x: int): int {
    if x < 0 then x + UINT64_LIMIT else x
  }

  // --- Lengths ---

  /** One byte below 0xFD; above, a tag and two, four or eight bytes, the fewest that hold it. */
  lemma LengthLayout(v: nat)
    requires v < UINT64_LIMIT
    ensures var b := CompactEnc(v);
            && (v < 0xFD ==> b == [v])
            && (0xFD <= v <= 0xFFFF ==> |b| == 3 && b[0] == 0xFD && LittleAt(b, 1, v, 2))
            && (0xFFFF < v <= 0xFFFF_FFFF ==> |b| == 5 && b[0] == 0xFE && LittleAt(b, 1, v, 4))
            && (0xFFFF_FFFF < v ==> |b| == 9 && b[0] == 0xFF && LittleAt(b, 1, v, 8))
  {
    hide LittleAt, ToLittle;
    var b := CompactEnc(v);
    if v >= 0xFD {
      var n := if v <= 0xFFFF then 2 else if v <= 0xFFFF_FFFF then 4 else 8;
      assert b[1..1 + n] == ToLittle(v, n);
      LittleStands(b, 1, v, n);
    }
  }

  // --- Fixed-size structures ---

  /** Version, height, predecessor, Merkle root, time, target and nonce, in 92 bytes. */
  lemma HeaderLayout(h: BlockHeader)
    requires FitsInt64(h.timestamp)
    ensures var b := HeaderCodec().enc(h);
            && |b| == 92
            && LittleAt(b, 0, h.version, 4) && LittleAt(b, 4, h.height, 4)
            && BigAt(b, 8, h.prevBlock.value, 32) && BigAt(b, 40, h.merkleRoot.value, 32)
            && LittleAt(b, 72, TwosComplement(h.timestamp), 8)
            && LittleAt(b, 80, h.targetBits, 4) && LittleAt(b, 84, h.nonce, 8)
  {
    hide LittleAt, BigAt, At, ToLittle, ToBig, HeaderCodec, ToTwos;
    var b := HeaderCodec().enc(h);
    HeaderStands(h);
    LittleStands(b, 0, h.version, 4);
    LittleStands(b, 4, h.height, 4);
    BigStands(b, 8, h.prevBlock.value, 32);
    BigStands(b, 40, h.merkleRoot.value, 32);
    LittleStands(b, 72, ToTwos(h.timestamp), 8);
    LittleStands(b, 80, h.targetBits, 4);
    LittleStands(b, 84, h.nonce, 8);
    TwosAre(h.timestamp);
  }

  lemma TwosAre(x: int)
    requires FitsInt64(x)
    ensures ToTwos(x) == TwosComplement(x)
  {
  }

  lemma HeaderStands(h: BlockHeader)
    ensures var b := HeaderCodec().enc(h);
            && |b| == 92
            && At(b, 0, ToLittle(h.version, 4)) && At(b, 4, ToLittle(h.height, 4))
            && At(b, 8, ToBig(h.prevBlock.value, 32)) && At(b, 40, ToBig(h.merkleRoot.value, 32))
            && At(b, 72, ToLittle(ToTwos(h.timestamp), 8))
            && At(b, 80, ToLittle(h.targetBits, 4)) && At(b, 84, ToLittle(h.nonce, 8))
  {
    hide ToLittle, ToBig, ToTwos;
    var b := HeaderCodec().enc(h);
    var v, height := ToLittle(h.version, 4), ToLittle(h.height, 4);
    var prev, root := ToBig(h.prevBlock.value, 32), ToBig(h.merkleRoot.value, 32);
    var time, bits, nonce := ToLittle(ToTwos(h.timestamp), 8), ToLittle(h.targetBits, 4), ToLittle(h.nonce, 8);
    assert b == (v + (height + prev)) + (root + (time + (bits + nonce)));
    assert b[0..4] == v && b[4..8] == height && b[8..40] == prev && b[40..72] == root;
    assert b[72..80] == time && b[80..84] == bits && b[84..92] == nonce;
  }

  /** The txid spent, the index of the output, and the sequence, in 40 bytes. */
  lemma InputLayout(v: TxInput)
    ensures var b := TxInputCodec().enc(v);
            && |b| == 40 && BigAt(b, 0, v.outpoint.txid.value, 32)
            && LittleAt(b, 32, v.outpoint.index, 4) && LittleAt(b, 36, v.sequence, 4)
  {
    hide LittleAt, BigAt, ToLittle, ToBig;
    var b := TxInputCodec().enc(v);
    var id, index, sequence := ToBig(v.outpoint.txid.value, 32), ToLittle(v.outpoint.index, 4), ToLittle(v.sequence, 4);
    assert b == (id + index) + sequence;
    assert b[0..32] == id && b[32..36] == index && b[36..40] == sequence;
    BigStands(b, 0, v.outpoint.txid.value, 32);
    LittleStands(b, 32, v.outpoint.index, 4);
    LittleStands(b, 36, v.sequence, 4);
  }

  // --- Structures with counted parts ---

  /** The amount, the lock's version, and its program with its length before it. */
  lemma OutputLayout(v: TxOutput, max: nat)
    requires FitsInt64(v.amount)
    ensures var b, n := TxOutputCodec(max).enc(v), |CompactEnc(|v.lock.program|)|;
            && LittleAt(b, 0, TwosComplement(v.amount), 8) && LittleAt(b, 8, v.lock.version, 1)
            && At(b, 9, CompactEnc(|v.lock.program|)) && At(b, 9 + n, v.lock.program) && |b| == 9 + n + |v.lock.program|
  {
    hide LittleAt, ToLittle, CompactEnc;
    var b, n := TxOutputCodec(max).enc(v), |CompactEnc(|v.lock.program|)|;
    var amount, version := ToLittle(ToTwos(v.amount), 8), ToLittle(v.lock.version, 1);
    assert b == amount + (version + (CompactEnc(|v.lock.program|) + v.lock.program));
    assert b[0..8] == amount && b[8..9] == version;
    LittleStands(b, 0, ToTwos(v.amount), 8);
    LittleStands(b, 8, v.lock.version, 1);
    TwosAre(v.amount);
  }

  /** A key and a signature: the scheme, then the bytes with their length before them. */
  lemma KeyLayout(k: PublicKey, g: Signature, max: nat)
    ensures PublicKeyCodec(max).enc(k) == ToLittle(k.scheme, 2) + (CompactEnc(|k.bytes|) + k.bytes)
    ensures SignatureCodec(max).enc(g) == ToLittle(g.scheme, 2) + (CompactEnc(|g.bytes|) + g.bytes)
  {
    hide ToLittle, CompactEnc;
  }

  /** The version, the threshold, and the keys with their count before them. */
  lemma ConditionLayout(v: SpendCondition, l: TxLimits)
    ensures ConditionCodec(l).enc(v)
         == ToLittle(v.version, 1) + (ToLittle(v.threshold, 1)
            + (CompactEnc(|v.keys|) + ManyEnc(PublicKeyCodec(l.maxKeySize), v.keys)))
  {
    hide ToLittle, CompactEnc, ManyEnc, PublicKeyCodec;
  }

  /** The condition, then the signatures with their count before them. */
  lemma WitnessLayout(v: Witness, l: TxLimits)
    ensures WitnessCodec(l).enc(v)
         == ConditionCodec(l).enc(v.condition)
            + (CompactEnc(|v.signatures|) + ManyEnc(SignatureCodec(l.maxSignatureSize), v.signatures))
  {
    hide CompactEnc, ManyEnc, SignatureCodec, ConditionCodec;
  }

  /** Items stand one after another, in order. */
  lemma {:induction false} ManyInOrder<A>(c: Codec<A>, vs: seq<A>, i: nat)
    requires i < |vs|
    ensures At(ManyEnc(c, vs), |ManyEnc(c, vs[..i])|, c.enc(vs[i]))
    ensures |ManyEnc(c, vs[..i + 1])| == |ManyEnc(c, vs[..i])| + |c.enc(vs[i])|
  {
    if i == 0 {
      assert vs[..0] == [] && vs[..1] == [vs[0]] && [vs[0]][1..] == [];
    } else {
      ManyInOrder(c, vs[1..], i - 1);
      assert vs[..i][1..] == vs[1..][..i - 1] && vs[..i + 1][1..] == vs[1..][..i];
      var first, rest, at := c.enc(vs[0]), ManyEnc(c, vs[1..]), |ManyEnc(c, vs[1..][..i - 1])|;
      assert (first + rest)[|first| + at..|first| + at + |c.enc(vs[i])|] == rest[at..at + |c.enc(vs[i])|];
    }
  }

  lemma FourParts(a: Bytes, b: Bytes, c: Bytes, d: Bytes)
    ensures var s := a + (b + (c + d));
            && |s| == |a| + |b| + |c| + |d|
            && At(s, 0, a) && At(s, |a|, b) && At(s, |a| + |b|, c) && At(s, |a| + |b| + |c|, d)
  {
  }

  lemma PrefixIs(tx: Transaction, l: TxLimits)
    ensures PrefixCodec(l).enc(PrefixOf(tx))
         == ToLittle(tx.version, 4) + ((CompactEnc(|tx.inputs|) + ManyEnc(TxInputCodec(), tx.inputs))
            + ((CompactEnc(|tx.outputs|) + ManyEnc(TxOutputCodec(l.maxLockProgram), tx.outputs))
               + ToLittle(tx.locktime, 4)))
  {
    hide ToLittle, CompactEnc, ManyEnc, TxInputCodec, TxOutputCodec;
  }

  /** Version first; then the inputs, forty bytes each, with their count before them; then the outputs with
      theirs; then the locktime. */
  lemma PrefixLayout(tx: Transaction, l: TxLimits)
    ensures var b := PrefixCodec(l).enc(PrefixOf(tx));
            var ins := CompactEnc(|tx.inputs|) + ManyEnc(TxInputCodec(), tx.inputs);
            var outs := CompactEnc(|tx.outputs|) + ManyEnc(TxOutputCodec(l.maxLockProgram), tx.outputs);
            && |b| == 8 + |ins| + |outs| && LittleAt(b, 0, tx.version, 4)
            && At(b, 4, ins) && At(b, 4 + |ins|, outs) && LittleAt(b, 4 + |ins| + |outs|, tx.locktime, 4)
  {
    hide LittleAt, At, ToLittle, CompactEnc, ManyEnc, TxInputCodec, TxOutputCodec, PrefixCodec;
    var b := PrefixCodec(l).enc(PrefixOf(tx));
    var ins := CompactEnc(|tx.inputs|) + ManyEnc(TxInputCodec(), tx.inputs);
    var outs := CompactEnc(|tx.outputs|) + ManyEnc(TxOutputCodec(l.maxLockProgram), tx.outputs);
    var version, locktime := ToLittle(tx.version, 4), ToLittle(tx.locktime, 4);
    PrefixIs(tx, l);
    FourParts(version, ins, outs, locktime);
    LittleStands(b, 0, tx.version, 4);
    LittleStands(b, 4 + |ins| + |outs|, tx.locktime, 4);
  }

  /** Then a coinbase's data with its length before it, or the witnesses of anything else with their count. */
  lemma TransactionLayout(tx: Transaction, l: TxLimits)
    ensures TransactionCodec(l).enc(tx)
         == PrefixCodec(l).enc(PrefixOf(tx))
            + if tx.IsCoinbase() then CompactEnc(|tx.coinbaseData|) + tx.coinbaseData
              else CompactEnc(|tx.witnesses|) + ManyEnc(WitnessCodec(l), tx.witnesses)
  {
    hide CompactEnc, ManyEnc, WitnessCodec, PrefixCodec;
  }

  /** The header, then the transactions with their count before them. */
  lemma BlockLayout(block: Block, l: BlockLimits)
    ensures BlockCodec(l).enc(block)
         == HeaderCodec().enc(block.header)
            + (CompactEnc(|block.transactions|) + ManyEnc(TransactionCodec(l.tx), block.transactions))
  {
    hide CompactEnc, ManyEnc, TransactionCodec, HeaderCodec;
  }
}
