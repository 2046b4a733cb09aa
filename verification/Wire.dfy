/** The wire form of every structure a node exchanges, and that it is read back exactly. */
module Wire {
  import opened Arith
  import opened Codecs
  import opened Primitives

  type Prefix = (nat, (seq<TxInput>, (seq<TxOutput>, nat)))
  type Tail = (seq<Witness>, Bytes)

  // The fewest bytes an element of each counted sequence takes.
  const TX_INPUT_SIZE: nat := 40
  const TX_OUTPUT_MIN: nat := 10
  const KEY_MIN: nat := 3
  const SIGNATURE_MIN: nat := 3
  const WITNESS_MIN: nat := 4
  const TRANSACTION_MIN: nat := 11

  // --- Small structures ---

  function OutPointCodec(): Codec<OutPoint> {
    Mapped(Pair(Digest(), Unsigned(4)), (x: (Hash256, nat)) => OutPoint(x.0, x.1),
           (o: OutPoint) => (o.txid, o.index), (o: OutPoint) => true)
  }

  function TxInputCodec(): (c: Codec<TxInput>)
    ensures c.min == TX_INPUT_SIZE
  {
    Mapped(Pair(OutPointCodec(), Unsigned(4)), (x: (OutPoint, nat)) => TxInput(x.0, x.1),
           (v: TxInput) => (v.outpoint, v.sequence), (v: TxInput) => true)
  }

  function LockCodec(maxProgram: nat): Codec<Lock> {
    Mapped(Pair(Unsigned(1), ByteString(maxProgram)), (x: (nat, Bytes)) => Lock(x.0, x.1),
           (v: Lock) => (v.version, v.program), (v: Lock) => true)
  }

  /** The one place an amount is judged: nothing out of range is ever decoded. */
  function TxOutputCodec(maxProgram: nat): (c: Codec<TxOutput>)
    ensures c.min == TX_OUTPUT_MIN
  {
    Mapped(Pair(Signed64(), LockCodec(maxProgram)), (x: (int, Lock)) => TxOutput(x.0, x.1),
           (v: TxOutput) => (v.amount, v.lock), (v: TxOutput) => IsValidAmount(v.amount))
  }

  function PublicKeyCodec(maxSize: nat): (c: Codec<PublicKey>)
    ensures c.min == KEY_MIN
  {
    Mapped(Pair(Unsigned(2), ByteString(maxSize)), (x: (nat, Bytes)) => PublicKey(x.0, x.1),
           (v: PublicKey) => (v.scheme, v.bytes), (v: PublicKey) => true)
  }

  function SignatureCodec(maxSize: nat): (c: Codec<Signature>)
    ensures c.min == SIGNATURE_MIN
  {
    Mapped(Pair(Unsigned(2), ByteString(maxSize)), (x: (nat, Bytes)) => Signature(x.0, x.1),
           (v: Signature) => (v.scheme, v.bytes), (v: Signature) => true)
  }

  function ConditionCodec(l: TxLimits): Codec<SpendCondition> {
    Mapped(Pair(Unsigned(1), Pair(Unsigned(1), List(PublicKeyCodec(l.maxKeySize), l.maxKeys))),
           (x: (nat, (nat, seq<PublicKey>))) => SpendCondition(x.0, x.1.0, x.1.1),
           (v: SpendCondition) => (v.version, (v.threshold, v.keys)), (v: SpendCondition) => true)
  }

  function WitnessCodec(l: TxLimits): (c: Codec<Witness>)
    ensures c.min == WITNESS_MIN
  {
    Mapped(Pair(ConditionCodec(l), List(SignatureCodec(l.maxSignatureSize), l.maxSignatures)),
           (x: (SpendCondition, seq<Signature>)) => Witness(x.0, x.1),
           (v: Witness) => (v.condition, v.signatures), (v: Witness) => true)
  }

  lemma TxInputLawful()
    ensures Lawful(OutPointCodec()) && Lawful(TxInputCodec())
  {
    hide Lawful, Digest, Unsigned;
    DigestLawful();
    UnsignedLawful(4);
    PairLawful(Digest(), Unsigned(4));
    MappedLawful(Pair(Digest(), Unsigned(4)), (x: (Hash256, nat)) => OutPoint(x.0, x.1),
                 (o: OutPoint) => (o.txid, o.index), (o: OutPoint) => true);
    PairLawful(OutPointCodec(), Unsigned(4));
    MappedLawful(Pair(OutPointCodec(), Unsigned(4)), (x: (OutPoint, nat)) => TxInput(x.0, x.1),
                 (v: TxInput) => (v.outpoint, v.sequence), (v: TxInput) => true);
  }

  lemma TxOutputLawful(maxProgram: nat)
    ensures Lawful(LockCodec(maxProgram)) && Lawful(TxOutputCodec(maxProgram))
  {
    hide Lawful, Unsigned, ByteString, Signed64;
    UnsignedLawful(1);
    ByteStringLawful(maxProgram);
    PairLawful(Unsigned(1), ByteString(maxProgram));
    MappedLawful(Pair(Unsigned(1), ByteString(maxProgram)), (x: (nat, Bytes)) => Lock(x.0, x.1),
                 (v: Lock) => (v.version, v.program), (v: Lock) => true);
    Signed64Lawful();
    PairLawful(Signed64(), LockCodec(maxProgram));
    MappedLawful(Pair(Signed64(), LockCodec(maxProgram)), (x: (int, Lock)) => TxOutput(x.0, x.1),
                 (v: TxOutput) => (v.amount, v.lock), (v: TxOutput) => IsValidAmount(v.amount));
  }

  lemma KeysLawful(maxSize: nat)
    ensures Lawful(PublicKeyCodec(maxSize)) && Lawful(SignatureCodec(maxSize))
  {
    hide Lawful, Unsigned, ByteString;
    UnsignedLawful(2);
    ByteStringLawful(maxSize);
    PairLawful(Unsigned(2), ByteString(maxSize));
    MappedLawful(Pair(Unsigned(2), ByteString(maxSize)), (x: (nat, Bytes)) => PublicKey(x.0, x.1),
                 (v: PublicKey) => (v.scheme, v.bytes), (v: PublicKey) => true);
    MappedLawful(Pair(Unsigned(2), ByteString(maxSize)), (x: (nat, Bytes)) => Signature(x.0, x.1),
                 (v: Signature) => (v.scheme, v.bytes), (v: Signature) => true);
  }

  lemma ConditionLawful(l: TxLimits)
    ensures Lawful(ConditionCodec(l))
  {
    hide Lawful, Unsigned;
    var keys := List(PublicKeyCodec(l.maxKeySize), l.maxKeys);
    KeysLawful(l.maxKeySize);
    ListLawful(PublicKeyCodec(l.maxKeySize), l.maxKeys);
    UnsignedLawful(1);
    PairLawful(Unsigned(1), keys);
    PairLawful(Unsigned(1), Pair(Unsigned(1), keys));
    MappedLawful(Pair(Unsigned(1), Pair(Unsigned(1), keys)),
                 (x: (nat, (nat, seq<PublicKey>))) => SpendCondition(x.0, x.1.0, x.1.1),
                 (v: SpendCondition) => (v.version, (v.threshold, v.keys)), (v: SpendCondition) => true);
  }

  lemma WitnessLawful(l: TxLimits)
    ensures Lawful(WitnessCodec(l))
  {
    hide Lawful, ConditionCodec;
    ConditionLawful(l);
    var signatures := List(SignatureCodec(l.maxSignatureSize), l.maxSignatures);
    KeysLawful(l.maxSignatureSize);
    ListLawful(SignatureCodec(l.maxSignatureSize), l.maxSignatures);
    PairLawful(ConditionCodec(l), signatures);
    MappedLawful(Pair(ConditionCodec(l), signatures), (x: (SpendCondition, seq<Signature>)) => Witness(x.0, x.1),
                 (v: Witness) => (v.condition, v.signatures), (v: Witness) => true);
  }

  // --- Transactions ---

  /** Everything a txid commits to: version, inputs, outputs, locktime. */
  function PrefixCodec(l: TxLimits): Codec<Prefix> {
    Pair(Unsigned(4), Pair(List(TxInputCodec(), l.maxInputs), PrefixEnd(l)))
  }

  function PrefixEnd(l: TxLimits): Codec<(seq<TxOutput>, nat)> {
    Pair(List(TxOutputCodec(l.maxLockProgram), l.maxOutputs), Unsigned(4))
  }

  /** The section after the locktime: one byte string in a coinbase, a witness list in anything else. */
  function TailCodec(l: TxLimits, coinbase: bool): Codec<Tail> {
    if coinbase then
      Mapped(ByteString(l.maxCoinbaseData), (d: Bytes) => ([], d), (t: Tail) => t.1, (t: Tail) => t.0 == [])
    else
      Mapped(List(WitnessCodec(l), l.maxWitnesses), (ws: seq<Witness>) => (ws, []), (t: Tail) => t.0,
             (t: Tail) => t.1 == [])
  }

  function PrefixOf(tx: Transaction): Prefix {
    (tx.version, (tx.inputs, (tx.outputs, tx.locktime)))
  }

  function TailOf(tx: Transaction): Tail {
    (tx.witnesses, tx.coinbaseData)
  }

  function Assemble(p: Prefix, t: Tail): Transaction {
    Transaction(p.0, p.1.0, p.1.1.0, p.1.1.1, t.0, t.1)
  }

  function TransactionCodec(l: TxLimits): (c: Codec<Transaction>)
    ensures c.min == TRANSACTION_MIN
  {
    Mapped(Dependent(PrefixCodec(l), (p: Prefix) => TailCodec(l, CreatesCoins(p.1.0)), 1),
           (x: (Prefix, Tail)) => Assemble(x.0, x.1), (tx: Transaction) => (PrefixOf(tx), TailOf(tx)),
           (tx: Transaction) => true)
  }

  lemma PrefixLawful(l: TxLimits)
    ensures Lawful(PrefixCodec(l))
  {
    hide Lawful, Unsigned;
    var inputs, outputs := List(TxInputCodec(), l.maxInputs), List(TxOutputCodec(l.maxLockProgram), l.maxOutputs);
    TxInputLawful();
    ListLawful(TxInputCodec(), l.maxInputs);
    TxOutputLawful(l.maxLockProgram);
    ListLawful(TxOutputCodec(l.maxLockProgram), l.maxOutputs);
    UnsignedLawful(4);
    PairLawful(outputs, Unsigned(4));
    PairLawful(inputs, Pair(outputs, Unsigned(4)));
    PairLawful(Unsigned(4), Pair(inputs, Pair(outputs, Unsigned(4))));
  }

  lemma TailLawful(l: TxLimits, coinbase: bool)
    ensures Lawful(TailCodec(l, coinbase)) && TailCodec(l, coinbase).min == 1
  {
    hide Lawful;
    if coinbase {
      ByteStringLawful(l.maxCoinbaseData);
      MappedLawful(ByteString(l.maxCoinbaseData), (d: Bytes) => ([], d), (t: Tail) => t.1, (t: Tail) => t.0 == []);
    } else {
      WitnessLawful(l);
      ListLawful(WitnessCodec(l), l.maxWitnesses);
      MappedLawful(List(WitnessCodec(l), l.maxWitnesses), (ws: seq<Witness>) => (ws, []), (t: Tail) => t.0,
                   (t: Tail) => t.1 == []);
    }
  }

  /** Any transaction within limits is read back exactly from its bytes, whatever follows them; and any bytes
      accepted as a transaction are that transaction's only encoding. */
  lemma TransactionLawful(l: TxLimits)
    ensures Lawful(TransactionCodec(l))
  {
    hide Lawful, PrefixCodec, TailCodec;
    PrefixLawful(l);
    var tail := (p: Prefix) => TailCodec(l, CreatesCoins(p.1.0));
    forall p: Prefix ensures Lawful(tail(p)) && tail(p).min >= 1 {
      TailLawful(l, CreatesCoins(p.1.0));
    }
    DependentLawful(PrefixCodec(l), tail, 1);
    MappedLawful(Dependent(PrefixCodec(l), tail, 1),
                 (x: (Prefix, Tail)) => Assemble(x.0, x.1), (tx: Transaction) => (PrefixOf(tx), TailOf(tx)),
                 (tx: Transaction) => true);
  }

  // --- Blocks ---

  type HeaderFields = ((nat, (nat, Hash256)), (Hash256, (int, (nat, nat))))

  /** Version, height and predecessor. */
  function HeaderStart(): Codec<(nat, (nat, Hash256))> {
    Pair(Unsigned(4), Pair(Unsigned(4), Digest()))
  }

  /** Merkle root, timestamp, target and nonce. */
  function HeaderEnd(): Codec<(Hash256, (int, (nat, nat)))> {
    Pair(Digest(), Pair(Signed64(), Pair(Unsigned(4), Unsigned(8))))
  }

  function HeaderOf(x: HeaderFields): BlockHeader {
    BlockHeader(x.0.0, x.0.1.0, x.0.1.1, x.1.0, x.1.1.0, x.1.1.1.0, x.1.1.1.1)
  }

  function FieldsOf(h: BlockHeader): HeaderFields {
    ((h.version, (h.height, h.prevBlock)), (h.merkleRoot, (h.timestamp, (h.targetBits, h.nonce))))
  }

  function HeaderCodec(): Codec<BlockHeader> {
    Mapped(Pair(HeaderStart(), HeaderEnd()), (x: HeaderFields) => HeaderOf(x), (h: BlockHeader) => FieldsOf(h),
           (h: BlockHeader) => true)
  }

  lemma HeaderLawful()
    ensures Lawful(HeaderCodec()) && HeaderCodec().min == 92
  {
    hide Lawful;
    UnsignedLawful(4);
    UnsignedLawful(8);
    DigestLawful();
    Signed64Lawful();
    PairLawful(Unsigned(4), Digest());
    PairLawful(Unsigned(4), Pair(Unsigned(4), Digest()));
    PairLawful(Unsigned(4), Unsigned(8));
    PairLawful(Signed64(), Pair(Unsigned(4), Unsigned(8)));
    PairLawful(Digest(), Pair(Signed64(), Pair(Unsigned(4), Unsigned(8))));
    PairLawful(HeaderStart(), HeaderEnd());
    MappedLawful(Pair(HeaderStart(), HeaderEnd()), (x: HeaderFields) => HeaderOf(x), (h: BlockHeader) => FieldsOf(h),
                 (h: BlockHeader) => true);
  }

  datatype BlockLimits = BlockLimits(maxTransactions: nat, tx: TxLimits)

  function BlockCodec(l: BlockLimits): Codec<Block> {
    Mapped(Pair(HeaderCodec(), List(TransactionCodec(l.tx), l.maxTransactions)),
           (x: (BlockHeader, seq<Transaction>)) => Block(x.0, x.1), (b: Block) => (b.header, b.transactions),
           (b: Block) => true)
  }

  lemma BlockLawful(l: BlockLimits)
    ensures Lawful(BlockCodec(l))
  {
    hide Lawful, HeaderCodec;
    HeaderLawful();
    TransactionLawful(l.tx);
    var txs := List(TransactionCodec(l.tx), l.maxTransactions);
    ListLawful(TransactionCodec(l.tx), l.maxTransactions);
    PairLawful(HeaderCodec(), txs);
    MappedLawful(Pair(HeaderCodec(), txs),
                 (x: (BlockHeader, seq<Transaction>)) => Block(x.0, x.1), (b: Block) => (b.header, b.transactions),
                 (b: Block) => true);
  }

  // --- What the identifiers commit to ---

  /** Two transactions with one txid preimage have the same effects, whatever their witnesses; two with one
      full encoding are the same transaction. */
  lemma PreimagesCommit(l: TxLimits, a: Transaction, b: Transaction)
    requires TransactionCodec(l).ok(a) && TransactionCodec(l).ok(b)
    ensures PrefixCodec(l).enc(PrefixOf(a)) == PrefixCodec(l).enc(PrefixOf(b)) ==> PrefixOf(a) == PrefixOf(b)
    ensures TransactionCodec(l).enc(a) == TransactionCodec(l).enc(b) ==> a == b
  {
    hide PrefixCodec, TailCodec;
    PrefixLawful(l);
    TransactionLawful(l);
    var p, t := PrefixCodec(l), TransactionCodec(l);
    assert p.dec(p.enc(PrefixOf(a)) + []) == Some(Parsed(PrefixOf(a), |p.enc(PrefixOf(a))|));
    assert p.dec(p.enc(PrefixOf(b)) + []) == Some(Parsed(PrefixOf(b), |p.enc(PrefixOf(b))|));
    assert t.dec(t.enc(a) + []) == Some(Parsed(a, |t.enc(a)|));
    assert t.dec(t.enc(b) + []) == Some(Parsed(b, |t.enc(b)|));
  }

  // --- In plain terms ---

  predicate InputFits(v: TxInput) {
    v.outpoint.txid.value < Pow(256, HASH_SIZE) && v.outpoint.index < UINT32_LIMIT && v.sequence < UINT32_LIMIT
  }

  predicate OutputFits(v: TxOutput, l: TxLimits) {
    && IsValidAmount(v.amount) && v.lock.version < 256
    && |v.lock.program| <= l.maxLockProgram && |v.lock.program| < UINT64_LIMIT
  }

  predicate ConditionFits(v: SpendCondition, l: TxLimits) {
    && v.version < 256 && v.threshold < 256 && |v.keys| <= l.maxKeys && |v.keys| < UINT64_LIMIT
    && forall i :: 0 <= i < |v.keys| ==>
         v.keys[i].scheme < 0x1_0000 && |v.keys[i].bytes| <= l.maxKeySize && |v.keys[i].bytes| < UINT64_LIMIT
  }

  predicate WitnessFits(v: Witness, l: TxLimits) {
    && ConditionFits(v.condition, l) && |v.signatures| <= l.maxSignatures && |v.signatures| < UINT64_LIMIT
    && forall i :: 0 <= i < |v.signatures| ==>
         && v.signatures[i].scheme < 0x1_0000
         && |v.signatures[i].bytes| <= l.maxSignatureSize && |v.signatures[i].bytes| < UINT64_LIMIT
  }

  /** Within every limit, and carrying only the section its inputs call for. */
  predicate TransactionFits(tx: Transaction, l: TxLimits) {
    && tx.version < UINT32_LIMIT && tx.locktime < UINT32_LIMIT
    && |tx.inputs| <= l.maxInputs && |tx.inputs| < UINT64_LIMIT
    && |tx.outputs| <= l.maxOutputs && |tx.outputs| < UINT64_LIMIT
    && (forall i :: 0 <= i < |tx.inputs| ==> InputFits(tx.inputs[i]))
    && (forall i :: 0 <= i < |tx.outputs| ==> OutputFits(tx.outputs[i], l))
    && if tx.IsCoinbase() then
         tx.witnesses == [] && |tx.coinbaseData| <= l.maxCoinbaseData && |tx.coinbaseData| < UINT64_LIMIT
       else
         && tx.coinbaseData == [] && |tx.witnesses| <= l.maxWitnesses && |tx.witnesses| < UINT64_LIMIT
         && forall i :: 0 <= i < |tx.witnesses| ==> WitnessFits(tx.witnesses[i], l)
  }

  lemma InputOk(v: TxInput)
    ensures TxInputCodec().ok(v) <==> InputFits(v)
  {
    hide Pow;
    Powers();
  }

  lemma OutputOk(v: TxOutput, l: TxLimits)
    ensures TxOutputCodec(l.maxLockProgram).ok(v) <==> OutputFits(v, l)
  {
    hide Pow;
    Powers();
  }

  lemma WitnessOk(v: Witness, l: TxLimits)
    ensures WitnessCodec(l).ok(v) <==> WitnessFits(v, l)
  {
    hide Pow;
    Powers();
    ConditionOk(v.condition, l);
    var c := SignatureCodec(l.maxSignatureSize);
    forall g: Signature
      ensures c.ok(g) <==> g.scheme < 0x1_0000 && |g.bytes| <= l.maxSignatureSize && |g.bytes| < UINT64_LIMIT
    {
    }
    assert WitnessCodec(l).ok(v)
      <==> ConditionCodec(l).ok(v.condition) && List(c, l.maxSignatures).ok(v.signatures) by {
      hide List, ConditionCodec, SignatureCodec;
    }
  }

  lemma ConditionOk(v: SpendCondition, l: TxLimits)
    ensures ConditionCodec(l).ok(v) <==> ConditionFits(v, l)
  {
    hide Pow;
    Powers();
    var c := PublicKeyCodec(l.maxKeySize);
    forall k: PublicKey
      ensures c.ok(k) <==> k.scheme < 0x1_0000 && |k.bytes| <= l.maxKeySize && |k.bytes| < UINT64_LIMIT
    {
    }
  }

  lemma PrefixOk(p: Prefix, l: TxLimits)
    ensures PrefixCodec(l).ok(p) <==>
              && p.0 < UINT32_LIMIT && p.1.1.1 < UINT32_LIMIT
              && |p.1.0| <= l.maxInputs && |p.1.0| < UINT64_LIMIT
              && |p.1.1.0| <= l.maxOutputs && |p.1.1.0| < UINT64_LIMIT
              && (forall i :: 0 <= i < |p.1.0| ==> InputFits(p.1.0[i]))
              && (forall i :: 0 <= i < |p.1.1.0| ==> OutputFits(p.1.1.0[i], l))
  {
    hide Pow, TxInputCodec, TxOutputCodec, InputFits, OutputFits;
    Powers();
    forall v: TxInput ensures TxInputCodec().ok(v) <==> InputFits(v) {
      InputOk(v);
    }
    forall v: TxOutput ensures TxOutputCodec(l.maxLockProgram).ok(v) <==> OutputFits(v, l) {
      OutputOk(v, l);
    }
    var c, d := TxInputCodec(), TxOutputCodec(l.maxLockProgram);
    assert List(c, l.maxInputs).ok(p.1.0) <==>
           |p.1.0| <= l.maxInputs && |p.1.0| < UINT64_LIMIT && forall i :: 0 <= i < |p.1.0| ==> InputFits(p.1.0[i]);
    assert List(d, l.maxOutputs).ok(p.1.1.0) <==>
           && |p.1.1.0| <= l.maxOutputs && |p.1.1.0| < UINT64_LIMIT
           && forall i :: 0 <= i < |p.1.1.0| ==> OutputFits(p.1.1.0[i], l);
  }

  lemma TailOk(t: Tail, l: TxLimits, coinbase: bool)
    ensures TailCodec(l, coinbase).ok(t) <==>
              if coinbase then t.0 == [] && |t.1| <= l.maxCoinbaseData && |t.1| < UINT64_LIMIT
              else t.1 == [] && |t.0| <= l.maxWitnesses && |t.0| < UINT64_LIMIT
                   && forall i :: 0 <= i < |t.0| ==> WitnessFits(t.0[i], l)
  {
    hide WitnessCodec, WitnessFits;
    forall v: Witness ensures WitnessCodec(l).ok(v) <==> WitnessFits(v, l) {
      WitnessOk(v, l);
    }
  }

  lemma TransactionOk(tx: Transaction, l: TxLimits)
    ensures TransactionCodec(l).ok(tx) <==> TransactionFits(tx, l)
  {
    hide PrefixCodec, TailCodec, InputFits, OutputFits, WitnessFits;
    PrefixOk(PrefixOf(tx), l);
    TailOk(TailOf(tx), l, tx.IsCoinbase());
  }

  /** Decoding a transaction's bytes, with anything after them, gives the transaction back and leaves the
      rest; no count in a genuine encoding is ever refused as implausible. */
  lemma TransactionReadsBack(tx: Transaction, l: TxLimits, rest: Bytes)
    requires TransactionFits(tx, l)
    ensures var bytes := TransactionCodec(l).enc(tx);
            TransactionCodec(l).dec(bytes + rest) == Some(Parsed(tx, |bytes|))
  {
    hide TransactionCodec, TransactionFits;
    TransactionOk(tx, l);
    TransactionLawful(l);
  }

  /** Whatever bytes are accepted are exactly what the decoded transaction prints: there is no second encoding. */
  lemma TransactionBytesAreCanonical(s: Bytes, l: TxLimits)
    requires TransactionCodec(l).dec(s).Some?
    ensures var r := TransactionCodec(l).dec(s).value;
            r.used <= |s| && TransactionFits(r.value, l) && TransactionCodec(l).enc(r.value) == s[..r.used]
  {
    hide TransactionCodec, TransactionFits;
    TransactionLawful(l);
    TransactionOk(TransactionCodec(l).dec(s).value.value, l);
  }

  predicate HeaderFits(h: BlockHeader) {
    && h.version < UINT32_LIMIT && h.height < UINT32_LIMIT && h.targetBits < UINT32_LIMIT && h.nonce < UINT64_LIMIT
    && h.prevBlock.value < Pow(256, HASH_SIZE) && h.merkleRoot.value < Pow(256, HASH_SIZE) && FitsInt64(h.timestamp)
  }

  predicate BlockFits(b: Block, l: BlockLimits) {
    && HeaderFits(b.header) && |b.transactions| <= l.maxTransactions && |b.transactions| < UINT64_LIMIT
    && forall i :: 0 <= i < |b.transactions| ==> TransactionFits(b.transactions[i], l.tx)
  }

  lemma HeaderOk(h: BlockHeader)
    ensures HeaderCodec().ok(h) <==> HeaderFits(h)
  {
    hide Pow;
    Powers();
    forall x: int | FitsInt64(x) ensures Signed64().ok(x) {
      assert 0 <= ToTwos(x) < UINT64_LIMIT;
    }
  }

  lemma BlockOk(b: Block, l: BlockLimits)
    ensures BlockCodec(l).ok(b) <==> BlockFits(b, l)
  {
    hide HeaderCodec, TransactionCodec, HeaderFits, TransactionFits;
    HeaderOk(b.header);
    forall tx: Transaction ensures TransactionCodec(l.tx).ok(tx) <==> TransactionFits(tx, l.tx) {
      TransactionOk(tx, l.tx);
    }
    var c := TransactionCodec(l.tx);
    assert List(c, l.maxTransactions).ok(b.transactions) <==>
           |b.transactions| <= l.maxTransactions && |b.transactions| < UINT64_LIMIT
           && forall i :: 0 <= i < |b.transactions| ==> TransactionFits(b.transactions[i], l.tx);
  }

  lemma BlockReadsBack(b: Block, l: BlockLimits, rest: Bytes)
    requires BlockFits(b, l)
    ensures var bytes := BlockCodec(l).enc(b);
            BlockCodec(l).dec(bytes + rest) == Some(Parsed(b, |bytes|))
  {
    hide BlockCodec, BlockFits;
    BlockOk(b, l);
    BlockLawful(l);
  }

  lemma BlockBytesAreCanonical(s: Bytes, l: BlockLimits)
    requires BlockCodec(l).dec(s).Some?
    ensures var r := BlockCodec(l).dec(s).value;
            r.used <= |s| && BlockFits(r.value, l) && BlockCodec(l).enc(r.value) == s[..r.used]
  {
    hide BlockCodec, BlockFits;
    BlockLawful(l);
    BlockOk(BlockCodec(l).dec(s).value.value, l);
  }
}
