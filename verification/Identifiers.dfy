/** Why the identifiers commit: each is a hash of an encoding that can be read back. */
module Identifiers {
  import opened Codecs
  import opened Primitives
  import opened Validation
  import opened Wire

  /** Every transaction and header admitted is one its decoder yields. */
  ghost predicate AdmitsDecoded(p: Params) {
    && (forall tx: Transaction :: p.admits(tx) ==> TransactionCodec(p.limits).ok(tx))
    && (forall header: BlockHeader :: p.admitsHeader(header) ==> HeaderCodec().ok(header))
  }

  function TxidPreimage(tx: Transaction, p: Params): Bytes {
    PrefixCodec(p.limits).enc(PrefixOf(tx))
  }

  function WtxidPreimage(tx: Transaction, p: Params): Bytes {
    TransactionCodec(p.limits).enc(tx)
  }

  function HashPreimage(header: BlockHeader): Bytes {
    HeaderCodec().enc(header)
  }

  /** The identifiers are `digest` of the encodings. */
  ghost predicate HashesEncodings(p: Params, digest: Bytes -> Hash256) {
    && (forall tx: Transaction :: p.txid(tx) == digest(TxidPreimage(tx, p)))
    && (forall tx: Transaction :: p.wtxid(tx) == digest(WtxidPreimage(tx, p)))
    && (forall header: BlockHeader :: p.hash(header) == digest(HashPreimage(header)))
  }

  /** No two different encodings of what is admitted have one digest. */
  ghost predicate NoCollision(p: Params, digest: Bytes -> Hash256) {
    && (forall a: Transaction, b: Transaction :: p.admits(a) && p.admits(b) ==>
          && Tells(digest, TxidPreimage(a, p), TxidPreimage(b, p))
          && Tells(digest, WtxidPreimage(a, p), WtxidPreimage(b, p)))
    && (forall a: BlockHeader, b: BlockHeader :: p.admitsHeader(a) && p.admitsHeader(b) ==>
          Tells(digest, HashPreimage(a), HashPreimage(b)))
  }

  predicate Tells(digest: Bytes -> Hash256, a: Bytes, b: Bytes) {
    digest(a) == digest(b) ==> a == b
  }

  lemma HeaderPreimagesCommit(a: BlockHeader, b: BlockHeader)
    requires HeaderCodec().ok(a) && HeaderCodec().ok(b) && HashPreimage(a) == HashPreimage(b)
    ensures a == b
  {
    hide HeaderCodec;
    HeaderLawful();
    var c := HeaderCodec();
    assert c.dec(c.enc(a) + []) == Some(Parsed(a, |c.enc(a)|));
    assert c.dec(c.enc(b) + []) == Some(Parsed(b, |c.enc(b)|));
  }

  /** Short of a collision among what is admitted, the node's own identifiers meet every assumption made of
      them: a txid fixes inputs and outputs, a wtxid the whole transaction, a block hash the whole header. */
  lemma IdentifiersCommit(p: Params, digest: Bytes -> Hash256)
    requires AdmitsDecoded(p) && HashesEncodings(p, digest) && NoCollision(p, digest)
    ensures TxidCommits(p) && WtxidCommits(p) && HashCommits(p)
  {
    hide TransactionCodec, PrefixCodec, HeaderCodec;
    forall a: Transaction, b: Transaction | p.admits(a) && p.admits(b)
      ensures p.txid(a) == p.txid(b) ==> a.inputs == b.inputs && a.outputs == b.outputs
      ensures p.wtxid(a) == p.wtxid(b) ==> a == b
    {
      PreimagesCommit(p.limits, a, b);
      assert digest(TxidPreimage(a, p)) == p.txid(a) && digest(TxidPreimage(b, p)) == p.txid(b);
      assert digest(WtxidPreimage(a, p)) == p.wtxid(a) && digest(WtxidPreimage(b, p)) == p.wtxid(b);
    }
    forall a: BlockHeader, b: BlockHeader | p.admitsHeader(a) && p.admitsHeader(b) && p.hash(a) == p.hash(b)
      ensures a == b
    {
      assert digest(HashPreimage(a)) == p.hash(a) && digest(HashPreimage(b)) == p.hash(b);
      HeaderPreimagesCommit(a, b);
    }
  }

  /** What is not admitted is not committed to: a wtxid does not see data on a transaction that is no coinbase,
      nor witnesses on one that is. The decoder never yields either, and the shape rules refuse both. */
  lemma IdentifiersLeaveOut(p: Params, tx: Transaction, data: seq<byte>, witnesses: seq<Witness>)
    ensures !tx.IsCoinbase() ==> WtxidPreimage(tx.(coinbaseData := data), p) == WtxidPreimage(tx, p)
    ensures tx.IsCoinbase() ==> WtxidPreimage(tx.(witnesses := witnesses), p) == WtxidPreimage(tx, p)
    ensures !tx.IsCoinbase() && data != [] ==> !TransactionCodec(p.limits).ok(tx.(coinbaseData := data))
    ensures tx.IsCoinbase() && witnesses != [] ==> !TransactionCodec(p.limits).ok(tx.(witnesses := witnesses))
    ensures !tx.IsCoinbase() && data != [] ==> ShapeVerdict(tx.(coinbaseData := data), p).Rejected?
    ensures tx.IsCoinbase() && witnesses != [] ==> ShapeVerdict(tx.(witnesses := witnesses), p).Rejected?
  {
    hide PrefixCodec, WitnessCodec, ByteString, List;
  }
}
