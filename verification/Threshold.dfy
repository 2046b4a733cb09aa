/** Matching signatures to keys: one forward pass, each key asked at most once. */
module Threshold {
  import opened Primitives

  datatype VerifyResult = Valid | Invalid | Malformed | UnknownScheme | Reserved

  /** What checking a signature against a key under one message says. */
  type Verifier = (PublicKey, Signature) -> VerifyResult

  /** The key answers the signature: right scheme, and either it verifies or nobody here can tell. */
  predicate Answers(key: PublicKey, signature: Signature, verify: Verifier) {
    key.scheme == signature.scheme && (verify(key, signature).Valid? || verify(key, signature).UnknownScheme?)
  }

  predicate IsReserved(key: PublicKey, signature: Signature, verify: Verifier) {
    key.scheme == signature.scheme && verify(key, signature).Reserved?
  }

  /** A strictly increasing choice of keys, one for each of the first `k` signatures. */
  ghost predicate Assigns(w: Witness, f: seq<nat>, k: nat, verify: Verifier) {
    && |f| == k <= |w.signatures|
    && (forall i :: 0 <= i < k ==>
          f[i] < |w.condition.keys| && Answers(w.condition.keys[f[i]], w.signatures[i], verify))
    && (forall i, j :: 0 <= i < j < k ==> f[i] < f[j])
  }

  ghost predicate Satisfiable(w: Witness, verify: Verifier) {
    exists f :: Assigns(w, f, |w.signatures|, verify)
  }

  /** One key answers one signature if and only if both name one scheme and the check does not fail; that the
      scheme is one nobody here can check is no failure. */
  lemma LoneSignature(w: Witness, verify: Verifier)
    requires |w.condition.keys| == 1 && |w.signatures| == 1
    ensures var key, signature := w.condition.keys[0], w.signatures[0];
            Satisfiable(w, verify)
            <==> && key.scheme == signature.scheme
                 && (verify(key, signature) == Valid || verify(key, signature) == UnknownScheme)
  {
    if Answers(w.condition.keys[0], w.signatures[0], verify) {
      assert Assigns(w, [0], 1, verify);
    }
  }

  ghost predicate NoneReserved(w: Witness, verify: Verifier) {
    forall i, j :: 0 <= i < |w.condition.keys| && 0 <= j < |w.signatures| ==>
      !IsReserved(w.condition.keys[i], w.signatures[j], verify)
  }

  /** No choice for the first `k` signatures ends before `bound`. */
  ghost predicate Earliest(w: Witness, k: nat, bound: nat, verify: Verifier) {
    forall f :: Assigns(w, f, k, verify) && k > 0 ==> f[k - 1] + 1 >= bound
  }

  lemma AssignsPrefix(w: Witness, f: seq<nat>, n: nat, k: nat, verify: Verifier)
    requires Assigns(w, f, n, verify) && k <= n
    ensures Assigns(w, f[..k], k, verify)
  {
  }

  lemma AssignsMore(w: Witness, f: seq<nat>, k: nat, key: nat, verify: Verifier)
    requires Assigns(w, f, k, verify) && k < |w.signatures| && key < |w.condition.keys|
    requires Answers(w.condition.keys[key], w.signatures[k], verify) && (k > 0 ==> f[k - 1] < key)
    ensures Assigns(w, f + [key], k + 1, verify)
  {
    var g := f + [key];
    forall i, j | 0 <= i < j < k + 1 ensures g[i] < g[j] {
      if j == k && i < k - 1 {
        assert f[i] < f[k - 1];
      }
    }
  }

  /** Where no key between the frontier and `key` answers, every choice for the next signature is `key` or later. */
  lemma EarliestMore(w: Witness, k: nat, bound: nat, key: nat, verify: Verifier)
    requires Earliest(w, k, bound, verify) && k < |w.signatures| && (k == 0 ==> bound == 0)
    requires forall i :: bound <= i < key && i < |w.condition.keys| ==>
               !Answers(w.condition.keys[i], w.signatures[k], verify)
    ensures Earliest(w, k + 1, key + 1, verify)
  {
    forall f | Assigns(w, f, k + 1, verify) ensures f[k] + 1 >= key + 1 {
      AssignsPrefix(w, f, k + 1, k, verify);
      if k > 0 {
        assert f[..k][k - 1] + 1 >= bound;
        assert f[k - 1] < f[k];
      }
    }
  }

  lemma Exhausted(w: Witness, k: nat, verify: Verifier)
    requires k < |w.signatures| && Earliest(w, k + 1, |w.condition.keys| + 1, verify)
    ensures !Satisfiable(w, verify)
  {
    forall f ensures !Assigns(w, f, |w.signatures|, verify) {
      if Assigns(w, f, |w.signatures|, verify) {
        AssignsPrefix(w, f, |w.signatures|, k + 1, verify);
      }
    }
  }

  /** The keys asked, in order: none twice. */
  ghost predicate AskedInOrder(asked: seq<nat>, bound: nat) {
    (forall i :: 0 <= i < |asked| ==> asked[i] < bound) && (forall i, j :: 0 <= i < j < |asked| ==> asked[i] < asked[j])
  }

  lemma {:induction false} AskedAtMost(asked: seq<nat>, bound: nat)
    requires AskedInOrder(asked, bound)
    ensures |asked| <= bound
  {
    if asked != [] {
      var n := |asked| - 1;
      AskedAtMost(asked[..n], asked[n]);
    }
  }

  /** Accepts exactly when some strictly increasing choice of keys answers every signature; so distinct keys
      answer distinct signatures, and giving each signature the first key that answers it never costs a later
      one its match. */
  method SatisfiesThreshold(w: Witness, verify: Verifier) returns (r: Verdict, ghost asked: seq<nat>)
    ensures r.Accepted? ==> Satisfiable(w, verify)
    ensures NoneReserved(w, verify) ==>
              r == if Satisfiable(w, verify) then Accepted else Rejected(TxSignatureDoesNotVerify)
    ensures r == Rejected(WitnessSignatureSchemeReserved) ==> !NoneReserved(w, verify)
    ensures AskedInOrder(asked, |w.condition.keys|) && |asked| <= |w.condition.keys|
  {
    hide Earliest, Satisfiable;
    var keys := w.condition.keys;
    var keyIndex := 0;
    asked := [];
    ghost var f: seq<nat> := [];
    EarliestNone(w, verify);
    for i := 0 to |w.signatures|
      invariant keyIndex <= |keys| && Assigns(w, f, i, verify) && Earliest(w, i, keyIndex, verify)
      invariant i == 0 ==> keyIndex == 0
      invariant i > 0 ==> f[i - 1] < keyIndex
      invariant AskedInOrder(asked, keyIndex)
    {
      var signature := w.signatures[i];
      var satisfied := false;
      ghost var bound := keyIndex;
      while keyIndex < |keys| && !satisfied
        invariant bound <= keyIndex <= |keys| && AskedInOrder(asked, keyIndex)
        invariant !satisfied ==> forall k :: bound <= k < keyIndex ==> !Answers(keys[k], signature, verify)
        invariant satisfied ==> keyIndex > bound && Answers(keys[keyIndex - 1], signature, verify)
                                && forall k :: bound <= k < keyIndex - 1 ==> !Answers(keys[k], signature, verify)
        decreases |keys| - keyIndex, !satisfied
      {
        var key := keys[keyIndex];
        keyIndex := keyIndex + 1;
        if key.scheme != signature.scheme {
          continue;
        }
        asked := asked + [keyIndex - 1];
        match verify(key, signature) {
          case Valid => satisfied := true;
          case UnknownScheme => satisfied := true;
          case Invalid =>
          case Malformed =>
          case Reserved =>
            assert IsReserved(w.condition.keys[keyIndex - 1], w.signatures[i], verify);
            AskedAtMost(asked, |keys|);
            return Rejected(WitnessSignatureSchemeReserved), asked;
        }
      }
      if !satisfied {
        EarliestMore(w, i, bound, |keys|, verify);
        Exhausted(w, i, verify);
        AskedAtMost(asked, |keys|);
        return Rejected(TxSignatureDoesNotVerify), asked;
      }
      EarliestMore(w, i, bound, keyIndex - 1, verify);
      AssignsMore(w, f, i, keyIndex - 1, verify);
      f := f + [keyIndex - 1];
    }
    AskedAtMost(asked, |keys|);
    Witnessed(w, f, verify);
    return Accepted, asked;
  }

  lemma EarliestNone(w: Witness, verify: Verifier)
    ensures Earliest(w, 0, 0, verify)
  {
  }

  lemma Witnessed(w: Witness, f: seq<nat>, verify: Verifier)
    requires Assigns(w, f, |w.signatures|, verify)
    ensures Satisfiable(w, verify)
  {
  }
}
