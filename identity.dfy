/**
 * Public keys as the client sees them. A key is identified by its base58
 * text: `toString()` returns that text and `equals` compares keys, so two
 * keys are equal exactly when their texts are.
 */
module Identity {

  datatype PublicKey = PublicKey(base58: string)
  {
    /** The base58 text of the key, as `PublicKey.toString()` returns it. */
    function ToString(): (r: string)
      ensures PublicKey(r) == this
    {
      base58
    }
  }

  /** `toString()` is injective: distinct keys have distinct texts. */
  lemma ToStringInjective(a: PublicKey, b: PublicKey)
    ensures a.ToString() == b.ToString() <==> a == b
  {
    assert PublicKey(a.ToString()) == a;
    assert PublicKey(b.ToString()) == b;
  }
}
