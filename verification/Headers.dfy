/** Headers addressed by content: a hash fixes its header's parent and number for ever, whatever a
    database holds of them at the moment. */
module ContentHashes {
  import BlockTree

  type Hash = BlockTree.Hash

  datatype Headers = Headers(parent: Hash -> Hash, number: Hash -> nat) {

    /** The hash `k` parents above `h`. */
    function Up(h: Hash, k: nat): Hash
      decreases k
    {
      if k == 0 then h else Up(parent(h), k - 1)
    }

    lemma {:induction false} UpAgain(h: Hash, k: nat)
      ensures Up(h, k + 1) == parent(Up(h, k))
      decreases k
    {
      if k > 0 {
        UpAgain(parent(h), k - 1);
      }
    }
  }
}
