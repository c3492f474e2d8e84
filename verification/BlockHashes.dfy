/** Block hashes by number for the EVM: ancestors of one header, remembered as they are found. */
module BlockHashes {
  import opened BlockTree
  import opened ContentHashes

  datatype Ref = Ref(number: nat, parent: Hash)

  /** Which headers can be read: `has(h, n)` for a header with hash `h` under number `n`, which can
      only be its own number. */
  ghost predicate Reads(hs: Headers, has: (Hash, nat) -> bool) {
    forall h: Hash, n: nat | has(h, n) :: hs.number(h) == n
  }

  /** The uncached answer: from the parent downwards, one header at a time. */
  function Walk(hs: Headers, has: (Hash, nat) -> bool, hash: Hash, number: nat, n: nat): Hash
    requires n <= number
    decreases number
  {
    if number == n then hash
    else if has(hash, number) then Walk(hs, has, hs.parent(hash), number - 1, n)
    else ZERO_HASH
  }

  /** A walk goes through the headers that can be read, and on from there. */
  lemma {:induction false} WalkThrough(hs: Headers, has: (Hash, nat) -> bool, hash: Hash, number: nat, n: nat, k: nat)
    requires n + k <= number
    requires forall i: nat | i < k :: has(hs.Up(hash, i), number - i)
    ensures Walk(hs, has, hash, number, n) == Walk(hs, has, hs.Up(hash, k), number - k, n)
    decreases k
  {
    if k > 0 {
      assert has(hs.Up(hash, 0), number);
      forall i: nat | i < k - 1
        ensures has(hs.Up(hs.parent(hash), i), number - 1 - i)
      {
        assert has(hs.Up(hash, i + 1), number - (i + 1));
      }
      WalkThrough(hs, has, hs.parent(hash), number - 1, n, k - 1);
    }
  }

  /** Slot `i` is the ancestor `i + 1` blocks below the header. */
  ghost predicate Filled(hs: Headers, ref: Ref, cache: seq<Hash>) {
    |cache| <= ref.number && forall i: nat | i < |cache| :: cache[i] == hs.Up(ref.parent, i)
  }

  /** Everything that was read to fill the cache can still be read. */
  ghost predicate Readable(hs: Headers, ref: Ref, cache: seq<Hash>, has: (Hash, nat) -> bool) {
    |cache| <= ref.number && forall i: nat | i < |cache| - 1 :: has(hs.Up(ref.parent, i), ref.number - 1 - i)
  }

  ghost function Uncached(hs: Headers, ref: Ref, has: (Hash, nat) -> bool, n: nat): Hash {
    if n < ref.number then Walk(hs, has, ref.parent, ref.number - 1, n) else ZERO_HASH
  }

  lemma InCache(hs: Headers, ref: Ref, cache: seq<Hash>, has: (Hash, nat) -> bool, n: nat)
    requires Filled(hs, ref, cache) && n < ref.number && ref.number - 1 - n < |cache| && Readable(hs, ref, cache, has)
    ensures cache[ref.number - 1 - n] == Uncached(hs, ref, has, n)
  {
    WalkThrough(hs, has, ref.parent, ref.number - 1, n, ref.number - 1 - n);
  }

  lemma Stuck(hs: Headers, ref: Ref, cache: seq<Hash>, has: (Hash, nat) -> bool, n: nat)
    requires Filled(hs, ref, cache) && 0 < |cache| && n < ref.number - |cache| && Readable(hs, ref, cache, has)
    requires !has(cache[|cache| - 1], ref.number - |cache|)
    ensures Uncached(hs, ref, has, n) == ZERO_HASH
  {
    WalkThrough(hs, has, ref.parent, ref.number - 1, n, |cache| - 1);
  }

  lemma Longer(hs: Headers, ref: Ref, cache: seq<Hash>, has: (Hash, nat) -> bool)
    requires Filled(hs, ref, cache) && 0 < |cache| < ref.number && has(cache[|cache| - 1], ref.number - |cache|)
    ensures var more := cache + [hs.parent(cache[|cache| - 1])];
            Filled(hs, ref, more) && (Readable(hs, ref, cache, has) ==> Readable(hs, ref, more, has))
  {
    hs.UpAgain(ref.parent, |cache| - 1);
  }

  /** Reads on from the end of the cache until height `n` or a missing header. */
  method Fill(hs: Headers, ref: Ref, cache: seq<Hash>, n: nat, has: (Hash, nat) -> bool) returns (hash: Hash, more: seq<Hash>)
    requires Filled(hs, ref, cache) && 0 < |cache| && n < ref.number - |cache| && Reads(hs, has)
    ensures Filled(hs, ref, more) && cache <= more
    ensures Readable(hs, ref, cache, has) ==> hash == Uncached(hs, ref, has, n) && Readable(hs, ref, more, has)
    ensures hash == ZERO_HASH || hash == hs.Up(ref.parent, ref.number - 1 - n)
  {
    more := cache;
    var lastHash, lastNumber: nat := cache[|cache| - 1], ref.number - |cache|;
    while true
      invariant Filled(hs, ref, more) && cache <= more && 0 < |more|
      invariant lastHash == more[|more| - 1] && lastNumber == ref.number - |more| > n
      invariant Readable(hs, ref, cache, has) ==> Readable(hs, ref, more, has)
      decreases lastNumber
    {
      if !has(lastHash, lastNumber) {
        break;
      }
      Longer(hs, ref, more, has);
      more := more + [hs.parent(lastHash)];
      lastNumber := hs.number(lastHash) - 1;
      lastHash := more[|more| - 1];
      if n == lastNumber {
        if Readable(hs, ref, more, has) {
          InCache(hs, ref, more, has, n);
        }
        return lastHash, more;
      }
    }
    if Readable(hs, ref, more, has) {
      Stuck(hs, ref, more, has, n);
    }
    hash := ZERO_HASH;
  }

  /** The closure that answers for one header. */
  class HashFn {
    const hs: Headers
    const ref: Ref
    var cache: seq<Hash>

    ghost predicate Valid()
      reads this
    {
      Filled(hs, ref, cache)
    }

    constructor (hs: Headers, ref: Ref)
      ensures Valid() && cache == [] && this.hs == hs && this.ref == ref
    {
      this.hs, this.ref, cache := hs, ref, [];
    }

    /** The hash at height `n`. While headers once read stay readable, every answer of the closure is
        the uncached one; a number already cached is answered by the true ancestor in any case. */
    method GetHash(n: nat, has: (Hash, nat) -> bool) returns (hash: Hash)
      requires Valid() && Reads(hs, has)
      modifies `cache
      ensures Valid() && old(cache) <= cache
      ensures n >= ref.number ==> hash == ZERO_HASH && cache == old(cache)
      ensures n < ref.number && ref.number - 1 - n < |old(cache)| ==> hash == hs.Up(ref.parent, ref.number - 1 - n)
      ensures Readable(hs, ref, old(cache), has) ==> hash == Uncached(hs, ref, has, n) && Readable(hs, ref, cache, has)
    {
      if ref.number <= n {
        return ZERO_HASH;
      }
      if |cache| == 0 {
        cache := [ref.parent];
      }
      var index := ref.number - n - 1;
      if index < |cache| {
        if Readable(hs, ref, cache, has) {
          InCache(hs, ref, cache, has, n);
        }
        return cache[index];
      }
      hash, cache := Fill(hs, ref, cache, n, has);
    }
  }
}
