// Model of dedup/filter.go and dedup/seenset.go: a blocked Bloom filter in front of the exact set.
// Together they behave as a set of URL keys.
module SeenSets {
  import opened Bytes
  import opened Keys
  import opened BitOps
  import opened BitPacking
  import opened Sorting
  import opened Drum

  const BLOCK_WORDS: nat := 8

  // The bits of a key within the filter: any block and any two seeds.
  datatype Locator = Locator(hash: URLKey -> nat, stride: URLKey -> nat)

  function BitIndex(loc: Locator, key: URLKey, i: nat): (b: nat)
    ensures b < 512
  {
    (loc.hash(key) + i * loc.stride(key)) % 512
  }

  function Block(loc: Locator, nBlock: nat, key: URLKey): (b: nat)
    requires nBlock > 0
    ensures b < nBlock
  {
    loc.hash(key) % nBlock
  }

  // The word and the bit of a key's i-th probe.
  function Word(loc: Locator, nBlock: nat, key: URLKey, i: nat): (w: nat)
    requires nBlock > 0
    ensures w < nBlock * BLOCK_WORDS
  {
    Block(loc, nBlock, key) * BLOCK_WORDS + BitIndex(loc, key, i) / 64
  }

  // Every probe of the key finds its bit set.
  ghost predicate Lit(words: seq<nat>, loc: Locator, nBlock: nat, k: nat, key: URLKey)
    requires nBlock > 0 && |words| == nBlock * BLOCK_WORDS
  {
    forall i :: 0 <= i < k ==> BitOf(words[Word(loc, nBlock, key, i)], BitIndex(loc, key, i) % 64)
  }

  // No bit of a is missing from b.
  ghost predicate Grows(a: seq<nat>, b: seq<nat>) {
    |a| == |b| && forall w, j: nat :: 0 <= w < |a| && BitOf(a[w], j) ==> BitOf(b[w], j)
  }

  lemma LitGrows(a: seq<nat>, b: seq<nat>, loc: Locator, nBlock: nat, k: nat, key: URLKey)
    requires nBlock > 0 && |a| == nBlock * BLOCK_WORDS && Grows(a, b) && Lit(a, loc, nBlock, k, key)
    ensures Lit(b, loc, nBlock, k, key)
  {
    hide BitOf, Word, BitIndex;
  }

  lemma SetGrows(a: seq<nat>, w: nat, j: nat)
    requires w < |a|
    ensures Grows(a, a[w := SetBit(a[w], j)]) && BitOf(a[w := SetBit(a[w], j)][w], j)
  {
    hide BitOf, SetBit;
    var b := a[w := SetBit(a[w], j)];
    SetBitBits(a[w], j, j);
    forall v, i: nat | 0 <= v < |a| && BitOf(a[v], i)
      ensures BitOf(b[v], i)
    {
      SetBitBits(a[w], j, i);
    }
  }

  class Filter {
    const loc: Locator
    const nBlock: nat
    const k: nat
    const blocks: array<nat>
    var n: nat
    ghost var keys: set<URLKey>       // what was added

    ghost predicate Valid()
      reads this, blocks
    {
      && nBlock > 0 && blocks.Length == nBlock * BLOCK_WORDS
      && forall key <- keys :: Lit(blocks[..], loc, nBlock, k, key)
    }

    constructor (loc: Locator, nBlock: nat, k: nat)
      requires nBlock > 0
      ensures Valid() && keys == {} && fresh(blocks)
    {
      this.loc, this.nBlock, this.k := loc, nBlock, k;
      blocks := new nat[nBlock * BLOCK_WORDS](_ => 0);
      n, keys := 0, {};
    }

    // add: sets the key's bits and clears none.
    method Add(key: URLKey)
      requires Valid()
      modifies this, blocks
      ensures Valid() && keys == old(keys) + {key} && Grows(old(blocks[..]), blocks[..])
    {
      hide BitOf, SetBit, Word, BitIndex, Grows, Lit;
      GrowsRefl(blocks[..]);
      NoneLit(blocks[..], loc, nBlock, key);
      for i := 0 to k
        invariant keys == old(keys) && Grows(old(blocks[..]), blocks[..]) && Lit(blocks[..], loc, nBlock, i, key)
      {
        ghost var was := blocks[..];
        var w, j := Word(loc, nBlock, key, i), BitIndex(loc, key, i) % 64;
        blocks[w] := SetBit(blocks[w], j);
        assert blocks[..] == was[w := SetBit(was[w], j)];
        SetGrows(was, w, j);
        GrowsTrans(old(blocks[..]), was, blocks[..]);
        LitNext(was, blocks[..], loc, nBlock, key, i);
      }
      n := n + 1;
      forall x <- keys
        ensures Lit(blocks[..], loc, nBlock, k, x)
      {
        LitGrows(old(blocks[..]), blocks[..], loc, nBlock, k, x);
      }
      keys := keys + {key};
    }

    // maybeSeen: a no is final. No key that was added is ever missed.
    method MaybeSeen(key: URLKey) returns (maybe: bool)
      requires Valid()
      ensures maybe <==> Lit(blocks[..], loc, nBlock, k, key)
      ensures key in keys ==> maybe
    {
      hide BitOf, Word, BitIndex;
      for i := 0 to k
        invariant Lit(blocks[..], loc, nBlock, i, key)
      {
        if !BitOf(blocks[Word(loc, nBlock, key, i)], BitIndex(loc, key, i) % 64) {
          assert !BitOf(blocks[..][Word(loc, nBlock, key, i)], BitIndex(loc, key, i) % 64);
          return false;
        }
      }
      return true;
    }
  }

  lemma GrowsRefl(a: seq<nat>)
    ensures Grows(a, a)
  {
  }

  lemma GrowsTrans(a: seq<nat>, b: seq<nat>, c: seq<nat>)
    requires Grows(a, b) && Grows(b, c)
    ensures Grows(a, c)
  {
    hide BitOf;
  }

  lemma NoneLit(words: seq<nat>, loc: Locator, nBlock: nat, key: URLKey)
    requires nBlock > 0 && |words| == nBlock * BLOCK_WORDS
    ensures Lit(words, loc, nBlock, 0, key)
  {
  }

  lemma LitNext(a: seq<nat>, b: seq<nat>, loc: Locator, nBlock: nat, key: URLKey, i: nat)
    requires nBlock > 0 && |a| == nBlock * BLOCK_WORDS && Grows(a, b) && Lit(a, loc, nBlock, i, key)
    requires BitOf(b[Word(loc, nBlock, key, i)], BitIndex(loc, key, i) % 64)
    ensures Lit(b, loc, nBlock, i + 1, key)
  {
    LitGrows(a, b, loc, nBlock, i, key);
    hide BitOf, Word, BitIndex;
  }

  class SeenSet {
    const filter: Filter
    const exact: ExactSet

    // The set the two tiers stand for.
    ghost function Keys(): set<URLKey>
      reads this, exact
    {
      exact.keys
    }

    ghost predicate Valid()
      reads this, filter, filter.blocks, exact
    {
      filter.Valid() && exact.Valid() && filter.keys == exact.keys
    }

    constructor (loc: Locator, nBlock: nat, k: nat, nBuckets: nat)
      requires nBlock > 0 && nBuckets <= TWO_64
      ensures Valid() && Keys() == {} && fresh(filter) && fresh(filter.blocks) && fresh(exact)
    {
      filter := new Filter(loc, nBlock, k);
      exact := new ExactSet(nBuckets);
    }

    // Seen: check and insert.
    method Seen(key: URLKey) returns (seen: bool)
      requires Valid()
      modifies filter, filter.blocks, exact
      ensures Valid() && seen == (key in old(Keys())) && Keys() == old(Keys()) + {key}
    {
      hide Lit, Grows, BucketsOk;
      var maybe := filter.MaybeSeen(key);
      if maybe {
        var held := exact.Contains(key);
        if held {
          assert exact.keys + {key} == exact.keys;
          return true;
        }
      }
      filter.Add(key);
      var added := exact.Add(key);
      return false;
    }

    // Contains
    method Contains(key: URLKey) returns (yes: bool)
      requires Valid()
      ensures yes == (key in Keys())
    {
      hide Lit, Grows, BucketsOk;
      var maybe := filter.MaybeSeen(key);
      if !maybe {
        return false;
      }
      yes := exact.Contains(key);
    }

    // Merge: the whole batch at once, with the verdicts Seen would give key by key.
    method Merge(batch: seq<URLKey>) returns (out: seq<Verdict>)
      requires Valid()
      modifies filter, filter.blocks, exact
      ensures Valid() && Keys() == old(Keys()) + SetOf(batch)
      ensures Permutation(out, OneByOne(old(Keys()), batch))
    {
      hide Lit, Grows, BucketsOk, OneByOne, Permutation;
      ghost var held := exact.keys;
      out := exact.Merge(batch);
      UniqueAreNew(held, batch, out);
      AddUniques(out);
    }

    // The filter takes every unique key.
    method AddUniques(out: seq<Verdict>)
      requires filter.Valid() && exact.Valid()
      modifies filter, filter.blocks
      ensures filter.Valid() && exact.Valid() && filter.keys == old(filter.keys) + Uniques(out)
    {
      hide Lit, Grows, BucketsOk, Uniques;
      NoUniques();
      assert out[..0] == [];
      for i := 0 to |out|
        invariant filter.Valid() && exact.Valid() && filter.keys == old(filter.keys) + Uniques(out[..i])
      {
        UniquesNext(out, i);
        if out[i].unique {
          filter.Add(out[i].key);
        }
      }
      assert out[..|out|] == out;
    }

    // Insert: a key known to be new, as on recovery.
    method Insert(key: URLKey)
      requires Valid()
      modifies filter, filter.blocks, exact
      ensures Valid() && Keys() == old(Keys()) + {key}
    {
      hide Lit, Grows, BucketsOk;
      var maybe := filter.MaybeSeen(key);
      var held := false;
      if maybe {
        held := exact.Contains(key);
      }
      if !maybe || !held {
        filter.Add(key);
        var added := exact.Add(key);
      } else {
        assert exact.keys + {key} == exact.keys;
      }
    }

    // Len
    method Len() returns (n: nat)
      requires Valid()
      ensures n == |Keys()|
    {
      return exact.size;
    }
  }

  // The keys with a unique verdict.
  ghost function Uniques(out: seq<Verdict>): set<URLKey> {
    set v | v in out && v.unique :: v.key
  }

  lemma NoUniques()
    ensures Uniques([]) == {}
  {
  }

  lemma UniquesNext(out: seq<Verdict>, i: nat)
    requires i < |out|
    ensures Uniques(out[..i + 1]) == Uniques(out[..i]) + if out[i].unique then {out[i].key} else {}
  {
    assert out[..i + 1] == out[..i] + [out[i]];
  }

  // The keys with a unique verdict are the batch's new ones.
  lemma UniqueAreNew(held: set<URLKey>, batch: seq<URLKey>, out: seq<Verdict>)
    requires Permutation(out, OneByOne(held, batch))
    ensures held + Uniques(out) == held + SetOf(batch)
  {
    hide OneByOne;
    PermutationMembers(out, OneByOne(held, batch));
    forall k
      ensures k in Uniques(out) <==> k in batch && k !in held
    {
      VerdictCounts(held, batch, k);
      var v := Verdict(k, true);
      assert v in out <==> v in multiset(OneByOne(held, batch));
      assert k in Uniques(out) <==> v in out;
    }
  }
}
