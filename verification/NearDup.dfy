// Model of dedup/neardup.go: four tables of 64-bit simhashes, each rotated so a different 16-bit
// block leads, sorted, probed by block and checked by Hamming distance.
module NearDups {
  import opened Wrappers
  import opened Keys
  import opened BitOps
  import opened Sorting

  const NEAR_BLOCKS: nat := 4
  const BLOCK_BITS: nat := 16
  const BLOCK: nat := 0x1_0000
  const THRESHOLD: nat := 3

  type Sim = v: nat | v < 0x1_0000_0000_0000_0000

  // bits.OnesCount64
  function Ones(w: nat): nat {
    if w == 0 then 0 else w % 2 + Ones(w / 2)
  }

  function Hamming(a: nat, b: nat): nat {
    Ones(Xor(a, b))
  }

  predicate Near(a: nat, b: nat) {
    Hamming(a, b) <= THRESHOLD
  }

  // ---- the pigeonhole ----

  lemma {:induction false} OnesSplit(w: nat, n: nat)
    ensures Ones(w) == Ones(Low(w, n)) + Ones(Shr(w, n))
  {
    if n > 0 {
      OnesSplit(w / 2, n - 1);
      assert Low(w, n) % 2 == w % 2 && Low(w, n) / 2 == Low(w / 2, n - 1);
    }
  }

  lemma {:induction false} XorSplit(a: nat, b: nat, n: nat)
    ensures Low(Xor(a, b), n) == Xor(Low(a, n), Low(b, n)) && Shr(Xor(a, b), n) == Xor(Shr(a, n), Shr(b, n))
  {
    if n == 0 {
      XorNone(0);
    } else {
      hide Xor;
      XorStep(a, b);
      XorSplit(a / 2, b / 2, n - 1);
      XorStep(Low(a, n), Low(b, n));
      assert Low(a, n) / 2 == Low(a / 2, n - 1) && Low(b, n) / 2 == Low(b / 2, n - 1);
    }
  }

  lemma XorStep(a: nat, b: nat)
    ensures Xor(a, b) % 2 == (if a % 2 == b % 2 then 0 else 1) && Xor(a, b) / 2 == Xor(a / 2, b / 2)
  {
  }

  lemma {:induction false} DifferentOnes(a: nat, b: nat)
    requires a != b
    ensures Ones(Xor(a, b)) >= 1
    decreases a + b
  {
    XorStep(a, b);
    if a % 2 == b % 2 {
      DifferentOnes(a / 2, b / 2);
    }
  }

  // Block i of a word, from the low end.
  function BlockAt(x: nat, i: nat): nat
    decreases i
  {
    if i == 0 then Low(x, BLOCK_BITS) else BlockAt(Shr(x, BLOCK_BITS), i - 1)
  }

  ghost function DifferingBlocks(a: nat, b: nat, k: nat): nat
    decreases k
  {
    if k == 0 then 0
    else (if Low(a, BLOCK_BITS) != Low(b, BLOCK_BITS) then 1 else 0) + DifferingBlocks(Shr(a, BLOCK_BITS), Shr(b, BLOCK_BITS), k - 1)
  }

  lemma {:induction false} BlocksWithinDistance(a: nat, b: nat, k: nat)
    ensures DifferingBlocks(a, b, k) <= Hamming(a, b)
    decreases k
  {
    if k > 0 {
      BlocksWithinDistance(Shr(a, BLOCK_BITS), Shr(b, BLOCK_BITS), k - 1);
      OnesSplit(Xor(a, b), BLOCK_BITS);
      XorSplit(a, b, BLOCK_BITS);
      if Low(a, BLOCK_BITS) != Low(b, BLOCK_BITS) {
        DifferentOnes(Low(a, BLOCK_BITS), Low(b, BLOCK_BITS));
      }
    }
  }

  lemma {:induction false} AgreeingBlock(a: nat, b: nat, k: nat) returns (i: nat)
    requires DifferingBlocks(a, b, k) < k
    ensures i < k && BlockAt(a, i) == BlockAt(b, i)
    decreases k
  {
    if Low(a, BLOCK_BITS) == Low(b, BLOCK_BITS) {
      i := 0;
    } else {
      var j := AgreeingBlock(Shr(a, BLOCK_BITS), Shr(b, BLOCK_BITS), k - 1);
      i := j + 1;
    }
  }

  // Two words within distance three agree on one of their four blocks.
  lemma Pigeonhole(a: nat, b: nat) returns (i: nat)
    requires Near(a, b)
    ensures i < NEAR_BLOCKS && BlockAt(a, i) == BlockAt(b, i)
  {
    BlocksWithinDistance(a, b, NEAR_BLOCKS);
    i := AgreeingBlock(a, b, NEAR_BLOCKS);
  }

  // ---- rotation ----

  // bits.RotateLeft64(x, -b * 16)
  function RotateBlock(x: Sim, b: nat): nat
    requires b < NEAR_BLOCKS
  {
    match b
    case 0 => x
    case 1 => x / 0x1_0000 + (x % 0x1_0000) * 0x1_0000_0000_0000
    case 2 => x / 0x1_0000_0000 + (x % 0x1_0000_0000) * 0x1_0000_0000
    case _ => x / 0x1_0000_0000_0000 + (x % 0x1_0000_0000_0000) * 0x1_0000
  }

  // The leading block of a rotated word.
  function Lead(r: nat): nat {
    r / 0x1_0000_0000_0000
  }

  lemma BlocksAre(x: Sim)
    ensures BlockAt(x, 0) == x % BLOCK
    ensures BlockAt(x, 1) == x / 0x1_0000 % BLOCK
    ensures BlockAt(x, 2) == x / 0x1_0000_0000 % BLOCK
    ensures BlockAt(x, 3) == x / 0x1_0000_0000_0000 % BLOCK
  {
    hide BlockAt;
    BlockZero(x);
    BlockStep(x, 1);
    BlockZero(x / BLOCK);
    BlockTwo(x);
    BlockStep(x, 3);
    BlockTwo(x / BLOCK);
    Quotients(x);
  }

  lemma BlockTwo(x: nat)
    ensures BlockAt(x, 2) == x / 0x1_0000_0000 % BLOCK
  {
    hide BlockAt;
    BlockStep(x, 2);
    BlockStep(x / BLOCK, 1);
    BlockZero(x / BLOCK / BLOCK);
    Quotients(x);
  }

  lemma BlockZero(x: nat)
    ensures BlockAt(x, 0) == x % BLOCK
  {
    hide Low, Shr;
    LowIsMod(x);
  }

  lemma BlockStep(x: nat, i: nat)
    requires i > 0
    ensures BlockAt(x, i) == BlockAt(x / BLOCK, i - 1)
  {
    hide Low, Shr;
    LowIsMod(x);
  }

  lemma Quotients(x: nat)
    ensures x / BLOCK / BLOCK == x / 0x1_0000_0000
    ensures x / BLOCK / 0x1_0000_0000 == x / 0x1_0000_0000_0000
  {
  }

  lemma LowIsMod(x: nat)
    ensures Low(x, BLOCK_BITS) == x % BLOCK && Shr(x, BLOCK_BITS) == x / BLOCK
  {
    hide Low, Shr;
    Pow2At16();
    LowShr(x, BLOCK_BITS);
    LowBound(x, BLOCK_BITS);
    hide Pow2;
    assert x == BLOCK * Shr(x, BLOCK_BITS) + Low(x, BLOCK_BITS);
  }

  lemma Leads(x: Sim)
    ensures Lead(RotateBlock(x, 0)) == x / 0x1_0000_0000_0000 % BLOCK
    ensures Lead(RotateBlock(x, 1)) == x % BLOCK
    ensures Lead(RotateBlock(x, 2)) == x / 0x1_0000 % BLOCK
    ensures Lead(RotateBlock(x, 3)) == x / 0x1_0000_0000 % BLOCK
  {
    Parts(x % BLOCK, x / 0x1_0000 % BLOCK, x / 0x1_0000_0000 % BLOCK, x / 0x1_0000_0000_0000, x);
  }

  lemma Parts(p: nat, q: nat, r: nat, s: nat, x: Sim)
    requires p < BLOCK && q < BLOCK && r < BLOCK && s < BLOCK
    requires x == p + 0x1_0000 * q + 0x1_0000_0000 * r + 0x1_0000_0000_0000 * s
    ensures Lead(RotateBlock(x, 0)) == s && Lead(RotateBlock(x, 1)) == p && Lead(RotateBlock(x, 2)) == q && Lead(RotateBlock(x, 3)) == r
  {
    assert x / 0x1_0000 == q + 0x1_0000 * r + 0x1_0000_0000 * s && x % 0x1_0000 == p;
    assert x / 0x1_0000_0000 == r + 0x1_0000 * s && x % 0x1_0000_0000 == p + 0x1_0000 * q;
    assert x / 0x1_0000_0000_0000 == s && x % 0x1_0000_0000_0000 == p + 0x1_0000 * q + 0x1_0000_0000 * r;
  }

  // Table b is led by the block below b, cyclically: the four tables cover the four blocks.
  lemma LeadingBlock(x: Sim, b: nat)
    requires b < NEAR_BLOCKS
    ensures Lead(RotateBlock(x, b)) == BlockAt(x, (b + 3) % 4)
  {
    hide BlockAt, Lead, RotateBlock;
    BlocksAre(x);
    Leads(x);
    assert x / 0x1_0000_0000_0000 < BLOCK;
  }

  lemma LeadMono(r: nat, s: nat)
    requires r <= s
    ensures Lead(r) <= Lead(s)
  {
  }

  // ---- the index ----

  datatype Entry = Entry(rotated: nat, sim: Sim, key: URLKey)

  predicate ByRotated(a: Entry, b: Entry) {
    a.rotated < b.rotated
  }

  lemma RotatedOrder()
    ensures StrictWeak(ByRotated)
  {
  }

  // The entries of table b for the stored pages.
  function EntryFor(page: (Sim, URLKey), b: nat): Entry
    requires b < NEAR_BLOCKS
  {
    Entry(RotateBlock(page.0, b), page.0, page.1)
  }

  // Table b holds each stored page, rotated for it, and nothing else.
  ghost predicate TableOk(table: seq<Entry>, b: nat, stored: set<(Sim, URLKey)>)
    requires b < NEAR_BLOCKS
  {
    forall e :: e in table <==> (e.sim, e.key) in stored && e == EntryFor((e.sim, e.key), b)
  }

  ghost predicate LeadSorted(table: seq<Entry>) {
    forall i, j :: 0 <= i < j < |table| ==> Lead(table[i].rotated) <= Lead(table[j].rotated)
  }

  lemma SortedLeads(table: seq<Entry>)
    requires Sorted(table, ByRotated)
    ensures LeadSorted(table)
  {
    forall i, j | 0 <= i < j < |table|
      ensures Lead(table[i].rotated) <= Lead(table[j].rotated)
    {
      assert !ByRotated(table[j], table[i]);
      LeadMono(table[i].rotated, table[j].rotated);
    }
  }

  class NearDup {
    var tables: seq<seq<Entry>>
    var dirty: bool
    ghost var stored: set<(Sim, URLKey)>

    ghost predicate Valid()
      reads this
    {
      && |tables| == NEAR_BLOCKS
      && (forall b :: 0 <= b < NEAR_BLOCKS ==> TableOk(tables[b], b, stored))
      && (!dirty ==> forall b :: 0 <= b < NEAR_BLOCKS ==> LeadSorted(tables[b]))
    }

    constructor ()
      ensures Valid() && stored == {}
    {
      tables, dirty, stored := [[], [], [], []], false, {};
    }

    // Add
    method Add(sim: Sim, key: URLKey)
      requires Valid()
      modifies this
      ensures Valid() && stored == old(stored) + {(sim, key)}
    {
      hide RotateBlock, LeadSorted;
      var grown: seq<seq<Entry>> := [];
      for b := 0 to NEAR_BLOCKS
        invariant |grown| == b && tables == old(tables) && stored == old(stored)
        invariant forall c :: 0 <= c < b ==> TableOk(grown[c], c, stored + {(sim, key)})
      {
        AddEntry(tables[b], b, stored, sim, key);
        grown := grown + [tables[b] + [EntryFor((sim, key), b)]];
      }
      tables := grown;
      dirty := true;
      stored := stored + {(sim, key)};
    }

    // ensureSorted
    method EnsureSorted()
      requires Valid()
      modifies this
      ensures Valid() && !dirty && stored == old(stored)
    {
      hide RotateBlock, LeadSorted, Sorted, StrictWeak;
      if !dirty {
        return;
      }
      RotatedOrder();
      var sorted: seq<seq<Entry>> := [];
      for b := 0 to NEAR_BLOCKS
        invariant |sorted| == b && tables == old(tables) && stored == old(stored)
        invariant forall c :: 0 <= c < b ==> TableOk(sorted[c], c, stored) && LeadSorted(sorted[c])
      {
        var table := SortBy(tables[b], ByRotated);
        PermutationMembers(table, tables[b]);
        SortedLeads(table);
        assert TableOk(tables[b], b, stored);
        sorted := sorted + [table];
      }
      tables := sorted;
      dirty := false;
    }

    // Find: some stored page within Hamming distance three, if and only if there is one.
    method Find(sim: Sim) returns (r: Option<URLKey>)
      requires Valid()
      modifies this
      ensures Valid() && stored == old(stored)
      ensures r.Some? <==> exists p :: p in stored && Near(p.0, sim)
      ensures r.Some? ==> exists p :: p in stored && Near(p.0, sim) && p.1 == r.value
    {
      hide RotateBlock, LeadSorted, Near;
      EnsureSorted();
      for b := 0 to NEAR_BLOCKS
        invariant Valid() && !dirty && stored == old(stored)
        invariant forall c, p :: 0 <= c < b && p in stored && SameLead(p.0, sim, c) ==> !Near(p.0, sim)
      {
        r := Probe(tables[b], b, sim);
        if r.Some? {
          return;
        }
      }
      NoneNear(stored, sim);
      return None;
    }

    // One table: the entries whose leading block is the probe's, each Hamming-checked.
    method Probe(table: seq<Entry>, b: nat, sim: Sim) returns (r: Option<URLKey>)
      requires b < NEAR_BLOCKS && TableOk(table, b, stored) && LeadSorted(table)
      ensures r.Some? ==> exists p :: p in stored && Near(p.0, sim) && p.1 == r.value
      ensures r.None? ==> forall p :: p in stored && SameLead(p.0, sim, b) ==> !Near(p.0, sim)
    {
      hide RotateBlock, Near, Lead;
      var hi := Lead(RotateBlock(sim, b));
      var leads := seq(|table|, i requires 0 <= i < |table| => Lead(table[i].rotated));
      var i := SearchAtLeast(leads, hi);
      ghost var lo := i;
      assert forall j :: 0 <= j < |table| ==> leads[j] == Lead(table[j].rotated);
      while i < |table| && Lead(table[i].rotated) == hi
        invariant lo <= i <= |table|
        invariant forall j :: 0 <= j < lo ==> leads[j] < hi
        invariant forall j :: lo <= j < i ==> !Near(table[j].sim, sim)
      {
        if Near(table[i].sim, sim) {
          assert table[i] in table;
          assert (table[i].sim, table[i].key) in stored;
          return Some(table[i].key);
        }
        i := i + 1;
      }
      forall p | p in stored && SameLead(p.0, sim, b)
        ensures !Near(p.0, sim)
      {
        var e := EntryFor(p, b);
        assert e in table;
        var j :| 0 <= j < |table| && table[j] == e;
        PastRun(table, leads, lo, i, hi, j);
      }
      return None;
    }
  }

  ghost predicate SameLead(a: Sim, b: Sim, t: nat) {
    t < NEAR_BLOCKS && Lead(RotateBlock(a, t)) == Lead(RotateBlock(b, t))
  }

  lemma AddEntry(table: seq<Entry>, b: nat, stored: set<(Sim, URLKey)>, sim: Sim, key: URLKey)
    requires b < NEAR_BLOCKS && TableOk(table, b, stored)
    ensures TableOk(table + [EntryFor((sim, key), b)], b, stored + {(sim, key)})
  {
    hide RotateBlock;
  }

  // Past the run of equal leads every lead is larger.
  lemma PastRun(table: seq<Entry>, leads: seq<nat>, lo: nat, i: nat, hi: nat, j: nat)
    requires LeadSorted(table) && lo <= i <= |table| && j < |table| && Lead(table[j].rotated) == hi
    requires i < |table| ==> Lead(table[i].rotated) != hi
    requires |leads| == |table| && forall k :: 0 <= k < |table| ==> leads[k] == Lead(table[k].rotated)
    requires (forall k :: 0 <= k < lo ==> leads[k] < hi) && (forall k :: lo <= k < |leads| ==> leads[k] >= hi)
    ensures lo <= j < i
  {
    hide Lead;
    if i < |table| {
      assert leads[i] >= hi;
    }
  }

  // A page near sim shares the leading block of some table.
  lemma NoneNear(stored: set<(Sim, URLKey)>, sim: Sim)
    requires forall c, p :: 0 <= c < NEAR_BLOCKS && p in stored && SameLead(p.0, sim, c) ==> !Near(p.0, sim)
    ensures forall p :: p in stored ==> !Near(p.0, sim)
  {
    forall p | p in stored
      ensures !Near(p.0, sim)
    {
      NearShares(p.0, sim);
    }
  }

  lemma NearShares(a: Sim, b: Sim)
    ensures Near(a, b) ==> exists c :: 0 <= c < NEAR_BLOCKS && SameLead(a, b, c)
  {
    hide Near, BlockAt, SameLead;
    if Near(a, b) {
      var i := Pigeonhole(a, b);
      var c: nat := if i == 3 then 0 else i + 1;
      SameBlock(a, b, c, i);
    }
  }

  lemma SameBlock(a: Sim, b: Sim, c: nat, i: nat)
    requires c < NEAR_BLOCKS && i == (c + 3) % 4 && BlockAt(a, i) == BlockAt(b, i)
    ensures SameLead(a, b, c)
  {
    hide BlockAt, Lead, RotateBlock;
    LeadingBlock(a, c);
    LeadingBlock(b, c);
  }
}
