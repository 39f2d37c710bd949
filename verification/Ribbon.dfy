// Model of dedup/ribbon.go: the static ribbon filter. A key is hashed to a 64-slot band, and
// construction solves one XOR equation per key by incremental Gaussian elimination over GF(2)
// followed by back-substitution.
module Ribbon {
  import opened Wrappers
  import opened Bytes
  import opened BitOps
  import opened BitStream

  const RIBBON_WIDTH: nat := 64

  // One key's equation: the slots of the band selected by the bits of coeff XOR to fp.
  datatype Band = Band(start: nat, coeff: nat, fp: nat)

  // The slot value that one coefficient bit contributes. As in query, a selected slot past the
  // end of the table contributes nothing.
  function Pick(z: seq<nat>, i: nat, bit: nat): nat {
    if bit == 1 && i < |z| then z[i] else 0
  }

  // The left-hand side of an equation: bit k of w selects slot i + k.
  function Dot(z: seq<nat>, i: nat, w: nat): nat
    decreases w
  {
    if w == 0 then 0 else Xor(Pick(z, i, w % 2), Dot(z, i + 1, w / 2))
  }

  ghost predicate Answers(z: seq<nat>, b: Band) {
    Dot(z, b.start, b.coeff) == b.fp
  }

  ghost predicate AllAnswer(z: seq<nat>, bands: seq<Band>) {
    forall k :: 0 <= k < |bands| ==> Answers(z, bands[k])
  }

  // rows[i] is the equation pivoted at slot i, zero when the slot has no pivot.
  ghost predicate RowsHold(z: seq<nat>, rows: seq<nat>, rhs: seq<nat>)
    requires |rows| == |rhs|
  {
    forall i :: 0 <= i < |rows| && rows[i] != 0 ==> Dot(z, i, rows[i]) == rhs[i]
  }

  // Every pivot row has its pivot bit set, keeps its support inside the table, and carries an
  // r-bit right-hand side.
  ghost predicate Echelon(rows: seq<nat>, rhs: seq<nat>, rbits: nat)
    requires |rows| == |rhs|
  {
    && (forall i :: 0 <= i < |rows| && rows[i] != 0 ==> rows[i] % 2 == 1 && rows[i] < Pow2(|rows| - i))
    && (forall i :: 0 <= i < |rhs| ==> rhs[i] < Pow2(rbits))
  }

  // ---- Dot is linear ----

  lemma DotStep(z: seq<nat>, i: nat, w: nat)
    ensures Dot(z, i, w) == Xor(Pick(z, i, w % 2), Dot(z, i + 1, w / 2))
  {
  }

  lemma PickXor(z: seq<nat>, i: nat, a: nat, b: nat)
    requires a < 2 && b < 2
    ensures Pick(z, i, if a == b then 0 else 1) == Xor(Pick(z, i, a), Pick(z, i, b))
  {
    XorNone(Pick(z, i, 1));
    XorSelf(Pick(z, i, a));
  }

  lemma {:induction false} DotXor(z: seq<nat>, i: nat, a: nat, b: nat)
    ensures Dot(z, i, Xor(a, b)) == Xor(Dot(z, i, a), Dot(z, i, b))
    decreases a + b
  {
    if a != 0 || b != 0 {
      XorBit(a, b);
      DotStep(z, i, a);
      DotStep(z, i, b);
      DotStep(z, i, Xor(a, b));
      PickXor(z, i, a % 2, b % 2);
      DotXor(z, i + 1, a / 2, b / 2);
      XorSwap(Pick(z, i, a % 2), Dot(z, i + 1, a / 2), Pick(z, i, b % 2), Dot(z, i + 1, b / 2));
    }
  }

  lemma DotEven(z: seq<nat>, i: nat, w: nat)
    requires w % 2 == 0
    ensures Dot(z, i, w) == Dot(z, i + 1, w / 2)
  {
    XorNone(Dot(z, i + 1, w / 2));
  }

  // Shifting the trailing zeros out of a row moves its leading coefficient to its first slot.
  lemma {:induction false} ShiftOut(w: nat, n: nat)
    requires w != 0 && w < Pow2(n)
    ensures TrailingZeros(w) < n
    ensures Shr(w, TrailingZeros(w)) % 2 == 1
    ensures Shr(w, TrailingZeros(w)) < Pow2(n - TrailingZeros(w))
  {
    if w % 2 == 0 {
      ShiftOut(w / 2, n - 1);
    }
  }

  lemma {:induction false} DotShiftOut(z: seq<nat>, i: nat, w: nat)
    requires w != 0
    ensures Dot(z, i, w) == Dot(z, i + TrailingZeros(w), Shr(w, TrailingZeros(w)))
    decreases w
  {
    if w % 2 == 0 {
      DotEven(z, i, w);
      DotShiftOut(z, i + 1, w / 2);
    }
  }

  lemma {:induction false} DotClearLow(z: seq<nat>, i: nat, w: nat)
    requires w != 0
    ensures Dot(z, i, w) == Xor(Pick(z, i + TrailingZeros(w), 1), Dot(z, i, ClearLow(w)))
    decreases w
  {
    if w % 2 == 1 {
      DotEven(z, i, w - 1);
    } else {
      DotEven(z, i, w);
      DotEven(z, i, ClearLow(w));
      DotClearLow(z, i + 1, w / 2);
    }
  }

  // A row reads only the slots from its first one up.
  lemma {:induction false} DotFrame(z: seq<nat>, z': seq<nat>, i: nat, w: nat)
    requires |z| == |z'|
    requires forall p :: i <= p < |z| ==> z[p] == z'[p]
    ensures Dot(z, i, w) == Dot(z', i, w)
    decreases w
  {
    if w != 0 {
      DotFrame(z, z', i + 1, w / 2);
    }
  }

  // ---- construction ----

  // An equation (i, w, b) that is equivalent to the band's in every solution of the rows.
  ghost predicate Residue(m: nat, rows: seq<nat>, rhs: seq<nat>, i: nat, w: nat, b: nat, band: Band)
    requires |rows| == |rhs|
  {
    forall z: seq<nat> | |z| == m && RowsHold(z, rows, rhs) :: Dot(z, i, w) == b <==> Answers(z, band)
  }

  // The rows after a band is absorbed say what the rows before and the band say together.
  ghost predicate Absorbed(m: nat, rows: seq<nat>, rhs: seq<nat>, rows': seq<nat>, rhs': seq<nat>, band: Band)
    requires |rows| == |rhs| && |rows'| == |rhs'|
  {
    forall z: seq<nat> | |z| == m :: RowsHold(z, rows', rhs') <==> RowsHold(z, rows, rhs) && Answers(z, band)
  }

  ghost predicate Inconsistent(m: nat, rows: seq<nat>, rhs: seq<nat>, band: Band)
    requires |rows| == |rhs|
  {
    forall z: seq<nat> | |z| == m && RowsHold(z, rows, rhs) :: !Answers(z, band)
  }

  // One turn of solveRibbon's outer loop: reduce the band's equation by the rows it meets, and
  // file what is left at the first free pivot.
  method AbsorbKey(rows: array<nat>, rhs: array<nat>, band: Band, ghost rbits: nat) returns (ok: bool)
    requires rows != rhs && rows.Length == rhs.Length
    requires Echelon(rows[..], rhs[..], rbits)
    requires band.start <= rows.Length && band.coeff < Pow2(rows.Length - band.start) && band.fp < Pow2(rbits)
    modifies rows, rhs
    ensures Echelon(rows[..], rhs[..], rbits)
    ensures ok ==> Absorbed(rows.Length, old(rows[..]), old(rhs[..]), rows[..], rhs[..], band)
    ensures !ok ==> Inconsistent(rows.Length, old(rows[..]), old(rhs[..]), band)
  {
    var m := rows.Length;
    ghost var rs, bs := rows[..], rhs[..];
    var i: nat, cr: nat, b: nat := band.start, band.coeff, band.fp;
    while true
      invariant i <= m && cr < Pow2(m - i) && b < Pow2(rbits)
      invariant rows[..] == rs && rhs[..] == bs
      invariant Residue(m, rs, bs, i, cr, b, band)
      decreases m - i
    {
      if cr == 0 {
        ok := b == 0;
        return;
      }
      i, cr := ShiftToPivot(m, rs, bs, i, cr, b, band);
      if rows[i] == 0 {
        FileResidue(m, rs, bs, i, cr, b, band);
        FileEchelon(rs, bs, rbits, i, cr, b);
        rows[i] := cr;
        rhs[i] := b;
        assert rows[..] == rs[i := cr] && rhs[..] == bs[i := b];
        ok := true;
        return;
      }
      ReduceResidue(m, rs, bs, i, cr, b, band);
      XorBound(cr, rows[i], m - i);
      XorBound(b, rhs[i], rbits);
      cr, b := Xor(cr, rows[i]), Xor(b, rhs[i]);
      cr := cr / 2;
      i := i + 1;
    }
  }

  // Move an equation's leading coefficient to its first slot.
  method ShiftToPivot(ghost m: nat, ghost rows: seq<nat>, ghost rhs: seq<nat>,
                      i: nat, w: nat, ghost b: nat, ghost band: Band)
    returns (i': nat, w': nat)
    requires |rows| == |rhs| && i <= m && w != 0 && w < Pow2(m - i)
    requires Residue(m, rows, rhs, i, w, b, band)
    ensures i <= i' < m && w' % 2 == 1 && w' < Pow2(m - i')
    ensures Residue(m, rows, rhs, i', w', b, band)
  {
    var j := TrailingZeros(w);
    ShiftOut(w, m - i);
    ShiftResidue(m, rows, rhs, i, w, b, band);
    i', w' := i + j, Shr(w, j);
  }

  lemma FileEchelon(rows: seq<nat>, rhs: seq<nat>, rbits: nat, i: nat, w: nat, b: nat)
    requires |rows| == |rhs| && Echelon(rows, rhs, rbits)
    requires i < |rows| && w % 2 == 1 && w < Pow2(|rows| - i) && b < Pow2(rbits)
    ensures Echelon(rows[i := w], rhs[i := b], rbits)
  {
  }

  lemma ShiftResidue(m: nat, rows: seq<nat>, rhs: seq<nat>, i: nat, w: nat, b: nat, band: Band)
    requires |rows| == |rhs| && w != 0
    requires Residue(m, rows, rhs, i, w, b, band)
    ensures Residue(m, rows, rhs, i + TrailingZeros(w), Shr(w, TrailingZeros(w)), b, band)
  {
    forall z: seq<nat> | |z| == m && RowsHold(z, rows, rhs)
      ensures Dot(z, i + TrailingZeros(w), Shr(w, TrailingZeros(w))) == b <==> Answers(z, band)
    {
      DotShiftOut(z, i, w);
    }
  }

  // Adding a row that holds to both sides keeps the equation equivalent, and cancels its pivot.
  lemma ReduceResidue(m: nat, rows: seq<nat>, rhs: seq<nat>, i: nat, w: nat, b: nat, band: Band)
    requires |rows| == |rhs| && i < |rows| && rows[i] % 2 == 1 && w % 2 == 1
    requires Residue(m, rows, rhs, i, w, b, band)
    ensures Residue(m, rows, rhs, i + 1, Xor(w, rows[i]) / 2, Xor(b, rhs[i]), band)
  {
    forall z: seq<nat> | |z| == m && RowsHold(z, rows, rhs)
      ensures Dot(z, i + 1, Xor(w, rows[i]) / 2) == Xor(b, rhs[i]) <==> Answers(z, band)
    {
      XorBit(w, rows[i]);
      DotEven(z, i, Xor(w, rows[i]));
      DotXor(z, i, w, rows[i]);
      XorCancel(Dot(z, i, w), rhs[i]);
      XorCancel(b, rhs[i]);
    }
  }

  lemma FileResidue(m: nat, rows: seq<nat>, rhs: seq<nat>, i: nat, w: nat, b: nat, band: Band)
    requires |rows| == |rhs| && i < |rows| && rows[i] == 0 && w != 0
    requires Residue(m, rows, rhs, i, w, b, band)
    ensures Absorbed(m, rows, rhs, rows[i := w], rhs[i := b], band)
  {
    forall z: seq<nat> | |z| == m
      ensures RowsHold(z, rows[i := w], rhs[i := b]) <==> RowsHold(z, rows, rhs) && Answers(z, band)
    {
      var rows', rhs' := rows[i := w], rhs[i := b];
      if RowsHold(z, rows', rhs') {
        assert rows'[i] != 0 && Dot(z, i, rows'[i]) == rhs'[i];
        forall k | 0 <= k < |rows| && rows[k] != 0
          ensures Dot(z, k, rows[k]) == rhs[k]
        {
          assert rows'[k] != 0;
        }
      }
    }
  }

  // Fill the slots from the high end down: a slot is its pivot's right-hand side XOR the slots
  // its row still references. A slot without a pivot stays zero.
  method BackSubstitute(rows: array<nat>, rhs: array<nat>, ghost rbits: nat) returns (z: array<nat>)
    requires rows.Length == rhs.Length && Echelon(rows[..], rhs[..], rbits)
    ensures fresh(z) && z.Length == rows.Length
    ensures RowsHold(z[..], rows[..], rhs[..])
    ensures forall i :: 0 <= i < z.Length ==> z[i] < Pow2(rbits)
  {
    var m := rows.Length;
    z := new nat[m](_ => 0);
    var i := m;
    while i > 0
      invariant 0 <= i <= m
      invariant forall k :: 0 <= k < m ==> z[k] < Pow2(rbits)
      invariant HoldFrom(z[..], rows[..], rhs[..], i)
    {
      i := i - 1;
      if rows[i] != 0 {
        ghost var before := z[..];
        var v := RowValue(z, i, rows[i], rhs[i], rbits);
        z[i] := v;
        assert z[..] == before[i := v];
        PivotSlot(before, i, rows[i], rhs[i], v);
        HoldDown(before, rows[..], rhs[..], i, v);
      }
    }
  }

  // Adding the slot of the lowest coefficient and clearing the coefficient leaves the sum as it was.
  lemma AddSlot(z: seq<nat>, i: nat, mask: nat, v: nat, rbits: nat)
    requires mask != 0
    ensures
      var p := i + TrailingZeros(mask);
      var v' := if p < |z| then Xor(v, z[p]) else v;
      && Xor(v', Dot(z, i, ClearLow(mask))) == Xor(v, Dot(z, i, mask))
      && (v < Pow2(rbits) && (p < |z| ==> z[p] < Pow2(rbits)) ==> v' < Pow2(rbits))
  {
    var p := i + TrailingZeros(mask);
    DotClearLow(z, i, mask);
    XorAssoc(v, Pick(z, p, 1), Dot(z, i, ClearLow(mask)));
    XorNone(v);
    if p < |z| && v < Pow2(rbits) && z[p] < Pow2(rbits) {
      XorBound(v, z[p], rbits);
    }
  }

  // The value a pivot slot needs for its row to hold, given the slots above it.
  method RowValue(z: array<nat>, i: nat, row: nat, rhs: nat, ghost rbits: nat) returns (v: nat)
    requires row % 2 == 1 && rhs < Pow2(rbits)
    requires forall k :: 0 <= k < z.Length ==> z[k] < Pow2(rbits)
    ensures v == Xor(rhs, Dot(z[..], i, row - 1)) && v < Pow2(rbits)
  {
    v := rhs;
    var mask: nat := row - row % 2;
    while mask != 0
      invariant v < Pow2(rbits)
      invariant Xor(v, Dot(z[..], i, mask)) == Xor(rhs, Dot(z[..], i, row - 1))
      decreases mask
    {
      var p := i + TrailingZeros(mask);
      AddSlot(z[..], i, mask, v, rbits);
      if p < z.Length {
        v := Xor(v, z[p]);
      }
      mask := ClearLow(mask);
    }
    XorNone(v);
  }

  ghost predicate HoldFrom(z: seq<nat>, rows: seq<nat>, rhs: seq<nat>, i: nat)
    requires |rows| == |rhs|
  {
    forall k :: i <= k < |rows| && rows[k] != 0 ==> Dot(z, k, rows[k]) == rhs[k]
  }

  // Setting the pivot slot to what the rest of the row leaves over satisfies the row.
  lemma PivotSlot(z: seq<nat>, i: nat, row: nat, rhs: nat, v: nat)
    requires i < |z| && row % 2 == 1
    requires v == Xor(rhs, Dot(z, i, row - 1))
    ensures Dot(z[i := v], i, row) == rhs
  {
    var z' := z[i := v];
    DotEven(z, i, row - 1);
    DotFrame(z, z', i + 1, row / 2);
    XorCancel(rhs, Dot(z, i, row - 1));
  }

  // Rows above the pivot do not read its slot.
  lemma HoldDown(z: seq<nat>, rows: seq<nat>, rhs: seq<nat>, i: nat, v: nat)
    requires |rows| == |rhs| == |z| && i < |z|
    requires HoldFrom(z, rows, rhs, i + 1)
    requires rows[i] != 0 ==> Dot(z[i := v], i, rows[i]) == rhs[i]
    ensures HoldFrom(z[i := v], rows, rhs, i)
  {
    forall k | i < k < |rows| && rows[k] != 0
      ensures Dot(z[i := v], k, rows[k]) == rhs[k]
    {
      DotFrame(z, z[i := v], k, rows[k]);
    }
  }

  // ---- hashing a key to its band ----

  // The hash functions, left arbitrary: ribbonHash gives two 64-bit words for a key and a seed,
  // mix (ribbonMix) one for a word.
  datatype Hasher<!K> = Hasher(hash: (K, nat) -> (uint64, uint64), mix: nat -> uint64)
  {
    // ribbonDerive: the start slot, the coefficient row with its low bit forced on, and the top
    // rbits bits of a mixed word as the fingerprint.
    function Derive(key: K, seed: nat, m: nat, rbits: nat): (b: Band)
      requires m >= RIBBON_WIDTH && 1 <= rbits <= 16
    {
      var (a, b) := hash(key, seed);
      Band(a % (m - RIBBON_WIDTH + 1), if b % 2 == 0 then b + 1 else b, Shr(mix(Xor(a, 2 * b % TWO_64)), 64 - rbits))
    }
  }

  lemma DeriveBounds<K>(h: Hasher<K>, key: K, seed: nat, m: nat, rbits: nat)
    requires m >= RIBBON_WIDTH && 1 <= rbits <= 16
    ensures
      var b := h.Derive(key, seed, m, rbits);
      b.start <= m && b.coeff < Pow2(m - b.start) && b.fp < Pow2(rbits)
  {
    var (a, b) := h.hash(key, seed);
    var band := h.Derive(key, seed, m, rbits);
    Pow2At64();
    Pow2Mono(64, m - band.start);
    ShrBound(h.mix(Xor(a, 2 * b % TWO_64)), 64 - rbits, rbits);
  }

  function Bands<K>(h: Hasher<K>, keys: seq<K>, seed: nat, m: nat, rbits: nat): (bands: seq<Band>)
    requires m >= RIBBON_WIDTH && 1 <= rbits <= 16
    ensures |bands| == |keys|
    ensures forall k :: 0 <= k < |keys| ==> bands[k] == h.Derive(keys[k], seed, m, rbits)
  {
    seq(|keys|, k requires 0 <= k < |keys| => h.Derive(keys[k], seed, m, rbits))
  }

  // Some assignment of the m slots answers every key.
  ghost predicate Solvable(bands: seq<Band>, m: nat) {
    exists z: seq<nat> :: |z| == m && AllAnswer(z, bands)
  }

  // The pivot rows say exactly what the first k bands say.
  ghost predicate Summarizes(m: nat, rows: seq<nat>, rhs: seq<nat>, bands: seq<Band>)
    requires |rows| == |rhs|
  {
    forall z: seq<nat> | |z| == m :: RowsHold(z, rows, rhs) <==> AllAnswer(z, bands)
  }

  // solveRibbon. It succeeds exactly when the system has a solution, and what it returns is one.
  method SolveRibbon<K>(h: Hasher<K>, keys: seq<K>, rbits: nat, seed: nat, m: nat) returns (z: seq<nat>, ok: bool)
    requires m >= RIBBON_WIDTH && 1 <= rbits <= 16
    ensures ok <==> Solvable(Bands(h, keys, seed, m, rbits), m)
    ensures ok ==> |z| == m && Fit(z, rbits) && AllAnswer(z, Bands(h, keys, seed, m, rbits))
  {
    var rows := new nat[m](_ => 0);
    var rhs := new nat[m](_ => 0);
    ghost var bands := Bands(h, keys, seed, m, rbits);
    ok := Eliminate(h, keys, rbits, seed, rows, rhs);
    if !ok {
      return [], false;
    }
    var slots := BackSubstitute(rows, rhs, rbits);
    z := slots[..];
    Solved(m, rows[..], rhs[..], bands, z);
  }

  // Absorb every key into empty rows.
  method Eliminate<K>(h: Hasher<K>, keys: seq<K>, rbits: nat, seed: nat, rows: array<nat>, rhs: array<nat>) returns (ok: bool)
    requires rows != rhs && rows.Length == rhs.Length >= RIBBON_WIDTH && 1 <= rbits <= 16
    requires forall i :: 0 <= i < rows.Length ==> rows[i] == 0 && rhs[i] == 0
    modifies rows, rhs
    ensures !ok ==> !Solvable(Bands(h, keys, seed, rows.Length, rbits), rows.Length)
    ensures ok ==> Echelon(rows[..], rhs[..], rbits)
    ensures ok ==> Summarizes(rows.Length, rows[..], rhs[..], Bands(h, keys, seed, rows.Length, rbits)[..|keys|])
  {
    hide Summarizes, Echelon, Inconsistent, Solvable, Hasher.Derive;
    var m := rows.Length;
    ghost var bands := Bands(h, keys, seed, m, rbits);
    NoRows(rows[..], rhs[..], rbits, bands);
    for k := 0 to |keys|
      invariant Echelon(rows[..], rhs[..], rbits)
      invariant Summarizes(m, rows[..], rhs[..], bands[..k])
    {
      var band := h.Derive(keys[k], seed, m, rbits);
      DeriveBounds(h, keys[k], seed, m, rbits);
      ghost var rs, bs := rows[..], rhs[..];
      ok := AbsorbKey(rows, rhs, band, rbits);
      if !ok {
        NoSolution(m, rs, bs, bands, k);
        return;
      }
      SummarizeNext(m, rs, bs, rows[..], rhs[..], bands, k);
    }
    ok := true;
  }

  // Before any key, no slot has a pivot and every assignment will do.
  lemma NoRows(rows: seq<nat>, rhs: seq<nat>, rbits: nat, bands: seq<Band>)
    requires |rows| == |rhs|
    requires forall i :: 0 <= i < |rows| ==> rows[i] == 0 && rhs[i] == 0
    ensures Echelon(rows, rhs, rbits) && Summarizes(|rows|, rows, rhs, bands[..0])
  {
  }

  lemma Solved(m: nat, rows: seq<nat>, rhs: seq<nat>, bands: seq<Band>, z: seq<nat>)
    requires |rows| == |rhs| && |z| == m && RowsHold(z, rows, rhs)
    requires Summarizes(m, rows, rhs, bands[..|bands|])
    ensures AllAnswer(z, bands) && Solvable(bands, m)
  {
    assert bands[..|bands|] == bands;
  }

  lemma NoSolution(m: nat, rows: seq<nat>, rhs: seq<nat>, bands: seq<Band>, k: nat)
    requires |rows| == |rhs| && k < |bands|
    requires Summarizes(m, rows, rhs, bands[..k]) && Inconsistent(m, rows, rhs, bands[k])
    ensures !Solvable(bands, m)
  {
    forall z: seq<nat> | |z| == m
      ensures !AllAnswer(z, bands)
    {
      AllAnswerAt(z, bands, k);
    }
  }

  lemma AllAnswerAt(z: seq<nat>, bands: seq<Band>, k: nat)
    requires k < |bands|
    ensures AllAnswer(z, bands) ==> AllAnswer(z, bands[..k]) && Answers(z, bands[k])
  {
  }

  lemma SummarizeNext(m: nat, rows: seq<nat>, rhs: seq<nat>, rows': seq<nat>, rhs': seq<nat>, bands: seq<Band>, k: nat)
    requires |rows| == |rhs| && |rows'| == |rhs'| && k < |bands|
    requires Summarizes(m, rows, rhs, bands[..k]) && Absorbed(m, rows, rhs, rows', rhs', bands[k])
    ensures Summarizes(m, rows', rhs', bands[..k + 1])
  {
    assert bands[..k + 1] == bands[..k] + [bands[k]];
    forall z: seq<nat> | |z| == m
      ensures RowsHold(z, rows', rhs') <==> AllAnswer(z, bands[..k + 1])
    {
      assert RowsHold(z, rows', rhs') <==> AllAnswer(z, bands[..k]) && Answers(z, bands[k]);
      if AllAnswer(z, bands[..k + 1]) {
        assert forall j :: 0 <= j < k ==> bands[..k + 1][j] == bands[..k][j];
      }
    }
  }

  // ---- the filter ----

  datatype Filter = Filter(z: seq<nat>, m: nat, rbits: nat, seed: nat, n: nat)
  {
    // query: XOR the slots of the key's band and compare with its fingerprint.
    method Query<K>(h: Hasher<K>, key: K) returns (found: bool)
      requires 1 <= rbits <= 16 && m >= RIBBON_WIDTH && |z| == m
      ensures found <==> Answers(z, h.Derive(key, seed, m, rbits))
    {
      var band := h.Derive(key, seed, m, rbits);
      var v: nat := 0;
      var mask := band.coeff;
      XorNone(Dot(z, band.start, mask));
      while mask != 0
        invariant Xor(v, Dot(z, band.start, mask)) == Dot(z, band.start, band.coeff)
        decreases mask
      {
        var p := band.start + TrailingZeros(mask);
        AddSlot(z, band.start, mask, v, 0);
        if p < m {
          v := Xor(v, z[p]);
        }
        mask := ClearLow(mask);
      }
      XorNone(v);
      found := v == band.fp;
    }
  }

  ghost predicate WellFormed(f: Filter) {
    && 1 <= f.rbits <= 16 && f.m >= RIBBON_WIDTH && |f.z| == f.m && Fit(f.z, f.rbits)
    && f.seed < TWO_32 && f.n < TWO_64 && f.m < TWO_64 / 2
  }

  const MAX_SEEDS: nat := 64
  const MAX_GROWS: nat := 4

  // The table size of growth step g: ceil(n / 0.9) slots, at least two bands, then about 5% more
  // at each step.
  function TableSize(n: nat, g: nat): (m: nat)
    ensures m >= 2 * RIBBON_WIDTH
  {
    if g == 0 then
      var m := (10 * n + 8) / 9;
      if m < 2 * RIBBON_WIDTH then 2 * RIBBON_WIDTH else m
    else
      var m := TableSize(n, g - 1);
      m + m / 20 + RIBBON_WIDTH
  }

  // buildRibbon: every seed at every table size is tried until one solves. A built filter answers
  // yes for each of its keys, whatever the hashes; the build fails only when no attempt can work.
  method BuildRibbon<K>(h: Hasher<K>, keys: seq<K>, rbits: nat) returns (r: Option<Filter>)
    requires 1 <= rbits <= 16
    ensures r.Some? ==>
      var f := r.value;
      && f.m >= RIBBON_WIDTH && |f.z| == f.m && Fit(f.z, rbits) && f.rbits == rbits && f.n == |keys| && f.seed < MAX_SEEDS
      && (exists g :: 0 <= g < MAX_GROWS && f.m == TableSize(|keys|, g))
      && forall k :: 0 <= k < |keys| ==> Answers(f.z, h.Derive(keys[k], f.seed, f.m, rbits))
    ensures r.None? <==> forall g, seed :: 0 <= g < MAX_GROWS && 0 <= seed < MAX_SEEDS ==>
      !Solvable(Bands(h, keys, seed, TableSize(|keys|, g), rbits), TableSize(|keys|, g))
  {
    var m := TableSize(|keys|, 0);
    for g := 0 to MAX_GROWS
      invariant m == TableSize(|keys|, g)
      invariant forall g', seed :: 0 <= g' < g && 0 <= seed < MAX_SEEDS ==>
        !Solvable(Bands(h, keys, seed, TableSize(|keys|, g'), rbits), TableSize(|keys|, g'))
    {
      for seed := 0 to MAX_SEEDS
        invariant forall s :: 0 <= s < seed ==>
          !Solvable(Bands(h, keys, s, TableSize(|keys|, g), rbits), TableSize(|keys|, g))
      {
        var z, ok := SolveRibbon(h, keys, rbits, seed, m);
        if ok {
          var bands := Bands(h, keys, seed, m, rbits);
          assert forall k :: 0 <= k < |keys| ==> Answers(z, bands[k]);
          return Some(Filter(z, m, rbits, seed, |keys|));
        }
      }
      m := m + m / 20 + RIBBON_WIDTH;
    }
    return None;
  }

  // ---- the kind-1 filter blob ----

  const HEADER_SIZE: nat := 24
  const FILTER_BLOB_VERSION: byte := 1
  const FILTER_KIND_RIBBON: byte := 1

  function Header(f: Filter): (b: bytes)
    requires f.rbits <= 16
    ensures |b| == HEADER_SIZE
  {
    [FILTER_BLOB_VERSION, FILTER_KIND_RIBBON, f.rbits, 0] +
    LittleEndian(f.seed, 4) + LittleEndian(f.n, 8) + LittleEndian(f.m, 8)
  }

  // b is the serialized form of f.
  ghost predicate Image(f: Filter, b: bytes) {
    && WellFormed(f)
    && |b| == HEADER_SIZE + PackedBytes(f.m, f.rbits)
    && b[..HEADER_SIZE] == Header(f)
    && Holds(b[HEADER_SIZE..], Packed(f.z, f.rbits))
  }

  method Marshal(f: Filter) returns (b: bytes)
    requires WellFormed(f)
    ensures Image(f, b)
  {
    var body := PackBits(f.z, f.rbits);
    b := Header(f) + body;
    assert b[HEADER_SIZE..] == body;
  }

  // unmarshalRibbon: malformed headers and lengths are refused, and every serialized filter comes
  // back as it was.
  method Unmarshal(b: bytes) returns (r: Option<Filter>)
    ensures forall f :: Image(f, b) ==> r == Some(f)
    ensures r.Some? ==> r.value.m >= RIBBON_WIDTH && 1 <= r.value.rbits <= 16 && |r.value.z| == r.value.m
    ensures r.Some? ==> |b| == HEADER_SIZE + PackedBytes(r.value.m, r.value.rbits)
  {
    if |b| < HEADER_SIZE {
      return None;
    }
    var rbits: nat := b[2];
    var seed, n, m := FromLittleEndian(b[4..8]), FromLittleEndian(b[8..16]), FromLittleEndian(b[16..24]);
    forall f | Image(f, b)
      ensures f.rbits == rbits && f.seed == seed && f.n == n && f.m == m
    {
      HeaderFields(f, b);
    }
    if rbits == 0 || rbits > 16 {
      return None;
    }
    if m >= TWO_64 / 2 || m < RIBBON_WIDTH {
      return None;
    }
    var body := b[HEADER_SIZE..];
    if |body| != PackedBytes(m, rbits) {
      return None;
    }
    var z := UnpackBits(body, m, rbits);
    r := Some(Filter(z, m, rbits, seed, n));
    forall f | Image(f, b)
      ensures r == Some(f)
    {
      UnpackInverse(f.z, z, rbits, body);
    }
  }

  lemma HeaderSlices(f: Filter)
    requires f.rbits <= 16
    ensures
      var h := Header(f);
      && h[2] == f.rbits && h[4..8] == LittleEndian(f.seed, 4)
      && h[8..16] == LittleEndian(f.n, 8) && h[16..24] == LittleEndian(f.m, 8)
  {
    FourParts([FILTER_BLOB_VERSION, FILTER_KIND_RIBBON, f.rbits, 0],
              LittleEndian(f.seed, 4), LittleEndian(f.n, 8), LittleEndian(f.m, 8));
  }

  lemma FourParts(p: bytes, a: bytes, b: bytes, c: bytes)
    requires |p| == 4 && |a| == 4 && |b| == 8 && |c| == 8
    ensures
      var h := p + a + b + c;
      h[..4] == p && h[4..8] == a && h[8..16] == b && h[16..24] == c
  {
  }

  lemma HeaderFields(f: Filter, b: bytes)
    requires Image(f, b)
    ensures b[2] == f.rbits && FromLittleEndian(b[4..8]) == f.seed
    ensures FromLittleEndian(b[8..16]) == f.n && FromLittleEndian(b[16..24]) == f.m
  {
    HeaderSlices(f);
    assert b[..HEADER_SIZE][4..8] == b[4..8] && b[..HEADER_SIZE][8..16] == b[8..16] && b[..HEADER_SIZE][16..24] == b[16..24];
    assert b[2] == b[..HEADER_SIZE][2];
    Pow256Words();
    LittleEndianRoundTrip(f.seed, 4);
    LittleEndianRoundTrip(f.n, 8);
    LittleEndianRoundTrip(f.m, 8);
  }

  lemma {:induction false} TableSizeMono(n: nat, g: nat, g': nat)
    requires g <= g'
    ensures TableSize(n, g) <= TableSize(n, g')
    decreases g'
  {
    if g < g' {
      TableSizeMono(n, g, g' - 1);
    }
  }

  // The filter was built from these keys and answers yes for each.
  ghost predicate HoldsKeys<K>(f: Filter, h: Hasher<K>, keys: seq<K>) {
    && WellFormed(f) && f.n == |keys|
    && forall k :: 0 <= k < |keys| ==> Answers(f.z, h.Derive(keys[k], f.seed, f.m, f.rbits))
  }

  // BuildRibbonFilter: the blob of a filter that answers yes for every key it was built from.
  method BuildRibbonFilter<K>(h: Hasher<K>, keys: seq<K>, rbits: nat) returns (b: Option<bytes>)
    requires 1 <= rbits <= 16
    requires TableSize(|keys|, MAX_GROWS) < TWO_64 / 2
    ensures b.Some? ==> exists f :: Image(f, b.value) && HoldsKeys(f, h, keys)
  {
    var r := BuildRibbon(h, keys, rbits);
    if r.None? {
      return None;
    }
    var g :| 0 <= g < MAX_GROWS && r.value.m == TableSize(|keys|, g);
    TableSizeMono(|keys|, g, MAX_GROWS);
    TableSizeMono(|keys|, 0, MAX_GROWS);
    var blob := Marshal(r.value);
    assert HoldsKeys(r.value, h, keys);
    b := Some(blob);
  }

  // The life of a frozen filter: build it, ship the blob, read it back and ask. No key it was built
  // from is ever missed, whatever the hashes.
  method NeverMisses<K>(h: Hasher<K>, keys: seq<K>, rbits: nat, k: nat) returns (built: bool, found: bool)
    requires 1 <= rbits <= 16 && k < |keys|
    requires TableSize(|keys|, MAX_GROWS) < TWO_64 / 2
    ensures built ==> found
  {
    hide Image, Answers, Hasher.Derive;
    var b := BuildRibbonFilter(h, keys, rbits);
    if b.None? {
      return false, false;
    }
    ghost var f :| Image(f, b.value) && HoldsKeys(f, h, keys);
    var r := Unmarshal(b.value);
    found := r.value.Query(h, keys[k]);
    return true, found;
  }
}
