// Model of format/fsst.go: a table of up to 255 short symbols, greedy longest-match coding with an
// escape for uncovered bytes, and the arena of independently coded strings.
module Fsst {
  import opened Wrappers
  import opened Bytes
  import opened Arena
  import opened Sorting

  const MAX_SYMBOLS: nat := 255
  const MAX_LEN: nat := 8
  const ESCAPE: byte := 255
  const ROUNDS: nat := 8

  ghost predicate IsSymbol(s: bytes) {
    1 <= |s| <= MAX_LEN
  }

  ghost predicate IsTable(syms: seq<bytes>) {
    |syms| <= MAX_SYMBOLS && forall i :: 0 <= i < |syms| ==> IsSymbol(syms[i])
  }

  // ---- what a code stream means ----

  function Expand(syms: seq<bytes>, code: bytes): bytes {
    if code == [] then []
    else if code[0] == ESCAPE then
      if |code| == 1 then [] else [code[1]] + Expand(syms, code[2..])
    else Symbol(syms, code[0]) + Expand(syms, code[1..])
  }

  function Symbol(syms: seq<bytes>, c: byte): bytes {
    if c < |syms| then syms[c] else []
  }

  // The stream does not end inside an escape.
  predicate Whole(code: bytes) {
    if code == [] then true
    else if code[0] == ESCAPE then |code| > 1 && Whole(code[2..])
    else Whole(code[1..])
  }

  lemma {:induction false} ExpandConcat(syms: seq<bytes>, a: bytes, b: bytes)
    requires Whole(a)
    ensures Expand(syms, a + b) == Expand(syms, a) + Expand(syms, b)
    ensures Whole(b) ==> Whole(a + b)
    decreases |a|
  {
    if a == [] {
      assert a + b == b;
    } else if a[0] == ESCAPE {
      ExpandConcat(syms, a[2..], b);
      assert (a + b)[2..] == a[2..] + b;
    } else {
      ExpandConcat(syms, a[1..], b);
      assert (a + b)[1..] == a[1..] + b;
    }
  }

  // decode
  method Decode(syms: seq<bytes>, code: bytes) returns (out: bytes)
    ensures out == Expand(syms, code)
  {
    out := [];
    var i: nat := 0;
    while i < |code|
      invariant i <= |code| && out + Expand(syms, code[i..]) == Expand(syms, code)
    {
      var c := code[i];
      ghost var rest := code[i..];
      ghost var was := out;
      i := i + 1;
      if c == ESCAPE {
        if i < |code| {
          assert rest[2..] == code[i + 1..];
          out := out + [code[i]];
          i := i + 1;
          assert out + Expand(syms, code[i..]) == was + ([rest[1]] + Expand(syms, rest[2..]));
        }
      } else {
        assert rest[1..] == code[i..];
        out := out + Symbol(syms, c);
        assert out + Expand(syms, code[i..]) == was + (Symbol(syms, c) + Expand(syms, rest[1..]));
      }
    }
  }

  // ---- the encode index ----

  ghost predicate IsPrefixAt(sym: bytes, s: bytes, i: nat)
    requires i <= |s|
  {
    i + |sym| <= |s| && s[i..i + |sym|] == sym
  }

  // Bucket b lists the symbols that begin with byte b, longest first.
  ghost predicate BucketOk(syms: seq<bytes>, bucket: seq<nat>, b: nat) {
    && (forall k :: 0 <= k < |bucket| ==> bucket[k] < |syms|)
    && (forall j: nat :: j in bucket <==> j < |syms| && syms[j] != [] && syms[j][0] == b)
    && (forall k, l :: 0 <= k < l < |bucket| ==> |syms[bucket[k]]| >= |syms[bucket[l]]|)
  }

  ghost predicate IndexOk(syms: seq<bytes>, byFirst: seq<seq<nat>>) {
    |byFirst| == 256 && forall b :: 0 <= b < 256 ==> BucketOk(syms, byFirst[b], b)
  }

  function LengthOf(syms: seq<bytes>, j: nat): nat {
    if j < |syms| then |syms[j]| else 0
  }

  // The bucket, longest symbol first.
  method SortByLength(syms: seq<bytes>, bucket: seq<nat>) returns (out: seq<nat>)
    requires forall k :: 0 <= k < |bucket| ==> bucket[k] < |syms|
    ensures forall j :: j in out <==> j in bucket
    ensures forall k :: 0 <= k < |out| ==> out[k] < |syms|
    ensures forall k, l :: 0 <= k < l < |out| ==> |syms[out[k]]| >= |syms[out[l]]|
  {
    var longer := (x: nat, y: nat) => LengthOf(syms, x) > LengthOf(syms, y);
    out := SortBy(bucket, longer);
    PermutationMembers(out, bucket);
    assert forall k :: 0 <= k < |out| ==> out[k] in out;
    forall k, l | 0 <= k < l < |out|
      ensures |syms[out[k]]| >= |syms[out[l]]|
    {
      assert !longer(out[l], out[k]);
    }
  }

  // buildIndex
  method BuildIndex(syms: seq<bytes>) returns (byFirst: seq<seq<nat>>)
    requires IsTable(syms)
    ensures IndexOk(syms, byFirst)
  {
    byFirst := seq(256, _ => []);
    for i := 0 to |syms|
      invariant |byFirst| == 256
      invariant forall b :: 0 <= b < 256 ==> Grouped(syms, byFirst[b], b, i)
    {
      assert IsSymbol(syms[i]);
      var b := syms[i][0];
      byFirst := byFirst[b := byFirst[b] + [i]];
    }
    var sorted: seq<seq<nat>> := [];
    for b := 0 to 256
      invariant |sorted| == b && forall c :: 0 <= c < b ==> BucketOk(syms, sorted[c], c)
    {
      assert Grouped(syms, byFirst[b], b, |syms|);
      var bucket := SortByLength(syms, byFirst[b]);
      sorted := sorted + [bucket];
    }
    return sorted;
  }

  ghost predicate Grouped(syms: seq<bytes>, bucket: seq<nat>, b: nat, i: nat) {
    && i <= |syms|
    && (forall k :: 0 <= k < |bucket| ==> bucket[k] < i)
    && (forall j: nat :: j in bucket <==> j < i && syms[j] != [] && syms[j][0] == b)
  }

  // match: the longest symbol that is a prefix of s[i..], or -1 when there is none.
  method Match(syms: seq<bytes>, byFirst: seq<seq<nat>>, s: bytes, i: nat) returns (idx: int, n: nat)
    requires IsTable(syms) && IndexOk(syms, byFirst) && i < |s|
    ensures -1 <= idx < |syms|
    ensures idx >= 0 ==> n == |syms[idx]| && IsPrefixAt(syms[idx], s, i)
    ensures idx >= 0 ==> forall j :: 0 <= j < |syms| && IsPrefixAt(syms[j], s, i) ==> |syms[j]| <= n
    ensures idx < 0 ==> forall j :: 0 <= j < |syms| ==> !IsPrefixAt(syms[j], s, i)
  {
    var bucket := byFirst[s[i]];
    assert BucketOk(syms, bucket, s[i]);
    for k := 0 to |bucket|
      invariant forall l :: 0 <= l < k ==> !IsPrefixAt(syms[bucket[l]], s, i)
    {
      var sym := syms[bucket[k]];
      if i + |sym| <= |s| && s[i..i + |sym|] == sym {
        forall j | 0 <= j < |syms| && IsPrefixAt(syms[j], s, i)
          ensures |syms[j]| <= |sym|
        {
          InItsBucket(syms, bucket, s, i, j);
          var l :| 0 <= l < |bucket| && bucket[l] == j;
          assert l >= k;
        }
        return bucket[k], |sym|;
      }
    }
    forall j | 0 <= j < |syms|
      ensures !IsPrefixAt(syms[j], s, i)
    {
      if IsPrefixAt(syms[j], s, i) {
        InItsBucket(syms, bucket, s, i, j);
      }
    }
    return -1, 0;
  }

  lemma InItsBucket(syms: seq<bytes>, bucket: seq<nat>, s: bytes, i: nat, j: nat)
    requires IsTable(syms) && i < |s| && BucketOk(syms, bucket, s[i]) && j < |syms| && IsPrefixAt(syms[j], s, i)
    ensures j in bucket
  {
    assert IsSymbol(syms[j]);
    assert syms[j][0] == s[i..i + |syms[j]|][0];
  }

  // encode: decoding the code gives the string back, whatever the table.
  method Encode(syms: seq<bytes>, byFirst: seq<seq<nat>>, s: bytes) returns (out: bytes)
    requires IsTable(syms) && IndexOk(syms, byFirst)
    ensures Expand(syms, out) == s && |out| <= 2 * |s|
  {
    hide Expand, Whole, IndexOk;
    out := [];
    var i: nat := 0;
    NothingCoded(syms);
    while i < |s|
      invariant i <= |s| && Whole(out) && Expand(syms, out) == s[..i] && |out| <= 2 * i
    {
      var idx, n := Match(syms, byFirst, s, i);
      if idx < 0 {
        EscapeMeans(syms, s[i]);
        ExpandConcat(syms, out, [ESCAPE, s[i]]);
        assert s[..i + 1] == s[..i] + [s[i]];
        out := out + [ESCAPE, s[i]];
        i := i + 1;
      } else {
        assert IsSymbol(syms[idx]);
        CodeMeans(syms, idx);
        ExpandConcat(syms, out, [idx]);
        assert s[..i + n] == s[..i] + s[i..i + n];
        out := out + [idx];
        i := i + n;
      }
    }
    assert s[..|s|] == s;
  }

  lemma NothingCoded(syms: seq<bytes>)
    ensures Expand(syms, []) == [] && Whole([])
  {
  }

  lemma EscapeMeans(syms: seq<bytes>, b: byte)
    ensures Expand(syms, [ESCAPE, b]) == [b] && Whole([ESCAPE, b])
  {
    var code: bytes := [ESCAPE, b];
    assert code[2..] == [];
    assert Expand(syms, code) == [b] + Expand(syms, code[2..]);
  }

  lemma CodeMeans(syms: seq<bytes>, idx: nat)
    requires idx < |syms| <= MAX_SYMBOLS
    ensures Expand(syms, [idx]) == syms[idx] && Whole([idx])
  {
    var code: bytes := [idx];
    assert code[1..] == [];
    assert Expand(syms, code) == syms[idx] + Expand(syms, code[1..]);
  }

  // ---- the table's own bytes ----

  function TableBytes(syms: seq<bytes>): bytes
    requires forall i :: 0 <= i < |syms| ==> |syms[i]| < 256
  {
    if syms == [] then [] else [|syms[0]|] + (syms[0] + TableBytes(syms[1..]))
  }

  function EncodedTable(syms: seq<bytes>): bytes
    requires forall i :: 0 <= i < |syms| ==> |syms[i]| < 256
  {
    Uvarint(|syms|) + TableBytes(syms)
  }

  lemma {:induction false} TableSnoc(syms: seq<bytes>, s: bytes)
    requires |s| < 256 && forall i :: 0 <= i < |syms| ==> |syms[i]| < 256
    ensures TableBytes(syms + [s]) == TableBytes(syms) + ([|s|] + s)
  {
    if syms == [] {
      assert [s][1..] == [];
      assert TableBytes([s]) == [|s|] + (s + TableBytes([s][1..]));
      assert s + [] == s;
    } else {
      TableSnoc(syms[1..], s);
      var rest := TableBytes(syms[1..]);
      assert (syms + [s])[1..] == syms[1..] + [s];
      assert TableBytes(syms + [s]) == [|syms[0]|] + (syms[0] + TableBytes((syms + [s])[1..]));
      assert TableBytes(syms) == [|syms[0]|] + (syms[0] + rest);
      hide TableBytes;
      assert [|syms[0]|] + (syms[0] + (rest + ([|s|] + s))) == [|syms[0]|] + (syms[0] + rest) + ([|s|] + s);
    }
  }

  method EncodeTable(syms: seq<bytes>) returns (out: bytes)
    requires IsTable(syms)
    ensures (forall i :: 0 <= i < |syms| ==> |syms[i]| < 256) && out == EncodedTable(syms)
  {
    hide TableBytes, Uvarint;
    assert forall i :: 0 <= i < |syms| ==> IsSymbol(syms[i]);
    var body: bytes := [];
    NoTable();
    assert syms[..0] == [];
    for i := 0 to |syms|
      invariant body == TableBytes(syms[..i])
    {
      TableSnoc(syms[..i], syms[i]);
      assert syms[..i + 1] == syms[..i] + [syms[i]];
      body := body + ([|syms[i]|] + syms[i]);
    }
    assert syms[..|syms|] == syms;
    out := Uvarint(|syms|) + body;
  }

  lemma NoTable()
    ensures TableBytes([]) == []
  {
  }

  // decodeTable: symbols until the count is met, a symbol is too long or the bytes run out.
  method DecodeTable(b: bytes, ghost syms: seq<bytes>) returns (out: seq<bytes>)
    ensures IsTable(syms) && (forall i :: 0 <= i < |syms| ==> |syms[i]| < 256) && b == EncodedTable(syms) ==> out == syms
  {
    hide TableBytes, Uvarint, ReadUvarint;
    ghost var ok := IsTable(syms) && (forall i :: 0 <= i < |syms| ==> |syms[i]| < 256) && b == EncodedTable(syms);
    if ok {
      ReadUvarintInverse(|syms|, TableBytes(syms));
      assert syms[0..] == syms;
    }
    var head := ReadUvarint(b);
    if head.None? {
      return [];
    }
    var count: nat, off: nat := head.value.0, head.value.1;
    out := [];
    var i: nat := 0;
    while i < count
      invariant off <= |b| && i <= count
      invariant ok ==> count == |syms| && out == syms[..i] && b[off..] == TableBytes(syms[i..])
    {
      if ok {
        TableFront(syms, i);
      }
      if off >= |b| {
        break;
      }
      var n := b[off];
      ghost var rest := b[off..];
      if n > MAX_LEN || off + 1 + n > |b| {
        break;
      }
      assert rest[1..1 + n] == b[off + 1..off + 1 + n] && rest[1 + n..] == b[off + 1 + n..];
      out := out + [b[off + 1..off + 1 + n]];
      off := off + 1 + n;
      i := i + 1;
    }
    assert ok ==> syms[..|syms|] == syms;
  }

  lemma TableFront(syms: seq<bytes>, i: nat)
    requires i <= |syms| && IsTable(syms) && forall j :: 0 <= j < |syms| ==> |syms[j]| < 256
    ensures i < |syms| ==>
      var b, n := TableBytes(syms[i..]), |syms[i]|;
      && n <= MAX_LEN && |b| >= 1 + n && b[0] == n && b[1..1 + n] == syms[i] && b[1 + n..] == TableBytes(syms[i + 1..])
  {
    if i < |syms| {
      assert IsSymbol(syms[i]);
      assert syms[i..][1..] == syms[i + 1..];
    }
  }

  // ---- training ----

  // Go's string order.
  predicate LexLess(a: bytes, b: bytes) {
    if b == [] then false
    else if a == [] then true
    else if a[0] != b[0] then a[0] < b[0]
    else LexLess(a[1..], b[1..])
  }

  lemma {:induction false} LexOrder(a: bytes, b: bytes)
    ensures !(LexLess(a, b) && LexLess(b, a))
    ensures a == b || LexLess(a, b) || LexLess(b, a)
    ensures a == b ==> !LexLess(a, b)
  {
    if a != [] && b != [] {
      LexOrder(a[1..], b[1..]);
      if a[0] == b[0] {
        assert a == [a[0]] + a[1..] && b == [b[0]] + b[1..];
      }
    }
  }

  lemma {:induction false} LexTrans(a: bytes, b: bytes, c: bytes)
    requires LexLess(a, b) && LexLess(b, c)
    ensures LexLess(a, c)
  {
    if a != [] && a[0] == b[0] && b[0] == c[0] {
      LexTrans(a[1..], b[1..], c[1..]);
    }
  }

  datatype Cand = Cand(s: bytes, g: nat)

  // More gain first, then string order.
  predicate Before(x: Cand, y: Cand) {
    if x.g != y.g then x.g > y.g else LexLess(x.s, y.s)
  }

  lemma BeforeIsOrder()
    ensures StrictWeak(Before)
  {
    forall x, y | Before(x, y)
      ensures !Before(y, x)
    {
      LexOrder(x.s, y.s);
    }
    forall x, y, w | !Before(x, y) && !Before(y, w)
      ensures !Before(x, w)
    {
      hide LexLess;
      LexOrder(x.s, y.s);
      LexOrder(y.s, w.s);
      LexOrder(x.s, w.s);
      if x.g == y.g == w.g && LexLess(y.s, x.s) && LexLess(w.s, y.s) {
        LexTrans(w.s, y.s, x.s);
      }
    }
  }

  lemma BeforeTotal(x: Cand, y: Cand)
    ensures Before(x, y) || Before(y, x) || x == y
  {
    LexOrder(x.s, y.s);
  }

  function CandOf(gain: map<bytes, nat>, s: bytes): Cand
    requires s in gain
  {
    Cand(s, gain[s])
  }

  method Candidates(gain: map<bytes, nat>) returns (cands: seq<Cand>)
    ensures forall c :: c in cands <==> c.s in gain && c == CandOf(gain, c.s)
    ensures |cands| == |gain| && Distinct(cands)
  {
    cands := [];
    var left := gain.Keys;
    while left != {}
      invariant left <= gain.Keys && |cands| + |left| == |gain.Keys|
      invariant forall c :: c in cands <==> c.s in gain && c.s !in left && c == CandOf(gain, c.s)
      invariant Distinct(cands)
      decreases left
    {
      var s :| s in left;
      cands := cands + [CandOf(gain, s)];
      left := left - {s};
    }
  }

  // syms are the best candidates: at most MAX_SYMBOLS, and no other string comes before one of them.
  ghost predicate Best(gain: map<bytes, nat>, syms: seq<bytes>) {
    && |syms| == (if |gain| < MAX_SYMBOLS then |gain| else MAX_SYMBOLS)
    && Distinct(syms)
    && (forall i :: 0 <= i < |syms| ==> syms[i] in gain)
    && (forall i, s :: 0 <= i < |syms| && s in gain && s !in syms ==> Before(CandOf(gain, syms[i]), CandOf(gain, s)))
  }

  // topSymbols
  method TopSymbols(gain: map<bytes, nat>) returns (syms: seq<bytes>)
    ensures Best(gain, syms)
  {
    var cands := Candidates(gain);
    BeforeIsOrder();
    hide Before;
    var sorted := SortBy(cands, Before);
    PermutationMembers(sorted, cands);
    DistinctPermutation(sorted, cands);
    var n := if |sorted| < MAX_SYMBOLS then |sorted| else MAX_SYMBOLS;
    syms := seq(n, i requires 0 <= i < n => sorted[i].s);
    TopIsBest(gain, sorted, n, syms);
  }

  lemma TopIsBest(gain: map<bytes, nat>, sorted: seq<Cand>, n: nat, syms: seq<bytes>)
    requires n <= |sorted| == |gain| && n == (if |gain| < MAX_SYMBOLS then |gain| else MAX_SYMBOLS)
    requires Sorted(sorted, Before) && Distinct(sorted)
    requires forall c :: c in sorted <==> c.s in gain && c == CandOf(gain, c.s)
    requires |syms| == n && forall i :: 0 <= i < n ==> syms[i] == sorted[i].s
    ensures Best(gain, syms)
  {
    hide Before;
    forall i | 0 <= i < |sorted|
      ensures sorted[i].s in gain && sorted[i] == CandOf(gain, sorted[i].s)
    {
      assert sorted[i] in sorted;
    }
    forall i, s | 0 <= i < n && s in gain && s !in syms
      ensures Before(CandOf(gain, syms[i]), CandOf(gain, s))
    {
      assert CandOf(gain, s) in sorted;
      var j :| 0 <= j < |sorted| && sorted[j] == CandOf(gain, s);
      assert forall k :: 0 <= k < n ==> syms[k] in syms;
      assert j >= n;
      BeforeTotal(sorted[i], sorted[j]);
      assert !Before(sorted[j], sorted[i]);
    }
  }

  ghost predicate GainOk(gain: map<bytes, nat>) {
    forall s :: s in gain ==> IsSymbol(s)
  }

  function Credit(gain: map<bytes, nat>, s: bytes): map<bytes, nat> {
    gain[s := |s| + if s in gain then gain[s] else 0]
  }

  // One string under the current table: credit each token, and each token joined to the one before.
  method Tokenize(syms: seq<bytes>, byFirst: seq<seq<nat>>, s: bytes, gain: map<bytes, nat>) returns (out: map<bytes, nat>)
    requires IsTable(syms) && IndexOk(syms, byFirst) && GainOk(gain)
    ensures GainOk(out)
  {
    hide IndexOk;
    out := gain;
    var prev: bytes := [];
    var i: nat := 0;
    while i < |s|
      invariant i <= |s| && GainOk(out)
    {
      var idx, n := Match(syms, byFirst, s, i);
      var len := if idx < 0 then 1 else n;
      if idx >= 0 {
        assert IsSymbol(syms[idx]);
      }
      var tok := s[i..i + len];
      out := Credit(out, tok);
      if prev != [] && |prev| + |tok| <= MAX_LEN {
        out := Credit(out, prev + tok);
      }
      prev := tok;
      i := i + len;
    }
  }

  // trainFSST: whatever the samples, the result is a table of distinct symbols with its index.
  method Train(samples: seq<bytes>) returns (syms: seq<bytes>, byFirst: seq<seq<nat>>)
    ensures IsTable(syms) && Distinct(syms) && IndexOk(syms, byFirst)
  {
    hide IndexOk;
    syms := [];
    byFirst := BuildIndex(syms);
    for round := 0 to ROUNDS
      invariant IsTable(syms) && Distinct(syms) && IndexOk(syms, byFirst)
    {
      var gain: map<bytes, nat> := map[];
      for k := 0 to |samples|
        invariant GainOk(gain)
      {
        gain := Tokenize(syms, byFirst, samples[k], gain);
      }
      syms := TopSymbols(gain);
      BestIsTable(gain, syms);
      byFirst := BuildIndex(syms);
    }
  }

  lemma BestIsTable(gain: map<bytes, nat>, syms: seq<bytes>)
    requires Best(gain, syms) && GainOk(gain)
    ensures IsTable(syms) && Distinct(syms)
  {
    hide Before;
  }

  // ---- the arena ----

  // The span at off is some code of s.
  ghost predicate SpanHolds(syms: seq<bytes>, spans: bytes, off: nat, s: bytes) {
    off != 0 && ArenaRead(spans, off).Some? && Expand(syms, ArenaRead(spans, off).value) == s
  }

  // Every string is at its offset, and offsets ascend.
  ghost predicate AllHeld(syms: seq<bytes>, spans: bytes, offs: seq<nat>, strs: seq<bytes>) {
    && |offs| == |strs|
    && (forall i :: 0 <= i < |strs| ==> SpanHolds(syms, spans, offs[i], strs[i]) && offs[i] < |spans|)
    && (forall i, j :: 0 <= i < j < |offs| ==> offs[i] < offs[j])
  }

  lemma HeldExtends(syms: seq<bytes>, spans: bytes, more: bytes, offs: seq<nat>, strs: seq<bytes>)
    requires AllHeld(syms, spans, offs, strs)
    ensures AllHeld(syms, spans + more, offs, strs)
  {
    hide ArenaRead;
    forall i | 0 <= i < |strs|
      ensures SpanHolds(syms, spans + more, offs[i], strs[i])
    {
      assert SpanHolds(syms, spans, offs[i], strs[i]);
      ArenaReadExtends(spans, spans + more, offs[i]);
    }
  }

  // BuildFSSTArena
  method BuildArena(strs: seq<bytes>) returns (syms: seq<bytes>, table: bytes, spans: bytes, offs: seq<nat>)
    requires forall i :: 0 <= i < |strs| ==> 2 * |strs[i]| < TWO_64
    ensures IsTable(syms) && (forall i :: 0 <= i < |syms| ==> |syms[i]| < 256) && table == EncodedTable(syms)
    ensures AllHeld(syms, spans, offs, strs)
  {
    hide IndexOk, ArenaRead, Expand, Entry, EncodedTable;
    var byFirst;
    syms, byFirst := Train(strs);
    table := EncodeTable(syms);
    spans, offs := [0], [];
    for i := 0 to |strs|
      invariant spans != [] && AllHeld(syms, spans, offs, strs[..i])
    {
      var code := Encode(syms, byFirst, strs[i]);
      ghost var was := spans;
      ArenaReadBack(spans, code);
      HeldExtends(syms, spans, Entry(code), offs, strs[..i]);
      offs := offs + [|spans|];
      spans := spans + Entry(code);
      assert SpanHolds(syms, spans, offs[i], strs[i]);
    }
    assert strs[..|strs|] == strs;
  }

  // FSSTArena.Read: nil for the none sentinel, an offset past the end or a span that overruns.
  method Read(syms: seq<bytes>, spans: bytes, off: nat) returns (s: bytes)
    ensures s == match ArenaRead(spans, off) case None => [] case Some(code) => Expand(syms, code)
  {
    hide ArenaRead;
    match ArenaRead(spans, off) {
      case None => return [];
      case Some(code) => s := Decode(syms, code);
    }
  }

  // Building, storing, loading and reading any string gives that string.
  method RoundTrip(strs: seq<bytes>, i: nat) returns (s: bytes)
    requires i < |strs| && forall j :: 0 <= j < |strs| ==> 2 * |strs[j]| < TWO_64
    ensures s == strs[i]
  {
    hide ArenaRead, Expand, EncodedTable;
    var syms, table, spans, offs := BuildArena(strs);
    var loaded := DecodeTable(table, syms);
    assert SpanHolds(syms, spans, offs[i], strs[i]);
    s := Read(loaded, spans, offs[i]);
  }
}
