// Model of store/superblock.go: the two checksummed slots that publish a checkpoint, as bytes. The
// durability protocol of StoreCrash sees each slot as good or bad; this is why it may.
module Superblock {
  import opened Wrappers
  import opened Bytes
  import StoreCrash

  const SLOT: nat := 256
  const SIZE: nat := 512
  const MAGIC: nat := 0x4d45_4755
  const NAMES: nat := 28

  type Checksum = bytes -> uint32

  datatype Meta = Meta(gen: uint64, frontier: uint64, arenaLen: uint64, snapshot: bytes, logName: bytes)
  {
    // The names and their lengths end before the checksum.
    predicate Fits() {
      NAMES + 2 + |snapshot| + 2 + |logName| <= SLOT - 4
    }
  }

  function Zeros(n: nat): (b: bytes)
    ensures |b| == n && forall i :: 0 <= i < n ==> b[i] == 0
  {
    seq(n, _ => 0)
  }

  // putStr
  function Str(s: bytes): (b: bytes)
    ensures |b| == 2 + |s|
  {
    LittleEndian(|s| % TWO_16, 2) + s
  }

  // getStr; None where Go would panic on a length past the end.
  function GetStr(b: bytes): (r: Option<(bytes, nat)>)
    ensures r.Some? ==> r.value.1 <= |b|
  {
    if |b| < 2 || 2 + FromLittleEndian(b[..2]) > |b| then None
    else
      var n := FromLittleEndian(b[..2]);
      Some((b[2..2 + n], 2 + n))
  }

  function Fixed(m: Meta): (b: bytes)
    ensures |b| == NAMES
  {
    LittleEndian(MAGIC, 4) + LittleEndian(m.gen, 8) + LittleEndian(m.frontier, 8) + LittleEndian(m.arenaLen, 8)
  }

  function Body(m: Meta): (b: bytes)
    requires m.Fits()
    ensures |b| == SLOT - 4
  {
    Fixed(m) + Str(m.snapshot) + Str(m.logName) + Zeros(SLOT - 4 - NAMES - 4 - |m.snapshot| - |m.logName|)
  }

  // encodeSlot
  function EncodeSlot(m: Meta, crc: Checksum): (b: bytes)
    requires m.Fits()
    ensures |b| == SLOT
  {
    Body(m) + LittleEndian(crc(Body(m)), 4)
  }

  // decodeSlot
  function DecodeSlot(b: bytes, crc: Checksum): (r: Option<Meta>) {
    if |b| < SLOT || FromLittleEndian(b[..4]) != MAGIC then None
    else if crc(b[..SLOT - 4]) != FromLittleEndian(b[SLOT - 4..SLOT]) then None
    else
      match GetStr(b[NAMES..])
      case None => None
      case Some((snapshot, n)) =>
        match GetStr(b[NAMES + n..])
        case None => None
        case Some((logName, _)) => Some(Meta(Word(b, 4), Word(b, 12), Word(b, 20), snapshot, logName))
  }

  function Word(b: bytes, at: nat): uint64
    requires at + 8 <= |b|
  {
    Pow256Words();
    FromLittleEndian(b[at..at + 8])
  }

  lemma LengthBack(n: nat)
    requires n < TWO_16
    ensures FromLittleEndian(LittleEndian(n % TWO_16, 2)) == n && n % TWO_16 == n
  {
    Pow256Words();
    LittleEndianRoundTrip(n, 2);
  }

  lemma StrBack(s: bytes, rest: bytes)
    requires |s| < TWO_16
    ensures GetStr(Str(s) + rest) == Some((s, 2 + |s|))
  {
    var b := Str(s) + rest;
    LengthBack(|s|);
    hide LittleEndian, FromLittleEndian;
    assert b[..2] == LittleEndian(|s| % TWO_16, 2);
    assert b[2..2 + |s|] == s;
  }

  lemma FixedParts(p: bytes, x: bytes, y: bytes, z: bytes, rest: bytes)
    requires |p| == 4 && |x| == |y| == |z| == 8
    ensures var b := p + x + y + z + rest;
      b[..4] == p && b[4..12] == x && b[12..20] == y && b[20..28] == z
  {
  }

  lemma WordBack(v: uint64, b: bytes, at: nat)
    requires at + 8 <= |b| && b[at..at + 8] == LittleEndian(v, 8)
    ensures Word(b, at) == v
  {
    Pow256Words();
    LittleEndianRoundTrip(v, 8);
  }

  lemma MagicBack(b: bytes)
    requires |b| >= 4 && b[..4] == LittleEndian(MAGIC, 4)
    ensures FromLittleEndian(b[..4]) == MAGIC
  {
    Pow256Words();
    LittleEndianRoundTrip(MAGIC, 4);
  }

  lemma FixedBack(m: Meta, rest: bytes)
    ensures var b := Fixed(m) + rest;
      FromLittleEndian(b[..4]) == MAGIC && Word(b, 4) == m.gen && Word(b, 12) == m.frontier && Word(b, 20) == m.arenaLen
  {
    hide LittleEndian, FromLittleEndian, Pow256, Word;
    var b := Fixed(m) + rest;
    FixedParts(LittleEndian(MAGIC, 4), LittleEndian(m.gen, 8), LittleEndian(m.frontier, 8), LittleEndian(m.arenaLen, 8), rest);
    MagicBack(b);
    WordBack(m.gen, b, 4);
    WordBack(m.frontier, b, 12);
    WordBack(m.arenaLen, b, 20);
  }

  lemma SlotParts(m: Meta, crc: Checksum, zeros: bytes, sum: bytes)
    requires m.Fits() && zeros == Zeros(SLOT - 4 - NAMES - 4 - |m.snapshot| - |m.logName|) && sum == LittleEndian(crc(Body(m)), 4)
    ensures var b := EncodeSlot(m, crc);
      && b == Fixed(m) + (Str(m.snapshot) + Str(m.logName) + zeros + sum)
      && b[NAMES..] == Str(m.snapshot) + (Str(m.logName) + zeros + sum)
      && b[NAMES + 2 + |m.snapshot|..] == Str(m.logName) + (zeros + sum)
      && b[..SLOT - 4] == Body(m) && b[SLOT - 4..SLOT] == sum
  {
    hide Fixed, Str, LittleEndian;
    FiveParts(Fixed(m), Str(m.snapshot), Str(m.logName), zeros, sum);
  }

  lemma FiveParts(f: bytes, s: bytes, l: bytes, z: bytes, c: bytes)
    ensures var b := f + s + l + z + c;
      && b == f + (s + l + z + c) && b[|f|..] == s + (l + z + c) && b[|f| + |s|..] == l + (z + c)
      && b[..|f| + |s| + |l| + |z|] == f + s + l + z && b[|f| + |s| + |l| + |z|..] == c
  {
    var b := f + s + l + z + c;
    assert b == f + (s + l + z + c);
    assert b == f + s + (l + z + c);
    assert b == f + s + l + (z + c);
  }

  // A slot that was written whole reads back, whatever the checksum.
  lemma SlotBack(m: Meta, crc: Checksum)
    requires m.Fits()
    ensures DecodeSlot(EncodeSlot(m, crc), crc) == Some(m)
  {
    var sum := LittleEndian(crc(Body(m)), 4);
    var zeros := Zeros(SLOT - 4 - NAMES - 4 - |m.snapshot| - |m.logName|);
    Pow256Words();
    LittleEndianRoundTrip(crc(Body(m)), 4);
    SlotParts(m, crc, zeros, sum);
    FixedBack(m, Str(m.snapshot) + Str(m.logName) + zeros + sum);
    StrBack(m.snapshot, Str(m.logName) + zeros + sum);
    StrBack(m.logName, zeros + sum);
    hide Fixed, Str, GetStr, LittleEndian, FromLittleEndian, Pow256, Word, EncodeSlot, Body, Zeros;
  }

  lemma ZeroSlot(crc: Checksum)
    ensures DecodeSlot(Zeros(SLOT), crc) == None
  {
    ZeroWord(Zeros(SLOT)[..4]);
  }

  lemma {:induction false} ZeroWord(z: bytes)
    requires forall i :: 0 <= i < |z| ==> z[i] == 0
    ensures FromLittleEndian(z) == 0
  {
    if z != [] {
      ZeroWord(z[1..]);
    }
  }

  // ---- the file ----

  // readSuperblock: the valid slot with the higher generation.
  function ReadSuperblock(file: bytes, crc: Checksum): Option<Meta> {
    if |file| < SIZE then None
    else
      match (DecodeSlot(file[..SLOT], crc), DecodeSlot(file[SLOT..], crc))
      case (Some(a), Some(b)) => if a.gen >= b.gen then Some(a) else Some(b)
      case (Some(a), None) => Some(a)
      case (None, Some(b)) => Some(b)
      case (None, None) => None
  }

  // The two slots of a file too short to hold them are blank.
  function Base(file: bytes): (b: bytes)
    ensures |b| == SIZE
  {
    if |file| >= SIZE then file[..SIZE] else Zeros(SIZE)
  }

  // writeSuperblock: the file after the write. An even generation lands in the first slot.
  function Write(file: bytes, m: Meta, crc: Checksum): (b: bytes)
    requires m.Fits()
    ensures |b| == if |file| >= SIZE then |file| else SIZE
  {
    var slot := EncodeSlot(m, crc);
    var b := if m.gen % 2 == 0 then slot + Base(file)[SLOT..] else Base(file)[..SLOT] + slot;
    b + if |file| > SIZE then file[SIZE..] else []
  }

  method WriteSuperblock(file: array<byte>, m: Meta, crc: Checksum)
    requires m.Fits() && file.Length == SIZE
    modifies file
    ensures file[..] == Write(old(file[..]), m, crc)
  {
    var slot := EncodeSlot(m, crc);
    var at := if m.gen % 2 == 0 then 0 else SLOT;
    ghost var was := file[..];
    for i := 0 to SLOT
      invariant forall j :: 0 <= j < SIZE ==> file[j] == if at <= j < at + i then slot[j - at] else was[j]
    {
      file[at + i] := slot[i];
    }
    assert file[..] == if at == 0 then slot + was[SLOT..] else was[..SLOT] + slot;
    assert was[..SIZE] == was;
  }

  // What a crash leaves of a write: every byte is as before or as written. A file that was not there
  // may also be short.
  ghost predicate Torn(before: bytes, after: bytes, got: bytes) {
    || (before == [] && |got| < SIZE)
    || (|got| == |after| && |after| >= SIZE
        && (forall i :: 0 <= i < SIZE ==> got[i] == Base(before)[i] || got[i] == after[i])
        && got[SIZE..] == after[SIZE..])
  }

  ghost predicate Mixed(a: bytes, b: bytes, s: bytes) {
    |s| == |a| == |b| && forall i :: 0 <= i < |s| ==> s[i] == a[i] || s[i] == b[i]
  }

  // The checksum exposes a slot that is part one of these contents and part the other.
  ghost predicate Detects(crc: Checksum, a: bytes, b: bytes) {
    forall s: bytes :: Mixed(a, b, s) && s != a && s != b ==> DecodeSlot(s, crc) == None
  }

  // The slot a write of m goes to: its content before, and the one being written.
  ghost predicate Exposed(before: bytes, m: Meta, crc: Checksum)
    requires m.Fits()
  {
    Detects(crc, SlotOf(before, m.gen % 2 == 0), EncodeSlot(m, crc))
  }

  function SlotOf(file: bytes, even: bool): bytes {
    if |file| < SIZE then Zeros(SLOT) else if even then file[..SLOT] else file[SLOT..SIZE]
  }

  // cur is the published checkpoint: its own slot holds it and the other slot nothing newer.
  ghost predicate Published(file: bytes, crc: Checksum, cur: Option<Meta>) {
    var a, b := DecodeSlot(SlotOf(file, true), crc), DecodeSlot(SlotOf(file, false), crc);
    match cur
    case None => a == None && b == None
    case Some(m) =>
      var (mine, other) := if m.gen % 2 == 0 then (a, b) else (b, a);
      mine == Some(m) && (other.Some? ==> other.value.gen < m.gen)
  }

  lemma ReadsPublished(file: bytes, crc: Checksum, cur: Option<Meta>)
    requires Published(file, crc, cur) && (|file| == SIZE || |file| < SIZE)
    ensures ReadSuperblock(file, crc) == cur
  {
    hide DecodeSlot;
    ZeroSlot(crc);
    if |file| == SIZE {
      assert file[SLOT..] == file[SLOT..SIZE];
    }
  }

  // The three fates of a slot that was being written.
  lemma SlotFate(before: bytes, m: Meta, crc: Checksum, got: bytes)
    requires m.Fits() && Exposed(before, m, crc) && (before == [] || |before| == SIZE) && Torn(before, Write(before, m, crc), got)
    ensures var even := m.gen % 2 == 0;
      && SlotOf(got, !even) == SlotOf(before, !even)
      && (SlotOf(got, even) == SlotOf(before, even) || SlotOf(got, even) == EncodeSlot(m, crc) || DecodeSlot(SlotOf(got, even), crc) == None)
  {
    hide EncodeSlot, DecodeSlot;
    var after, slot := Write(before, m, crc), EncodeSlot(m, crc);
    if |got| == SIZE {
      var even := m.gen % 2 == 0;
      var off := if even then 0 else SLOT;
      assert SlotOf(before, even) == Base(before)[off..off + SLOT];
      assert SlotOf(got, even) == got[off..off + SLOT] && after[off..off + SLOT] == slot;
      assert Mixed(SlotOf(before, even), slot, SlotOf(got, even));
      assert SlotOf(got, !even) == SlotOf(before, !even);
    }
  }

  // Atomic commit: a write of the next generation that a crash cuts anywhere leaves either the old
  // checkpoint published or the new one, and never anything else.
  lemma CommitIsAtomic(before: bytes, cur: Option<Meta>, m: Meta, crc: Checksum, got: bytes)
    requires m.Fits() && Exposed(before, m, crc) && (before == [] || |before| == SIZE) && Published(before, crc, cur)
    requires m.gen == (if cur.Some? then cur.value.gen else 0) + 1
    requires Torn(before, Write(before, m, crc), got)
    ensures Published(got, crc, cur) || Published(got, crc, Some(m))
    ensures ReadSuperblock(got, crc) == cur || ReadSuperblock(got, crc) == Some(m)
    ensures got == Write(before, m, crc) ==> ReadSuperblock(got, crc) == Some(m)
  {
    SlotFate(before, m, crc, got);
    SlotBack(m, crc);
    WholeSlot(before, m, crc);
    hide DecodeSlot, EncodeSlot, Write, SlotOf, Published, ReadSuperblock, Exposed;
    FatePublishes(before, cur, m, crc, got);
    assert |got| <= SIZE;
    if Published(got, crc, cur) {
      ReadsPublished(got, crc, cur);
    }
    if Published(got, crc, Some(m)) {
      ReadsPublished(got, crc, Some(m));
    }
  }

  lemma FatePublishes(before: bytes, cur: Option<Meta>, m: Meta, crc: Checksum, got: bytes)
    requires Published(before, crc, cur) && m.gen == (if cur.Some? then cur.value.gen else 0) + 1
    requires var even := m.gen % 2 == 0;
      && SlotOf(got, !even) == SlotOf(before, !even)
      && (SlotOf(got, even) == SlotOf(before, even) || DecodeSlot(SlotOf(got, even), crc) in {None, Some(m)})
    ensures Published(got, crc, cur) || Published(got, crc, Some(m))
    ensures DecodeSlot(SlotOf(got, m.gen % 2 == 0), crc) == Some(m) ==> Published(got, crc, Some(m))
  {
    hide DecodeSlot, SlotOf;
  }

  lemma WholeSlot(before: bytes, m: Meta, crc: Checksum)
    requires m.Fits() && (before == [] || |before| == SIZE)
    ensures |Write(before, m, crc)| == SIZE && SlotOf(Write(before, m, crc), m.gen % 2 == 0) == EncodeSlot(m, crc)
  {
    hide EncodeSlot;
  }

  // ---- as the durability protocol sees it ----

  function Abstract(slot: bytes, crc: Checksum): StoreCrash.Slot {
    match DecodeSlot(slot, crc)
    case None => StoreCrash.Bad
    case Some(m) => StoreCrash.Good(StoreCrash.Meta(m.gen, m.frontier))
  }

  // Reading the bytes and reading the two abstract slots agree.
  lemma ReadAgrees(file: bytes, crc: Checksum, d: StoreCrash.Disk)
    requires |file| <= SIZE
    requires d.slotA == Abstract(SlotOf(file, true), crc) && d.slotB == Abstract(SlotOf(file, false), crc)
    ensures StoreCrash.ReadSuperblock(d) == match ReadSuperblock(file, crc) case None => StoreCrash.Meta(0, 1) case Some(m) => StoreCrash.Meta(m.gen, m.frontier)
  {
    hide DecodeSlot;
    ZeroSlot(crc);
    if |file| == SIZE {
      assert file[SLOT..] == file[SLOT..SIZE];
    }
  }

  // A torn write is one of the protocol's three slot fates: old, damaged or new.
  lemma TornIsAFate(before: bytes, m: Meta, crc: Checksum, got: bytes)
    requires m.Fits() && Exposed(before, m, crc) && (before == [] || |before| == SIZE) && Torn(before, Write(before, m, crc), got)
    ensures var even := m.gen % 2 == 0;
      && Abstract(SlotOf(got, !even), crc) == Abstract(SlotOf(before, !even), crc)
      && Abstract(SlotOf(got, even), crc) in
           {Abstract(SlotOf(before, even), crc), StoreCrash.Bad, StoreCrash.Good(StoreCrash.Meta(m.gen, m.frontier))}
  {
    SlotFate(before, m, crc, got);
    SlotBack(m, crc);
    hide DecodeSlot, EncodeSlot, Write;
  }
}
