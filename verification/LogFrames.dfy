// Model of store/log.go: the frames of the append-only log, reading one back by offset, and
// replay, which stops at the first frame that is short or fails its checksum.
module LogFrames {
  import opened Wrappers
  import opened Bytes

  const HEADER: nat := 14
  const TRAILER: nat := 4

  datatype Frame = Frame(lsn: uint64, kind: byte, key: bytes, val: bytes)
  {
    // klen is one byte and vlen four.
    predicate Fits() {
      |key| < 256 && |val| < TWO_32
    }

    function Size(): nat {
      HEADER + |key| + |val| + TRAILER
    }
  }

  // The checksum is any function of the bytes it covers.
  type Checksum = bytes -> uint32

  function Header(f: Frame): (b: bytes)
    requires f.Fits()
    ensures |b| == HEADER
  {
    LittleEndian(f.lsn, 8) + [f.kind, |f.key|] + LittleEndian(|f.val|, 4)
  }

  function Body(f: Frame): (b: bytes)
    requires f.Fits()
    ensures |b| == f.Size() - TRAILER
  {
    Header(f) + f.key + f.val
  }

  function Encode(f: Frame, crc: Checksum): (b: bytes)
    requires f.Fits()
    ensures |b| == f.Size()
  {
    Body(f) + LittleEndian(crc(Body(f)), 4)
  }

  // The length the header at off announces.
  function Announced(file: bytes, off: nat): (n: nat)
    requires off + HEADER <= |file|
    ensures n >= HEADER + TRAILER
  {
    HEADER + file[off + 9] + FromLittleEndian(file[off + 10..off + HEADER]) + TRAILER
  }

  // readAt and one step of replay: the frame at off, or None when it is short or torn.
  function ReadAt(file: bytes, off: nat, crc: Checksum): (r: Option<Frame>)
    ensures r.Some? ==> off + r.value.Size() <= |file|
  {
    if off + HEADER > |file| then None
    else
      var n := Announced(file, off);
      if off + n > |file| then None
      else
        var frame := file[off..off + n];
        if crc(frame[..n - TRAILER]) != FromLittleEndian(frame[n - TRAILER..]) then None
        else Some(Parsed(frame, file[off + 9]))
  }

  // The fields of a whole frame.
  function Parsed(frame: bytes, klen: nat): (f: Frame)
    requires HEADER + klen + TRAILER <= |frame|
    ensures f.Size() == |frame|
  {
    LsnBound(frame[..8]);
    Frame(FromLittleEndian(frame[..8]), frame[8], frame[HEADER..HEADER + klen], frame[HEADER + klen..|frame| - TRAILER])
  }

  lemma LsnBound(b: bytes)
    requires |b| == 8
    ensures FromLittleEndian(b) < TWO_64
  {
    Pow256Words();
  }

  // A frame can be read back wherever it was written.
  lemma ReadBack(before: bytes, f: Frame, after: bytes, crc: Checksum)
    requires f.Fits()
    ensures ReadAt(before + Encode(f, crc) + after, |before|, crc) == Some(f)
  {
    var e, file, off := Encode(f, crc), before + Encode(f, crc) + after, |before|;
    HeaderFields(f);
    Pow256Words();
    assert file[off..off + |e|] == e;
    assert file[off + 10..off + HEADER] == e[10..HEADER] == Header(f)[10..HEADER];
    assert Announced(file, off) == |e|;
    assert e[..|e| - TRAILER] == Body(f) && e[|e| - TRAILER..] == LittleEndian(crc(Body(f)), 4);
    LittleEndianRoundTrip(crc(Body(f)), 4);
    ParsedBack(f, crc);
  }

  lemma HeaderFields(f: Frame)
    requires f.Fits()
    ensures var h := Header(f);
            && FromLittleEndian(h[..8]) == f.lsn && h[8] == f.kind && h[9] == |f.key|
            && FromLittleEndian(h[10..HEADER]) == |f.val|
  {
    var h := Header(f);
    Pow256Words();
    assert h[..8] == LittleEndian(f.lsn, 8) && h[10..HEADER] == LittleEndian(|f.val|, 4);
    LittleEndianRoundTrip(f.lsn, 8);
    LittleEndianRoundTrip(|f.val|, 4);
  }

  lemma ParsedBack(f: Frame, crc: Checksum)
    requires f.Fits()
    ensures Parsed(Encode(f, crc), |f.key|) == f
  {
    var e, k := Encode(f, crc), |f.key|;
    HeaderFields(f);
    assert e[..8] == Header(f)[..8] && e[8] == Header(f)[8];
    assert e[HEADER..HEADER + k] == f.key;
    assert e[HEADER + k..|e| - TRAILER] == f.val;
  }

  // Appending never disturbs a frame already readable.
  lemma ReadAtExtends(file: bytes, more: bytes, off: nat, crc: Checksum)
    requires ReadAt(file, off, crc).Some?
    ensures ReadAt(file + more, off, crc) == ReadAt(file, off, crc)
  {
    var longer, n := file + more, Announced(file, off);
    assert longer[off + 10..off + HEADER] == file[off + 10..off + HEADER];
    assert longer[off..off + n] == file[off..off + n];
  }

  // ---- replay ----

  function Replay(file: bytes, off: nat, crc: Checksum): seq<Frame>
    decreases |file| - off
  {
    match ReadAt(file, off, crc)
    case None => []
    case Some(f) => [f] + Replay(file, off + f.Size(), crc)
  }

  function EncodeAll(fs: seq<Frame>, crc: Checksum): bytes
    requires forall f <- fs :: f.Fits()
  {
    if fs == [] then [] else Encode(fs[0], crc) + EncodeAll(fs[1..], crc)
  }

  // Replay returns every whole frame and nothing of what follows.
  lemma {:induction false} ReplayWhole(before: bytes, fs: seq<Frame>, tail: bytes, crc: Checksum)
    requires forall f <- fs :: f.Fits()
    requires ReadAt(before + EncodeAll(fs, crc) + tail, |before| + |EncodeAll(fs, crc)|, crc).None?
    ensures Replay(before + EncodeAll(fs, crc) + tail, |before|, crc) == fs
    decreases |fs|
  {
    hide ReadAt, Encode;
    if fs != [] {
      var e, rest := Encode(fs[0], crc), EncodeAll(fs[1..], crc);
      assert before + EncodeAll(fs, crc) + tail == before + e + (rest + tail);
      assert before + EncodeAll(fs, crc) + tail == (before + e) + rest + tail;
      ReadBack(before, fs[0], rest + tail, crc);
      ReplayWhole(before + e, fs[1..], tail, crc);
    }
  }

  // A frame cut short anywhere is not read, whatever the checksum function: the header is missing
  // or announces more bytes than there are.
  lemma CutFrame(before: bytes, f: Frame, k: nat, crc: Checksum)
    requires f.Fits() && k < f.Size()
    ensures ReadAt(before + Encode(f, crc)[..k], |before|, crc).None?
  {
    var e, file, off := Encode(f, crc), before + Encode(f, crc)[..k], |before|;
    if k >= HEADER {
      HeaderFields(f);
      assert file[off + 10..off + HEADER] == e[10..HEADER] == Header(f)[10..HEADER];
      assert file[off + 9] == Header(f)[9];
    }
  }

  // A log whose last write was cut short replays to exactly the frames before it.
  lemma ReplayCutLog(fs: seq<Frame>, f: Frame, k: nat, crc: Checksum)
    requires (forall x <- fs :: x.Fits()) && f.Fits() && k < f.Size()
    ensures Replay(EncodeAll(fs, crc) + Encode(f, crc)[..k], 0, crc) == fs
  {
    CutFrame(EncodeAll(fs, crc), f, k, crc);
    var none: bytes := [];
    assert none + EncodeAll(fs, crc) + Encode(f, crc)[..k] == EncodeAll(fs, crc) + Encode(f, crc)[..k];
    ReplayWhole(none, fs, Encode(f, crc)[..k], crc);
  }

  // A frame whose checksum does not match is not read.
  lemma BadSum(before: bytes, f: Frame, sum: uint32, after: bytes, crc: Checksum)
    requires f.Fits() && sum != crc(Body(f))
    ensures ReadAt(before + (Body(f) + LittleEndian(sum, 4)) + after, |before|, crc).None?
  {
    var e, off := Body(f) + LittleEndian(sum, 4), |before|;
    var file := before + e + after;
    HeaderFields(f);
    Pow256Words();
    assert file[off..off + |e|] == e;
    assert file[off + 10..off + HEADER] == e[10..HEADER] == Header(f)[10..HEADER];
    assert Announced(file, off) == |e|;
    assert e[..|e| - TRAILER] == Body(f) && e[|e| - TRAILER..] == LittleEndian(sum, 4);
    LittleEndianRoundTrip(sum, 4);
  }

  // It is where replay stops, whatever comes after it.
  lemma TornFrameStops(fs: seq<Frame>, f: Frame, sum: uint32, after: bytes, crc: Checksum)
    requires (forall x <- fs :: x.Fits()) && f.Fits() && sum != crc(Body(f))
    ensures Replay(EncodeAll(fs, crc) + ((Body(f) + LittleEndian(sum, 4)) + after), 0, crc) == fs
  {
    hide ReadAt, Body, Encode;
    var before, e := EncodeAll(fs, crc), Body(f) + LittleEndian(sum, 4);
    BadSum(before, f, sum, after, crc);
    assert before + e + after == before + (e + after);
    var none: bytes := [];
    assert none + before == before;
    ReplayWhole(none, fs, e + after, crc);
  }

  // replay: the loop over the file.
  method ReplayLog(file: bytes, crc: Checksum) returns (fs: seq<Frame>)
    ensures fs == Replay(file, 0, crc)
  {
    hide ReadAt;
    fs := [];
    var off := 0;
    while true
      invariant Replay(file, 0, crc) == fs + Replay(file, off, crc)
      decreases |file| - off
    {
      var f := ReadAt(file, off, crc);
      if f.None? {
        return;
      }
      assert fs + ([f.value] + Replay(file, off + f.value.Size(), crc)) == fs + [f.value] + Replay(file, off + f.value.Size(), crc);
      fs := fs + [f.value];
      off := off + f.value.Size();
    }
  }
}
