// Model of format/page.go and the block codec of format/codec.go: a page is a 32-byte header and a
// compressed payload under a checksum.
module Pages {
  import opened Wrappers
  import opened Bytes

  const PAGE_HEADER: nat := 32
  const PAGE_DATA: byte := 0
  const CODEC_NONE: byte := 0
  const CODEC_ZSTD: byte := 2

  // The foreign code: any checksum and any compressor.
  datatype Foreign = Foreign(crc: bytes -> uint32, zenc: bytes -> bytes, zdec: bytes -> Option<bytes>)
  {
    // Decompressing undoes compressing.
    ghost predicate Lossless() {
      forall b :: zdec(zenc(b)) == Some(b)
    }

    function Compress(codec: byte, src: bytes): (byte, bytes) {
      if codec == CODEC_ZSTD then (CODEC_ZSTD, zenc(src)) else (CODEC_NONE, src)
    }

    function Decompress(codec: byte, src: bytes): Option<bytes> {
      if codec == CODEC_ZSTD then zdec(src) else if codec == CODEC_NONE then Some(src) else None
    }

    lemma CompressBack(codec: byte, src: bytes)
      requires Lossless()
      ensures Decompress(Compress(codec, src).0, Compress(codec, src).1) == Some(src)
    {
    }
  }

  datatype PageHeader = PageHeader(kind: byte, encoding: byte, codec: byte, numValues: nat, uncompressedSize: nat,
                                   compressedSize: nat, firstRow: nat, pageBase: nat, crc: nat)
  {
    ghost predicate Fits() {
      && numValues < TWO_32 && uncompressedSize < TWO_32 && compressedSize < TWO_32 && firstRow < TWO_32
      && pageBase < TWO_64 && crc < TWO_32
    }
  }

  function HeaderBytes(h: PageHeader): (b: bytes)
    ensures |b| == PAGE_HEADER
  {
    [h.kind, h.encoding, h.codec, 0] + LittleEndian(h.numValues, 4) + LittleEndian(h.uncompressedSize, 4)
    + LittleEndian(h.compressedSize, 4) + LittleEndian(h.firstRow, 4) + LittleEndian(h.pageBase, 8) + LittleEndian(h.crc, 4)
  }

  function ParseHeader(b: bytes): PageHeader
    requires |b| >= PAGE_HEADER
  {
    PageHeader(b[0], b[1], b[2], FromLittleEndian(b[4..8]), FromLittleEndian(b[8..12]), FromLittleEndian(b[12..16]),
               FromLittleEndian(b[16..20]), FromLittleEndian(b[20..28]), FromLittleEndian(b[28..32]))
  }

  lemma HeaderBack(h: PageHeader, more: bytes)
    requires h.Fits()
    ensures ParseHeader(HeaderBytes(h) + more) == h
  {
    hide LittleEndian, FromLittleEndian, Pow256;
    var b := HeaderBytes(h) + more;
    Pow256Words();
    assert b[4..8] == LittleEndian(h.numValues, 4);
    assert b[8..12] == LittleEndian(h.uncompressedSize, 4);
    assert b[12..16] == LittleEndian(h.compressedSize, 4);
    assert b[16..20] == LittleEndian(h.firstRow, 4);
    assert b[20..28] == LittleEndian(h.pageBase, 8);
    assert b[28..32] == LittleEndian(h.crc, 4);
    LittleEndianRoundTrip(h.numValues, 4);
    LittleEndianRoundTrip(h.uncompressedSize, 4);
    LittleEndianRoundTrip(h.compressedSize, 4);
    LittleEndianRoundTrip(h.firstRow, 4);
    LittleEndianRoundTrip(h.pageBase, 8);
    LittleEndianRoundTrip(h.crc, 4);
  }

  // The header writePage fills in; the sizes keep their low 32 bits.
  function HeaderFor(z: Foreign, kind: byte, encoding: byte, codec: byte, numValues: nat, firstRow: nat, pageBase: nat, payload: bytes): PageHeader {
    var (used, comp) := z.Compress(codec, payload);
    PageHeader(kind, encoding, used, numValues, |payload| % TWO_32, |comp| % TWO_32, firstRow, pageBase, z.crc(comp))
  }

  // writePage
  function Page(z: Foreign, kind: byte, encoding: byte, codec: byte, numValues: nat, firstRow: nat, pageBase: nat, payload: bytes): (b: bytes)
    ensures |b| == PAGE_HEADER + |z.Compress(codec, payload).1|
  {
    HeaderBytes(HeaderFor(z, kind, encoding, codec, numValues, firstRow, pageBase, payload)) + z.Compress(codec, payload).1
  }

  // readPage: the header, the payload and the bytes taken. None on a short page, a bad checksum, a
  // payload that does not decompress or has the wrong size.
  function ReadPage(z: Foreign, b: bytes): (r: Option<(PageHeader, bytes, nat)>)
    ensures r.Some? ==> PAGE_HEADER <= r.value.2 <= |b|
  {
    if |b| < PAGE_HEADER then None
    else
      var h := ParseHeader(b);
      var end := PAGE_HEADER + h.compressedSize;
      if end > |b| then None
      else
        var comp := b[PAGE_HEADER..end];
        if z.crc(comp) != h.crc then None
        else
          match z.Decompress(h.codec, comp)
          case None => None
          case Some(payload) => if |payload| % TWO_32 != h.uncompressedSize then None else Some((h, payload, end))
  }

  // A page at the front of any bytes reads back.
  lemma PageBack(z: Foreign, kind: byte, encoding: byte, codec: byte, numValues: nat, firstRow: nat, pageBase: nat, payload: bytes, more: bytes)
    requires z.Lossless() && numValues < TWO_32 && firstRow < TWO_32 && pageBase < TWO_64
    requires |z.Compress(codec, payload).1| < TWO_32
    ensures var page := Page(z, kind, encoding, codec, numValues, firstRow, pageBase, payload);
            var h := HeaderFor(z, kind, encoding, codec, numValues, firstRow, pageBase, payload);
            ReadPage(z, page + more) == Some((h, payload, |page|))
  {
    hide HeaderBytes, ParseHeader;
    var h := HeaderFor(z, kind, encoding, codec, numValues, firstRow, pageBase, payload);
    var comp := z.Compress(codec, payload).1;
    var page := Page(z, kind, encoding, codec, numValues, firstRow, pageBase, payload);
    assert page + more == HeaderBytes(h) + (comp + more);
    HeaderBack(h, comp + more);
    assert (page + more)[PAGE_HEADER..PAGE_HEADER + |comp|] == comp;
    z.CompressBack(codec, payload);
  }
}
