// Model of format/blob.go and the interner of format/dict.go: the string arena whose byte offsets
// the records' references are.
module Arena {
  import opened Wrappers
  import opened Bytes
  import opened Sorting

  // arenaIntern: the bytes a span adds to the end of the arena.
  function Entry(span: bytes): (b: bytes)
    ensures |b| > |span|
  {
    Uvarint(|span|) + span
  }

  // arenaRead: the span interned at off. Offset 0 is the none sentinel.
  function ArenaRead(arena: bytes, off: nat): Option<bytes> {
    if off == 0 || off >= |arena| then None
    else
      match ReadUvarint(arena[off..])
      case None => None
      case Some((n, k)) => if off + k + n > |arena| then None else Some(arena[off + k..off + k + n])
  }

  lemma {:induction false} ReadUvarintExtends(b: bytes, more: bytes, i: nat)
    requires ReadUvarintFrom(b, i).Some?
    ensures ReadUvarintFrom(b + more, i) == ReadUvarintFrom(b, i)
    decreases |b|
  {
    assert (b + more)[0] == b[0];
    if b[0] >= 128 {
      ReadUvarintExtends(b[1..], more, i + 1);
      assert (b + more)[1..] == b[1..] + more;
    }
  }

  // Appending to the arena moves nothing: every reference keeps its span.
  lemma ArenaReadExtends(arena: bytes, arena': bytes, off: nat)
    requires arena <= arena' && ArenaRead(arena, off).Some?
    ensures ArenaRead(arena', off) == ArenaRead(arena, off)
  {
    var more := arena'[|arena|..];
    assert arena' == arena + more;
    assert arena'[off..] == arena[off..] + more;
    ReadUvarintExtends(arena[off..], more, 0);
    var (n, k) := ReadUvarint(arena[off..]).value;
    assert arena'[off + k..off + k + n] == arena[off + k..off + k + n];
  }

  lemma ArenaReadBack(arena: bytes, span: bytes)
    requires arena != [] && |span| < TWO_64
    ensures ArenaRead(arena + Entry(span), |arena|) == Some(span)
  {
    var a := arena + Entry(span);
    assert a[|arena|..] == Uvarint(|span|) + span;
    ReadUvarintInverse(|span|, span);
    var k := |Uvarint(|span|)|;
    assert a[|arena| + k..|arena| + k + |span|] == span;
  }

  // (arena', index') is (arena, index) with more spans interned.
  ghost predicate Grown(arena: bytes, index: map<bytes, nat>, arena': bytes, index': map<bytes, nat>) {
    arena <= arena' && forall s :: s in index ==> s in index' && index'[s] == index[s]
  }

  // The arena that interning the spans in this order builds.
  function Entries(spans: seq<bytes>): bytes {
    if spans == [] then [] else Entries(spans[..|spans| - 1]) + Entry(spans[|spans| - 1])
  }

  lemma EntriesSnoc(spans: seq<bytes>, span: bytes)
    ensures [0] + Entries(spans + [span]) == ([0] + Entries(spans)) + Entry(span)
  {
    assert (spans + [span])[..|spans|] == spans;
  }

  class ArenaDict {
    var arena: bytes
    var index: map<bytes, nat>
    ghost var spans: seq<bytes>   // the interned spans in arena order

    ghost predicate Valid()
      reads this
    {
      && arena == [0] + Entries(spans)
      && Distinct(spans) && (forall s :: s in spans <==> s in index)
      && forall s :: s in index ==> index[s] != 0 && ArenaRead(arena, index[s]) == Some(s)
    }

    constructor ()
      ensures Valid() && arena == [0] && index == map[]
    {
      arena := [0];
      index := map[];
      spans := [];
    }

    // intern: the offset of span, appended only if the same bytes are not interned yet.
    method Intern(span: bytes) returns (off: nat)
      requires Valid() && |span| < TWO_64
      modifies this
      ensures Valid() && Grown(old(arena), old(index), arena, index)
      ensures span in index && off == index[span] && index.Keys == old(index.Keys) + {span}
      ensures old(span in index) ==> arena == old(arena)
    {
      hide Entry, Entries, ArenaRead;
      if span in index {
        return index[span];
      }
      off := |arena|;
      ArenaReadBack(arena, span);
      forall s | s in index
        ensures ArenaRead(arena + Entry(span), index[s]) == Some(s)
      {
        ArenaReadExtends(arena, arena + Entry(span), index[s]);
      }
      EntriesSnoc(spans, span);
      spans := spans + [span];
      arena := arena + Entry(span);
      index := index[span := off];
    }
  }
}
