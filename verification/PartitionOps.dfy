// Model of format/ops.go and format/extract.go: compacting, splitting, merging and extracting
// partitions. Each rewrites every string reference into a fresh deduplicated arena. What a row
// means is its view: the row with its references replaced by the bytes they name.
module PartitionOps {
  import opened Wrappers
  import opened Bytes
  import opened Keys
  import opened Arena
  import opened Sorting

  datatype Status = Live | InFlight | Gone

  // A row's reference columns, and body for the columns no operation here touches.
  datatype UrlRow = UrlRow(key: URLKey, status: Status, urlRef: nat, etagRef: nat, redirectRef: nat, body: int)
  datatype HostRow = HostRow(host: uint64, hostRef: nat, registrableRef: nat, robotsRef: nat, body: int)

  datatype Partition = Partition(id: nat, lo: nat, hi: nat, created: nat, codec: nat,
                                 urls: seq<UrlRow>, hosts: seq<HostRow>, strings: bytes, meta: map<string, string>)

  datatype UrlView = UrlView(key: URLKey, status: Status, url: Option<bytes>, etag: Option<bytes>, redirect: Option<bytes>, body: int)
  datatype HostView = HostView(host: uint64, name: Option<bytes>, registrable: Option<bytes>, robots: Option<bytes>, body: int)

  function ViewUrl(strings: bytes, r: UrlRow): UrlView {
    UrlView(r.key, r.status, ArenaRead(strings, r.urlRef), ArenaRead(strings, r.etagRef), ArenaRead(strings, r.redirectRef), r.body)
  }

  function ViewHost(strings: bytes, r: HostRow): HostView {
    HostView(r.host, ArenaRead(strings, r.hostRef), ArenaRead(strings, r.registrableRef), ArenaRead(strings, r.robotsRef), r.body)
  }

  function UrlViews(strings: bytes, urls: seq<UrlRow>): (v: seq<UrlView>)
    ensures |v| == |urls|
  {
    seq(|urls|, i requires 0 <= i < |urls| => ViewUrl(strings, urls[i]))
  }

  function HostViews(strings: bytes, hosts: seq<HostRow>): (v: seq<HostView>)
    ensures |v| == |hosts|
  {
    seq(|hosts|, i requires 0 <= i < |hosts| => ViewHost(strings, hosts[i]))
  }

  predicate SortedUrls(urls: seq<UrlRow>) {
    forall i, j :: 0 <= i < j < |urls| ==> !urls[j].key.Less(urls[i].key)
  }

  predicate SortedHosts(hosts: seq<HostRow>) {
    forall i, j :: 0 <= i < j < |hosts| ==> hosts[i].host <= hosts[j].host
  }

  function Keep<T>(s: seq<T>, f: T -> bool): (r: seq<T>)
    ensures forall x :: x in r ==> f(x)
  {
    if s == [] then []
    else Keep(s[..|s| - 1], f) + if f(s[|s| - 1]) then [s[|s| - 1]] else []
  }

  // ---- rebasing ----

  // r' names in the dictionary what r names in src; a reference that names nothing becomes 0.
  ghost predicate SameRef(src: bytes, r: nat, index: map<bytes, nat>, r': nat) {
    match ArenaRead(src, r)
    case None => r' == 0
    case Some(span) => span in index && r' == index[span]
  }

  ghost predicate SameUrl(src: bytes, r: UrlRow, index: map<bytes, nat>, r': UrlRow) {
    && r' == r.(urlRef := r'.urlRef, etagRef := r'.etagRef, redirectRef := r'.redirectRef)
    && SameRef(src, r.urlRef, index, r'.urlRef)
    && SameRef(src, r.etagRef, index, r'.etagRef)
    && SameRef(src, r.redirectRef, index, r'.redirectRef)
  }

  ghost predicate SameHost(src: bytes, r: HostRow, index: map<bytes, nat>, r': HostRow) {
    && r' == r.(hostRef := r'.hostRef, registrableRef := r'.registrableRef, robotsRef := r'.robotsRef)
    && SameRef(src, r.hostRef, index, r'.hostRef)
    && SameRef(src, r.registrableRef, index, r'.registrableRef)
    && SameRef(src, r.robotsRef, index, r'.robotsRef)
  }

  ghost predicate SameUrls(src: bytes, urls: seq<UrlRow>, index: map<bytes, nat>, urls': seq<UrlRow>) {
    |urls'| == |urls| && forall i :: 0 <= i < |urls| ==> SameUrl(src, urls[i], index, urls'[i])
  }

  ghost predicate SameHosts(src: bytes, hosts: seq<HostRow>, index: map<bytes, nat>, hosts': seq<HostRow>) {
    |hosts'| == |hosts| && forall i :: 0 <= i < |hosts| ==> SameHost(src, hosts[i], index, hosts'[i])
  }

  class Rebaser {
    const src: bytes
    const dict: ArenaDict
    var cache: map<nat, nat>

    ghost predicate Valid()
      reads this, dict
    {
      dict.Valid() && CacheHolds(dict.index)
    }

    ghost predicate CacheHolds(index: map<bytes, nat>)
      reads this
    {
      forall off :: off in cache ==> ArenaRead(src, off).Some? && SameRef(src, off, index, cache[off])
    }

    constructor (src: bytes, dict: ArenaDict)
      requires dict.Valid()
      ensures Valid() && this.src == src && this.dict == dict && cache == map[]
    {
      this.src := src;
      this.dict := dict;
      cache := map[];
    }

    method Intern(off: nat) returns (r: nat)
      requires Valid()
      modifies this, dict
      ensures Valid() && Grown(old(dict.arena), old(dict.index), dict.arena, dict.index)
      ensures SameRef(src, off, dict.index, r)
      ensures dict.index.Keys == old(dict.index.Keys) + Span(src, off)
    {
      if off == 0 {
        return 0;
      }
      if off in cache {
        return cache[off];
      }
      match ArenaRead(src, off) {
        case None =>
          r := 0;
        case Some(span) =>
          ReadUvarintBound(src[off..]);
          r := dict.Intern(span);
          cache := cache[off := r];
      }
    }

    method CopyUrl(row: UrlRow) returns (row': UrlRow)
      requires Valid()
      modifies this, dict
      ensures Valid() && Grown(old(dict.arena), old(dict.index), dict.arena, dict.index)
      ensures SameUrl(src, row, dict.index, row')
      ensures dict.index.Keys == old(dict.index.Keys) + UrlSpan(src, row)
    {
      var u := Intern(row.urlRef);
      var e := Intern(row.etagRef);
      var d := Intern(row.redirectRef);
      row' := row.(urlRef := u, etagRef := e, redirectRef := d);
    }

    method CopyHost(row: HostRow) returns (row': HostRow)
      requires Valid()
      modifies this, dict
      ensures Valid() && Grown(old(dict.arena), old(dict.index), dict.arena, dict.index)
      ensures SameHost(src, row, dict.index, row')
      ensures dict.index.Keys == old(dict.index.Keys) + HostSpan(src, row)
    {
      var h := Intern(row.hostRef);
      var g := Intern(row.registrableRef);
      var b := Intern(row.robotsRef);
      row' := row.(hostRef := h, registrableRef := g, robotsRef := b);
    }

    method CopyUrls(urls: seq<UrlRow>) returns (out: seq<UrlRow>)
      requires Valid()
      modifies this, dict
      ensures Valid() && Grown(old(dict.arena), old(dict.index), dict.arena, dict.index)
      ensures SameUrls(src, urls, dict.index, out)
      ensures dict.index.Keys == old(dict.index.Keys) + UrlSpans(src, urls)
    {
      out := [];
      assert urls[..0] == [];
      for i := 0 to |urls|
        invariant Valid() && Grown(old(dict.arena), old(dict.index), dict.arena, dict.index)
        invariant SameUrls(src, urls[..i], dict.index, out)
        invariant dict.index.Keys == old(dict.index.Keys) + UrlSpans(src, urls[..i])
      {
        ghost var was := dict.index;
        var r := CopyUrl(urls[i]);
        UrlsSnoc(src, urls, i, was, dict.index, out, r);
        out := out + [r];
      }
      assert urls[..|urls|] == urls;
    }

    method CopyHosts(hosts: seq<HostRow>) returns (out: seq<HostRow>)
      requires Valid()
      modifies this, dict
      ensures Valid() && Grown(old(dict.arena), old(dict.index), dict.arena, dict.index)
      ensures SameHosts(src, hosts, dict.index, out)
      ensures dict.index.Keys == old(dict.index.Keys) + HostSpans(src, hosts)
    {
      out := [];
      assert hosts[..0] == [];
      for i := 0 to |hosts|
        invariant Valid() && Grown(old(dict.arena), old(dict.index), dict.arena, dict.index)
        invariant SameHosts(src, hosts[..i], dict.index, out)
        invariant dict.index.Keys == old(dict.index.Keys) + HostSpans(src, hosts[..i])
      {
        ghost var was := dict.index;
        var r := CopyHost(hosts[i]);
        HostsSnoc(src, hosts, i, was, dict.index, out, r);
        out := out + [r];
      }
      assert hosts[..|hosts|] == hosts;
    }
  }

  lemma UrlsSnoc(src: bytes, urls: seq<UrlRow>, i: nat, index: map<bytes, nat>, index': map<bytes, nat>,
                 out: seq<UrlRow>, r: UrlRow)
    requires i < |urls| && SameUrls(src, urls[..i], index, out) && SameUrl(src, urls[i], index', r)
    requires forall s :: s in index ==> s in index' && index'[s] == index[s]
    ensures SameUrls(src, urls[..i + 1], index', out + [r])
    ensures UrlSpans(src, urls[..i + 1]) == UrlSpans(src, urls[..i]) + UrlSpan(src, urls[i])
  {
    assert urls[..i + 1][..i] == urls[..i];
    forall k | 0 <= k < i
      ensures SameUrl(src, urls[k], index', out[k])
    {
      assert SameUrl(src, urls[..i][k], index, out[k]);
    }
  }

  lemma HostsSnoc(src: bytes, hosts: seq<HostRow>, i: nat, index: map<bytes, nat>, index': map<bytes, nat>,
                  out: seq<HostRow>, r: HostRow)
    requires i < |hosts| && SameHosts(src, hosts[..i], index, out) && SameHost(src, hosts[i], index', r)
    requires forall s :: s in index ==> s in index' && index'[s] == index[s]
    ensures SameHosts(src, hosts[..i + 1], index', out + [r])
    ensures HostSpans(src, hosts[..i + 1]) == HostSpans(src, hosts[..i]) + HostSpan(src, hosts[i])
  {
    assert hosts[..i + 1][..i] == hosts[..i];
    forall k | 0 <= k < i
      ensures SameHost(src, hosts[k], index', out[k])
    {
      assert SameHost(src, hosts[..i][k], index, out[k]);
    }
  }

  // Rebased rows mean what they meant.
  lemma SameViews(src: bytes, urls: seq<UrlRow>, hosts: seq<HostRow>, d: ArenaDict, urls': seq<UrlRow>, hosts': seq<HostRow>)
    requires d.Valid()
    requires SameUrls(src, urls, d.index, urls') && SameHosts(src, hosts, d.index, hosts')
    ensures UrlViews(d.arena, urls') == UrlViews(src, urls)
    ensures HostViews(d.arena, hosts') == HostViews(src, hosts)
  {
  }

  // The spans a row's references name.
  ghost function Span(src: bytes, off: nat): set<bytes> {
    match ArenaRead(src, off)
    case None => {}
    case Some(s) => {s}
  }

  ghost function UrlSpan(src: bytes, r: UrlRow): set<bytes> {
    Span(src, r.urlRef) + Span(src, r.etagRef) + Span(src, r.redirectRef)
  }

  ghost function HostSpan(src: bytes, r: HostRow): set<bytes> {
    Span(src, r.hostRef) + Span(src, r.registrableRef) + Span(src, r.robotsRef)
  }

  ghost function UrlSpans(src: bytes, urls: seq<UrlRow>): set<bytes> {
    if urls == [] then {} else UrlSpans(src, urls[..|urls| - 1]) + UrlSpan(src, urls[|urls| - 1])
  }

  ghost function HostSpans(src: bytes, hosts: seq<HostRow>): set<bytes> {
    if hosts == [] then {} else HostSpans(src, hosts[..|hosts| - 1]) + HostSpan(src, hosts[|hosts| - 1])
  }

  // The arena holds exactly the spans the rows reference, each once.
  ghost predicate Reclaimed(p: Partition) {
    exists spans: seq<bytes> ::
      && p.strings == [0] + Entries(spans) && Distinct(spans)
      && forall s :: s in spans <==> s in UrlSpans(p.strings, p.urls) + HostSpans(p.strings, p.hosts)
  }

  // Equal spans have equal references.
  ghost predicate Deduplicated(p: Partition) {
    forall r, r' :: r in Refs(p) && r' in Refs(p) && r != 0 && r' != 0 ==>
      ArenaRead(p.strings, r).Some? && (ArenaRead(p.strings, r) == ArenaRead(p.strings, r') ==> r == r')
  }

  ghost function UrlRefs(r: UrlRow): set<nat> {
    {r.urlRef, r.etagRef, r.redirectRef}
  }

  ghost function HostRefs(r: HostRow): set<nat> {
    {r.hostRef, r.registrableRef, r.robotsRef}
  }

  ghost function Refs(p: Partition): set<nat> {
    (set r, x | r in p.urls && x in UrlRefs(r) :: x) + (set r, x | r in p.hosts && x in HostRefs(r) :: x)
  }

  lemma {:induction false} SameUrlSpans(src: bytes, urls: seq<UrlRow>, d: ArenaDict, urls': seq<UrlRow>)
    requires d.Valid() && SameUrls(src, urls, d.index, urls')
    ensures UrlSpans(d.arena, urls') == UrlSpans(src, urls)
  {
    if urls != [] {
      var n := |urls| - 1;
      SameUrlSpans(src, urls[..n], d, urls'[..n]);
      assert SameUrl(src, urls[n], d.index, urls'[n]);
    }
  }

  lemma {:induction false} SameHostSpans(src: bytes, hosts: seq<HostRow>, d: ArenaDict, hosts': seq<HostRow>)
    requires d.Valid() && SameHosts(src, hosts, d.index, hosts')
    ensures HostSpans(d.arena, hosts') == HostSpans(src, hosts)
  {
    if hosts != [] {
      var n := |hosts| - 1;
      SameHostSpans(src, hosts[..n], d, hosts'[..n]);
      assert SameHost(src, hosts[n], d.index, hosts'[n]);
    }
  }

  // What rebaseArena leaves: rows that mean what they meant, over an arena holding their spans once.
  ghost predicate Rebased(src: bytes, urls: seq<UrlRow>, hosts: seq<HostRow>, out: Partition) {
    && UrlViews(out.strings, out.urls) == UrlViews(src, urls)
    && HostViews(out.strings, out.hosts) == HostViews(src, hosts)
    && Deduplicated(out) && Reclaimed(out)
  }

  ghost predicate Interned(index: map<bytes, nat>, r: nat) {
    r == 0 || exists s :: s in index && index[s] == r
  }

  lemma IndexedRefs(d: ArenaDict, p: Partition)
    requires d.Valid() && p.strings == d.arena
    requires forall r :: r in Refs(p) ==> Interned(d.index, r)
    ensures Deduplicated(p)
  {
    forall r, r' | r in Refs(p) && r' in Refs(p) && r != 0 && r' != 0
      ensures ArenaRead(p.strings, r).Some? && (ArenaRead(p.strings, r) == ArenaRead(p.strings, r') ==> r == r')
    {
      var s :| s in d.index && d.index[s] == r;
      var s' :| s' in d.index && d.index[s'] == r';
    }
  }

  lemma RefInterned(src: bytes, r: nat, index: map<bytes, nat>, r': nat)
    requires SameRef(src, r, index, r')
    ensures Interned(index, r')
  {
  }

  lemma UrlsInterned(src: bytes, urls: seq<UrlRow>, index: map<bytes, nat>, urls': seq<UrlRow>)
    requires SameUrls(src, urls, index, urls')
    ensures forall u, r :: u in urls' && r in UrlRefs(u) ==> Interned(index, r)
  {
    forall i, r | 0 <= i < |urls'| && r in UrlRefs(urls'[i])
      ensures Interned(index, r)
    {
      assert SameUrl(src, urls[i], index, urls'[i]);
      RefInterned(src, urls[i].urlRef, index, urls'[i].urlRef);
      RefInterned(src, urls[i].etagRef, index, urls'[i].etagRef);
      RefInterned(src, urls[i].redirectRef, index, urls'[i].redirectRef);
    }
  }

  lemma HostsInterned(src: bytes, hosts: seq<HostRow>, index: map<bytes, nat>, hosts': seq<HostRow>)
    requires SameHosts(src, hosts, index, hosts')
    ensures forall h, r :: h in hosts' && r in HostRefs(h) ==> Interned(index, r)
  {
    forall i, r | 0 <= i < |hosts'| && r in HostRefs(hosts'[i])
      ensures Interned(index, r)
    {
      assert SameHost(src, hosts[i], index, hosts'[i]);
      RefInterned(src, hosts[i].hostRef, index, hosts'[i].hostRef);
      RefInterned(src, hosts[i].registrableRef, index, hosts'[i].registrableRef);
      RefInterned(src, hosts[i].robotsRef, index, hosts'[i].robotsRef);
    }
  }

  // rebaseArena, on a partition whose references still index src.
  method RebaseArena(p: Partition, src: bytes) returns (out: Partition)
    ensures Rebased(src, p.urls, p.hosts, out)
    ensures out == p.(urls := out.urls, hosts := out.hosts, strings := out.strings)
  {
    var dict := new ArenaDict();
    var rb := new Rebaser(src, dict);
    var urls := rb.CopyUrls(p.urls);
    ghost var mid := dict.index;
    var hosts := rb.CopyHosts(p.hosts);
    GrownUrls(src, p.urls, mid, dict.index, urls);
    out := p.(urls := urls, hosts := hosts, strings := dict.arena);
    SameViews(src, p.urls, p.hosts, dict, urls, hosts);
    SameUrlSpans(src, p.urls, dict, urls);
    SameHostSpans(src, p.hosts, dict, hosts);
    UrlsInterned(src, p.urls, dict.index, urls);
    HostsInterned(src, p.hosts, dict.index, hosts);
    IndexedRefs(dict, out);
    assert out.strings == [0] + Entries(dict.spans) && Distinct(dict.spans);
  }

  lemma GrownUrls(src: bytes, urls: seq<UrlRow>, index: map<bytes, nat>, index': map<bytes, nat>, urls': seq<UrlRow>)
    requires SameUrls(src, urls, index, urls')
    requires forall s :: s in index ==> s in index' && index'[s] == index[s]
    ensures SameUrls(src, urls, index', urls')
  {
    forall i | 0 <= i < |urls|
      ensures SameUrl(src, urls[i], index', urls'[i])
    {
      assert SameUrl(src, urls[i], index, urls'[i]);
    }
  }

  // ---- Compact ----

  predicate LiveRow(r: UrlRow) {
    r.status != Gone
  }

  predicate LiveView(v: UrlView) {
    v.status != Gone
  }

  lemma {:induction false} KeepUrlViews(strings: bytes, urls: seq<UrlRow>, f: UrlRow -> bool, g: UrlView -> bool)
    requires forall r :: f(r) == g(ViewUrl(strings, r))
    ensures UrlViews(strings, Keep(urls, f)) == Keep(UrlViews(strings, urls), g)
  {
    if urls != [] {
      var n := |urls| - 1;
      KeepUrlViews(strings, urls[..n], f, g);
      assert UrlViews(strings, urls)[..n] == UrlViews(strings, urls[..n]);
      UrlViewsConcat(strings, Keep(urls[..n], f), if f(urls[n]) then [urls[n]] else []);
    }
  }

  lemma {:induction false} KeepHostViews(strings: bytes, hosts: seq<HostRow>, f: HostRow -> bool, g: HostView -> bool)
    requires forall r :: f(r) == g(ViewHost(strings, r))
    ensures HostViews(strings, Keep(hosts, f)) == Keep(HostViews(strings, hosts), g)
  {
    if hosts != [] {
      var n := |hosts| - 1;
      KeepHostViews(strings, hosts[..n], f, g);
      assert HostViews(strings, hosts)[..n] == HostViews(strings, hosts[..n]);
      HostViewsConcat(strings, Keep(hosts[..n], f), if f(hosts[n]) then [hosts[n]] else []);
    }
  }

  lemma UrlViewsConcat(strings: bytes, a: seq<UrlRow>, b: seq<UrlRow>)
    ensures UrlViews(strings, a + b) == UrlViews(strings, a) + UrlViews(strings, b)
  {
  }

  lemma HostViewsConcat(strings: bytes, a: seq<HostRow>, b: seq<HostRow>)
    ensures HostViews(strings, a + b) == HostViews(strings, a) + HostViews(strings, b)
  {
  }

  lemma KeepSnoc<T>(s: seq<T>, i: nat, f: T -> bool)
    requires i < |s|
    ensures Keep(s[..i + 1], f) == Keep(s[..i], f) + if f(s[i]) then [s[i]] else []
  {
    assert s[..i + 1][..i] == s[..i];
  }

  method Compact(p: Partition) returns (out: Partition)
    ensures UrlViews(out.strings, out.urls) == Keep(UrlViews(p.strings, p.urls), LiveView)
    ensures HostViews(out.strings, out.hosts) == HostViews(p.strings, p.hosts)
    ensures Deduplicated(out) && Reclaimed(out)
    ensures out == p.(urls := out.urls, hosts := out.hosts, strings := out.strings)
  {
    var live := [];
    assert p.urls[..0] == [];
    for i := 0 to |p.urls|
      invariant live == Keep(p.urls[..i], LiveRow)
    {
      KeepSnoc(p.urls, i, LiveRow);
      if p.urls[i].status != Gone {
        live := live + [p.urls[i]];
      }
    }
    assert p.urls[..|p.urls|] == p.urls;
    KeepUrlViews(p.strings, p.urls, LiveRow, LiveView);
    out := RebaseArena(p.(urls := live), p.strings);
  }

  // ---- Extract ----

  ghost function HostIn(moving: set<nat>): UrlView -> bool {
    (v: UrlView) => v.key.host in moving
  }

  ghost function HostOut(moving: set<nat>): UrlView -> bool {
    (v: UrlView) => v.key.host !in moving
  }

  ghost function HostRowIn(moving: set<nat>): HostView -> bool {
    (v: HostView) => v.host in moving
  }

  ghost function HostRowOut(moving: set<nat>): HostView -> bool {
    (v: HostView) => v.host !in moving
  }

  function WithHostRange(p: Partition): Partition {
    if p.hosts == [] then p else p.(lo := p.hosts[0].host, hi := p.hosts[|p.hosts| - 1].host)
  }

  // out holds exactly the rows of the moving hosts and rest all others, in the order they had.
  ghost predicate IsExtract(p: Partition, moving: set<nat>, out: Partition, rest: Partition) {
    && UrlViews(out.strings, out.urls) == Keep(UrlViews(p.strings, p.urls), HostIn(moving))
    && HostViews(out.strings, out.hosts) == Keep(HostViews(p.strings, p.hosts), HostRowIn(moving))
    && UrlViews(rest.strings, rest.urls) == Keep(UrlViews(p.strings, p.urls), HostOut(moving))
    && HostViews(rest.strings, rest.hosts) == Keep(HostViews(p.strings, p.hosts), HostRowOut(moving))
    && Deduplicated(out) && Reclaimed(out) && Deduplicated(rest) && Reclaimed(rest)
    && (out.id, out.created, out.codec, out.meta) == (p.id, p.created, p.codec, p.meta)
    && (rest.id, rest.created, rest.codec, rest.meta) == (p.id, p.created, p.codec, p.meta)
  }

  method Extract(p: Partition, moving: set<nat>) returns (out: Partition, rest: Partition)
    ensures IsExtract(p, moving, out, rest)
  {
    ghost var uin, uout := (r: UrlRow) => r.key.host in moving, (r: UrlRow) => r.key.host !in moving;
    ghost var hin, hout := (r: HostRow) => r.host in moving, (r: HostRow) => r.host !in moving;
    var ou, ru, oh, rh := [], [], [], [];
    assert p.urls[..0] == [] && p.hosts[..0] == [];
    for i := 0 to |p.urls|
      invariant ou == Keep(p.urls[..i], uin) && ru == Keep(p.urls[..i], uout)
    {
      KeepSnoc(p.urls, i, uin);
      KeepSnoc(p.urls, i, uout);
      if p.urls[i].key.host in moving {
        ou := ou + [p.urls[i]];
      } else {
        ru := ru + [p.urls[i]];
      }
    }
    for i := 0 to |p.hosts|
      invariant oh == Keep(p.hosts[..i], hin) && rh == Keep(p.hosts[..i], hout)
    {
      KeepSnoc(p.hosts, i, hin);
      KeepSnoc(p.hosts, i, hout);
      if p.hosts[i].host in moving {
        oh := oh + [p.hosts[i]];
      } else {
        rh := rh + [p.hosts[i]];
      }
    }
    assert p.urls[..|p.urls|] == p.urls && p.hosts[..|p.hosts|] == p.hosts;
    KeepUrlViews(p.strings, p.urls, uin, HostIn(moving));
    KeepUrlViews(p.strings, p.urls, uout, HostOut(moving));
    KeepHostViews(p.strings, p.hosts, hin, HostRowIn(moving));
    KeepHostViews(p.strings, p.hosts, hout, HostRowOut(moving));
    out := RebaseArena(WithHostRange(p.(lo := 0, hi := 0, urls := ou, hosts := oh)), p.strings);
    rest := RebaseArena(WithHostRange(p.(lo := 0, hi := 0, urls := ru, hosts := rh)), p.strings);
  }

  lemma KeepLast<T>(s: seq<T>, f: T -> bool)
    requires s != []
    ensures multiset(Keep(s, f)) == multiset(Keep(s[..|s| - 1], f)) + if f(s[|s| - 1]) then multiset{s[|s| - 1]} else multiset{}
  {
  }

  lemma {:induction false} KeepBothMultiset<T>(s: seq<T>, f: T -> bool, g: T -> bool)
    requires forall x :: f(x) == !g(x)
    ensures multiset(Keep(s, f)) + multiset(Keep(s, g)) == multiset(s)
  {
    if s != [] {
      var n := |s| - 1;
      KeepBothMultiset(s[..n], f, g);
      assert s == s[..n] + [s[n]];
      assert multiset(s) == multiset(s[..n]) + multiset{s[n]};
      KeepLast(s, f);
      KeepLast(s, g);
    }
  }

  // No row is lost or doubled, and no host is on both sides.
  lemma ExtractConserves(p: Partition, moving: set<nat>, out: Partition, rest: Partition)
    requires IsExtract(p, moving, out, rest)
    ensures multiset(UrlViews(out.strings, out.urls)) + multiset(UrlViews(rest.strings, rest.urls))
         == multiset(UrlViews(p.strings, p.urls))
    ensures multiset(HostViews(out.strings, out.hosts)) + multiset(HostViews(rest.strings, rest.hosts))
         == multiset(HostViews(p.strings, p.hosts))
    ensures forall u, v :: u in UrlViews(out.strings, out.urls) && v in UrlViews(rest.strings, rest.urls) ==>
      u.key.host != v.key.host
  {
    KeepBothMultiset(UrlViews(p.strings, p.urls), HostIn(moving), HostOut(moving));
    KeepBothMultiset(HostViews(p.strings, p.hosts), HostRowIn(moving), HostRowOut(moving));
  }

  // ---- Split ----

  ghost predicate IsSplit(p: Partition, at: nat, lo: Partition, hi: Partition) {
    && UrlViews(lo.strings, lo.urls) + UrlViews(hi.strings, hi.urls) == UrlViews(p.strings, p.urls)
    && HostViews(lo.strings, lo.hosts) + HostViews(hi.strings, hi.hosts) == HostViews(p.strings, p.hosts)
    && (forall r :: r in lo.urls ==> r.key.host < at) && (forall r :: r in lo.hosts ==> r.host < at)
    && (forall r :: r in hi.urls ==> r.key.host >= at) && (forall r :: r in hi.hosts ==> r.host >= at)
    && Deduplicated(lo) && Reclaimed(lo) && Deduplicated(hi) && Reclaimed(hi)
    && (lo.id, lo.lo, lo.created, lo.codec, lo.meta) == (p.id, p.lo, p.created, p.codec, p.meta)
    && (hi.id, hi.hi, hi.created, hi.codec, hi.meta) == (p.id, p.hi, p.created, p.codec, p.meta)
    && lo.hi == (if at == 0 then 0 else at - 1) && hi.lo == at
  }

  method Split(p: Partition, at: nat) returns (lo: Partition, hi: Partition)
    requires SortedUrls(p.urls) && SortedHosts(p.hosts)
    ensures IsSplit(p, at, lo, hi)
  {
    var ui := CutUrls(p.urls, at);
    var hi0 := CutHosts(p.hosts, at);
    lo := RebaseArena(p.(hi := if at == 0 then 0 else at - 1, urls := p.urls[..ui], hosts := p.hosts[..hi0]), p.strings);
    hi := RebaseArena(p.(lo := at, urls := p.urls[ui..], hosts := p.hosts[hi0..]), p.strings);
    SplitSides(p, at, ui, hi0, lo, hi);
  }

  method CutUrls(urls: seq<UrlRow>, at: nat) returns (ui: nat)
    requires SortedUrls(urls)
    ensures ui <= |urls|
    ensures forall j :: 0 <= j < ui ==> urls[j].key.host < at
    ensures forall j :: ui <= j < |urls| ==> urls[j].key.host >= at
  {
    var ukeys := seq(|urls|, i requires 0 <= i < |urls| => urls[i].key.host);
    ui := SearchAtLeast(ukeys, at);
    assert forall j :: 0 <= j < |urls| ==> ukeys[j] == urls[j].key.host;
  }

  method CutHosts(hosts: seq<HostRow>, at: nat) returns (hi0: nat)
    requires SortedHosts(hosts)
    ensures hi0 <= |hosts|
    ensures forall j :: 0 <= j < hi0 ==> hosts[j].host < at
    ensures forall j :: hi0 <= j < |hosts| ==> hosts[j].host >= at
  {
    var hkeys := seq(|hosts|, i requires 0 <= i < |hosts| => hosts[i].host);
    hi0 := SearchAtLeast(hkeys, at);
    assert forall j :: 0 <= j < |hosts| ==> hkeys[j] == hosts[j].host;
  }

  // Every row of a half is on its side of the cut.
  lemma SplitSides(p: Partition, at: nat, ui: nat, hi0: nat, lo: Partition, hi: Partition)
    requires ui <= |p.urls| && hi0 <= |p.hosts|
    requires forall j :: 0 <= j < ui ==> p.urls[j].key.host < at
    requires forall j :: ui <= j < |p.urls| ==> p.urls[j].key.host >= at
    requires forall j :: 0 <= j < hi0 ==> p.hosts[j].host < at
    requires forall j :: hi0 <= j < |p.hosts| ==> p.hosts[j].host >= at
    requires Rebased(p.strings, p.urls[..ui], p.hosts[..hi0], lo)
    requires Rebased(p.strings, p.urls[ui..], p.hosts[hi0..], hi)
    ensures (forall r :: r in lo.urls ==> r.key.host < at) && (forall r :: r in lo.hosts ==> r.host < at)
    ensures (forall r :: r in hi.urls ==> r.key.host >= at) && (forall r :: r in hi.hosts ==> r.host >= at)
    ensures UrlViews(lo.strings, lo.urls) + UrlViews(hi.strings, hi.urls) == UrlViews(p.strings, p.urls)
    ensures HostViews(lo.strings, lo.hosts) + HostViews(hi.strings, hi.hosts) == HostViews(p.strings, p.hosts)
  {
    assert p.urls == p.urls[..ui] + p.urls[ui..] && p.hosts == p.hosts[..hi0] + p.hosts[hi0..];
    UrlViewsConcat(p.strings, p.urls[..ui], p.urls[ui..]);
    HostViewsConcat(p.strings, p.hosts[..hi0], p.hosts[hi0..]);
    ViewKeys(lo.strings, lo.urls, lo.hosts, p.strings, p.urls[..ui], p.hosts[..hi0]);
    ViewKeys(hi.strings, hi.urls, hi.hosts, p.strings, p.urls[ui..], p.hosts[hi0..]);
  }

  // Rows with equal views have equal keys.
  lemma ViewKeys(strings: bytes, urls: seq<UrlRow>, hosts: seq<HostRow>,
                 strings': bytes, urls': seq<UrlRow>, hosts': seq<HostRow>)
    requires UrlViews(strings, urls) == UrlViews(strings', urls')
    requires HostViews(strings, hosts) == HostViews(strings', hosts')
    ensures |urls| == |urls'| && |hosts| == |hosts'|
    ensures forall i :: 0 <= i < |urls| ==> urls[i].key == urls'[i].key
    ensures forall i :: 0 <= i < |hosts| ==> hosts[i].host == hosts'[i].host
  {
    assert |UrlViews(strings, urls)| == |UrlViews(strings', urls')|;
    assert |HostViews(strings, hosts)| == |HostViews(strings', hosts')|;
    forall i | 0 <= i < |urls|
      ensures urls[i].key == urls'[i].key
    {
      assert UrlViews(strings, urls)[i] == UrlViews(strings', urls')[i];
    }
    forall i | 0 <= i < |hosts|
      ensures hosts[i].host == hosts'[i].host
    {
      assert HostViews(strings, hosts)[i] == HostViews(strings', hosts')[i];
    }
  }

  // ---- Merge ----

  method IsSortedUrls(urls: seq<UrlRow>) returns (ok: bool)
    ensures ok <==> SortedUrls(urls)
  {
    var i := 1;
    while i < |urls|
      invariant 1 <= i && (i <= |urls| ==> SortedUrls(urls[..i])) && (i > |urls| ==> urls == [])
    {
      if urls[i].key.Less(urls[i - 1].key) {
        return false;
      }
      assert forall j :: 0 <= j < i ==> urls[..i][j] == urls[j];
      i := i + 1;
    }
    assert urls[..|urls|] == urls;
    return true;
  }

  method IsSortedHosts(hosts: seq<HostRow>) returns (ok: bool)
    ensures ok <==> SortedHosts(hosts)
  {
    var i := 1;
    while i < |hosts|
      invariant 1 <= i && (i <= |hosts| ==> SortedHosts(hosts[..i])) && (i > |hosts| ==> hosts == [])
    {
      if hosts[i].host < hosts[i - 1].host {
        return false;
      }
      assert forall j :: 0 <= j < i ==> hosts[..i][j] == hosts[j];
      i := i + 1;
    }
    assert hosts[..|hosts|] == hosts;
    return true;
  }

  // The operands in HostKeyLo order, a first when they tie.
  function Ordered(a: Partition, b: Partition): (Partition, Partition) {
    if b.lo < a.lo then (b, a) else (a, b)
  }

  // Merge concatenates the rows when that leaves both tables sorted, and refuses otherwise.
  ghost predicate IsMerge(a: Partition, b: Partition, r: Option<Partition>) {
    var (x, y) := Ordered(a, b);
    match r
    case None => !(SortedUrls(x.urls + y.urls) && SortedHosts(x.hosts + y.hosts))
    case Some(out) =>
      && SortedUrls(x.urls + y.urls) && SortedHosts(x.hosts + y.hosts)
      && UrlViews(out.strings, out.urls) == UrlViews(x.strings, x.urls) + UrlViews(y.strings, y.urls)
      && HostViews(out.strings, out.hosts) == HostViews(x.strings, x.hosts) + HostViews(y.strings, y.hosts)
      && Deduplicated(out) && Reclaimed(out)
      && (out.id, out.lo, out.created, out.codec, out.meta) == (x.id, x.lo, x.created, x.codec, x.meta)
      && out.hi == if x.hi > y.hi then x.hi else y.hi
  }

  method Merge(a: Partition, b: Partition) returns (r: Option<Partition>)
    ensures IsMerge(a, b, r)
  {
    var (x, y) := Ordered(a, b);
    var su := IsSortedUrls(x.urls + y.urls);
    var sh := IsSortedHosts(x.hosts + y.hosts);
    if !su || !sh {
      return None;
    }
    var dict, xu, yu, xh, yh := CopyBoth(x, y);
    var out := x.(hi := if x.hi > y.hi then x.hi else y.hi, urls := xu + yu, hosts := xh + yh, strings := dict.arena);
    MergedRows(x, y, dict, xu, yu, xh, yh, out);
    r := Some(out);
  }

  // Each source has its own offset cache; the dictionary, keyed by content, is shared.
  method CopyBoth(x: Partition, y: Partition)
    returns (dict: ArenaDict, xu: seq<UrlRow>, yu: seq<UrlRow>, xh: seq<HostRow>, yh: seq<HostRow>)
    ensures fresh(dict) && dict.Valid()
    ensures SameUrls(x.strings, x.urls, dict.index, xu) && SameUrls(y.strings, y.urls, dict.index, yu)
    ensures SameHosts(x.strings, x.hosts, dict.index, xh) && SameHosts(y.strings, y.hosts, dict.index, yh)
    ensures dict.index.Keys == UrlSpans(x.strings, x.urls) + UrlSpans(y.strings, y.urls) +
                               HostSpans(x.strings, x.hosts) + HostSpans(y.strings, y.hosts)
  {
    dict := new ArenaDict();
    var ca := new Rebaser(x.strings, dict);
    var cb := new Rebaser(y.strings, dict);
    xu := ca.CopyUrls(x.urls);
    ghost var i1 := dict.index;
    yu := cb.CopyUrls(y.urls);
    CacheGrows(ca.src, ca.cache, i1, dict.index);
    ghost var i2 := dict.index;
    xh := ca.CopyHosts(x.hosts);
    CacheGrows(cb.src, cb.cache, i2, dict.index);
    ghost var i3 := dict.index;
    yh := cb.CopyHosts(y.hosts);
    GrownUrls(x.strings, x.urls, i1, dict.index, xu);
    GrownUrls(y.strings, y.urls, i2, dict.index, yu);
    GrownHosts(x.strings, x.hosts, i3, dict.index, xh);
  }

  lemma CacheGrows(src: bytes, cache: map<nat, nat>, index: map<bytes, nat>, index': map<bytes, nat>)
    requires forall off :: off in cache ==> ArenaRead(src, off).Some? && SameRef(src, off, index, cache[off])
    requires forall s :: s in index ==> s in index' && index'[s] == index[s]
    ensures forall off :: off in cache ==> ArenaRead(src, off).Some? && SameRef(src, off, index', cache[off])
  {
  }

  lemma MergedRows(x: Partition, y: Partition, d: ArenaDict, xu: seq<UrlRow>, yu: seq<UrlRow>,
                   xh: seq<HostRow>, yh: seq<HostRow>, out: Partition)
    requires d.Valid()
    requires SameUrls(x.strings, x.urls, d.index, xu) && SameUrls(y.strings, y.urls, d.index, yu)
    requires SameHosts(x.strings, x.hosts, d.index, xh) && SameHosts(y.strings, y.hosts, d.index, yh)
    requires out.urls == xu + yu && out.hosts == xh + yh && out.strings == d.arena
    requires d.index.Keys == UrlSpans(x.strings, x.urls) + UrlSpans(y.strings, y.urls) +
                             HostSpans(x.strings, x.hosts) + HostSpans(y.strings, y.hosts)
    ensures UrlViews(out.strings, out.urls) == UrlViews(x.strings, x.urls) + UrlViews(y.strings, y.urls)
    ensures HostViews(out.strings, out.hosts) == HostViews(x.strings, x.hosts) + HostViews(y.strings, y.hosts)
    ensures Deduplicated(out) && Reclaimed(out)
  {
    SameViews(x.strings, x.urls, x.hosts, d, xu, xh);
    SameViews(y.strings, y.urls, y.hosts, d, yu, yh);
    UrlViewsConcat(d.arena, xu, yu);
    HostViewsConcat(d.arena, xh, yh);
    MergedSpans(x, y, d, xu, yu, xh, yh, out);
    UrlsInterned(x.strings, x.urls, d.index, xu);
    UrlsInterned(y.strings, y.urls, d.index, yu);
    HostsInterned(x.strings, x.hosts, d.index, xh);
    HostsInterned(y.strings, y.hosts, d.index, yh);
    IndexedRefs(d, out);
  }

  lemma MergedSpans(x: Partition, y: Partition, d: ArenaDict, xu: seq<UrlRow>, yu: seq<UrlRow>,
                    xh: seq<HostRow>, yh: seq<HostRow>, out: Partition)
    requires d.Valid()
    requires SameUrls(x.strings, x.urls, d.index, xu) && SameUrls(y.strings, y.urls, d.index, yu)
    requires SameHosts(x.strings, x.hosts, d.index, xh) && SameHosts(y.strings, y.hosts, d.index, yh)
    requires out.urls == xu + yu && out.hosts == xh + yh && out.strings == d.arena
    requires d.index.Keys == UrlSpans(x.strings, x.urls) + UrlSpans(y.strings, y.urls) +
                             HostSpans(x.strings, x.hosts) + HostSpans(y.strings, y.hosts)
    ensures Reclaimed(out)
  {
    SameUrlSpans(x.strings, x.urls, d, xu);
    SameUrlSpans(y.strings, y.urls, d, yu);
    SameHostSpans(x.strings, x.hosts, d, xh);
    SameHostSpans(y.strings, y.hosts, d, yh);
    SpansConcat(d.arena, xu, yu, xh, yh);
    assert out.strings == [0] + Entries(d.spans) && Distinct(d.spans);
  }

  lemma GrownHosts(src: bytes, hosts: seq<HostRow>, index: map<bytes, nat>, index': map<bytes, nat>, hosts': seq<HostRow>)
    requires SameHosts(src, hosts, index, hosts')
    requires forall s :: s in index ==> s in index' && index'[s] == index[s]
    ensures SameHosts(src, hosts, index', hosts')
  {
    forall i | 0 <= i < |hosts|
      ensures SameHost(src, hosts[i], index', hosts'[i])
    {
      assert SameHost(src, hosts[i], index, hosts'[i]);
    }
  }

  lemma LastOfConcat<T>(a: seq<T>, b: seq<T>)
    requires b != []
    ensures (a + b)[..|a + b| - 1] == a + b[..|b| - 1] && (a + b)[|a + b| - 1] == b[|b| - 1]
  {
  }

  lemma {:induction false} UrlSpansConcat(src: bytes, a: seq<UrlRow>, b: seq<UrlRow>)
    ensures UrlSpans(src, a + b) == UrlSpans(src, a) + UrlSpans(src, b)
  {
    if b == [] {
      assert a + b == a;
    } else {
      var n := |b| - 1;
      LastOfConcat(a, b);
      UrlSpansConcat(src, a, b[..n]);
      assert UrlSpans(src, a + b) == UrlSpans(src, a + b[..n]) + UrlSpan(src, b[n]);
    }
  }

  lemma {:induction false} HostSpansConcat(src: bytes, a: seq<HostRow>, b: seq<HostRow>)
    ensures HostSpans(src, a + b) == HostSpans(src, a) + HostSpans(src, b)
  {
    if b == [] {
      assert a + b == a;
    } else {
      var n := |b| - 1;
      LastOfConcat(a, b);
      HostSpansConcat(src, a, b[..n]);
      assert HostSpans(src, a + b) == HostSpans(src, a + b[..n]) + HostSpan(src, b[n]);
    }
  }

  lemma SpansConcat(src: bytes, a: seq<UrlRow>, b: seq<UrlRow>, c: seq<HostRow>, d: seq<HostRow>)
    ensures UrlSpans(src, a + b) == UrlSpans(src, a) + UrlSpans(src, b)
    ensures HostSpans(src, c + d) == HostSpans(src, c) + HostSpans(src, d)
  {
    UrlSpansConcat(src, a, b);
    HostSpansConcat(src, c, d);
  }

  // The rows of the two halves, back to back, have the original's keys and so its order.
  lemma SplitKeys(p: Partition, at: nat, lo: Partition, hi: Partition)
    requires SortedUrls(p.urls) && SortedHosts(p.hosts) && IsSplit(p, at, lo, hi)
    ensures SortedUrls(lo.urls + hi.urls) && SortedHosts(lo.hosts + hi.hosts)
  {
    var us, hs := lo.urls + hi.urls, lo.hosts + hi.hosts;
    assert |us| == |UrlViews(p.strings, p.urls)| && |hs| == |HostViews(p.strings, p.hosts)|;
    forall i | 0 <= i < |us|
      ensures us[i].key == p.urls[i].key
    {
      assert (UrlViews(lo.strings, lo.urls) + UrlViews(hi.strings, hi.urls))[i].key == us[i].key;
      assert UrlViews(p.strings, p.urls)[i].key == p.urls[i].key;
    }
    forall i | 0 <= i < |hs|
      ensures hs[i].host == p.hosts[i].host
    {
      assert (HostViews(lo.strings, lo.hosts) + HostViews(hi.strings, hi.hosts))[i].host == hs[i].host;
      assert HostViews(p.strings, p.hosts)[i].host == p.hosts[i].host;
    }
  }

  // Merge is the inverse of Split up to the renaming of references. The one input it refuses is a
  // cut below the partition's range with rows on both sides; the range itself comes back exactly
  // when the cut lies within it.
  lemma MergeUndoesSplit(p: Partition, at: nat, lo: Partition, hi: Partition, r: Option<Partition>)
    requires SortedUrls(p.urls) && SortedHosts(p.hosts)
    requires IsSplit(p, at, lo, hi) && IsMerge(lo, hi, r)
    ensures r.Some? <==>
      p.lo <= at || ((lo.urls == [] || hi.urls == []) && (lo.hosts == [] || hi.hosts == []))
    ensures r.Some? ==>
      var out := r.value;
      && UrlViews(out.strings, out.urls) == UrlViews(p.strings, p.urls)
      && HostViews(out.strings, out.hosts) == HostViews(p.strings, p.hosts)
      && (out.id, out.created, out.codec, out.meta) == (p.id, p.created, p.codec, p.meta)
      && (out.lo == p.lo <==> p.lo <= at) && (out.hi == p.hi <==> at <= p.hi + 1)
  {
    SplitKeys(p, at, lo, hi);
    if at < p.lo {
      SwappedHalves(at, lo, hi);
      if (lo.urls == [] || hi.urls == []) && (lo.hosts == [] || hi.hosts == []) {
        assert hi.urls + lo.urls == lo.urls + hi.urls && hi.hosts + lo.hosts == lo.hosts + hi.hosts;
        var (lu, hu) := (UrlViews(lo.strings, lo.urls), UrlViews(hi.strings, hi.urls));
        var (lh, hh) := (HostViews(lo.strings, lo.hosts), HostViews(hi.strings, hi.hosts));
        assert hu + lu == lu + hu && hh + lh == lh + hh;
      }
    }
  }

  lemma SwappedHalves(at: nat, lo: Partition, hi: Partition)
    requires (forall r :: r in lo.urls ==> r.key.host < at) && (forall r :: r in lo.hosts ==> r.host < at)
    requires (forall r :: r in hi.urls ==> r.key.host >= at) && (forall r :: r in hi.hosts ==> r.host >= at)
    ensures lo.urls != [] && hi.urls != [] ==> !SortedUrls(hi.urls + lo.urls)
    ensures lo.hosts != [] && hi.hosts != [] ==> !SortedHosts(hi.hosts + lo.hosts)
  {
    if lo.urls != [] && hi.urls != [] {
      var s := hi.urls + lo.urls;
      assert s[0] == hi.urls[0] && s[|hi.urls|] == lo.urls[0];
      assert s[|hi.urls|].key.Less(s[0].key);
    }
    if lo.hosts != [] && hi.hosts != [] {
      var s := hi.hosts + lo.hosts;
      assert s[0] == hi.hosts[0] && s[|hi.hosts|] == lo.hosts[0];
    }
  }
}
