// The 128-bit identity of a URL (urlkey.go) and its order, and sort.Search over an ascending column.
module Keys {
  import opened Bytes

  datatype URLKey = URLKey(host: uint64, path: uint64)
  {
    // HostKey first, then PathKey.
    predicate Less(b: URLKey) {
      if host != b.host then host < b.host else path < b.path
    }
  }

  // sort.Search for the first element at or above bound.
  method SearchAtLeast(s: seq<nat>, bound: nat) returns (i: nat)
    requires forall j, k :: 0 <= j < k < |s| ==> s[j] <= s[k]
    ensures i <= |s|
    ensures forall j :: 0 <= j < i ==> s[j] < bound
    ensures forall j :: i <= j < |s| ==> s[j] >= bound
  {
    i := 0;
    var hi := |s|;
    while i < hi
      invariant 0 <= i <= hi <= |s|
      invariant forall j :: 0 <= j < i ==> s[j] < bound
      invariant forall j :: hi <= j < |s| ==> s[j] >= bound
    {
      var mid := (i + hi) / 2;
      if s[mid] >= bound {
        hi := mid;
      } else {
        i := mid + 1;
      }
    }
  }
}
