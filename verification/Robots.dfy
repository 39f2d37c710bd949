// Model of robots/robots.go: the wildcard matcher, the longest-match verdict and the choice of group.
// Each is compared with RFC 9309: patterns with section 2.2.3, the verdict with section 2.2.2, and the
// choice of one group with section 2.2.1, which combines all that match.
module Robots {
  import opened Wrappers

  // ---- Go's string functions ----

  predicate HasPrefix(s: string, t: string) {
    |t| <= |s| && s[..|t|] == t
  }

  predicate HasSuffix(s: string, t: string) {
    |t| <= |s| && s[|s| - |t|..] == t
  }

  // strings.Index: the first place t occurs in s, or -1.
  function Index(s: string, t: string): (r: int)
    ensures -1 <= r && (r >= 0 ==> r + |t| <= |s|)
  {
    if HasPrefix(s, t) then 0
    else if s == "" then -1
    else
      var r := Index(s[1..], t);
      if r < 0 then -1 else r + 1
  }

  lemma {:induction false} IndexLeast(s: string, t: string, k: nat)
    requires k <= |s| && HasPrefix(s[k..], t)
    ensures 0 <= Index(s, t) <= k && HasPrefix(s[Index(s, t)..], t)
  {
    assert s[0..] == s;
    if !HasPrefix(s, t) {
      assert k > 0;
      assert s[1..][k - 1..] == s[k..];
      IndexLeast(s[1..], t, k - 1);
      assert s[1..][Index(s[1..], t)..] == s[Index(s, t)..];
    }
  }

  lemma {:induction false} IndexFound(s: string, t: string)
    ensures Index(s, t) >= 0 ==> HasPrefix(s[Index(s, t)..], t)
  {
    assert s[0..] == s;
    if !HasPrefix(s, t) && s != "" {
      IndexFound(s[1..], t);
      if Index(s, t) >= 0 {
        assert s[1..][Index(s[1..], t)..] == s[Index(s, t)..];
      }
    }
  }

  // strings.Split(p, "*")
  function Split(p: string): (r: seq<string>)
    ensures |r| >= 1
  {
    if p == "" then [""]
    else
      var rest := Split(p[1..]);
      if p[0] == '*' then [""] + rest else [[p[0]] + rest[0]] + rest[1..]
  }

  // ---- what a pattern means ----

  // A star stands for any run of characters, every other character for itself; the match need only be
  // a prefix of the path unless the pattern is anchored.
  ghost predicate Glob(body: string, anchored: bool, path: string) {
    if body == "" then anchored ==> path == ""
    else if body[0] == '*' then exists k :: 0 <= k <= |path| && Glob(body[1..], anchored, path[k..])
    else path != "" && path[0] == body[0] && Glob(body[1..], anchored, path[1..])
  }

  predicate Anchored(pattern: string) {
    HasSuffix(pattern, "$")
  }

  function Body(pattern: string): string {
    if Anchored(pattern) then pattern[..|pattern| - 1] else pattern
  }

  // A final dollar anchors the rest of the pattern to the end of the path.
  ghost predicate Matches(pattern: string, path: string) {
    Glob(Body(pattern), Anchored(pattern), path)
  }

  // ---- segments ----

  // The segments occur in order, each behind a star, the last at the end of an anchored path.
  ghost predicate Rest(segments: seq<string>, anchored: bool, path: string)
    decreases |segments|, 0
  {
    if segments == [] then anchored ==> path == ""
    else exists k :: 0 <= k <= |path| && Follows(path[k..], segments[0], segments[1..], anchored)
  }

  ghost predicate Follows(path: string, segment: string, segments: seq<string>, anchored: bool)
    decreases |segments|, 1
  {
    HasPrefix(path, segment) && Rest(segments, anchored, path[|segment|..])
  }

  lemma {:induction false} GlobIsSegments(body: string, anchored: bool, path: string)
    ensures Glob(body, anchored, path) <==> Follows(path, Split(body)[0], Split(body)[1..], anchored)
    decreases |body|
  {
    if body == "" {
      assert path[0..] == path;
    } else if body[0] == '*' {
      GlobStar(body, anchored, path);
    } else {
      var rest := Split(body[1..]);
      if path != "" && path[0] == body[0] {
        GlobIsSegments(body[1..], anchored, path[1..]);
        HeadOf(path, body[0], rest[0], rest[1..], anchored);
      } else {
        assert !HasPrefix(path, [body[0]] + rest[0]);
      }
    }
  }

  lemma {:induction false} GlobStar(body: string, anchored: bool, path: string)
    requires body != "" && body[0] == '*'
    ensures Glob(body, anchored, path) <==> Follows(path, Split(body)[0], Split(body)[1..], anchored)
    decreases |body|, 0
  {
    var rest := Split(body[1..]);
    assert Split(body)[1..] == rest && path[0..] == path;
    forall k | 0 <= k <= |path|
      ensures Glob(body[1..], anchored, path[k..]) <==> Follows(path[k..], rest[0], rest[1..], anchored)
    {
      GlobIsSegments(body[1..], anchored, path[k..]);
    }
  }

  lemma HeadOf(path: string, c: char, segment: string, segments: seq<string>, anchored: bool)
    requires path != "" && path[0] == c
    ensures Follows(path, [c] + segment, segments, anchored) <==> Follows(path[1..], segment, segments, anchored)
  {
    var whole := [c] + segment;
    if |whole| <= |path| {
      assert path[..|whole|] == [c] + path[1..][..|segment|];
      assert path[..|whole|] == whole ==> path[1..][..|segment|] == path[..|whole|][1..];
      assert path[|whole|..] == path[1..][|segment|..];
    }
  }

  // Dropping a run of characters ahead of a star does not lose a match.
  lemma Absorbs(segments: seq<string>, anchored: bool, path: string, j: nat)
    requires j <= |path| && (segments != [] || !anchored) && Rest(segments, anchored, path[j..])
    ensures Rest(segments, anchored, path)
  {
    if segments != [] {
      var k :| 0 <= k <= |path[j..]| && Follows(path[j..][k..], segments[0], segments[1..], anchored);
      assert path[j..][k..] == path[j + k..];
    }
  }

  // Taking the first occurrence of a segment is enough, unless the segment must end the path.
  lemma LeftmostIsEnough(segments: seq<string>, anchored: bool, path: string)
    requires segments != [] && (|segments| > 1 || !anchored)
    ensures Rest(segments, anchored, path) <==>
      Index(path, segments[0]) >= 0 && Rest(segments[1..], anchored, path[Index(path, segments[0]) + |segments[0]|..])
  {
    hide Rest, Index;
    if Rest(segments, anchored, path) {
      Occurs(segments, anchored, path);
    }
    var at := Index(path, segments[0]);
    if at >= 0 && Rest(segments[1..], anchored, path[at + |segments[0]|..]) {
      AtOccurrence(segments, anchored, path, at);
    }
  }

  lemma Occurs(segments: seq<string>, anchored: bool, path: string)
    requires segments != [] && (|segments| > 1 || !anchored) && Rest(segments, anchored, path)
    ensures Index(path, segments[0]) >= 0 && Rest(segments[1..], anchored, path[Index(path, segments[0]) + |segments[0]|..])
  {
    var k :| 0 <= k <= |path| && Follows(path[k..], segments[0], segments[1..], anchored);
    hide Rest, Follows, Index;
    Leftmost(segments[0], segments[1..], anchored, path, k);
  }

  lemma AtOccurrence(segments: seq<string>, anchored: bool, path: string, at: nat)
    requires segments != [] && at == Index(path, segments[0]) && Rest(segments[1..], anchored, path[at + |segments[0]|..])
    ensures Rest(segments, anchored, path)
  {
    var t, rest := segments[0], segments[1..];
    IndexFound(path, t);
    hide Index;
    assert path[at..][|t|..] == path[at + |t|..];
    assert Follows(path[at..], t, rest, anchored);
  }

  lemma Leftmost(t: string, rest: seq<string>, anchored: bool, path: string, k: nat)
    requires k <= |path| && Follows(path[k..], t, rest, anchored) && (rest != [] || !anchored)
    ensures Index(path, t) >= 0 && Rest(rest, anchored, path[Index(path, t) + |t|..])
  {
    hide Rest, Index;
    IndexLeast(path, t, k);
    var at := Index(path, t);
    assert path[k..][|t|..] == path[at + |t|..][k - at..];
    Absorbs(rest, anchored, path[at + |t|..], k - at);
  }

  // The last segment of an anchored pattern must be a suffix.
  lemma LastIsSuffix(t: string, path: string)
    ensures Rest([t], true, path) <==> HasSuffix(path, t)
  {
    hide Rest, HasSuffix;
    if HasSuffix(path, t) {
      SuffixEnds(t, path);
    }
    if Rest([t], true, path) {
      EndsInSuffix(t, path);
    }
  }

  lemma SuffixEnds(t: string, path: string)
    requires HasSuffix(path, t)
    ensures Rest([t], true, path)
  {
    assert [t][1..] == [];
    var k := |path| - |t|;
    assert path[k..][|t|..] == "" && path[k..][..|t|] == t;
    assert Follows(path[k..], t, [], true);
  }

  lemma EndsInSuffix(t: string, path: string)
    requires Rest([t], true, path)
    ensures HasSuffix(path, t)
  {
    assert [t][1..] == [];
    var k :| 0 <= k <= |path| && Follows(path[k..], t, [], true);
    assert path[k..][|t|..] == "";
    assert path[k..] == t && k == |path| - |t|;
  }

  // ---- match ----

  // What remains to be matched before segment i, when the matcher stands at pos.
  ghost predicate Pending(segments: seq<string>, anchored: bool, path: string, i: nat, pos: nat)
    requires segments != [] && i <= |segments| && pos <= |path|
  {
    if i == 0 then Follows(path, segments[0], segments[1..], anchored)
    else if i == |segments| && i > 1 && anchored && segments[i - 1] == "" then true
    else Rest(segments[i..], anchored, path[pos..])
  }

  lemma AtFirst(segments: seq<string>, anchored: bool, path: string)
    requires segments != []
    ensures Pending(segments, anchored, path, 0, 0) <==> HasPrefix(path, segments[0]) && Pending(segments, anchored, path, 1, |segments[0]|)
  {
  }

  lemma AtLast(segments: seq<string>, path: string, i: nat, pos: nat)
    requires 0 < i && i + 1 == |segments| && pos <= |path|
    ensures Pending(segments, true, path, i, pos) <==> HasSuffix(path[pos..], segments[i])
    ensures HasSuffix(path[pos..], segments[i]) ==> Pending(segments, true, path, i + 1, |path|)
    ensures segments[i] == "" ==> Pending(segments, true, path, i, pos) && Pending(segments, true, path, i + 1, pos)
  {
    assert segments[i..] == [segments[i]];
    LastIsSuffix(segments[i], path[pos..]);
    assert segments[i + 1..] == [] && path[|path|..] == "";
  }

  lemma AtLater(segments: seq<string>, anchored: bool, path: string, i: nat, pos: nat)
    requires 0 < i < |segments| && (i + 1 < |segments| || !anchored) && pos <= |path|
    ensures var at := Index(path[pos..], segments[i]);
      Pending(segments, anchored, path, i, pos) <==> at >= 0 && Pending(segments, anchored, path, i + 1, pos + at + |segments[i]|)
    ensures segments[i] == "" ==> Index(path[pos..], segments[i]) == 0
  {
    var here := path[pos..];
    LeftmostIsEnough(segments[i..], anchored, here);
    var at := Index(here, segments[i]);
    assert segments[i..][1..] == segments[i + 1..];
    if at >= 0 {
      assert here[at + |segments[i]|..] == path[pos + at + |segments[i]|..];
    }
  }

  lemma AtEnd(segments: seq<string>, anchored: bool, path: string, pos: nat)
    requires segments != [] && pos <= |path|
    ensures Pending(segments, anchored, path, |segments|, pos) <==>
      (|segments| > 1 && anchored && segments[|segments| - 1] == "") || (anchored ==> pos == |path|)
  {
    assert segments[|segments|..] == [];
  }

  lemma OneEmptySegment(body: string)
    ensures Split(body) == [""] <==> body == ""
  {
  }

  // What the matcher promises: the meaning of the pattern, an empty pattern matching nothing.
  ghost predicate Accepts(pattern: string, path: string) {
    pattern != "" && Matches(pattern, path)
  }

  // What it decides: it takes every path for the pattern that is a dollar alone.
  ghost predicate MatcherAccepts(pattern: string, path: string) {
    pattern == "$" || Accepts(pattern, path)
  }

  // match
  method Match(pattern: string, path: string) returns (r: bool)
    ensures r <==> MatcherAccepts(pattern, path)
  {
    hide Pending, Matches, Rest, Follows, Split, Index;
    if pattern == "" {
      return false;
    }
    var anchored := HasSuffix(pattern, "$");
    var body := if anchored then pattern[..|pattern| - 1] else pattern;
    var segments := Split(body);
    Dollar(pattern, body, anchored);
    Opening(pattern, body, anchored, path);
    var pos: nat, i: nat := 0, 0;
    while i < |segments|
      invariant i <= |segments| && pos <= |path| && (i == 0 ==> pos == 0)
      invariant Matches(pattern, path) <==> Pending(segments, anchored, path, i, pos)
    {
      var seg := segments[i];
      if i == 0 {
        AtFirst(segments, anchored, path);
      } else if i + 1 == |segments| && anchored {
        AtLast(segments, path, i, pos);
      } else {
        AtLater(segments, anchored, path, i, pos);
      }
      if seg == "" {
        i := i + 1;
        continue;
      }
      if i == 0 {
        if !HasPrefix(path[pos..], seg) {
          return false;
        }
        pos := pos + |seg|;
        i := i + 1;
        continue;
      }
      if i == |segments| - 1 && anchored {
        if !HasSuffix(path[pos..], seg) {
          return false;
        }
        pos := |path|;
        i := i + 1;
        continue;
      }
      var at := Index(path[pos..], seg);
      if at < 0 {
        return false;
      }
      pos := pos + at + |seg|;
      i := i + 1;
    }
    AtEnd(segments, anchored, path, pos);
    if anchored && LastSegmentEmpty(segments) {
      return true;
    }
    if anchored && pos != |path| {
      return false;
    }
    return true;
  }

  // lastSegmentEmpty
  predicate LastSegmentEmpty(segments: seq<string>) {
    |segments| > 0 && segments[|segments| - 1] == ""
  }

  lemma Opening(pattern: string, body: string, anchored: bool, path: string)
    requires anchored == Anchored(pattern) && body == Body(pattern)
    ensures Matches(pattern, path) <==> Pending(Split(body), anchored, path, 0, 0)
  {
    GlobIsSegments(body, anchored, path);
  }

  lemma Dollar(pattern: string, body: string, anchored: bool)
    requires pattern != "" && anchored == Anchored(pattern) && body == Body(pattern)
    ensures pattern == "$" <==> anchored && Split(body) == [""]
  {
    OneEmptySegment(body);
    if anchored {
      assert pattern == body + "$";
    }
  }

  // Where the matcher and the meaning agree: everywhere but on a lone dollar against a non-empty path.
  lemma AgreesUnlessDollar(pattern: string, path: string)
    ensures (MatcherAccepts(pattern, path) <==> Accepts(pattern, path)) <==> !(pattern == "$" && path != "")
  {
    if pattern == "$" {
      assert Body(pattern) == "";
    }
  }

  lemma DollarMatchesTooMuch()
    ensures MatcherAccepts("$", "/a") && !Accepts("$", "/a")
  {
    assert Body("$") == "";
  }

  // ---- the verdict ----

  datatype Rule = Rule(pattern: string, allow: bool)
  {
    function Length(): nat {
      PatternLength(pattern)
    }
  }

  // patternLength: a final dollar does not count.
  function PatternLength(p: string): nat {
    if HasSuffix(p, "$") then |p| - 1 else |p|
  }

  // Does the matcher apply the rule to the path?
  ghost predicate Applies(rule: Rule, path: string) {
    MatcherAccepts(rule.pattern, path)
  }

  // A path may be fetched when every rule forbidding it is matched by a permission at least as long.
  ghost predicate Permitted(rules: set<Rule>, path: string) {
    forall d :: d in rules && Applies(d, path) && !d.allow ==>
      exists a :: a in rules && Applies(a, path) && a.allow && a.Length() >= d.Length()
  }

  // The longest applying rule decides, an Allow winning a tie; with none, the path is allowed.
  ghost predicate LongestAllows(rules: set<Rule>, path: string) {
    (forall r :: r in rules ==> !Applies(r, path))
    || exists a :: a in rules && Applies(a, path) && a.allow && forall r :: r in rules && Applies(r, path) ==> r.Length() <= a.Length()
  }

  ghost function Elements(rules: seq<Rule>): set<Rule> {
    set r | r in rules
  }

  lemma {:induction false} Longest(rules: set<Rule>, path: string) returns (m: Rule)
    requires exists r :: r in rules && Applies(r, path)
    ensures m in rules && Applies(m, path) && forall r :: r in rules && Applies(r, path) ==> r.Length() <= m.Length()
    decreases rules
  {
    hide Applies;
    m :| m in rules && Applies(m, path);
    if exists r :: r in rules && Applies(r, path) && r.Length() > m.Length() {
      m := Longest(rules - {m}, path);
    }
  }

  lemma PermittedIsLongestMatch(rules: set<Rule>, path: string)
    ensures Permitted(rules, path) <==> LongestAllows(rules, path)
  {
    hide Applies;
    if exists r :: r in rules && Applies(r, path) {
      var m := Longest(rules, path);
      if Permitted(rules, path) && !m.allow {
        var a :| a in rules && Applies(a, path) && a.allow && a.Length() >= m.Length();
      }
    }
  }

  // With no lone dollar among the patterns, the verdict is the one their meaning gives.
  lemma VerdictByMeaning(rules: set<Rule>, path: string)
    requires forall r :: r in rules ==> r.pattern != "$"
    ensures Permitted(rules, path) <==>
      forall d :: d in rules && Accepts(d.pattern, path) && !d.allow ==>
        exists a :: a in rules && Accepts(a.pattern, path) && a.allow && a.Length() >= d.Length()
  {
    hide Accepts;
    forall r | r in rules
      ensures Applies(r, path) <==> Accepts(r.pattern, path)
    {
    }
  }

  // The verdict by octets: section 2.2.2 of RFC 9309 counts those of the whole pattern, a final dollar
  // among them.
  ghost predicate PermittedByOctets(rules: set<Rule>, path: string) {
    forall d :: d in rules && Applies(d, path) && !d.allow ==>
      exists a :: a in rules && Applies(a, path) && a.allow && |a.pattern| >= |d.pattern|
  }

  // Of the applying rules of its kind, m is a longest, and an anchored one if a longest is.
  ghost predicate Top(rules: set<Rule>, path: string, m: Rule) {
    && m in rules && Applies(m, path)
    && forall r :: r in rules && Applies(r, path) && r.allow == m.allow ==>
         r.Length() < m.Length() || (r.Length() == m.Length() && (Anchored(r.pattern) ==> Anchored(m.pattern)))
  }

  lemma {:induction false} TopExists(rules: set<Rule>, path: string, allow: bool) returns (m: Rule)
    requires exists r :: r in rules && Applies(r, path) && r.allow == allow
    ensures Top(rules, path, m) && m.allow == allow
    decreases rules
  {
    hide Applies, Anchored, Rule.Length;
    m :| m in rules && Applies(m, path) && m.allow == allow;
    if exists r :: r in rules && Applies(r, path) && r.allow == allow && r != m {
      var t := TopExists(rules - {m}, path, allow);
      if t.Length() > m.Length() || (t.Length() == m.Length() && (Anchored(m.pattern) ==> Anchored(t.pattern))) {
        m := t;
      }
    }
  }

  // The verdict is the one by octets unless a prohibition's dollar would have broken a tie against it, or
  // a permission's dollar would have made one.
  lemma OctetVerdictIff(rules: set<Rule>, path: string, a: Rule, d: Rule)
    requires Top(rules, path, a) && a.allow && Top(rules, path, d) && !d.allow
    ensures (Permitted(rules, path) <==> PermittedByOctets(rules, path)) <==>
      && !(a.Length() == d.Length() && Anchored(d.pattern) && !Anchored(a.pattern))
      && !(a.Length() + 1 == d.Length() && Anchored(a.pattern) && !Anchored(d.pattern))
  {
    hide Applies;
    assert Permitted(rules, path) <==> a.Length() >= d.Length();
    assert PermittedByOctets(rules, path) <==> |a.pattern| >= |d.pattern|;
  }

  // Where only one kind of rule applies, the count plays no part.
  lemma OneKindByOctets(rules: set<Rule>, path: string, allow: bool)
    requires forall r :: r in rules && Applies(r, path) ==> r.allow == allow
    ensures Permitted(rules, path) <==> PermittedByOctets(rules, path)
  {
    hide Applies;
  }

  // Disallow: /a$ against Allow: /a on /a is a tie to the code, and four octets against three to the
  // standard.
  lemma DollarLosesTie()
    ensures var rules := {Rule("/a$", false), Rule("/a", true)};
      Permitted(rules, "/a") && !PermittedByOctets(rules, "/a")
  {
    AppliesToA();
    hide Applies;
    var rules := {Rule("/a$", false), Rule("/a", true)};
    assert Rule("/a", true).Length() == Rule("/a$", false).Length() == 2;
    assert Rule("/a", true) in rules && Rule("/a$", false) in rules;
  }

  lemma AppliesToA()
    ensures Applies(Rule("/a$", false), "/a") && Applies(Rule("/a", true), "/a")
  {
    assert Body("/a$") == "/a" && Body("/a") == "/a" && "/a"[1..] == "a" && "a"[1..] == "";
    assert Glob("", true, "") && Glob("a", true, "a") && Glob("/a", true, "/a");
  }

  // Lengthening the file cannot revoke a permission by adding permissions, nor grant one by adding prohibitions.
  lemma RulesAreMonotone(rules: set<Rule>, rule: Rule, path: string)
    ensures rule.allow && Permitted(rules, path) ==> Permitted(rules + {rule}, path)
    ensures !rule.allow && Permitted(rules + {rule}, path) ==> Permitted(rules, path)
  {
    hide Applies;
  }

  // The best rule so far: the longest that applies, and whether some permission has that length.
  ghost predicate BestSoFar(rules: seq<Rule>, path: string, bestLen: int, allow: bool) {
    && bestLen >= -1
    && (forall r :: r in rules && Applies(r, path) ==> r.Length() <= bestLen)
    && (bestLen == -1 ==> allow)
    && (bestLen >= 0 ==> exists r :: r in rules && Applies(r, path) && r.Length() == bestLen)
    && (bestLen >= 0 ==> (allow <==> exists r :: r in rules && Applies(r, path) && r.Length() == bestLen && r.allow))
  }

  lemma BestDecides(rules: seq<Rule>, path: string, bestLen: int, allow: bool)
    requires BestSoFar(rules, path, bestLen, allow)
    ensures allow <==> Permitted(Elements(rules), path)
  {
    hide Applies;
    if bestLen >= 0 && !allow {
      var r :| r in rules && Applies(r, path) && r.Length() == bestLen;
      assert r in Elements(rules) && !r.allow;
    }
  }

  lemma BestStep(rules: seq<Rule>, path: string, bestLen: int, allow: bool, rule: Rule)
    requires BestSoFar(rules, path, bestLen, allow)
    ensures !Applies(rule, path) ==> BestSoFar(rules + [rule], path, bestLen, allow)
    ensures Applies(rule, path) && rule.Length() > bestLen ==> BestSoFar(rules + [rule], path, rule.Length(), rule.allow)
    ensures Applies(rule, path) && rule.Length() <= bestLen ==>
      BestSoFar(rules + [rule], path, bestLen, allow || (rule.Length() == bestLen && rule.allow))
  {
    hide Applies;
    var all := rules + [rule];
    assert forall r :: r in all <==> r in rules || r == rule;
  }

  // Allowed; a nil receiver is a group without rules. The verdict depends on the set of rules alone.
  method Allowed(rules: seq<Rule>, path: string) returns (allow: bool)
    ensures allow <==> Permitted(Elements(rules), path)
  {
    hide Permitted, BestSoFar, Elements, MatcherAccepts;
    if |rules| == 0 {
      NoRules(path);
      return true;
    }
    var bestLen: int := -1;
    allow := true;
    NoneYet(path);
    for i := 0 to |rules|
      invariant BestSoFar(rules[..i], path, bestLen, allow)
    {
      var rule := rules[i];
      BestStep(rules[..i], path, bestLen, allow, rule);
      assert rules[..i + 1] == rules[..i] + [rule];
      var matched := Match(rule.pattern, path);
      if matched {
        if rule.Length() > bestLen {
          bestLen := rule.Length();
          allow := rule.allow;
        } else if rule.Length() == bestLen && rule.allow {
          allow := true;
        }
      }
    }
    assert rules[..|rules|] == rules;
    BestDecides(rules, path, bestLen, allow);
  }

  lemma NoneYet(path: string)
    ensures BestSoFar([], path, -1, true)
  {
  }

  lemma NoRules(path: string)
    ensures Permitted(Elements([]), path)
  {
  }

  // ---- the group ----

  datatype Group = Group(agents: seq<string>, rules: seq<Rule>)

  predicate Named(product: string, agent: string) {
    agent != "*" && HasPrefix(product, agent)
  }

  // Has the scan, at agent q of group p, passed agent j of group i?
  predicate Passed(i: int, j: int, p: nat, q: nat) {
    i < p || (i == p && j < q)
  }

  predicate AgentAt(groups: seq<Group>, i: int, j: int) {
    0 <= i < |groups| && 0 <= j < |groups[i].agents|
  }

  // Among the agents passed, group best is the first to hold a longest one that names the product.
  ghost predicate MostSpecific(groups: seq<Group>, product: string, p: nat, q: nat, best: int, bestLen: int) {
    && (forall i, j :: AgentAt(groups, i, j) && Passed(i, j, p, q) && Named(product, groups[i].agents[j]) ==>
      |groups[i].agents[j]| <= bestLen && 0 <= best && (i < best ==> |groups[i].agents[j]| < bestLen))
    && (best >= 0 ==> exists j :: AgentAt(groups, best, j) && Named(product, groups[best].agents[j]) && |groups[best].agents[j]| == bestLen)
    && (best < 0 ==> best == -1 && bestLen == -1)
  }

  // Among the agents passed, group wildcard is the first to name every product.
  ghost predicate FirstFallback(groups: seq<Group>, p: nat, q: nat, wildcard: int) {
    && (forall i, j :: AgentAt(groups, i, j) && Passed(i, j, p, q) && groups[i].agents[j] == "*" ==> 0 <= wildcard <= i)
    && (wildcard >= 0 ==> wildcard < |groups| && "*" in groups[wildcard].agents)
    && wildcard >= -1
  }

  lemma PassAgent(groups: seq<Group>, product: string, p: nat, q: nat, best: int, bestLen: int)
    requires AgentAt(groups, p, q) && best <= p && bestLen >= -1 && MostSpecific(groups, product, p, q, best, bestLen)
    ensures var a := groups[p].agents[q];
      if Named(product, a) && |a| > bestLen then MostSpecific(groups, product, p, q + 1, p, |a|)
      else MostSpecific(groups, product, p, q + 1, best, bestLen)
  {
    hide Named;
    var a := groups[p].agents[q];
    assert forall i, j :: AgentAt(groups, i, j) && Passed(i, j, p, q + 1) ==> Passed(i, j, p, q) || (i == p && j == q);
  }

  lemma PassFallback(groups: seq<Group>, p: nat, q: nat, wildcard: int)
    requires AgentAt(groups, p, q) && FirstFallback(groups, p, q, wildcard) && wildcard <= p
    ensures if groups[p].agents[q] == "*" && wildcard < 0 then FirstFallback(groups, p, q + 1, p)
      else FirstFallback(groups, p, q + 1, wildcard)
  {
    assert forall i, j :: AgentAt(groups, i, j) && Passed(i, j, p, q + 1) ==> Passed(i, j, p, q) || (i == p && j == q);
  }

  lemma NextGroup(groups: seq<Group>, product: string, p: nat, best: int, bestLen: int, wildcard: int)
    requires p < |groups|
    requires MostSpecific(groups, product, p, |groups[p].agents|, best, bestLen) && FirstFallback(groups, p, |groups[p].agents|, wildcard)
    ensures MostSpecific(groups, product, p + 1, 0, best, bestLen) && FirstFallback(groups, p + 1, 0, wildcard)
  {
    assert forall i, j :: AgentAt(groups, i, j) && Passed(i, j, p + 1, 0) ==> Passed(i, j, p, |groups[p].agents|);
  }

  // Token a names the product, no token that does is longer, and none before group n is as long.
  ghost predicate FirstLongest(groups: seq<Group>, product: string, n: nat, a: string)
    requires n < |groups|
  {
    && Named(product, a)
    && (forall g, b :: g in groups && b in g.agents && Named(product, b) ==> |b| <= |a|)
    && (forall i, b :: 0 <= i < n && b in groups[i].agents && Named(product, b) ==> |b| < |a|)
  }

  // selectGroup: the first group holding a longest agent token that is a prefix of the product, or
  // else the first group for every product, or else none.
  method SelectGroup(groups: seq<Group>, product: string) returns (r: Option<nat>)
    ensures r.Some? ==> r.value < |groups|
    ensures (exists g, a :: g in groups && a in g.agents && Named(product, a)) ==>
      r.Some? && exists a :: a in groups[r.value].agents && FirstLongest(groups, product, r.value, a)
    ensures (forall g, a :: g in groups && a in g.agents ==> !Named(product, a)) ==>
      if r.Some? then "*" in groups[r.value].agents && (forall i :: 0 <= i < r.value ==> "*" !in groups[i].agents)
      else forall g :: g in groups ==> "*" !in g.agents
  {
    hide Named, MostSpecific, FirstFallback, FirstLongest;
    var best, bestLen, wildcard: int := -1, -1, -1;
    Nothing(groups, product);
    for p := 0 to |groups|
      invariant -1 <= best < p && -1 <= wildcard < p && bestLen >= -1
      invariant MostSpecific(groups, product, p, 0, best, bestLen) && FirstFallback(groups, p, 0, wildcard)
    {
      var g := groups[p];
      for q := 0 to |g.agents|
        invariant -1 <= best <= p && -1 <= wildcard <= p && bestLen >= -1
        invariant MostSpecific(groups, product, p, q, best, bestLen) && FirstFallback(groups, p, q, wildcard)
      {
        var agent := g.agents[q];
        PassAgent(groups, product, p, q, best, bestLen);
        PassFallback(groups, p, q, wildcard);
        NotNamed(product, agent);
        if agent == "*" {
          if wildcard < 0 {
            wildcard := p;
          }
          continue;
        }
        if HasPrefix(product, agent) && |agent| > bestLen {
          best := p;
          bestLen := |agent|;
        }
      }
      NextGroup(groups, product, p, best, bestLen, wildcard);
    }
    Selected(groups, product, best, bestLen, wildcard);
    if best >= 0 {
      return Some(best);
    }
    return if wildcard >= 0 then Some(wildcard) else None;
  }

  lemma NotNamed(product: string, agent: string)
    ensures Named(product, agent) <==> agent != "*" && HasPrefix(product, agent)
  {
  }

  lemma Nothing(groups: seq<Group>, product: string)
    ensures MostSpecific(groups, product, 0, 0, -1, -1) && FirstFallback(groups, 0, 0, -1)
  {
  }

  lemma Selected(groups: seq<Group>, product: string, best: int, bestLen: int, wildcard: int)
    requires MostSpecific(groups, product, |groups|, 0, best, bestLen) && FirstFallback(groups, |groups|, 0, wildcard)
    requires -1 <= best < |groups| && -1 <= wildcard < |groups|
    ensures best < 0 <==> forall g, a :: g in groups && a in g.agents ==> !Named(product, a)
    ensures best >= 0 ==> exists a :: a in groups[best].agents && FirstLongest(groups, product, best, a)
    ensures wildcard >= 0 ==> "*" in groups[wildcard].agents && forall i :: 0 <= i < wildcard ==> "*" !in groups[i].agents
    ensures wildcard < 0 ==> forall g :: g in groups ==> "*" !in g.agents
  {
    hide Named;
    assert forall i, j :: AgentAt(groups, i, j) ==> Passed(i, j, |groups|, 0);
    if best >= 0 {
      var j :| AgentAt(groups, best, j) && Named(product, groups[best].agents[j]) && |groups[best].agents[j]| == bestLen;
      var a := groups[best].agents[j];
      forall i: nat, b | i < |groups| && b in groups[i].agents && Named(product, b)
        ensures |b| <= |a| && (i < best ==> |b| < |a|)
      {
        var k :| 0 <= k < |groups[i].agents| && groups[i].agents[k] == b;
        assert AgentAt(groups, i, k);
      }
      assert FirstLongest(groups, product, best, a);
      assert groups[best] in groups && a in groups[best].agents;
    }
    forall i: nat | i < |groups| && "*" in groups[i].agents
      ensures 0 <= wildcard <= i
    {
      var k :| 0 <= k < |groups[i].agents| && groups[i].agents[k] == "*";
      assert AgentAt(groups, i, k);
    }
    forall i: nat, a | i < |groups| && a in groups[i].agents && Named(product, a)
      ensures best >= 0
    {
      var k :| 0 <= k < |groups[i].agents| && groups[i].agents[k] == a;
      assert AgentAt(groups, i, k);
    }
  }

  // ---- more than one group for a token ----

  // Section 2.2.1 of RFC 9309: the rules of every group that names the token, as one group.
  ghost function Combined(groups: seq<Group>, token: string): set<Rule> {
    set g, r | g in groups && token in g.agents && r in g.rules :: r
  }

  // The token that decides: a longest one that names the product, or else the star.
  ghost predicate IsToken(groups: seq<Group>, product: string, token: string) {
    && Holds(groups, token)
    && if token == "*" then forall g, b :: g in groups && b in g.agents ==> !Named(product, b)
       else Named(product, token) && forall g, b :: g in groups && b in g.agents && Named(product, b) ==> |b| <= |token|
  }

  ghost predicate Holds(groups: seq<Group>, token: string) {
    exists g :: g in groups && token in g.agents
  }

  ghost predicate InOneGroup(groups: seq<Group>, token: string) {
    forall i, j :: 0 <= i < j < |groups| ==> !(token in groups[i].agents && token in groups[j].agents)
  }

  lemma CombinedOfOne(groups: seq<Group>, n: nat, token: string)
    requires n < |groups| && token in groups[n].agents && InOneGroup(groups, token)
    ensures Combined(groups, token) == Elements(groups[n].rules)
  {
    forall g | g in groups && token in g.agents
      ensures g == groups[n]
    {
      var i :| 0 <= i < |groups| && groups[i] == g;
      assert i < n || n < i || i == n;
    }
    assert groups[n] in groups;
  }

  // The group selected holds the token.
  lemma SelectedHolds(groups: seq<Group>, product: string, n: nat, a: string, token: string)
    requires n < |groups| && a in groups[n].agents && FirstLongest(groups, product, n, a) && IsToken(groups, product, token)
    ensures token == a
  {
    assert groups[n] in groups;
    var g :| g in groups && token in g.agents;
    assert |token| == |a|;
  }

  // Parse's choice of group and Allowed. The verdict is that of the combined group, for every path, when
  // one group alone holds the deciding token; with no token everything is allowed.
  method Verdict(groups: seq<Group>, product: string, path: string) returns (allow: bool)
    ensures forall token :: IsToken(groups, product, token) && InOneGroup(groups, token) ==>
      (allow <==> Permitted(Combined(groups, token), path))
    ensures (forall token :: !IsToken(groups, product, token)) ==> allow
  {
    hide Named, Permitted, FirstLongest, Combined, InOneGroup, IsToken;
    var r := SelectGroup(groups, product);
    if r.None? {
      NoToken(groups, product);
      return true;
    }
    SomeToken(groups, product, r.value);
    allow := Allowed(groups[r.value].rules, path);
    forall token | IsToken(groups, product, token) && InOneGroup(groups, token)
      ensures allow <==> Permitted(Combined(groups, token), path)
    {
      TokenOf(groups, product, r.value, token);
      CombinedOfOne(groups, r.value, token);
    }
  }

  lemma NoToken(groups: seq<Group>, product: string)
    requires forall g, b :: g in groups && b in g.agents ==> !Named(product, b)
    requires forall g :: g in groups ==> "*" !in g.agents
    ensures forall token :: !IsToken(groups, product, token)
  {
    hide Named;
  }

  lemma SomeToken(groups: seq<Group>, product: string, n: nat)
    requires n < |groups|
    requires (exists g, a :: g in groups && a in g.agents && Named(product, a)) ==>
      exists a :: a in groups[n].agents && FirstLongest(groups, product, n, a)
    requires (forall g, a :: g in groups && a in g.agents ==> !Named(product, a)) ==> "*" in groups[n].agents
    ensures exists token :: IsToken(groups, product, token)
  {
    assert groups[n] in groups;
    if exists g, a :: g in groups && a in g.agents && Named(product, a) {
      var a :| a in groups[n].agents && FirstLongest(groups, product, n, a);
      assert IsToken(groups, product, a);
    } else {
      assert IsToken(groups, product, "*");
    }
  }

  // What SelectGroup says of its answer makes it a group of the token.
  lemma TokenOf(groups: seq<Group>, product: string, n: nat, token: string)
    requires n < |groups| && IsToken(groups, product, token)
    requires (exists g, a :: g in groups && a in g.agents && Named(product, a)) ==>
      exists a :: a in groups[n].agents && FirstLongest(groups, product, n, a)
    requires (forall g, a :: g in groups && a in g.agents ==> !Named(product, a)) ==> "*" in groups[n].agents
    ensures token in groups[n].agents
  {
    if token != "*" {
      var g :| g in groups && token in g.agents;
      assert Named(product, token);
      var a :| a in groups[n].agents && FirstLongest(groups, product, n, a);
      SelectedHolds(groups, product, n, a, token);
    }
  }

  // The groups of a file under other rules.
  function WithRules(groups: seq<Group>, rules: seq<seq<Rule>>): (gs: seq<Group>)
    requires |rules| == |groups|
    ensures |gs| == |groups| && forall i :: 0 <= i < |groups| ==> gs[i] == Group(groups[i].agents, rules[i])
  {
    seq(|groups|, i requires 0 <= i < |groups| => Group(groups[i].agents, rules[i]))
  }

  // One group's rules stand for those of all the groups of its token, whatever the rules are, exactly
  // when no other group has the token.
  lemma CombinedIff(groups: seq<Group>, n: nat, token: string)
    requires n < |groups| && token in groups[n].agents
    ensures (forall rules: seq<seq<Rule>>, path :: |rules| == |groups| ==>
        (Permitted(Elements(rules[n]), path) <==> Permitted(Combined(WithRules(groups, rules), token), path)))
      <==> forall m :: 0 <= m < |groups| && m != n ==> token !in groups[m].agents
  {
    hide Permitted, WithRules, Combined, Elements;
    if forall m :: 0 <= m < |groups| && m != n ==> token !in groups[m].agents {
      forall rules: seq<seq<Rule>>, path | |rules| == |groups|
        ensures Permitted(Elements(rules[n]), path) <==> Permitted(Combined(WithRules(groups, rules), token), path)
      {
        assert forall i :: 0 <= i < |groups| ==> WithRules(groups, rules)[i].agents == groups[i].agents;
        CombinedOfOne(WithRules(groups, rules), n, token);
      }
    } else {
      var m :| 0 <= m < |groups| && m != n && token in groups[m].agents;
      Overlooked(groups, n, m, token);
    }
  }

  // A prohibition of everything in the other group is overlooked.
  lemma Overlooked(groups: seq<Group>, n: nat, m: nat, token: string)
    requires n < |groups| && m < |groups| && n != m && token in groups[n].agents && token in groups[m].agents
    ensures exists rules: seq<seq<Rule>>, path ::
      (|rules| == |groups| && Permitted(Elements(rules[n]), path) && !Permitted(Combined(WithRules(groups, rules), token), path))
  {
    var ban := Rule("/", false);
    var none: seq<Rule> := [];
    var rules := seq(|groups|, i => if i == m then [ban] else none);
    var gs := WithRules(groups, rules);
    AppliesToSlash();
    hide Applies;
    assert gs[m] in gs && ban in gs[m].rules;
    assert forall i :: 0 <= i < |gs| ==> forall r :: r in gs[i].rules ==> r == ban;
    assert ban in Combined(gs, token);
    assert rules[n] == none;
    assert Permitted(Elements(rules[n]), "/") && !Permitted(Combined(gs, token), "/");
  }

  lemma AppliesToSlash()
    ensures Applies(Rule("/", false), "/")
  {
  }

  // Two groups for one token: what the second one forbids is allowed.
  const TWO_GROUPS: seq<Group> := [Group(["meguri"], [Rule("/a", false)]), Group(["meguri"], [Rule("/b", false)])]

  method SecondGroupIgnored() returns (allow: bool)
    ensures allow && IsToken(TWO_GROUPS, "meguri", "meguri") && !Permitted(Combined(TWO_GROUPS, "meguri"), "/b")
  {
    TheyHold();
    NotOnB();
    hide Named, FirstLongest, IsToken, Permitted, Applies;
    var r := SelectGroup(TWO_GROUPS, "meguri");
    FirstOfTwo(r.value);
    allow := Allowed(TWO_GROUPS[r.value].rules, "/b");
  }

  lemma TheyHold()
    ensures IsToken(TWO_GROUPS, "meguri", "meguri") && Named("meguri", "meguri")
    ensures TWO_GROUPS[0] in TWO_GROUPS && "meguri" in TWO_GROUPS[0].agents
  {
    assert TWO_GROUPS[0] in TWO_GROUPS && "meguri" in TWO_GROUPS[0].agents;
  }

  lemma FirstOfTwo(n: nat)
    requires n < 2 && exists a :: a in TWO_GROUPS[n].agents && FirstLongest(TWO_GROUPS, "meguri", n, a)
    ensures n == 0
  {
    var a :| a in TWO_GROUPS[n].agents && FirstLongest(TWO_GROUPS, "meguri", n, a);
    TheyHold();
    assert "meguri" in TWO_GROUPS[0].agents;
  }

  lemma NotOnB()
    ensures Permitted(Elements(TWO_GROUPS[0].rules), "/b") && !Permitted(Combined(TWO_GROUPS, "meguri"), "/b")
  {
    SlashB();
    hide Applies;
    var ban := Rule("/b", false);
    assert TWO_GROUPS[1] in TWO_GROUPS && ban in TWO_GROUPS[1].rules && "meguri" in TWO_GROUPS[1].agents;
    assert ban in Combined(TWO_GROUPS, "meguri");
    assert forall r :: r in Combined(TWO_GROUPS, "meguri") ==> !r.allow;
  }

  lemma SlashB()
    ensures !Applies(Rule("/a", false), "/b") && Applies(Rule("/b", false), "/b")
  {
    assert Body("/a") == "/a" && "/a"[1..] == "a" && "/b"[1..] == "b";
  }
}
