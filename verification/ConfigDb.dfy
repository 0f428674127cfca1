/**
 The ConfigDb of `rustdv-methodology/src/config.rs`: path-addressed configuration with
 globs, depth-scaled precedence during build, and most-specific-first resolution.
 */
module ConfigDb {
  import opened Basics
  import opened Glob

  type TypeId = nat
  datatype Entry = Entry(value: int, typeId: TypeId)

  const DEFAULT_PRECEDENCE: int := 1000
  const DOT: Byte := 46

  /** `resolve`: the path addressed by a context and an offset. */
  function Resolve(ctx: Option<Bytes>, offset: Bytes): Bytes {
    match ctx
    case None => offset
    case Some(path) =>
      if offset == [] then path else if path == [] then offset else path + [DOT] + offset
  }

  /** `depth_of`: the number of dots. */
  function DepthOf(path: Bytes): nat {
    if path == [] then 0 else (if path[0] == DOT then 1 else 0) + DepthOf(path[1..])
  }

  /** A call of `set`, as it was made: where it writes, and who wrote it in which phase. */
  datatype Write = Write(pattern: Bytes, field: Bytes, inBuild: bool, depth: nat, entry: Entry)

  function Precedence(w: Write): int {
    if w.inBuild then DEFAULT_PRECEDENCE - w.depth else DEFAULT_PRECEDENCE
  }

  function WriteOf(ctx: Option<Bytes>, offset: Bytes, field: Bytes, inBuild: bool, entry: Entry): Write {
    Write(Resolve(ctx, offset), field, inBuild, if ctx.Some? then DepthOf(ctx.value) else 0, entry)
  }

  /** Laws of addressing: a context and an offset address the joined path, and joining is associative. */
  lemma ResolveJoins(p: Bytes, q: Bytes, o: Bytes)
    ensures Resolve(None, o) == o && Resolve(Some(p), []) == p && Resolve(Some([]), o) == o
    ensures p != [] && o != [] ==> Resolve(Some(p), o) == Resolve(None, p + [DOT] + o)
    ensures Resolve(Some(Resolve(Some(p), q)), o) == Resolve(Some(p), Resolve(Some(q), o))
  {
    if p != [] && q != [] && o != [] {
      assert (p + [DOT] + q) + [DOT] + o == p + [DOT] + (q + [DOT] + o);
    }
  }

  /** Depth counts the dots: it adds up over joined paths and is zero exactly without a dot. */
  lemma {:induction false} DepthAdds(p: Bytes, q: Bytes)
    ensures DepthOf(p + q) == DepthOf(p) + DepthOf(q)
    ensures DepthOf(p) == 0 <==> DOT !in p
    decreases |p|
  {
    if p == [] {
      assert p + q == q;
    } else {
      DepthAdds(p[1..], q);
      assert (p + q)[1..] == p[1..] + q;
      assert p == [p[0]] + p[1..];
    }
  }

  lemma DepthOfChild(p: Bytes, q: Bytes)
    ensures DepthOf(p + [DOT] + q) == DepthOf(p) + 1 + DepthOf(q)
  {
    DepthAdds(p, [DOT] + q);
    assert p + [DOT] + q == p + ([DOT] + q);
    assert ([DOT] + q)[1..] == q;
  }

  // ---------------------------------------------------------------------------
  // What a lookup should find, from the history of writes alone
  // ---------------------------------------------------------------------------

  ghost predicate Relevant(h: seq<Write>, path: Bytes, field: Bytes, i: nat) {
    i < |h| && h[i].field == field && Match(path, h[i].pattern)
  }

  /** The patterns that compete for this lookup are pairwise comparable. */
  ghost predicate Comparable(h: seq<Write>, path: Bytes, field: Bytes) {
    forall i: nat, j: nat :: Relevant(h, path, field, i) && Relevant(h, path, field, j) ==>
      Match(h[i].pattern, h[j].pattern) || Match(h[j].pattern, h[i].pattern)
  }

  /**
   Write `i` decides the lookup: its pattern is at least as specific as every competing
   one, among equally specific ones it is the least in byte order, and at that pattern it
   is the latest write of highest precedence.
   */
  ghost predicate Wins(h: seq<Write>, path: Bytes, field: Bytes, i: nat) {
    && Relevant(h, path, field, i)
    && forall j: nat :: Relevant(h, path, field, j) ==>
         && Match(h[i].pattern, h[j].pattern)
         && (Match(h[j].pattern, h[i].pattern) ==> LexLe(h[i].pattern, h[j].pattern))
         && (h[j].pattern == h[i].pattern ==>
               Precedence(h[j]) <= Precedence(h[i]) && (Precedence(h[j]) == Precedence(h[i]) ==> j <= i))
  }

  /** Byte order, in which the store is iterated. */
  predicate LexLe(a: Bytes, b: Bytes) {
    a == [] || (b != [] && (a[0] < b[0] || (a[0] == b[0] && LexLe(a[1..], b[1..]))))
  }

  lemma {:induction false} LexTotal(a: Bytes, b: Bytes)
    ensures LexLe(a, b) || LexLe(b, a)
    ensures LexLe(a, b) && LexLe(b, a) ==> a == b
    decreases |a|
  {
    if a != [] && b != [] && a[0] == b[0] {
      LexTotal(a[1..], b[1..]);
      assert a == [a[0]] + a[1..] && b == [b[0]] + b[1..];
    }
  }

  lemma {:induction false} LexTransitive(a: Bytes, b: Bytes, c: Bytes)
    requires LexLe(a, b) && LexLe(b, c)
    ensures LexLe(a, c)
    decreases |a|
  {
    if a != [] && a[0] == b[0] == c[0] { LexTransitive(a[1..], b[1..], c[1..]); }
  }

  /** At most one write decides a lookup. */
  lemma WinnerIsUnique(h: seq<Write>, path: Bytes, field: Bytes, i: nat, j: nat)
    requires Wins(h, path, field, i) && Wins(h, path, field, j)
    ensures i == j
  {
    assert Relevant(h, path, field, i) && Relevant(h, path, field, j);
    LexTotal(h[i].pattern, h[j].pattern);
  }

  /** During build the shallowest setter wins at a pattern, in any write order. */
  lemma ShallowestSetterWins(h: seq<Write>, path: Bytes, field: Bytes, i: nat, j: nat)
    requires Wins(h, path, field, i) && Relevant(h, path, field, j) && h[j].pattern == h[i].pattern
    requires h[i].inBuild && h[j].inBuild
    ensures h[i].depth <= h[j].depth && (h[i].depth == h[j].depth ==> j <= i)
  {}

  /** Relevant writes of the same precedence to one pattern are the same write. */
  ghost predicate NoTies(h: seq<Write>, path: Bytes, field: Bytes) {
    forall i: nat, j: nat :: Relevant(h, path, field, i) && Relevant(h, path, field, j) ==>
      (h[i].pattern == h[j].pattern && Precedence(h[i]) == Precedence(h[j]) ==> h[i] == h[j])
  }

  /**
   The order of writes is irrelevant when no two have the same precedence at one pattern,
   as with setters at different depths during build: any reordering resolves to the same write.
   */
  lemma WriteOrderIrrelevant(h: seq<Write>, h': seq<Write>, path: Bytes, field: Bytes, i: nat, k: nat)
    requires multiset(h) == multiset(h') && NoTies(h, path, field)
    requires Wins(h, path, field, i) && Wins(h', path, field, k)
    ensures h[i] == h'[k]
  {
    assert Relevant(h, path, field, i) && Relevant(h', path, field, k);
    var i' := SameWrite(h, h', h[i]);
    var k' := SameWrite(h', h, h'[k]);
    assert Relevant(h', path, field, i') && Relevant(h, path, field, k');
    LexTotal(h[i].pattern, h'[k].pattern);
  }

  lemma SameWrite(h: seq<Write>, h': seq<Write>, w: Write) returns (j: nat)
    requires multiset(h) == multiset(h') && w in h
    ensures j < |h'| && h'[j] == w
  {
    assert w in multiset(h');
    j :| 0 <= j < |h'| && h'[j] == w;
  }

  /**
   A write made outside build beats every earlier write at its pattern, and a later
   build-time write beats it only if its setter is at depth zero.
   */
  lemma OutsideBuildBeatsEarlier(h: seq<Write>, path: Bytes, field: Bytes, i: nat, j: nat)
    requires Wins(h, path, field, i) && Relevant(h, path, field, j) && h[j].pattern == h[i].pattern
    requires !h[j].inBuild
    ensures j <= i && (h[i].inBuild ==> h[i].depth == 0)
  {}

  // ---------------------------------------------------------------------------
  // The stable sort, most specific first
  // ---------------------------------------------------------------------------

  datatype Cand = Cand(pattern: Bytes, entry: Entry)

  /** The comparator returns `Less`. */
  predicate Before(a: Cand, b: Cand) { Match(a.pattern, b.pattern) && !Match(b.pattern, a.pattern) }

  /** One step of a stable insertion sort. */
  function Insert(sorted: seq<Cand>, x: Cand): seq<Cand> {
    var n := |sorted|;
    if n > 0 && Before(x, sorted[n - 1]) then Insert(sorted[..n - 1], x) + [sorted[n - 1]] else sorted + [x]
  }

  function SortSpecificFirst(ms: seq<Cand>): seq<Cand> {
    if ms == [] then [] else Insert(SortSpecificFirst(ms[..|ms| - 1]), ms[|ms| - 1])
  }

  ghost predicate Chain(ms: seq<Cand>) {
    forall i, j :: 0 <= i < |ms| && 0 <= j < |ms| ==>
      Match(ms[i].pattern, ms[j].pattern) || Match(ms[j].pattern, ms[i].pattern)
  }

  ghost predicate Sorted(ms: seq<Cand>) {
    forall i, j :: 0 <= i < j < |ms| ==> Match(ms[i].pattern, ms[j].pattern)
  }

  /** The first candidate that no other is strictly more specific than. */
  function FirstMostSpecific(ms: seq<Cand>): (w: nat)
    requires ms != []
    ensures w < |ms|
  {
    var n := |ms| - 1;
    if n == 0 then 0
    else
      var w := FirstMostSpecific(ms[..n]);
      if Before(ms[n], ms[w]) then n else w
  }

  lemma {:induction false} InsertMembers(sorted: seq<Cand>, x: Cand)
    ensures |Insert(sorted, x)| == |sorted| + 1
    ensures multiset(Insert(sorted, x)) == multiset(sorted) + multiset{x}
    ensures forall c :: c in Insert(sorted, x) <==> c in sorted || c == x
    decreases |sorted|
  {
    if sorted != [] {
      var n := |sorted| - 1;
      assert sorted == sorted[..n] + [sorted[n]];
      InsertMembers(sorted[..n], x);
    }
  }

  lemma {:induction false} InsertKeepsSorted(sorted: seq<Cand>, x: Cand)
    requires Sorted(sorted)
    requires forall k :: 0 <= k < |sorted| ==> Match(sorted[k].pattern, x.pattern) || Match(x.pattern, sorted[k].pattern)
    ensures Sorted(Insert(sorted, x)) && |Insert(sorted, x)| == |sorted| + 1
    ensures Insert(sorted, x)[0] == if sorted != [] && !Before(x, sorted[0]) then sorted[0] else x
    decreases |sorted|
  {
    InsertMembers(sorted, x);
    if sorted != [] {
      var n := |sorted| - 1;
      var front, last := sorted[..n], sorted[n];
      if Before(x, last) {
        InsertKeepsSorted(front, x);
        InsertMembers(front, x);
        var r := Insert(front, x);
        forall i | 0 <= i < |r| ensures Match(r[i].pattern, last.pattern) { assert r[i] in r; }
      } else {
        forall i | 0 <= i < n ensures Match(sorted[i].pattern, x.pattern) {
          MatchTransitive(sorted[i].pattern, last.pattern, x.pattern);
        }
      }
    }
  }

  /** For comparable candidates, the first most specific one is below all, strictly so below earlier ones. */
  lemma {:induction false} FirstMostSpecificOk(ms: seq<Cand>)
    requires ms != [] && Chain(ms)
    ensures var w := FirstMostSpecific(ms);
            && (forall j :: 0 <= j < |ms| ==> Match(ms[w].pattern, ms[j].pattern))
            && (forall j :: 0 <= j < w ==> !Match(ms[j].pattern, ms[w].pattern))
    decreases |ms|
  {
    var n := |ms| - 1;
    MatchReflexive(ms[n].pattern);
    if n > 0 {
      var front := ms[..n];
      assert forall i :: 0 <= i < n ==> front[i] == ms[i];
      FirstMostSpecificOk(front);
      var w := FirstMostSpecific(front);
      if Before(ms[n], ms[w]) {
        forall j | 0 <= j < n
          ensures Match(ms[n].pattern, ms[j].pattern) && !Match(ms[j].pattern, ms[n].pattern)
        {
          assert Match(front[w].pattern, front[j].pattern);
          MatchTransitive(ms[n].pattern, ms[w].pattern, ms[j].pattern);
          if Match(ms[j].pattern, ms[n].pattern) {
            MatchTransitive(ms[w].pattern, ms[j].pattern, ms[n].pattern);
          }
        }
      } else {
        assert Match(ms[w].pattern, ms[n].pattern);
      }
    }
  }

  /** The head of the sorted candidates is the first most specific one. */
  lemma {:induction false} SortedHead(ms: seq<Cand>)
    requires ms != [] && Chain(ms)
    ensures var s := SortSpecificFirst(ms);
            && Sorted(s) && |s| == |ms| && multiset(s) == multiset(ms) && (forall c :: c in s <==> c in ms)
            && s[0] == ms[FirstMostSpecific(ms)]
    decreases |ms|
  {
    var n := |ms| - 1;
    var front, x := ms[..n], ms[n];
    assert ms == front + [x];
    assert forall i :: 0 <= i < n ==> front[i] == ms[i];
    if n > 0 {
      SortedHead(front);
    }
    var s := SortSpecificFirst(front);
    forall k | 0 <= k < |s|
      ensures Match(s[k].pattern, x.pattern) || Match(x.pattern, s[k].pattern)
    {
      assert s[k] in s;
      assert s[k] in ms;
    }
    InsertKeepsSorted(s, x);
    InsertMembers(s, x);
  }

  // ---------------------------------------------------------------------------
  // The store: pattern -> field -> precedence -> entry
  // ---------------------------------------------------------------------------

  type ByPrecedence = map<int, Entry>
  type Store = map<Bytes, map<Bytes, ByPrecedence>>

  function EntriesAt(s: Store, pattern: Bytes, field: Bytes): ByPrecedence {
    if pattern in s && field in s[pattern] then s[pattern][field] else map[]
  }

  function Put(s: Store, w: Write): Store {
    var fields := if w.pattern in s then s[w.pattern] else map[];
    s[w.pattern := fields[w.field := EntriesAt(s, w.pattern, w.field)[Precedence(w) := w.entry]]]
  }

  /** Index of the latest write at a pattern, field and precedence; -1 if there is none. */
  function LatestAt(h: seq<Write>, pattern: Bytes, field: Bytes, prec: int): (k: int)
    ensures -1 <= k < |h|
    ensures k >= 0 ==> h[k].pattern == pattern && h[k].field == field && Precedence(h[k]) == prec
    ensures forall i :: k < i < |h| ==> !(h[i].pattern == pattern && h[i].field == field && Precedence(h[i]) == prec)
  {
    if h == [] then -1
    else
      var n := |h| - 1;
      if h[n].pattern == pattern && h[n].field == field && Precedence(h[n]) == prec then n
      else LatestAt(h[..n], pattern, field, prec)
  }

  ghost predicate CellReflects(s: Store, h: seq<Write>, pattern: Bytes, field: Bytes, prec: int) {
    var k := LatestAt(h, pattern, field, prec);
    var cell := EntriesAt(s, pattern, field);
    if k < 0 then prec !in cell else prec in cell && cell[prec] == h[k].entry
  }

  /** The store holds exactly the latest write at each pattern, field and precedence. */
  ghost predicate Reflects(s: Store, h: seq<Write>) {
    forall pattern, field, prec :: CellReflects(s, h, pattern, field, prec)
  }

  lemma PutReflects(s: Store, h: seq<Write>, w: Write)
    requires Reflects(s, h)
    ensures Reflects(Put(s, w), h + [w])
  {
    var s', h' := Put(s, w), h + [w];
    forall pattern, field, prec ensures CellReflects(s', h', pattern, field, prec) {
      assert CellReflects(s, h, pattern, field, prec);
      assert h'[..|h|] == h;
      if pattern == w.pattern && field == w.field && prec == Precedence(w) {
        assert h'[|h|] == w;
      }
    }
  }

  // ---------------------------------------------------------------------------
  // Lookup
  // ---------------------------------------------------------------------------

  ghost predicate IsTop(m: ByPrecedence, prec: int) { prec in m && forall p :: p in m ==> p <= prec }

  /** A candidate is a matching pattern with its entry of highest precedence for the field. */
  ghost predicate IsCandidate(s: Store, path: Bytes, field: Bytes, c: Cand) {
    && Match(path, c.pattern)
    && exists prec :: IsTop(EntriesAt(s, c.pattern, field), prec) && EntriesAt(s, c.pattern, field)[prec] == c.entry
  }

  ghost predicate Listed(ms: seq<Cand>, pattern: Bytes) {
    exists i :: 0 <= i < |ms| && ms[i].pattern == pattern
  }

  /** In strictly increasing byte order of the patterns, so that no pattern occurs twice. */
  ghost predicate LexSorted(ms: seq<Cand>) {
    forall i, j :: 0 <= i < j < |ms| ==> LexLe(ms[i].pattern, ms[j].pattern) && ms[i].pattern != ms[j].pattern
  }

  /** All candidates for the lookup, once each, in the iteration order of the store. */
  ghost predicate AreCandidates(s: Store, path: Bytes, field: Bytes, ms: seq<Cand>) {
    && (forall i :: 0 <= i < |ms| ==> IsCandidate(s, path, field, ms[i]))
    && LexSorted(ms)
    && (forall pattern :: Match(path, pattern) && EntriesAt(s, pattern, field) != map[] ==> Listed(ms, pattern))
  }

  lemma RelevantIsListed(s: Store, h: seq<Write>, path: Bytes, field: Bytes, ms: seq<Cand>, j: nat) returns (b: nat)
    requires Reflects(s, h) && AreCandidates(s, path, field, ms) && Relevant(h, path, field, j)
    ensures b < |ms| && ms[b].pattern == h[j].pattern && Precedence(h[j]) in EntriesAt(s, h[j].pattern, field)
  {
    assert CellReflects(s, h, h[j].pattern, field, Precedence(h[j]));
    assert Listed(ms, h[j].pattern);
    b :| 0 <= b < |ms| && ms[b].pattern == h[j].pattern;
  }

  lemma CandidateIsWritten(s: Store, h: seq<Write>, path: Bytes, field: Bytes, c: Cand) returns (i: nat, prec: int)
    requires Reflects(s, h) && IsCandidate(s, path, field, c)
    ensures IsTop(EntriesAt(s, c.pattern, field), prec) && i == LatestAt(h, c.pattern, field, prec)
    ensures Relevant(h, path, field, i) && h[i].pattern == c.pattern && h[i].entry == c.entry && Precedence(h[i]) == prec
  {
    prec :| IsTop(EntriesAt(s, c.pattern, field), prec) && EntriesAt(s, c.pattern, field)[prec] == c.entry;
    assert CellReflects(s, h, c.pattern, field, prec);
    i := LatestAt(h, c.pattern, field, prec);
  }

  lemma CandidatesAreComparable(s: Store, h: seq<Write>, path: Bytes, field: Bytes, ms: seq<Cand>)
    requires Reflects(s, h) && AreCandidates(s, path, field, ms) && Comparable(h, path, field)
    ensures Chain(ms)
  {
    forall a, b | 0 <= a < |ms| && 0 <= b < |ms|
      ensures Match(ms[a].pattern, ms[b].pattern) || Match(ms[b].pattern, ms[a].pattern)
    {
      var i, _ := CandidateIsWritten(s, h, path, field, ms[a]);
      var j, _ := CandidateIsWritten(s, h, path, field, ms[b]);
    }
  }

  /** The first of the sorted candidates carries the entry of the write that wins. */
  lemma SortedHeadWins(s: Store, h: seq<Write>, path: Bytes, field: Bytes, ms: seq<Cand>) returns (i: nat)
    requires Reflects(s, h) && AreCandidates(s, path, field, ms) && ms != [] && Comparable(h, path, field)
    ensures |SortSpecificFirst(ms)| > 0
    ensures Wins(h, path, field, i) && h[i].entry == SortSpecificFirst(ms)[0].entry
  {
    CandidatesAreComparable(s, h, path, field, ms);
    SortedHead(ms);
    FirstMostSpecificOk(ms);
    var w := FirstMostSpecific(ms);
    var prec;
    i, prec := CandidateIsWritten(s, h, path, field, ms[w]);
    LexTotal(ms[w].pattern, ms[w].pattern);
    forall j: nat | Relevant(h, path, field, j)
      ensures Match(h[i].pattern, h[j].pattern)
      ensures Match(h[j].pattern, h[i].pattern) ==> LexLe(h[i].pattern, h[j].pattern)
      ensures h[j].pattern == h[i].pattern ==>
                Precedence(h[j]) <= Precedence(h[i]) && (Precedence(h[j]) == Precedence(h[i]) ==> j <= i)
    {
      var b := RelevantIsListed(s, h, path, field, ms, j);
    }
  }

  /** The highest precedence stored for a field. */
  method TopPrecedence(m: ByPrecedence) returns (prec: int)
    requires m != map[]
    ensures IsTop(m, prec)
  {
    assert m.Keys != {};
    ghost var any := HasMember(m.Keys);
    prec :| prec in m.Keys;
    var left := m.Keys - {prec};
    while left != {}
      invariant left <= m.Keys && prec in m
      invariant forall p :: p in m && p !in left ==> p <= prec
      decreases |left|
    {
      any := HasMember(left);
      var p :| p in left;
      if p > prec { prec := p; }
      left := left - {p};
    }
  }

  lemma {:induction false} LexLeastExists(s: set<Bytes>) returns (p: Bytes)
    requires s != {}
    ensures p in s && forall q :: q in s ==> LexLe(p, q)
    decreases |s|
  {
    p :| p in s;
    LexTotal(p, p);
    var rest := s - {p};
    if rest != {} {
      var q := LexLeastExists(rest);
      LexTotal(p, q);
      if LexLe(p, q) {
        forall r | r in s ensures LexLe(p, r) { if r != p { LexTransitive(p, q, r); } }
      } else {
        p := q;
      }
    } else {
      assert forall r :: r in s ==> r == p || r in rest;
    }
  }

  /** The filter and `filter_map` of `get`, walking the store in key order. */
  method CollectCandidates(s: Store, path: Bytes, field: Bytes) returns (ms: seq<Cand>)
    ensures AreCandidates(s, path, field, ms)
  {
    ms := [];
    var left := s.Keys;
    while left != {}
      invariant left <= s.Keys
      invariant forall i :: 0 <= i < |ms| ==> IsCandidate(s, path, field, ms[i])
      invariant forall i, q :: 0 <= i < |ms| && q in left ==> LexLe(ms[i].pattern, q) && ms[i].pattern != q
      invariant LexSorted(ms)
      invariant forall p :: p in s && p !in left && Match(path, p) && EntriesAt(s, p, field) != map[] ==> Listed(ms, p)
      decreases |left|
    {
      ghost var least := LexLeastExists(left);
      var p :| p in left && forall q :: q in left ==> LexLe(p, q);
      left := left - {p};
      if Match(path, p) && EntriesAt(s, p, field) != map[] {
        var prec := TopPrecedence(EntriesAt(s, p, field));
        ms := Extended(s, path, field, ms, Cand(p, EntriesAt(s, p, field)[prec]), prec);
      }
    }
  }

  /** Appending the next candidate keeps what is listed. */
  method Extended(s: Store, path: Bytes, field: Bytes, ms: seq<Cand>, c: Cand, ghost prec: int) returns (r: seq<Cand>)
    requires Match(path, c.pattern) && LexSorted(ms)
    requires forall i :: 0 <= i < |ms| ==> LexLe(ms[i].pattern, c.pattern) && ms[i].pattern != c.pattern
    requires IsTop(EntriesAt(s, c.pattern, field), prec) && EntriesAt(s, c.pattern, field)[prec] == c.entry
    ensures r == ms + [c] && LexSorted(r) && IsCandidate(s, path, field, c)
    ensures forall p :: Listed(r, p) <==> Listed(ms, p) || p == c.pattern
  {
    r := ms + [c];
    assert r[|ms|] == c;
    forall p | Listed(ms, p) ensures Listed(r, p) {
      var i :| 0 <= i < |ms| && ms[i].pattern == p;
      assert r[i].pattern == p;
    }
  }

  datatype ConfigError = NotFound(path: Bytes, field: Bytes) | TypeMismatch(path: Bytes, field: Bytes, stored: TypeId, requested: TypeId)

  /** The ambient per-test database; `history` is every write since the last `clear`. */
  class ConfigDb {
    var store: Store
    var inBuild: bool
    ghost var history: seq<Write>

    ghost predicate Valid()
      reads this
    {
      Reflects(store, history)
    }

    constructor ()
      ensures Valid() && history == [] && !inBuild
    {
      store, inBuild, history := map[], false, [];
    }

    method Clear()
      modifies this
      ensures Valid() && history == [] && !inBuild
    {
      store, inBuild, history := map[], false, [];
    }

    method SetInBuild(active: bool)
      requires Valid()
      modifies this
      ensures Valid() && history == old(history) && inBuild == active
    {
      inBuild := active;
    }

    method Set(ctx: Option<Bytes>, offset: Bytes, field: Bytes, entry: Entry)
      requires Valid()
      modifies this
      ensures Valid() && inBuild == old(inBuild)
      ensures history == old(history) + [WriteOf(ctx, offset, field, inBuild, entry)]
    {
      var w := WriteOf(ctx, offset, field, inBuild, entry);
      PutReflects(store, history, w);
      store := Put(store, w);
      history := history + [w];
    }

    /**
     A miss exactly when no write is relevant. Otherwise, if the competing patterns are
     comparable, the winning write's value, or a type mismatch naming its type.
     */
    method Get(ctx: Option<Bytes>, offset: Bytes, field: Bytes, requested: TypeId)
      returns (r: Result<Entry, ConfigError>)
      requires Valid()
      ensures var path := Resolve(ctx, offset);
              && (r == Err(NotFound(path, field)) <==> forall i: nat :: !Relevant(history, path, field, i))
              && (r.Ok? ==> r.value.typeId == requested)
              && (r.Err? && r.error.TypeMismatch? ==>
                    r.error.stored != r.error.requested == requested && r.error.path == path && r.error.field == field)
              && (Comparable(history, path, field) && r != Err(NotFound(path, field)) ==>
                    exists i: nat :: Wins(history, path, field, i) &&
                      r == if history[i].entry.typeId == requested then Ok(history[i].entry)
                           else Err(TypeMismatch(path, field, history[i].entry.typeId, requested)))
    {
      var path := Resolve(ctx, offset);
      var ms := CollectCandidates(store, path, field);
      MissMeansIrrelevant(store, history, path, field, ms);
      if ms == [] { return Err(NotFound(path, field)); }
      var entry := SortSpecificFirst(ms)[0].entry;
      if Comparable(history, path, field) {
        ghost var i := SortedHeadWins(store, history, path, field, ms);
      }
      r := if entry.typeId == requested then Ok(entry) else Err(TypeMismatch(path, field, entry.typeId, requested));
    }
  }

  lemma MissMeansIrrelevant(s: Store, h: seq<Write>, path: Bytes, field: Bytes, ms: seq<Cand>)
    requires Reflects(s, h) && AreCandidates(s, path, field, ms)
    ensures ms == [] <==> forall i: nat :: !Relevant(h, path, field, i)
    ensures |SortSpecificFirst(ms)| == |ms|
  {
    SortLength(ms);
    if ms != [] {
      var i, _ := CandidateIsWritten(s, h, path, field, ms[0]);
    } else {
      forall i: nat ensures !Relevant(h, path, field, i) {
        if Relevant(h, path, field, i) {
          var b := RelevantIsListed(s, h, path, field, ms, i);
        }
      }
    }
  }

  lemma {:induction false} SortLength(ms: seq<Cand>)
    ensures |SortSpecificFirst(ms)| == |ms|
  {
    if ms != [] {
      SortLength(ms[..|ms| - 1]);
      InsertMembers(SortSpecificFirst(ms[..|ms| - 1]), ms[|ms| - 1]);
    }
  }

  // ---------------------------------------------------------------------------
  // Parent and child during build
  // ---------------------------------------------------------------------------

  /** The two competing writes, in the order of the calls. */
  function InOrder(first: Write, second: Write, swapped: bool): seq<Write> {
    if swapped then [second, first] else [first, second]
  }

  /** A write to the path itself is found there, and of two such writes the higher precedence wins. */
  lemma HigherPrecedenceWins(w: Write, v: Write, swapped: bool)
    requires w.pattern == v.pattern && w.field == v.field && Precedence(w) > Precedence(v)
    ensures var h := InOrder(w, v, swapped);
            Comparable(h, w.pattern, w.field) && Wins(h, w.pattern, w.field, if swapped then 1 else 0)
  {
    MatchReflexive(w.pattern);
    LexTotal(w.pattern, w.pattern);
  }

  /**
   In every history, a build-time write from context `p.q` never decides a lookup that a
   build-time write from context `p` to the same path and field competes for.
   */
  lemma ChildNeverOutranks(h: seq<Write>, i: nat, j: nat, p: Bytes, q: Bytes, parentOffset: Bytes, childOffset: Bytes,
                           path: Bytes, field: Bytes, parentEntry: Entry, childEntry: Entry)
    requires i < |h| && h[i] == WriteOf(Some(p), parentOffset, field, true, parentEntry)
    requires j < |h| && h[j] == WriteOf(Some(p + [DOT] + q), childOffset, field, true, childEntry)
    requires Resolve(Some(p), parentOffset) == Resolve(Some(p + [DOT] + q), childOffset)
    ensures !Wins(h, path, field, j)
  {
    DepthOfChild(p, q);
    if Wins(h, path, field, j) { assert Relevant(h, path, field, i); }
  }

  /**
   During build a component outranks its descendants, whoever writes last: of a set from
   context `p` and one from context `p.q` that address the same path and field, a lookup
   there returns the entry set from `p`.
   */
  method ParentOutranksChild(p: Bytes, q: Bytes, parentOffset: Bytes, childOffset: Bytes, field: Bytes,
                             parentEntry: Entry, childEntry: Entry, childLast: bool)
    returns (r: Result<Entry, ConfigError>)
    requires Resolve(Some(p), parentOffset) == Resolve(Some(p + [DOT] + q), childOffset)
    ensures r == Ok(parentEntry)
  {
    var db := new ConfigDb();
    db.SetInBuild(true);
    if childLast {
      db.Set(Some(p), parentOffset, field, parentEntry);
      db.Set(Some(p + [DOT] + q), childOffset, field, childEntry);
    } else {
      db.Set(Some(p + [DOT] + q), childOffset, field, childEntry);
      db.Set(Some(p), parentOffset, field, parentEntry);
    }
    ghost var w := WriteOf(Some(p), parentOffset, field, true, parentEntry);
    ghost var v := WriteOf(Some(p + [DOT] + q), childOffset, field, true, childEntry);
    DepthOfChild(p, q);
    HigherPrecedenceWins(w, v, !childLast);
    ghost var path, i := Resolve(Some(p), parentOffset), if childLast then 0 else 1;
    assert db.history == InOrder(w, v, !childLast);
    r := db.Get(Some(p), parentOffset, field, parentEntry.typeId);
    assert Relevant(db.history, path, field, i);
    forall j: nat | Wins(db.history, path, field, j) ensures j == i {
      WinnerIsUnique(db.history, path, field, i, j);
    }
  }

  // ---------------------------------------------------------------------------
  // Where the documentation promises more than the code does
  // ---------------------------------------------------------------------------

  lemma StarMatchesAll(p: Bytes)
    ensures Match(p, [STAR])
  {
    assert [STAR][1..] == [];
    StarSkips(p, [], [STAR]);
    assert p + [] == p;
  }

  /** The documented rule: most specific path first, then highest precedence, then most recent write. */
  ghost predicate DocumentedWinner(h: seq<Write>, path: Bytes, field: Bytes, i: nat) {
    && Relevant(h, path, field, i)
    && forall j: nat :: Relevant(h, path, field, j) ==>
         && Match(h[i].pattern, h[j].pattern)
         && (Match(h[j].pattern, h[i].pattern) ==>
               Precedence(h[j]) <= Precedence(h[i]) && (Precedence(h[j]) == Precedence(h[i]) ==> j <= i))
  }

  /** The two patterns reach the same paths. */
  predicate Equivalent(a: Bytes, b: Bytes) { Match(a, b) && Match(b, a) }

  /** Between two equally specific patterns the store's key order decides, not the write order. */
  lemma EarlierWriteWins(path: Bytes, field: Bytes, lo: Bytes, hi: Bytes, first: Entry, second: Entry)
    requires Match(path, lo) && Match(path, hi) && Equivalent(lo, hi) && LexLe(lo, hi) && lo != hi
    ensures var h := [Write(lo, field, false, 0, first), Write(hi, field, false, 0, second)];
            Comparable(h, path, field) && Wins(h, path, field, 0) && !DocumentedWinner(h, path, field, 0)
  {
    var h := [Write(lo, field, false, 0, first), Write(hi, field, false, 0, second)];
    MatchReflexive(lo);
    MatchReflexive(hi);
    LexTotal(lo, lo);
    assert Relevant(h, path, field, 0) && Relevant(h, path, field, 1);
  }

  ghost predicate OnlyPatterns(h: seq<Write>, ps: set<Bytes>) {
    forall i :: 0 <= i < |h| ==> h[i].pattern in ps
  }

  /** No two patterns in the set that reach the path are spellings of the same language. */
  ghost predicate NoTwins(ps: set<Bytes>, path: Bytes) {
    forall a, b :: a in ps && b in ps && Match(path, a) && Match(path, b) && Equivalent(a, b) ==> a == b
  }

  /**
   Exactly when the documented rule is what the code does: every history of writes to a
   set of patterns is resolved as documented if and only if no two of the patterns that
   reach the path are different spellings of the same language.
   */
  lemma DocumentedRuleHoldsIff(path: Bytes, field: Bytes, ps: set<Bytes>)
    ensures (forall h: seq<Write>, i: nat ::
               OnlyPatterns(h, ps) && Wins(h, path, field, i) ==> DocumentedWinner(h, path, field, i))
            <==> NoTwins(ps, path)
  {
    if NoTwins(ps, path) {
      forall h: seq<Write>, i: nat | OnlyPatterns(h, ps) && Wins(h, path, field, i)
        ensures DocumentedWinner(h, path, field, i)
      {
        forall j: nat | Relevant(h, path, field, j) && Match(h[j].pattern, h[i].pattern)
          ensures h[j].pattern == h[i].pattern
        {
          assert Relevant(h, path, field, i);
        }
      }
    } else {
      var a, b :| a in ps && b in ps && Match(path, a) && Match(path, b) && Equivalent(a, b) && a != b;
      LexTotal(a, b);
      var lo, hi := if LexLe(a, b) then a else b, if LexLe(a, b) then b else a;
      var e := Entry(0, 0);
      EarlierWriteWins(path, field, lo, hi, e, e);
      assert OnlyPatterns([Write(lo, field, false, 0, e), Write(hi, field, false, 0, e)], ps);
    }
  }

  lemma StarAndStarStarAreEquivalent()
    ensures Equivalent([STAR], [STAR, STAR])
  {
    var one, two: Bytes := [STAR], [STAR, STAR];
    StarMatchesAll(one);
    StarMatchesAll(two);
    assert two[1..] == one && [] + one == one;
    StarSkips([], one, two);
  }

  /** There are such spellings: at every path a later write to `**` loses to an earlier one to `*`. */
  lemma StarBeatsLaterStarStar(path: Bytes, field: Bytes, first: Entry, second: Entry)
    ensures var h := [Write([STAR], field, false, 0, first), Write([STAR, STAR], field, false, 0, second)];
            Comparable(h, path, field) && Wins(h, path, field, 0) && DocumentedWinner(h, path, field, 1)
  {
    var one, two: Bytes := [STAR], [STAR, STAR];
    StarAndStarStarAreEquivalent();
    StarMatchesAll(path);
    MatchTransitive(path, one, two);
    MatchReflexive(two);
    assert LexLe(one, two) by { assert one[1..] == []; }
    EarlierWriteWins(path, field, one, two, first, second);
  }

  /**
   The comparator treats incomparable patterns as equal, and that equality is not
   transitive: at `a.b.c`, `*c` and `a*b*` are equal, so are `a*b*` and `a.*c`, yet `a.*c`
   comes before `*c`. Hence the restriction to comparable patterns.
   */
  lemma ComparatorIsNotAnOrder(e: Entry)
    ensures var path: Bytes := [97, 46, 98, 46, 99];
            var x, y, z := Cand([42, 99], e), Cand([97, 42, 98, 42], e), Cand([97, 46, 42, 99], e);
            && Match(path, x.pattern) && Match(path, y.pattern) && Match(path, z.pattern)
            && !Before(x, y) && !Before(y, x) && !Before(y, z) && !Before(z, y)
            && Before(z, x)
  {
    var path: Bytes := [97, 46, 98, 46, 99];
    var x, y, z: Bytes := [42, 99], [97, 42, 98, 42], [97, 46, 42, 99];
    var c: Bytes := [99];
    assert Match(c, c) by { assert c[1..] == []; }
    assert x[1..] == c;
    StarSkips([97, 46, 98, 46], c, x);
    assert [97, 46, 98, 46] + c == path;
    StarSkips([97, 46, 42], c, x);
    assert [97, 46, 42] + c == z;
    assert Match(path, z) by {
      var x': Bytes := [98, 46, 99];
      StarSkips([98, 46], c, x);
      assert [98, 46] + c == x';
      assert path[1..][1..] == x' && z[1..][1..] == x;
    }
    assert Match(path, y) by {
      var g, t: Bytes := [98, 42], [98, 46, 99];
      StarMatchesAll([46, 99]);
      assert g[1..] == [STAR] && t[1..] == [46, 99];
      var g': Bytes := [42, 98, 42];
      assert g'[1..] == g;
      StarSkips([46], t, g');
      assert [46] + t == path[1..] && y[1..] == g';
    }
    if Match(y, x) { LastLiteral(y, x); }
    if Match(y, z) { LastLiteral(y, z); }
    if Match(z, y) { LiteralOccurs(z, y, 98); }
  }
}
