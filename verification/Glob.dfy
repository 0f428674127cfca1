/**
 The glob matcher of `rustdv-methodology/src/config.rs`, which the ConfigDb also applies to
 two patterns to decide which is more specific. Paths and patterns are byte strings.
 */
module Glob {

  type Byte = b: int | 0 <= b < 256
  type Bytes = seq<Byte>

  const STAR: Byte := 42

  predicate Match(p: Bytes, g: Bytes)
    decreases |p| + |g|
  {
    if g != [] && g[0] == STAR then Match(p, g[1..]) || (p != [] && Match(p[1..], g))
    else if p != [] && g != [] && p[0] == g[0] then Match(p[1..], g[1..])
    else p == [] && g == []
  }

  // ---------------------------------------------------------------------------
  // Declarative meaning
  // ---------------------------------------------------------------------------

  /** The literal pieces of a pattern, cut at its stars. */
  function Split(g: Bytes): (pieces: seq<Bytes>)
    ensures |pieces| >= 1
  {
    if g == [] then [[]]
    else if g[0] == STAR then [[]] + Split(g[1..])
    else
      var rest := Split(g[1..]);
      [[g[0]] + rest[0]] + rest[1..]
  }

  /** The pieces with a filler in each gap. */
  function Weave(pieces: seq<Bytes>, fills: seq<Bytes>): Bytes
    requires |pieces| == |fills| + 1
    decreases |fills|
  {
    if fills == [] then pieces[0] else pieces[0] + (fills[0] + Weave(pieces[1..], fills[1..]))
  }

  /** `p` is the pattern with each star replaced by some string. */
  ghost predicate Denotes(p: Bytes, g: Bytes) {
    exists fills: seq<Bytes> :: |fills| == |Split(g)| - 1 && p == Weave(Split(g), fills)
  }

  lemma WeaveLiteral(g: Bytes, fills: seq<Bytes>)
    requires g != [] && g[0] != STAR && |fills| == |Split(g)| - 1
    ensures |Split(g)| == |Split(g[1..])|
    ensures Weave(Split(g), fills) == [g[0]] + Weave(Split(g[1..]), fills)
  {
    var rest := Split(g[1..]);
    assert Split(g)[0] == [g[0]] + rest[0] && Split(g)[1..] == rest[1..];
    if fills != [] { Regroup([g[0]], rest[0], fills[0] + Weave(rest[1..], fills[1..])); }
  }

  lemma WeaveStar(g: Bytes, fills: seq<Bytes>)
    requires g != [] && g[0] == STAR && |fills| == |Split(g)| - 1
    ensures |Split(g)| == |Split(g[1..])| + 1
    ensures Weave(Split(g), fills) == fills[0] + Weave(Split(g[1..]), fills[1..])
  {
    assert Split(g)[0] == [] && Split(g)[1..] == Split(g[1..]);
    var w := fills[0] + Weave(Split(g[1..]), fills[1..]);
    assert [] + w == w;
  }

  /** A byte swallowed by the first star is a byte put in front. */
  lemma GrowFill(g: Bytes, fills: seq<Bytes>, c: Byte)
    requires g != [] && g[0] == STAR && |fills| == |Split(g)| - 1
    ensures |fills| > 0 && Weave(Split(g), [[c] + fills[0]] + fills[1..]) == [c] + Weave(Split(g), fills)
  {
    WeaveStar(g, fills);
    var grown := [[c] + fills[0]] + fills[1..];
    WeaveStar(g, grown);
    assert grown[0] == [c] + fills[0] && grown[1..] == fills[1..];
    Regroup([c], fills[0], Weave(Split(g[1..]), fills[1..]));
  }

  lemma Regroup(a: Bytes, b: Bytes, c: Bytes)
    ensures (a + b) + c == a + (b + c)
  {}

  lemma EmptyFill(g: Bytes, fills: seq<Bytes>)
    requires g != [] && g[0] == STAR && |fills| == |Split(g[1..])| - 1
    ensures |fills| + 1 == |Split(g)| - 1 && Weave(Split(g), [[]] + fills) == Weave(Split(g[1..]), fills)
  {
    WeaveStar(g, [[]] + fills);
    assert ([[]] + fills)[1..] == fills;
  }

  lemma {:induction false} MatchFills(p: Bytes, g: Bytes) returns (fills: seq<Bytes>)
    requires Match(p, g)
    ensures |fills| == |Split(g)| - 1 && p == Weave(Split(g), fills)
    decreases |p| + |g|
  {
    if g == [] {
      fills := [];
    } else if g[0] != STAR {
      fills := MatchFills(p[1..], g[1..]);
      WeaveLiteral(g, fills);
    } else if Match(p, g[1..]) {
      var rest := MatchFills(p, g[1..]);
      fills := [[]] + rest;
      EmptyFill(g, rest);
    } else {
      var rest := MatchFills(p[1..], g);
      fills := [[p[0]] + rest[0]] + rest[1..];
      GrowFill(g, rest, p[0]);
    }
  }

  lemma {:induction false} StarSkips(prefix: Bytes, p: Bytes, g: Bytes)
    requires g != [] && g[0] == STAR && Match(p, g[1..])
    ensures Match(prefix + p, g)
    decreases |prefix|
  {
    if prefix == [] {
      assert prefix + p == p;
    } else {
      StarSkips(prefix[1..], p, g);
      assert (prefix + p)[1..] == prefix[1..] + p;
    }
  }

  lemma {:induction false} FillsMatch(g: Bytes, fills: seq<Bytes>)
    requires |fills| == |Split(g)| - 1
    ensures Match(Weave(Split(g), fills), g)
    decreases |g|
  {
    if g != [] {
      if g[0] == STAR {
        WeaveStar(g, fills);
        FillsMatch(g[1..], fills[1..]);
        StarSkips(fills[0], Weave(Split(g[1..]), fills[1..]), g);
      } else {
        WeaveLiteral(g, fills);
        FillsMatch(g[1..], fills);
      }
    }
  }

  /** The recursive matcher computes exactly the declarative meaning of `*`. */
  lemma MatchIsMeaning(p: Bytes, g: Bytes)
    ensures Match(p, g) <==> Denotes(p, g)
  {
    if Match(p, g) {
      var fills := MatchFills(p, g);
    }
    if Denotes(p, g) {
      var fills: seq<Bytes> :| |fills| == |Split(g)| - 1 && p == Weave(Split(g), fills);
      FillsMatch(g, fills);
    }
  }

  // ---------------------------------------------------------------------------
  // Specificity is language inclusion
  // ---------------------------------------------------------------------------

  lemma {:induction false} MatchReflexive(a: Bytes)
    ensures Match(a, a)
    decreases |a|
  {
    if a != [] { MatchReflexive(a[1..]); }
  }

  /** Although `*` is an ordinary byte in the first argument, matching is transitive. */
  lemma {:induction false} MatchTransitive(p: Bytes, a: Bytes, b: Bytes)
    requires Match(p, a) && Match(a, b)
    ensures Match(p, b)
    decreases |p| + |a| + |b|
  {
    if b == [] {
    } else if b[0] != STAR {
      MatchTransitive(p[1..], a[1..], b[1..]);
    } else if Match(a, b[1..]) {
      MatchTransitive(p, a, b[1..]);
    } else if a[0] != STAR {
      MatchTransitive(p[1..], a[1..], b);
    } else if Match(p, a[1..]) {
      MatchTransitive(p, a[1..], b);
    } else {
      MatchTransitive(p[1..], a, b);
    }
  }

  /** `a` is at least as specific as `b` exactly when every path `a` reaches, `b` reaches. */
  lemma SpecificIffIncluded(a: Bytes, b: Bytes)
    ensures Match(a, b) <==> forall p :: Match(p, a) ==> Match(p, b)
  {
    if Match(a, b) {
      forall p | Match(p, a) ensures Match(p, b) { MatchTransitive(p, a, b); }
    }
    MatchReflexive(a);
  }

  /** The pattern with every star replaced by one byte. */
  function Instance(a: Bytes, c: Byte): Bytes {
    if a == [] then [] else [if a[0] == STAR then c else a[0]] + Instance(a[1..], c)
  }

  lemma {:induction false} InstanceMatches(a: Bytes, c: Byte)
    ensures Match(Instance(a, c), a) && (c != STAR ==> STAR !in Instance(a, c))
    decreases |a|
  {
    if a != [] {
      InstanceMatches(a[1..], c);
      assert Instance(a, c)[1..] == Instance(a[1..], c);
      if a[0] == STAR { StarSkips([c], Instance(a[1..], c), a); }
    }
  }

  lemma {:induction false} InstanceReflects(a: Bytes, b: Bytes, c: Byte)
    requires c != STAR && c !in b && Match(Instance(a, c), b)
    ensures Match(a, b)
    decreases |a| + |b|
  {
    if b != [] {
      var tail := b[1..];
      assert forall x :: x in tail ==> x in b;
      if a != [] { assert Instance(a, c)[1..] == Instance(a[1..], c); }
      if b[0] != STAR {
        InstanceReflects(a[1..], tail, c);
      } else if Match(Instance(a, c), tail) {
        InstanceReflects(a, tail, c);
      } else {
        InstanceReflects(a[1..], b, c);
      }
    }
  }

  /**
   Inclusion over concrete paths alone, those without a star, already decides specificity,
   as long as some byte other than the star does not occur in the wider pattern.
   */
  lemma SpecificIffIncludedOnConcretePaths(a: Bytes, b: Bytes, c: Byte)
    requires c != STAR && c !in b
    ensures Match(a, b) <==> forall p :: STAR !in p && Match(p, a) ==> Match(p, b)
  {
    if Match(a, b) {
      forall p | Match(p, a) ensures Match(p, b) { MatchTransitive(p, a, b); }
    } else {
      InstanceMatches(a, c);
      if Match(Instance(a, c), b) { InstanceReflects(a, b, c); }
    }
  }

  // ---------------------------------------------------------------------------
  // Facts for concrete patterns
  // ---------------------------------------------------------------------------

  /** Every literal byte of the pattern occurs in what it matches. */
  lemma {:induction false} LiteralOccurs(p: Bytes, g: Bytes, c: Byte)
    requires Match(p, g) && c in g && c != STAR
    ensures c in p
    decreases |p| + |g|
  {
    assert g == [g[0]] + g[1..];
    if g[0] == STAR {
      if Match(p, g[1..]) { LiteralOccurs(p, g[1..], c); } else { LiteralOccurs(p[1..], g, c); }
    } else if g[0] != c {
      LiteralOccurs(p[1..], g[1..], c);
    }
  }

  /** A pattern ending in a literal matches only strings ending in it. */
  lemma {:induction false} LastLiteral(p: Bytes, g: Bytes)
    requires Match(p, g) && g != [] && g[|g| - 1] != STAR
    ensures p != [] && p[|p| - 1] == g[|g| - 1]
    decreases |p| + |g|
  {
    if g[0] == STAR {
      if Match(p, g[1..]) { LastLiteral(p, g[1..]); } else { LastLiteral(p[1..], g); }
    } else if |g| > 1 {
      LastLiteral(p[1..], g[1..]);
    }
  }
}
