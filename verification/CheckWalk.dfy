/**
 The check walk over a component tree and a component test from its run phase on:
 `check_all`, `CheckSink` and `run_component_test` of `rustdv-methodology/src/component.rs`.
 After a run phase the walk visits every component once, parents first, under its path.
 */
module CheckWalk {
  import opened Basics
  import opened RunPhase
  import opened TreeWalk
  import opened ExtractWalk

  /** A top-down walk: the components in visiting order, each with its path and data. */
  function Visits<S>(n: Node<S>, path: Path): seq<(Path, S)>
    decreases n, 1
  {
    [(path, n.state)] + Join(FieldVisits(n, path))
  }

  /** Per field, the visits of its children's subtrees. */
  function FieldVisits<S>(n: Node<S>, path: Path): (vss: seq<seq<(Path, S)>>)
    ensures |vss| == |n.fields|
    decreases n, 0
  {
    seq(|n.fields|, i requires 0 <= i < |n.fields| => Join(KidVisits(n.fields[i], path)))
  }

  /** Per child, the visits of its subtree. */
  function KidVisits<S>(f: Field<S>, path: Path): (vss: seq<seq<(Path, S)>>)
    ensures |vss| == |Kids(f)|
    decreases f, 0
  {
    seq(|Kids(f)|, k requires 0 <= k < |Kids(f)| => Visits(Kids(f)[k].1, path + [Kids(f)[k].0]))
  }

  // ---------------------------------------------------------------------------
  // The walk visits exactly the components of the tree
  // ---------------------------------------------------------------------------

  /** A visit below the root is a visit of some child's subtree. */
  lemma VisitedChild<S>(n: Node<S>, path: Path, v: (Path, S)) returns (h: nat, k: nat)
    requires v in Join(FieldVisits(n, path))
    ensures h < |n.fields| && k < |Kids(n.fields[h])|
    ensures v in Visits(Kids(n.fields[h])[k].1, path + [Kids(n.fields[h])[k].0])
  {
    var vss := FieldVisits(n, path);
    var j :| 0 <= j < |Join(vss)| && Join(vss)[j] == v;
    var i;
    h, i := JoinEntry(vss, j);
    k := VisitedKid(n.fields[h], path, i);
  }

  lemma VisitedKid<S>(f: Field<S>, path: Path, j: nat) returns (k: nat)
    requires j < |Join(KidVisits(f, path))|
    ensures k < |Kids(f)| && Join(KidVisits(f, path))[j] in Visits(Kids(f)[k].1, path + [Kids(f)[k].0])
  {
    var i;
    k, i := JoinEntry(KidVisits(f, path), j);
  }

  lemma {:induction false} VisitedIsComponent<S(!new)>(n: Node<S>, path: Path, v: (Path, S))
    returns (rel: Path, m: Node<S>)
    requires v in Visits(n, path)
    ensures At(n, rel, m) && v == (path + rel, m.state)
    decreases n
  {
    if v in Join(FieldVisits(n, path)) {
      var h, k := VisitedChild(n, path, v);
      var kid := Kids(n.fields[h])[k];
      var below;
      below, m := VisitedIsComponent(kid.1, path + [kid.0], v);
      AtChild(n, h, k, below, m);
      Nested(path, kid.0, below);
      rel := [kid.0] + below;
    } else {
      rel, m := [], n;
      assert path + rel == path;
    }
  }

  lemma ChildIncluded<S>(n: Node<S>, path: Path, h: nat, k: nat, v: (Path, S))
    requires h < |n.fields| && k < |Kids(n.fields[h])|
    requires v in Visits(Kids(n.fields[h])[k].1, path + [Kids(n.fields[h])[k].0])
    ensures v in Join(FieldVisits(n, path))
  {
    JoinMember(KidVisits(n.fields[h], path), k, v);
    JoinMember(FieldVisits(n, path), h, v);
  }

  lemma {:induction false} ComponentIsVisited<S(!new)>(n: Node<S>, path: Path, rel: Path, m: Node<S>)
    requires At(n, rel, m)
    ensures (path + rel, m.state) in Visits(n, path)
    decreases rel
  {
    if rel == [] {
      assert path + rel == path;
    } else {
      var h, k := AtStep(n, rel, m);
      var kid := Kids(n.fields[h])[k];
      ComponentIsVisited(kid.1, path + [kid.0], rel[1..], m);
      Nested(path, kid.0, rel[1..]);
      ChildIncluded(n, path, h, k, (path + rel, m.state));
    }
  }

  /** `v` is the path and data of a component of the tree. */
  ghost predicate InTree<S(!new)>(n: Node<S>, path: Path, v: (Path, S)) {
    exists rel, m :: At(n, rel, m) && v == (path + rel, m.state)
  }

  /** The walk visits every component of the tree, under its path, and nothing else. */
  lemma VisitsExactlyTheTree<S(!new)>(n: Node<S>, path: Path, v: (Path, S))
    ensures v in Visits(n, path) <==> InTree(n, path, v)
  {
    var vs := Visits(n, path);
    if v in vs {
      var rel, m := VisitedIsComponent(n, path, v);
      assert InTree(n, path, v);
    } else if InTree(n, path, v) {
      var rel, m :| At(n, rel, m) && v == (path + rel, m.state);
      ComponentIsVisited(n, path, rel, m);
    }
  }

  // ---------------------------------------------------------------------------
  // Names of one component's children differ
  // ---------------------------------------------------------------------------

  lemma {:induction false} DecimalInjective(m: nat, n: nat)
    requires Decimal(m) == Decimal(n)
    ensures m == n
  {
    var s, t := Decimal(m), Decimal(n);
    assert s[|s| - 1] == t[|t| - 1];
    assert m % 10 == n % 10;
    assert s[..|s| - 1] == t[..|t| - 1];
    if m >= 10 {
      assert s[..|s| - 1] == Decimal(m / 10);
      if n >= 10 {
        assert t[..|t| - 1] == Decimal(n / 10);
        DecimalInjective(m / 10, n / 10);
      }
    }
  }

  /** The number a string of decimal digits denotes. */
  function ReadDecimal(s: string): int {
    if s == [] then 0 else 10 * ReadDecimal(s[..|s| - 1]) + (s[|s| - 1] as int - '0' as int)
  }

  /** The index is printed in decimal, without leading zeros. */
  lemma {:induction false} DecimalReads(n: nat)
    ensures ReadDecimal(Decimal(n)) == n && (Decimal(n)[0] == '0' ==> n == 0)
  {
    var front, d := if n < 10 then [] else Decimal(n / 10), Digit(n % 10);
    assert Decimal(n) == front + [d];
    ReadOneMore(front, d);
    if n >= 10 {
      DecimalReads(n / 10);
      assert Decimal(n)[0] == front[0];
    }
  }

  lemma ReadOneMore(s: string, c: char)
    ensures ReadDecimal(s + [c]) == 10 * ReadDecimal(s) + (c as int - '0' as int)
  {
    assert (s + [c])[..|s|] == s;
  }

  /**
   The names under which children are found: a field's name, or for a vector the name with
   the index in brackets, starting at `[0]`.
   */
  lemma FoundUnderName<S(!new)>(n: Node<S>, h: nat, i: nat)
    requires h < |n.fields|
    ensures Decimal(0) == "0"
    ensures var f := n.fields[h];
            && (f.Vec? && i < |f.items| ==> At(n, [f.name + "[" + Decimal(i) + "]"], f.items[i]))
            && (f.Comp? && f.slot.Some? ==> At(n, [f.name], f.slot.value))
            && (f.Opt? && f.child.Some? ==> At(n, [f.name], f.child.value))
            && (f.Plain? ==> At(n, [f.name], f.item))
  {
    var f := n.fields[h];
    var k := if f.Vec? then i else 0;
    if k < |Kids(f)| {
      AtChild(n, h, k, [], Kids(f)[k].1);
      assert [Kids(f)[k].0] + [] == [Kids(f)[k].0];
    }
  }

  /** A name up to its bracket. */
  function Stem(s: string): string {
    if s == [] || s[0] == '[' then [] else [s[0]] + Stem(s[1..])
  }

  lemma {:induction false} StemOfName(l: string, rest: string)
    requires '[' !in l && (rest == [] || rest[0] == '[')
    ensures Stem(l + rest) == l
  {
    if l == [] {
      assert l + rest == rest;
    } else {
      assert (l + rest)[1..] == l[1..] + rest;
      StemOfName(l[1..], rest);
    }
  }

  lemma KidStem<S>(f: Field<S>, k: nat)
    requires '[' !in f.name && k < |Kids(f)|
    ensures Stem(Kids(f)[k].0) == f.name
  {
    if f.Vec? {
      var rest := "[" + Decimal(k) + "]";
      assert ItemName(f.name, k) == f.name + rest;
      StemOfName(f.name, rest);
    } else {
      StemOfName(f.name, []);
      assert f.name + [] == f.name;
    }
  }

  lemma KidNamesDiffer<S>(f: Field<S>, h: nat, k: nat)
    requires h < k < |Kids(f)|
    ensures Kids(f)[h].0 != Kids(f)[k].0
  {
    if Kids(f)[h].0 == Kids(f)[k].0 {
      var a, b := ItemName(f.name, h), ItemName(f.name, k);
      assert Decimal(h) == a[|f.name| + 1..|a| - 1];
      assert Decimal(k) == b[|f.name| + 1..|b| - 1];
      DecimalInjective(h, k);
    }
  }

  function KidNames<S>(f: Field<S>): set<string> { set k | 0 <= k < |Kids(f)| :: Kids(f)[k].0 }

  lemma FieldNamesDisjoint<S>(fs: seq<Field<S>>, i: nat, j: nat)
    requires FieldNamesOk(fs) && i < |fs| && j < |fs| && i != j
    ensures KidNames(fs[i]) !! KidNames(fs[j])
  {
    forall name | name in KidNames(fs[i]) ensures name !in KidNames(fs[j]) {
      StemOfKidName(fs[i], name);
      if name in KidNames(fs[j]) { StemOfKidName(fs[j], name); }
    }
  }

  lemma StemOfKidName<S>(f: Field<S>, name: string)
    requires '[' !in f.name && name in KidNames(f)
    ensures Stem(name) == f.name
  {
    var k :| 0 <= k < |Kids(f)| && Kids(f)[k].0 == name;
    KidStem(f, k);
  }

  // ---------------------------------------------------------------------------
  // Each component once, parents first
  // ---------------------------------------------------------------------------

  /** No visit is under, or at, the path of a later one. */
  ghost predicate ParentsFirst<S>(vs: seq<(Path, S)>) {
    forall i, j :: 0 <= i < j < |vs| ==> !(vs[j].0 <= vs[i].0)
  }

  /** All visits are below `path`, through one of the named children. */
  ghost predicate Below<S>(vs: seq<(Path, S)>, path: Path, names: set<string>) {
    forall j :: 0 <= j < |vs| ==> path < vs[j].0 && vs[j].0[|path|] in names
  }

  /** All visits are below `path`, through none of the named children. */
  ghost predicate Avoids<S>(vs: seq<(Path, S)>, path: Path, names: set<string>) {
    forall j :: 0 <= j < |vs| ==> path < vs[j].0 && vs[j].0[|path|] !in names
  }

  lemma Concatenated<S>(us: seq<(Path, S)>, vs: seq<(Path, S)>, path: Path, names: set<string>)
    requires ParentsFirst(us) && ParentsFirst(vs) && Avoids(us, path, names) && Below(vs, path, names)
    ensures ParentsFirst(us + vs)
  {
    var ws := us + vs;
    forall i, j | 0 <= i < j < |ws| ensures !(ws[j].0 <= ws[i].0) {
      if i < |us| <= j {
        assert ws[i].0[|path|] !in names && ws[j].0[|path|] in names;
      }
    }
  }

  /** Lists of visits through pairwise different children. */
  ghost predicate Apart<S>(vss: seq<seq<(Path, S)>>, path: Path, names: seq<set<string>>) {
    && |names| == |vss|
    && (forall i :: 0 <= i < |vss| ==> ParentsFirst(vss[i]) && Below(vss[i], path, names[i]))
    && (forall i, j :: 0 <= i < j < |names| ==> names[i] !! names[j])
  }

  lemma {:induction false} JoinAvoids<S>(vss: seq<seq<(Path, S)>>, path: Path, names: seq<set<string>>, bad: set<string>)
    requires |names| == |vss| && forall i :: 0 <= i < |vss| ==> Below(vss[i], path, names[i]) && names[i] !! bad
    ensures Avoids(Join(vss), path, bad)
  {
    if vss != [] {
      var last := |vss| - 1;
      JoinAvoids(vss[..last], path, names[..last], bad);
      assert Below(vss[last], path, names[last]) && names[last] !! bad;
    }
  }

  lemma {:induction false} JoinOrdered<S>(vss: seq<seq<(Path, S)>>, path: Path, names: seq<set<string>>)
    requires Apart(vss, path, names)
    ensures ParentsFirst(Join(vss))
  {
    if vss != [] {
      var last := |vss| - 1;
      JoinOrdered(vss[..last], path, names[..last]);
      JoinAvoids(vss[..last], path, names[..last], names[last]);
      Concatenated(Join(vss[..last]), vss[last], path, names[last]);
    }
  }

  lemma {:induction false} JoinBelow<S>(vss: seq<seq<(Path, S)>>, path: Path, all: set<string>)
    requires forall i :: 0 <= i < |vss| ==> Below(vss[i], path, all)
    ensures Below(Join(vss), path, all)
  {
    if vss != [] { JoinBelow(vss[..|vss| - 1], path, all); }
  }

  lemma {:induction false} KidOrdered<S>(f: Field<S>, k: nat, path: Path)
    requires KidsWellNamed(f) && k < |Kids(f)|
    ensures var vs := KidVisits(f, path)[k];
            ParentsFirst(vs) && Below(vs, path, {Kids(f)[k].0}) && Below(vs, path, KidNames(f))
    decreases f, 0
  {
    OrderedVisits(Kids(f)[k].1, path + [Kids(f)[k].0]);
    UnderName(KidVisits(f, path)[k], path, Kids(f)[k].0, KidNames(f));
  }

  lemma UnderName<S>(vs: seq<(Path, S)>, path: Path, name: string, all: set<string>)
    requires name in all && forall j :: 0 <= j < |vs| ==> path + [name] <= vs[j].0
    ensures Below(vs, path, {name}) && Below(vs, path, all)
  {}

  lemma {:induction false} KidsOrdered<S>(f: Field<S>, path: Path)
    requires KidsWellNamed(f)
    ensures ParentsFirst(Join(KidVisits(f, path))) && Below(Join(KidVisits(f, path)), path, KidNames(f))
    decreases f, 1
  {
    var vss := KidVisits(f, path);
    var names := seq(|Kids(f)|, k requires 0 <= k < |Kids(f)| => {Kids(f)[k].0});
    forall k | 0 <= k < |vss|
      ensures ParentsFirst(vss[k]) && Below(vss[k], path, names[k]) && Below(vss[k], path, KidNames(f))
    {
      KidOrdered(f, k, path);
    }
    forall h, k | 0 <= h < k < |names| ensures names[h] !! names[k] { KidNamesDiffer(f, h, k); }
    JoinOrdered(vss, path, names);
    JoinBelow(vss, path, KidNames(f));
  }

  lemma {:induction false} FieldsOrdered<S>(n: Node<S>, path: Path)
    requires WellNamed(n)
    ensures ParentsFirst(Join(FieldVisits(n, path)))
    ensures Avoids(Join(FieldVisits(n, path)), path, {})
    decreases n, 0
  {
    var vss := FieldVisits(n, path);
    var names := seq(|n.fields|, i requires 0 <= i < |n.fields| => KidNames(n.fields[i]));
    forall i | 0 <= i < |vss| ensures ParentsFirst(vss[i]) && Below(vss[i], path, names[i]) {
      KidsOrdered(n.fields[i], path);
    }
    forall i, j | 0 <= i < j < |names| ensures names[i] !! names[j] { FieldNamesDisjoint(n.fields, i, j); }
    JoinOrdered(vss, path, names);
    JoinAvoids(vss, path, names, {});
  }

  /** The walk is in pre-order and repeats no path. */
  lemma {:induction false} OrderedVisits<S>(n: Node<S>, path: Path)
    requires WellNamed(n)
    ensures ParentsFirst(Visits(n, path))
    ensures forall j :: 0 <= j < |Visits(n, path)| ==> path <= Visits(n, path)[j].0
    decreases n, 1
  {
    FieldsOrdered(n, path);
    RootFirst((path, n.state), Join(FieldVisits(n, path)));
  }

  lemma RootFirst<S>(root: (Path, S), vs: seq<(Path, S)>)
    requires ParentsFirst(vs) && Avoids(vs, root.0, {})
    ensures ParentsFirst([root] + vs)
    ensures forall j :: 0 <= j < |[root] + vs| ==> root.0 <= ([root] + vs)[j].0
  {}

  /** Where a visit below the root stands: field, place in it, child, place in that child's walk. */
  lemma PlaceOfVisit<S>(n: Node<S>, path: Path, i: nat) returns (h: nat, o: nat, k: nat, p: nat)
    requires 0 < i < |Visits(n, path)|
    ensures h < |n.fields| && k < |Kids(n.fields[h])|
    ensures i - 1 == |Join(FieldVisits(n, path)[..h])| + o && o < |FieldVisits(n, path)[h]|
    ensures o == |Join(KidVisits(n.fields[h], path)[..k])| + p && p < |KidVisits(n.fields[h], path)[k]|
    ensures Visits(n, path)[i] == KidVisits(n.fields[h], path)[k][p]
  {
    h, o := JoinPlace(FieldVisits(n, path), i - 1);
    k, p := JoinPlace(KidVisits(n.fields[h], path), o);
  }

  /** A visit through a child's name is a visit of that child's subtree. */
  lemma VisitsChild<S>(n: Node<S>, path: Path, h: nat, k: nat, a: nat, b: nat, p: nat)
    requires WellNamed(n) && h < |n.fields| && k < |Kids(n.fields[h])| && a < |n.fields| && b < |Kids(n.fields[a])|
    requires p < |KidVisits(n.fields[a], path)[b]|
    requires path + [Kids(n.fields[h])[k].0] <= KidVisits(n.fields[a], path)[b][p].0
    ensures a == h && b == k
  {
    KidOrdered(n.fields[a], b, path);
    var name, other := Kids(n.fields[h])[k].0, Kids(n.fields[a])[b].0;
    assert KidVisits(n.fields[a], path)[b][p].0[|path|] == name == other;
    assert name in KidNames(n.fields[a]) && name in KidNames(n.fields[h]);
    if a != h {
      FieldNamesDisjoint(n.fields, a, h);
    } else if b != k {
      if b < k { KidNamesDiffer(n.fields[h], b, k); } else { KidNamesDiffer(n.fields[h], k, b); }
    }
  }

  /**
   Siblings are visited in field order, and items of a vector in index order: all visits
   through an earlier child come before all those through a later one.
   */
  lemma SiblingsInOrder<S>(n: Node<S>, path: Path, i: nat, j: nat, h: nat, k: nat, h': nat, k': nat)
    requires WellNamed(n) && i < |Visits(n, path)| && j < |Visits(n, path)|
    requires h < |n.fields| && k < |Kids(n.fields[h])| && h' < |n.fields| && k' < |Kids(n.fields[h'])|
    requires path + [Kids(n.fields[h])[k].0] <= Visits(n, path)[i].0
    requires path + [Kids(n.fields[h'])[k'].0] <= Visits(n, path)[j].0
    requires h < h' || (h == h' && k < k')
    ensures i < j
  {
    var a, o, b, p := PlaceOfVisit(n, path, i);
    VisitsChild(n, path, h, k, a, b, p);
    var a', o', b', p' := PlaceOfVisit(n, path, j);
    VisitsChild(n, path, h', k', a', b', p');
    if h < h' {
      JoinGrows(FieldVisits(n, path), h, h');
    } else {
      JoinGrows(KidVisits(n.fields[h], path), k, k');
    }
  }

  // ---------------------------------------------------------------------------
  // The walk depends on the shape alone
  // ---------------------------------------------------------------------------

  function Paths<S>(vs: seq<(Path, S)>): seq<Path> { seq(|vs|, j requires 0 <= j < |vs| => vs[j].0) }

  lemma PathsConcat<S>(us: seq<(Path, S)>, vs: seq<(Path, S)>)
    ensures Paths(us + vs) == Paths(us) + Paths(vs)
  {}

  lemma {:induction false} PathsOfJoin<S, T>(vss: seq<seq<(Path, S)>>, wss: seq<seq<(Path, T)>>)
    requires |vss| == |wss| && forall i :: 0 <= i < |vss| ==> Paths(vss[i]) == Paths(wss[i])
    ensures Paths(Join(vss)) == Paths(Join(wss))
  {
    if vss != [] {
      var last := |vss| - 1;
      PathsOfJoin(vss[..last], wss[..last]);
      PathsConcat(Join(vss[..last]), vss[last]);
      PathsConcat(Join(wss[..last]), wss[last]);
    }
  }

  lemma KidsOfShape<S>(f: Field<S>)
    ensures |Kids(FieldShape(f))| == |Kids(f)|
    ensures forall k :: 0 <= k < |Kids(f)| ==> Kids(FieldShape(f))[k] == (Kids(f)[k].0, Shape(Kids(f)[k].1))
  {}

  lemma {:induction false} KidPathsOfShape<S>(f: Field<S>, path: Path)
    ensures Paths(Join(KidVisits(f, path))) == Paths(Join(KidVisits(FieldShape(f), path)))
    decreases f, 0
  {
    KidsOfShape(f);
    var vss, wss := KidVisits(f, path), KidVisits(FieldShape(f), path);
    forall k | 0 <= k < |vss| ensures Paths(vss[k]) == Paths(wss[k]) {
      PathsOfShape(Kids(f)[k].1, path + [Kids(f)[k].0]);
    }
    PathsOfJoin(vss, wss);
  }

  lemma {:induction false} FieldPathsOfShape<S>(n: Node<S>, path: Path)
    ensures Paths(Join(FieldVisits(n, path))) == Paths(Join(FieldVisits(Shape(n), path)))
    decreases n, 0
  {
    var vss, wss := FieldVisits(n, path), FieldVisits(Shape(n), path);
    forall i | 0 <= i < |vss| ensures Paths(vss[i]) == Paths(wss[i]) { KidPathsOfShape(n.fields[i], path); }
    PathsOfJoin(vss, wss);
  }

  lemma {:induction false} PathsOfShape<S>(n: Node<S>, path: Path)
    ensures Paths(Visits(n, path)) == Paths(Visits(Shape(n), path))
    decreases n, 1
  {
    FieldPathsOfShape(n, path);
    PathsConcat([(path, n.state)], Join(FieldVisits(n, path)));
    PathsConcat([(path, ())], Join(FieldVisits(Shape(n), path)));
  }

  /**
   Whatever happened in the run phase, the walk after it visits the same paths in the same
   order as a walk before it would have, each once and parents first.
   */
  lemma WalkAfterRun<S>(n: Node<S>, path: Path, env: Env<S>)
    requires WellNamed(n)
    ensures Paths(Visits(Run(n, path, env).0, path)) == Paths(Visits(n, path))
    ensures ParentsFirst(Visits(Run(n, path, env).0, path))
  {
    var before, after := Visits(n, path), Visits(Run(n, path, env).0, path);
    RunKeepsShape(n, path, env);
    PathsOfShape(n, path);
    PathsOfShape(Run(n, path, env).0, path);
    OrderedVisits(n, path);
    SamePathsOrdered(before, after);
  }

  lemma SamePathsOrdered<S>(us: seq<(Path, S)>, vs: seq<(Path, S)>)
    requires Paths(us) == Paths(vs) && ParentsFirst(us)
    ensures ParentsFirst(vs)
  {
    assert |Paths(us)| == |Paths(vs)|;
    forall i | 0 <= i < |vs| ensures vs[i].0 == us[i].0 { assert Paths(us)[i] == Paths(vs)[i]; }
  }

  // ---------------------------------------------------------------------------
  // Checks
  // ---------------------------------------------------------------------------

  /** The errors a component's `check` reports, by path and data. */
  type Check<!S> = (Path, S) -> seq<string>

  function Reports<S>(vs: seq<(Path, S)>, check: Check<S>): seq<string> {
    if vs == [] then [] else Reports(vs[..|vs| - 1], check) + check(vs[|vs| - 1].0, vs[|vs| - 1].1)
  }

  lemma {:induction false} ReportsConcat<S>(us: seq<(Path, S)>, vs: seq<(Path, S)>, check: Check<S>)
    ensures Reports(us + vs, check) == Reports(us, check) + Reports(vs, check)
    decreases |vs|
  {
    if vs == [] {
      assert us + vs == us;
    } else {
      assert (us + vs)[..|us + vs| - 1] == us + vs[..|vs| - 1];
      ReportsConcat(us, vs[..|vs| - 1], check);
    }
  }

  lemma {:induction false} NoReportsIff<S>(vs: seq<(Path, S)>, check: Check<S>)
    ensures Reports(vs, check) == [] <==> forall v :: v in vs ==> check(v.0, v.1) == []
  {
    if vs != [] {
      var front, last := vs[..|vs| - 1], vs[|vs| - 1];
      NoReportsIff(front, check);
      assert vs == front + [last];
    }
  }

  class CheckSink {
    var errors: seq<string>

    constructor ()
      ensures errors == []
    {
      errors := [];
    }

    method Error(message: string)
      modifies this
      ensures errors == old(errors) + [message]
    {
      errors := errors + [message];
    }

    method IntoResult() returns (r: Verdict)
      ensures r.Ok? <==> errors == []
      ensures r.Err? ==> r.error == Checks(errors)
    {
      r := if errors == [] then Ok(()) else Err(Checks(errors));
    }
  }

  /** A component's own check, reporting each of its errors. */
  method CheckOne(found: seq<string>, sink: CheckSink)
    modifies sink
    ensures sink.errors == old(sink.errors) + found
  {
    var i := 0;
    while i < |found|
      invariant i <= |found| && sink.errors == old(sink.errors) + found[..i]
    {
      sink.Error(found[i]);
      i := i + 1;
    }
  }

  lemma Assoc(a: seq<string>, b: seq<string>, c: seq<string>)
    ensures a + (b + c) == a + b + c
  {}

  lemma ReportsCons<S>(v: (Path, S), vs: seq<(Path, S)>, check: Check<S>)
    ensures Reports([v] + vs, check) == check(v.0, v.1) + Reports(vs, check)
  {
    assert [v][..0] == [];
    ReportsConcat([v], vs, check);
  }

  /** Reporting one more list after those before it. */
  lemma ReportsStep<S>(vss: seq<seq<(Path, S)>>, i: nat, check: Check<S>, base: seq<string>)
    requires i < |vss|
    ensures base + Reports(Join(vss[..i + 1]), check) == base + Reports(Join(vss[..i]), check) + Reports(vss[i], check)
  {
    JoinStep(vss, i);
    ReportsConcat(Join(vss[..i]), vss[i], check);
    Assoc(base, Reports(Join(vss[..i]), check), Reports(vss[i], check));
  }

  /** `check_all`: the component first, then its children in field order. */
  method CheckAll<S>(node: Node<S>, path: Path, check: Check<S>, sink: CheckSink)
    modifies sink
    ensures sink.errors == old(sink.errors) + Reports(Visits(node, path), check)
    decreases node, 2
  {
    var own := check(path, node.state);
    CheckOne(own, sink);
    CheckFields(node, path, check, sink);
    ghost var below := Join(FieldVisits(node, path));
    ReportsCons((path, node.state), below, check);
    Assoc(old(sink.errors), own, Reports(below, check));
  }

  method CheckFields<S>(node: Node<S>, path: Path, check: Check<S>, sink: CheckSink)
    modifies sink
    ensures sink.errors == old(sink.errors) + Reports(Join(FieldVisits(node, path)), check)
    decreases node, 1
  {
    ghost var vss := FieldVisits(node, path);
    var i := 0;
    while i < |node.fields|
      invariant i <= |node.fields| && sink.errors == old(sink.errors) + Reports(Join(vss[..i]), check)
    {
      CheckKids(node.fields[i], path, check, sink);
      ReportsStep(vss, i, check, old(sink.errors));
      i := i + 1;
    }
    JoinAll(vss);
  }

  method CheckKids<S>(f: Field<S>, path: Path, check: Check<S>, sink: CheckSink)
    modifies sink
    ensures sink.errors == old(sink.errors) + Reports(Join(KidVisits(f, path)), check)
    decreases f, 0
  {
    var ks := Kids(f);
    ghost var vss := KidVisits(f, path);
    var k := 0;
    while k < |ks|
      invariant k <= |ks| && sink.errors == old(sink.errors) + Reports(Join(vss[..k]), check)
    {
      CheckAll(ks[k].1, path + [ks[k].0], check, sink);
      ReportsStep(vss, k, check, old(sink.errors));
      k := k + 1;
    }
    JoinAll(vss);
  }

  /** Checks stay silent exactly when every component's check does. */
  lemma SilentIff<S(!new)>(n: Node<S>, check: Check<S>)
    ensures Reports(Visits(n, []), check) == [] <==> forall rel, m :: At(n, rel, m) ==> check(rel, m.state) == []
  {
    var vs := Visits(n, []);
    NoReportsIff(vs, check);
    forall rel, m | At(n, rel, m) ensures (rel, m.state) in vs {
      ComponentIsVisited(n, [], rel, m);
      assert [] + rel == rel;
    }
    forall v | v in vs ensures exists rel, m :: At(n, rel, m) && v == (rel, m.state) {
      var rel, m := VisitedIsComponent(n, [], v);
      assert [] + rel == rel;
    }
  }

  /** No component's run body fails. */
  ghost predicate BodiesSucceed<S(!new)>(n: Node<S>, env: Env<S>) {
    forall rel, m :: At(n, rel, m) ==> !Fails(env(rel).end)
  }

  /** No component's check finds fault with what `extract` makes of the data its body left. */
  ghost predicate ChecksPass<S(!new)>(n: Node<S>, env: Env<S>, extract: Extract<S>, check: Check<S>) {
    forall rel, m :: At(n, rel, m) ==> check(rel, extract(rel, env(rel).state)) == []
  }

  lemma BodiesSucceedIff<S(!new)>(n: Node<S>, env: Env<S>)
    ensures Run(n, [], env).1.Ok? <==> BodiesSucceed(n, env)
  {
    if Run(n, [], env).1.Ok? {
      forall rel, m | At(n, rel, m) ensures !Fails(env(rel).end) {
        var after := EveryBodyRan(n, [], env, rel, m);
        assert [] + rel == rel;
      }
    } else {
      var rel, m := FailingBody(n, [], env);
      assert [] + rel == rel && At(n, rel, m) && Fails(env(rel).end);
    }
  }

  /** After a successful run the walk reports nothing exactly when every check passes. */
  lemma ReportsNothingIff<S(!new)>(n: Node<S>, env: Env<S>, extract: Extract<S>, check: Check<S>)
    requires Run(n, [], env).1.Ok?
    ensures var final := Extracted(Run(n, [], env).0, [], extract);
            Reports(Visits(final, []), check) == [] <==> ChecksPass(n, env, extract, check)
  {
    var final := Extracted(Run(n, [], env).0, [], extract);
    SilentIff(final, check);
    if ChecksPass(n, env, extract, check) {
      forall rel, m | At(final, rel, m) ensures check(rel, m.state) == [] {
        var ran := FinalData(n, env, extract, rel, m);
      }
    } else {
      var rel, m :| At(n, rel, m) && check(rel, extract(rel, env(rel).state)) != [];
      var e := FinalComponent(n, env, extract, rel, m);
    }
  }

  lemma FinalData<S(!new)>(n: Node<S>, env: Env<S>, extract: Extract<S>, rel: Path, e: Node<S>) returns (m: Node<S>)
    ensures Run(n, [], env).1.Ok? && At(Extracted(Run(n, [], env).0, [], extract), rel, e) ==>
              At(n, rel, m) && e.state == extract(rel, env(rel).state)
  {
    m := n;
    if Run(n, [], env).1.Ok? && At(Extracted(Run(n, [], env).0, [], extract), rel, e) {
      var ran := OnlyExtracted(Run(n, [], env).0, [], extract, rel, e);
      m := OnlyRunStates(n, [], env, rel, ran);
      assert [] + rel == rel;
    }
  }

  lemma FinalComponent<S(!new)>(n: Node<S>, env: Env<S>, extract: Extract<S>, rel: Path, m: Node<S>) returns (e: Node<S>)
    requires At(n, rel, m)
    ensures Run(n, [], env).1.Ok? ==>
              At(Extracted(Run(n, [], env).0, [], extract), rel, e) && e.state == extract(rel, env(rel).state)
  {
    e := n;
    if Run(n, [], env).1.Ok? {
      var ran := EveryBodyRan(n, [], env, rel, m);
      assert [] + rel == rel;
      ExtractedComponent(Run(n, [], env).0, [], extract, rel, ran);
      e := Extracted(ran, rel, extract);
    }
  }

  /**
   `run_component_test` from the run phase to the checks: both later walks run even after a
   failed run, on the whole tree, and a run error takes precedence over check errors. The
   test passes exactly when no run body fails and every component's check accepts what its
   `extract` makes of the data its body left; otherwise the error is that of the run, or
   carries every report of the walk in order.
   */
  method ComponentTest<S(!new)>(test: Node<S>, env: Env<S>, extract: Extract<S>, check: Check<S>)
    returns (after: Node<S>, r: Verdict)
    requires WellNamed(test)
    ensures Shape(after) == Shape(test)
    ensures r.Ok? <==> BodiesSucceed(test, env) && ChecksPass(test, env, extract, check)
    ensures !BodiesSucceed(test, env) ==> r == Run(test, [], env).1
    ensures BodiesSucceed(test, env) && r.Err? ==> r.error == Checks(Reports(Visits(after, []), check))
  {
    var ran;
    ran, r := RunAll(test, [], env);
    after := ExtractAll(ran, [], extract);
    var post := CheckTree(after, check);
    RunKeepsShape(test, [], env);
    ExtractKeepsShape(ran, [], extract);
    BodiesSucceedIff(test, env);
    if r.Ok? {
      ReportsNothingIff(test, env, extract, check);
      r := post;
    }
  }

  /** The check walk with a sink of its own. */
  method CheckTree<S>(node: Node<S>, check: Check<S>) returns (r: Verdict)
    ensures r.Ok? <==> Reports(Visits(node, []), check) == []
    ensures r.Err? ==> r.error == Checks(Reports(Visits(node, []), check))
  {
    var sink := new CheckSink();
    CheckAll(node, [], check, sink);
    r := sink.IntoResult();
  }
}
