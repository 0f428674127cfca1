/**
 What a run phase guarantees to the phases after it (`rustdv-methodology/src/component.rs`):
 the tree keeps its shape whatever the run bodies did, and the run succeeds exactly when
 every body ran and none failed.
 */
module TreeWalk {
  import opened Basics
  import opened RunPhase

  // ---------------------------------------------------------------------------
  // Shape
  // ---------------------------------------------------------------------------

  /** The tree without the components' own data. */
  function Shape<S>(n: Node<S>): Node<()> {
    Node((), seq(|n.fields|, i requires 0 <= i < |n.fields| => FieldShape(n.fields[i])))
  }

  function Shapes<S>(ns: seq<Node<S>>): seq<Node<()>> {
    seq(|ns|, k requires 0 <= k < |ns| => Shape(ns[k]))
  }

  function FieldShape<S>(f: Field<S>): Field<()> {
    match f
    case Comp(l, slot) => Comp(l, if slot.Some? then Some(Shape(slot.value)) else None)
    case Opt(l, child) => Opt(l, if child.Some? then Some(Shape(child.value)) else None)
    case Vec(l, items) => Vec(l, Shapes(items))
    case Plain(l, item) => Plain(l, Shape(item))
  }

  lemma ShapeWithKids<S>(f: Field<S>, ns: seq<Node<S>>)
    requires |ns| == |Kids(f)| && forall k :: 0 <= k < |ns| ==> Shape(ns[k]) == Shape(Kids(f)[k].1)
    ensures FieldShape(WithKids(f, ns)) == FieldShape(f)
  {
    if f.Vec? {
      assert forall k :: 0 <= k < |ns| ==> Kids(f)[k].1 == f.items[k];
      assert Shapes(ns) == Shapes(f.items);
    }
  }

  lemma {:induction false} FieldKeepsShape<S>(f: Field<S>, path: Path, env: Env<S>)
    ensures FieldShape(FieldAfter(f, path, env)) == FieldShape(f)
    decreases f
  {
    var ns := Nodes(KidRuns(f, path, env));
    forall k | 0 <= k < |ns| ensures Shape(ns[k]) == Shape(Kids(f)[k].1) {
      RunKeepsShape(Kids(f)[k].1, path + [Kids(f)[k].0], env);
    }
    ShapeWithKids(f, ns);
  }

  /**
   Whatever the run bodies do (succeed, fail in place, fail in a moved child, or get
   stopped), the tree has every component back in its place at every level.
   */
  lemma {:induction false} RunKeepsShape<S>(n: Node<S>, path: Path, env: Env<S>)
    ensures Shape(Run(n, path, env).0) == Shape(n)
    decreases n
  {
    var after := Run(n, path, env).0;
    forall i | 0 <= i < |n.fields| ensures FieldShape(after.fields[i]) == FieldShape(n.fields[i]) {
      FieldKeepsShape(n.fields[i], path, env);
    }
  }

  // ---------------------------------------------------------------------------
  // When a run succeeds
  // ---------------------------------------------------------------------------

  /** Every verdict collected at a component is that of one of its children. */
  lemma WhichChild<S>(n: Node<S>, movable: bool, path: Path, env: Env<S>, j: nat) returns (h: nat, k: nat)
    requires j < |Join(VerdictLists(n, movable, path, env))|
    ensures h < |n.fields| && k < |Kids(n.fields[h])|
    ensures Join(VerdictLists(n, movable, path, env))[j] == KidRuns(n.fields[h], path, env)[k].1
  {
    h, k := JoinEntry(VerdictLists(n, movable, path, env), j);
  }

  /** And every child's verdict is collected. */
  lemma ChildCounted<S>(n: Node<S>, path: Path, env: Env<S>, h: nat, k: nat)
    requires h < |n.fields| && k < |Kids(n.fields[h])|
    ensures KidRuns(n.fields[h], path, env)[k].1 in Join(VerdictLists(n, n.fields[h].Comp?, path, env))
  {
    var rs, vss := KidRuns(n.fields[h], path, env), VerdictLists(n, n.fields[h].Comp?, path, env);
    assert vss[h] == Verdicts(rs) && Verdicts(rs)[k] == rs[k].1;
    JoinMember(vss, h, rs[k].1);
  }

  lemma ChildrenOk<S>(n: Node<S>, path: Path, env: Env<S>, h: nat, k: nat)
    requires Run(n, path, env).1.Ok? && h < |n.fields| && k < |Kids(n.fields[h])|
    ensures KidRuns(n.fields[h], path, env)[k].1.Ok?
  {
    FirstErrorMeaning(Join(VerdictLists(n, n.fields[h].Comp?, path, env)));
    ChildCounted(n, path, env, h, k);
  }

  lemma Nested(path: Path, name: string, rel: Path)
    ensures path + ([name] + rel) == path + [name] + rel
  {}

  /** An error of the run phase is the error of some component's body. */
  lemma {:induction false} FailingBody<S(!new)>(n: Node<S>, path: Path, env: Env<S>) returns (rel: Path, m: Node<S>)
    requires Run(n, path, env).1.Err?
    ensures At(n, rel, m) && env(path + rel).end == Finished(Run(n, path, env).1)
    decreases n
  {
    var inPlace := Join(VerdictLists(n, false, path, env));
    var movable := Join(VerdictLists(n, true, path, env));
    if FirstError(inPlace).Ok? && FirstError(movable).Ok? {
      rel, m := [], n;
      assert path + rel == path;
    } else {
      var late := FirstError(inPlace).Ok?;
      var vs := if late then movable else inPlace;
      FirstErrorMeaning(vs);
      var j :| 0 <= j < |vs| && vs[j] == FirstError(vs);
      var h, k := WhichChild(n, late, path, env, j);
      var kid := Kids(n.fields[h])[k];
      var below;
      below, m := FailingBody(kid.1, path + [kid.0], env);
      rel := [kid.0] + below;
      AtChild(n, h, k, below, m);
      Nested(path, kid.0, below);
    }
  }

  /** After a successful run the tree has the same children, each after a successful run of its own. */
  lemma ChildAfterRun<S>(n: Node<S>, path: Path, env: Env<S>, h: nat, k: nat)
    requires Run(n, path, env).1.Ok? && h < |n.fields|
    ensures var whole := Run(n, path, env).0;
            && |whole.fields| == |n.fields| && |Kids(whole.fields[h])| == |Kids(n.fields[h])|
            && (k < |Kids(n.fields[h])| ==>
                  var kid := Kids(n.fields[h])[k];
                  && Kids(whole.fields[h])[k] == (kid.0, Run(kid.1, path + [kid.0], env).0)
                  && Run(kid.1, path + [kid.0], env).1.Ok?)
  {
    KidsAfter(n.fields[h], path, env);
    if k < |Kids(n.fields[h])| { ChildrenOk(n, path, env, h, k); }
  }

  lemma KidsAfter<S>(f: Field<S>, path: Path, env: Env<S>)
    ensures var g := FieldAfter(f, path, env);
            && |Kids(g)| == |Kids(f)|
            && forall k :: 0 <= k < |Kids(f)| ==>
                 Kids(g)[k] == (Kids(f)[k].0, Run(Kids(f)[k].1, path + [Kids(f)[k].0], env).0)
  {}

  /** After a successful run every component's body ran and did not fail. */
  lemma {:induction false} EveryBodyRan<S(!new)>(n: Node<S>, path: Path, env: Env<S>, rel: Path, m: Node<S>)
    returns (after: Node<S>)
    requires At(n, rel, m)
    ensures Run(n, path, env).1.Ok? ==>
              && !Fails(env(path + rel).end)
              && At(Run(n, path, env).0, rel, after) && after.state == env(path + rel).state
    decreases rel
  {
    after := Run(n, path, env).0;
    if rel == [] {
      assert path + rel == path;
    } else if Run(n, path, env).1.Ok? {
      var h, k := AtStep(n, rel, m);
      var kid, below := Kids(n.fields[h])[k], rel[1..];
      ChildAfterRun(n, path, env, h, k);
      after := EveryBodyRan(kid.1, path + [kid.0], env, below, m);
      Nested(path, kid.0, below);
      AtChild(Run(n, path, env).0, h, k, below, after);
    }
  }

  /** And whatever component is there after a successful run holds the data its body left. */
  lemma {:induction false} OnlyRunStates<S(!new)>(n: Node<S>, path: Path, env: Env<S>, rel: Path, after: Node<S>)
    returns (m: Node<S>)
    ensures Run(n, path, env).1.Ok? && At(Run(n, path, env).0, rel, after) ==>
              At(n, rel, m) && after.state == env(path + rel).state
    decreases rel
  {
    m := n;
    if rel == [] {
      assert path + rel == path;
    } else if Run(n, path, env).1.Ok? && At(Run(n, path, env).0, rel, after) {
      var h, k := AtStep(Run(n, path, env).0, rel, after);
      ChildAfterRun(n, path, env, h, k);
      var kid, below := Kids(n.fields[h])[k], rel[1..];
      m := OnlyRunStates(kid.1, path + [kid.0], env, below, after);
      Nested(path, kid.0, below);
      AtChild(n, h, k, below, m);
    }
  }

  /** The body came to an end of its own that is an error; being stopped is none. */
  predicate Fails(end: Ending) { end.Finished? && end.r.Err? }

  /** The run phase succeeds exactly when no component's body fails. */
  lemma RunOkIff<S(!new)>(n: Node<S>, path: Path, env: Env<S>)
    ensures Run(n, path, env).1.Ok? <==> forall rel, m :: At(n, rel, m) ==> !Fails(env(path + rel).end)
  {
    if Run(n, path, env).1.Ok? {
      forall rel, m | At(n, rel, m) ensures !Fails(env(path + rel).end) {
        var after := EveryBodyRan(n, path, env, rel, m);
      }
    } else {
      var rel, m := FailingBody(n, path, env);
      assert At(n, rel, m) && Fails(env(path + rel).end);
    }
  }

  /** Some child held in place failed. */
  ghost predicate InPlaceFails<S>(n: Node<S>, path: Path, env: Env<S>) {
    exists h, k :: 0 <= h < |n.fields| && 0 <= k < |Kids(n.fields[h])| && !n.fields[h].Comp?
                   && KidRuns(n.fields[h], path, env)[k].1.Err?
  }

  lemma InPlaceFailsIff<S>(n: Node<S>, path: Path, env: Env<S>)
    ensures FirstError(Join(VerdictLists(n, false, path, env))).Err? <==> InPlaceFails(n, path, env)
  {
    var vs := Join(VerdictLists(n, false, path, env));
    FirstErrorMeaning(vs);
    if FirstError(vs).Err? {
      var j :| 0 <= j < |vs| && vs[j] == FirstError(vs);
      var h, k := JoinEntry(VerdictLists(n, false, path, env), j);
      assert !n.fields[h].Comp? && KidRuns(n.fields[h], path, env)[k].1.Err?;
    }
    if InPlaceFails(n, path, env) {
      var h, k :| 0 <= h < |n.fields| && 0 <= k < |Kids(n.fields[h])| && !n.fields[h].Comp?
                  && KidRuns(n.fields[h], path, env)[k].1.Err?;
      ChildCounted(n, path, env, h, k);
    }
  }

  /**
   Who runs after a failure. If a child held in place fails, the component's own body and its
   movable children do not run and are left as they were; otherwise the own body runs, even
   when a movable child fails, whose error then takes precedence over the component's own.
   */
  lemma WhoRuns<S>(n: Node<S>, path: Path, env: Env<S>, h: nat)
    requires h < |n.fields|
    ensures var after := Run(n, path, env);
            && |after.0.fields| == |n.fields|
            && (!n.fields[h].Comp? ==> after.0.fields[h] == FieldAfter(n.fields[h], path, env))
            && (if InPlaceFails(n, path, env)
                then after.0.state == n.state && (n.fields[h].Comp? ==> after.0.fields[h] == n.fields[h])
                else after.0.state == env(path).state && after.0.fields[h] == FieldAfter(n.fields[h], path, env)
                     && (RunOne(env(path).end).Err? ==> after.1.Err?)
                     && (FirstError(Join(VerdictLists(n, true, path, env))).Ok? ==> after.1 == RunOne(env(path).end)))
  {
    InPlaceFailsIff(n, path, env);
  }

  lemma FirstOfLists(vss: seq<seq<Verdict>>, h: nat, k: nat)
    requires h < |vss| && k < |vss[h]| && vss[h][k].Err?
    requires forall a, b | 0 <= a < |vss| && 0 <= b < |vss[a]| :: (a < h || (a == h && b < k)) ==> vss[a][b].Ok?
    ensures FirstError(Join(vss)) == vss[h][k]
  {
    var vs, j := Join(vss), |Join(vss[..h])| + k;
    JoinAt(vss, h, k);
    FirstErrorMeaning(vs);
    var i :| 0 <= i < |vs| && vs[i] == FirstError(vs) && forall g :: 0 <= g < i ==> vs[g].Ok?;
    var a, b := JoinPlace(vss, i);
    if a > h { JoinGrows(vss, h, a); }
  }

  /** Everything before child `k` of field `h`, among the children of one kind, succeeded. */
  ghost predicate OkBefore<S>(n: Node<S>, movable: bool, path: Path, env: Env<S>, h: nat, k: nat) {
    forall a, b | 0 <= a < |n.fields| && 0 <= b < |Kids(n.fields[a])| ::
      n.fields[a].Comp? == movable && (a < h || (a == h && b < k)) ==> KidRuns(n.fields[a], path, env)[b].1.Ok?
  }

  /** The verdict of the children of one kind is that of the first one, in field order, that fails. */
  lemma FirstFailureWins<S>(n: Node<S>, movable: bool, path: Path, env: Env<S>, h: nat, k: nat)
    requires h < |n.fields| && k < |Kids(n.fields[h])| && n.fields[h].Comp? == movable
    ensures KidRuns(n.fields[h], path, env)[k].1.Err? && OkBefore(n, movable, path, env, h, k) ==>
              FirstError(Join(VerdictLists(n, movable, path, env))) == KidRuns(n.fields[h], path, env)[k].1
  {
    if KidRuns(n.fields[h], path, env)[k].1.Err? && OkBefore(n, movable, path, env, h, k) {
      FirstOfLists(VerdictLists(n, movable, path, env), h, k);
    }
  }

  /** So an in-place child's first error is the verdict, and a movable child's if no in-place child fails. */
  lemma FirstFailureIsVerdict<S>(n: Node<S>, movable: bool, path: Path, env: Env<S>, h: nat, k: nat)
    requires h < |n.fields| && k < |Kids(n.fields[h])| && n.fields[h].Comp? == movable
    ensures KidRuns(n.fields[h], path, env)[k].1.Err? && OkBefore(n, movable, path, env, h, k)
            && (movable ==> !InPlaceFails(n, path, env)) ==>
              Run(n, path, env).1 == KidRuns(n.fields[h], path, env)[k].1
  {
    FirstFailureWins(n, movable, path, env, h, k);
    InPlaceFailsIff(n, path, env);
  }
}
