/**
 The run phase over a component tree: `run_all` and `run_one` of
 `rustdv-methodology/src/component.rs`, with the `children_mut`, `take_children` and
 `restore_children` that `#[derive(Component)]` generates.

 A component owns its children, so a `&mut` walk is modelled by returning the updated
 component. Run bodies leave child fields alone; everything else about them is arbitrary:
 each component's body, known by the component's path, may end in any state and any way.
 */
module RunPhase {
  import opened Basics

  /** A component: its own data and its child fields in declaration order. */
  datatype Node<S> = Node(state: S, fields: seq<Field<S>>)

  /** The four kinds of child field; only a `Comp` slot can be moved out of its parent. */
  datatype Field<S> =
    | Comp(name: string, slot: Option<Node<S>>)
    | Opt(name: string, child: Option<Node<S>>)
    | Vec(name: string, items: seq<Node<S>>)
    | Plain(name: string, item: Node<S>)

  type Path = seq<string>
  datatype TestError = Failure(message: string) | Checks(errors: seq<string>)
  type Verdict = Result<(), TestError>

  /** How a component's run body ended: by itself, or dropped by the objection consensus. */
  datatype Ending = Finished(r: Verdict) | Drained
  datatype Body<S> = Body(state: S, end: Ending)
  type Env<!S> = Path -> Body<S>

  /** `run_one`: being stopped by the consensus is not a failure. */
  function RunOne(end: Ending): Verdict { if end.Finished? then end.r else Ok(()) }

  // ---------------------------------------------------------------------------
  // Children
  // ---------------------------------------------------------------------------

  function Digit(d: nat): char
    requires d < 10
  {
    ('0' as int + d) as char
  }

  function Decimal(n: nat): (s: string)
    ensures |s| >= 1
  {
    (if n < 10 then [] else Decimal(n / 10)) + [Digit(n % 10)]
  }

  function ItemName(name: string, i: nat): string { name + "[" + Decimal(i) + "]" }

  /** The children a field contributes to `children_mut`, each under its name. */
  function Kids<S>(f: Field<S>): (ks: seq<(string, Node<S>)>)
    ensures forall k :: 0 <= k < |ks| ==> ks[k].1 < f
  {
    match f
    case Comp(l, slot) => if slot.Some? then [(l, slot.value)] else []
    case Opt(l, child) => if child.Some? then [(l, child.value)] else []
    case Vec(l, items) => seq(|items|, i requires 0 <= i < |items| => (ItemName(l, i), items[i]))
    case Plain(l, item) => [(l, item)]
  }

  /** The field after its children were changed in place. */
  function WithKids<S>(f: Field<S>, ns: seq<Node<S>>): Field<S>
    requires |ns| == |Kids(f)|
  {
    match f
    case Comp(l, slot) => if slot.Some? then Comp(l, Some(ns[0])) else f
    case Opt(l, child) => if child.Some? then Opt(l, Some(ns[0])) else f
    case Vec(l, items) => Vec(l, ns)
    case Plain(l, item) => Plain(l, ns[0])
  }

  /** `m` is the component reached from `n` by following child names. */
  ghost predicate At<S(!new)>(n: Node<S>, rel: Path, m: Node<S>)
    decreases rel
  {
    if rel == [] then m == n
    else exists i, k :: 0 <= i < |n.fields| && 0 <= k < |Kids(n.fields[i])|
                        && Kids(n.fields[i])[k].0 == rel[0] && At(Kids(n.fields[i])[k].1, rel[1..], m)
  }

  lemma AtChild<S(!new)>(n: Node<S>, i: nat, k: nat, rel: Path, m: Node<S>)
    requires i < |n.fields| && k < |Kids(n.fields[i])| && At(Kids(n.fields[i])[k].1, rel, m)
    ensures At(n, [Kids(n.fields[i])[k].0] + rel, m)
  {
    var name := Kids(n.fields[i])[k].0;
    assert ([name] + rel)[1..] == rel && ([name] + rel)[0] == name;
  }

  /** The first step of a path: the child it goes through. */
  lemma AtStep<S(!new)>(n: Node<S>, rel: Path, m: Node<S>) returns (i: nat, k: nat)
    requires At(n, rel, m) && rel != []
    ensures i < |n.fields| && k < |Kids(n.fields[i])|
    ensures var kid := Kids(n.fields[i])[k]; rel == [kid.0] + rel[1..] && At(kid.1, rel[1..], m)
  {
    i, k :| 0 <= i < |n.fields| && 0 <= k < |Kids(n.fields[i])|
            && Kids(n.fields[i])[k].0 == rel[0] && At(Kids(n.fields[i])[k].1, rel[1..], m);
  }

  // ---------------------------------------------------------------------------
  // What a run leaves behind, without any moving of children
  // ---------------------------------------------------------------------------

  /** The first error in order, if any. */
  function FirstError(vs: seq<Verdict>): Verdict {
    if vs == [] then Ok(()) else
      var before := FirstError(vs[..|vs| - 1]);
      if before.Err? then before else vs[|vs| - 1]
  }

  lemma {:induction false} FirstErrorMeaning(vs: seq<Verdict>)
    ensures FirstError(vs).Ok? <==> forall j :: 0 <= j < |vs| ==> vs[j].Ok?
    ensures FirstError(vs).Err? ==>
              exists j :: 0 <= j < |vs| && vs[j] == FirstError(vs) && forall h :: 0 <= h < j ==> vs[h].Ok?
  {
    if vs != [] {
      var front := vs[..|vs| - 1];
      FirstErrorMeaning(front);
      assert forall j :: 0 <= j < |front| ==> front[j] == vs[j];
    }
  }

  lemma FirstErrorThen(vs: seq<Verdict>, v: Verdict)
    ensures FirstError(vs + [v]) == if FirstError(vs).Err? then FirstError(vs) else v
  {
    assert (vs + [v])[..|vs|] == vs;
  }

  lemma FirstErrorOfOne(v: Verdict)
    ensures FirstError([v]) == v
  {
    assert [v][..0] == [];
  }

  /** The children of one field after their runs, and their verdicts. */
  function KidRuns<S>(f: Field<S>, path: Path, env: Env<S>): (rs: seq<(Node<S>, Verdict)>)
    ensures |rs| == |Kids(f)|
    decreases f, 0
  {
    seq(|Kids(f)|, k requires 0 <= k < |Kids(f)| => Run(Kids(f)[k].1, path + [Kids(f)[k].0], env))
  }

  function Nodes<S>(rs: seq<(Node<S>, Verdict)>): seq<Node<S>> { seq(|rs|, k requires 0 <= k < |rs| => rs[k].0) }
  function Verdicts<S>(rs: seq<(Node<S>, Verdict)>): seq<Verdict> { seq(|rs|, k requires 0 <= k < |rs| => rs[k].1) }

  function FieldAfter<S>(f: Field<S>, path: Path, env: Env<S>): Field<S>
    decreases f, 1
  {
    WithKids(f, Nodes(KidRuns(f, path, env)))
  }

  /** Per field, the verdicts of its children if the field is (or is not) movable. */
  function VerdictLists<S>(n: Node<S>, movable: bool, path: Path, env: Env<S>): (vss: seq<seq<Verdict>>)
    ensures |vss| == |n.fields|
    decreases n, 0
  {
    seq(|n.fields|, i requires 0 <= i < |n.fields| =>
      if n.fields[i].Comp? == movable then Verdicts(KidRuns(n.fields[i], path, env)) else [])
  }

  /**
   A run of the whole tree. If an in-place child failed, the movable children and the
   component itself did not run; otherwise all did, and the children's errors come first.
   */
  function Run<S>(n: Node<S>, path: Path, env: Env<S>): (Node<S>, Verdict)
    decreases n, 1
  {
    var fs := n.fields;
    var inPlace := FirstError(Join(VerdictLists(n, false, path, env)));
    if inPlace.Err? then
      (Node(n.state, seq(|fs|, i requires 0 <= i < |fs| =>
                       if fs[i].Comp? then fs[i] else FieldAfter(fs[i], path, env))), inPlace)
    else
      var movable := FirstError(Join(VerdictLists(n, true, path, env)));
      (Node(env(path).state, seq(|fs|, i requires 0 <= i < |fs| => FieldAfter(fs[i], path, env))),
       if movable.Err? then movable else RunOne(env(path).end))
  }

  // ---------------------------------------------------------------------------
  // Moving children out and back
  // ---------------------------------------------------------------------------

  function Taken<S>(fs: seq<Field<S>>): (ts: seq<(string, Node<S>)>)
    ensures forall j :: 0 <= j < |ts| ==> exists i :: 0 <= i < |fs| && fs[i] == Comp(ts[j].0, Some(ts[j].1))
  {
    if fs == [] then [] else
      var last := |fs| - 1;
      Taken(fs[..last]) + if fs[last].Comp? then Kids(fs[last]) else []
  }

  function Emptied<S>(f: Field<S>): Field<S> { if f.Comp? then Comp(f.name, None) else f }

  /** `take_children`: one pass over the fields. */
  method TakeChildren<S>(node: Node<S>) returns (taken: seq<(string, Node<S>)>, left: Node<S>)
    ensures taken == Taken(node.fields)
    ensures left.state == node.state && |left.fields| == |node.fields|
    ensures forall i :: 0 <= i < |node.fields| ==> left.fields[i] == Emptied(node.fields[i])
  {
    var fs := node.fields;
    taken := [];
    var i := 0;
    while i < |fs|
      invariant i <= |fs| == |node.fields| && taken == Taken(node.fields[..i])
      invariant forall j :: 0 <= j < i ==> fs[j] == Emptied(node.fields[j])
      invariant forall j :: i <= j < |fs| ==> fs[j] == node.fields[j]
    {
      assert node.fields[..i + 1][..i] == node.fields[..i];
      if fs[i].Comp? {
        if fs[i].slot.Some? { taken := taken + [(fs[i].name, fs[i].slot.value)]; }
        fs := fs[i := Comp(fs[i].name, None)];
      }
      i := i + 1;
    }
    assert node.fields[..i] == node.fields;
    left := Node(node.state, fs);
  }

  /** The last component put back under a name. */
  function Find<S>(ts: seq<(string, Node<S>)>, name: string): Option<Node<S>> {
    if ts == [] then None
    else if ts[|ts| - 1].0 == name then Some(ts[|ts| - 1].1)
    else Find(ts[..|ts| - 1], name)
  }

  function PutBack<S>(f: Field<S>, ts: seq<(string, Node<S>)>): Field<S> {
    if f.Comp? && Find(ts, f.name).Some? then Comp(f.name, Find(ts, f.name)) else f
  }

  /** Field names of one struct are distinct, and identifiers hold no bracket. */
  ghost predicate FieldNamesOk<S>(fs: seq<Field<S>>) {
    (forall i, j :: 0 <= i < j < |fs| ==> fs[i].name != fs[j].name)
    && forall i :: 0 <= i < |fs| ==> '[' !in fs[i].name
  }

  ghost predicate Rebuilt<S>(whole: Node<S>, state: S, fs: seq<Field<S>>, ts: seq<(string, Node<S>)>) {
    whole.state == state && |whole.fields| == |fs|
    && forall i :: 0 <= i < |fs| ==> whole.fields[i] == PutBack(fs[i], ts)
  }

  /** `restore_children`: each component goes to the first slot of its name. */
  method RestoreChildren<S>(node: Node<S>, taken: seq<(string, Node<S>)>) returns (whole: Node<S>)
    requires FieldNamesOk(node.fields)
    ensures Rebuilt(whole, node.state, node.fields, taken)
  {
    var fs := node.fields;
    var j := 0;
    while j < |taken|
      invariant j <= |taken| && |fs| == |node.fields|
      invariant forall i :: 0 <= i < |fs| ==> fs[i] == PutBack(node.fields[i], taken[..j])
    {
      assert taken[..j + 1][..j] == taken[..j];
      var i := 0;
      while i < |fs| && !(fs[i].Comp? && fs[i].name == taken[j].0)
        invariant i <= |fs|
        invariant forall h :: 0 <= h < i ==> !(fs[h].Comp? && fs[h].name == taken[j].0)
      {
        i := i + 1;
      }
      if i < |fs| { fs := fs[i := Comp(taken[j].0, Some(taken[j].1))]; }
      j := j + 1;
    }
    assert taken[..j] == taken;
    whole := Node(node.state, fs);
  }

  /** The component moved out of field `i` is found at its place in the list. */
  lemma {:induction false} TakenAt<S>(fs: seq<Field<S>>, i: nat)
    requires i < |fs| && fs[i].Comp? && fs[i].slot.Some?
    ensures var j := |Taken(fs[..i])|; j < |Taken(fs)| && Taken(fs)[j] == (fs[i].name, fs[i].slot.value)
    decreases |fs|
  {
    var last := |fs| - 1;
    if i < last {
      TakenAt(fs[..last], i);
      assert fs[..last][..i] == fs[..i];
    }
  }

  ghost predicate SameNames<S>(ts: seq<(string, Node<S>)>, us: seq<(string, Node<S>)>) {
    |ts| == |us| && forall j :: 0 <= j < |ts| ==> ts[j].0 == us[j].0
  }

  lemma {:induction false} FindAbsent<S>(ts: seq<(string, Node<S>)>, name: string)
    requires forall j :: 0 <= j < |ts| ==> ts[j].0 != name
    ensures Find(ts, name) == None
  {
    if ts != [] { FindAbsent(ts[..|ts| - 1], name); }
  }

  lemma {:induction false} FindUnique<S>(ts: seq<(string, Node<S>)>, j: nat)
    requires j < |ts| && forall h :: 0 <= h < |ts| && h != j ==> ts[h].0 != ts[j].0
    ensures Find(ts, ts[j].0) == Some(ts[j].1)
  {
    if j < |ts| - 1 { FindUnique(ts[..|ts| - 1], j); }
  }

  lemma {:induction false} TakenDistinct<S>(fs: seq<Field<S>>)
    requires FieldNamesOk(fs)
    ensures forall h, j :: 0 <= h < j < |Taken(fs)| ==> Taken(fs)[h].0 != Taken(fs)[j].0
  {
    if fs != [] {
      var last := |fs| - 1;
      TakenDistinct(fs[..last]);
      var ts := Taken(fs[..last]);
      forall h | 0 <= h < |ts| ensures ts[h].0 != fs[last].name {
        var i :| 0 <= i < last && fs[..last][i] == Comp(ts[h].0, Some(ts[h].1));
      }
    }
  }

  /** Whatever the moved components became, each slot finds its own again. */
  lemma FindOwn<S>(fs: seq<Field<S>>, ts: seq<(string, Node<S>)>, i: nat)
    requires FieldNamesOk(fs) && SameNames(ts, Taken(fs)) && i < |fs| && fs[i].Comp?
    ensures fs[i].slot.None? ==> Find(ts, fs[i].name) == None
    ensures fs[i].slot.Some? ==>
              var j := |Taken(fs[..i])|; j < |ts| && Find(ts, fs[i].name) == Some(ts[j].1)
  {
    if fs[i].slot.Some? {
      TakenAt(fs, i);
      TakenDistinct(fs);
      FindUnique(ts, |Taken(fs[..i])|);
    } else {
      forall j | 0 <= j < |ts| ensures ts[j].0 != fs[i].name { NotTaken(fs, i, j); }
      FindAbsent(ts, fs[i].name);
    }
  }

  lemma NotTaken<S>(fs: seq<Field<S>>, i: nat, j: nat)
    requires FieldNamesOk(fs) && i < |fs| && fs[i].Comp? && fs[i].slot.None? && j < |Taken(fs)|
    ensures Taken(fs)[j].0 != fs[i].name
  {
    var t := Taken(fs)[j];
    var h :| 0 <= h < |fs| && fs[h] == Comp(t.0, Some(t.1));
  }

  // ---------------------------------------------------------------------------
  // The run phase
  // ---------------------------------------------------------------------------

  ghost predicate WellNamed<S>(n: Node<S>)
    decreases n
  {
    FieldNamesOk(n.fields) && forall i :: 0 <= i < |n.fields| ==> KidsWellNamed(n.fields[i])
  }

  ghost predicate KidsWellNamed<S>(f: Field<S>)
    decreases f
  {
    forall k :: 0 <= k < |Kids(f)| ==> WellNamed(Kids(f)[k].1)
  }

  method PickFirstError(vs: seq<Verdict>) returns (r: Verdict)
    ensures r == FirstError(vs)
  {
    r := Ok(());
    var i := 0;
    while i < |vs|
      invariant i <= |vs| && r == FirstError(vs[..i])
    {
      assert vs[..i + 1][..i] == vs[..i];
      if r.Ok? { r := vs[i]; }
      i := i + 1;
    }
    assert vs[..i] == vs;
  }

  lemma NextKid<S>(f: Field<S>, k: nat, path: Path, env: Env<S>)
    requires KidsWellNamed(f) && k < |Kids(f)|
    ensures Kids(f)[k].1 < f && WellNamed(Kids(f)[k].1)
    ensures KidRuns(f, path, env)[k] == Run(Kids(f)[k].1, path + [Kids(f)[k].0], env)
  {}

  method RunKid<S>(f: Field<S>, k: nat, path: Path, env: Env<S>) returns (r: (Node<S>, Verdict))
    requires KidsWellNamed(f) && k < |Kids(f)|
    ensures r == KidRuns(f, path, env)[k]
    decreases f, 0
  {
    NextKid(f, k, path, env);
    var c, v := RunAll(Kids(f)[k].1, path + [Kids(f)[k].0], env);
    r := (c, v);
  }

  /** The joined runs of one field's children. */
  method RunKids<S>(f: Field<S>, path: Path, env: Env<S>) returns (rs: seq<(Node<S>, Verdict)>)
    requires KidsWellNamed(f)
    ensures rs == KidRuns(f, path, env)
    decreases f, 1
  {
    rs := [];
    ghost var want := KidRuns(f, path, env);
    var n := |Kids(f)|;
    while |rs| < n
      invariant |rs| <= n == |want| && rs == want[..|rs|]
    {
      var r := RunKid(f, |rs|, path, env);
      rs := rs + [r];
    }
  }

  /** A field once the in-place children ran, the movable ones being out of their slots. */
  function InPlaceField<S>(f: Field<S>, path: Path, env: Env<S>): Field<S> {
    if f.Comp? then Emptied(f) else FieldAfter(f, path, env)
  }

  function InPlaceFields<S>(n: Node<S>, path: Path, env: Env<S>): seq<Field<S>> {
    seq(|n.fields|, i requires 0 <= i < |n.fields| => InPlaceField(n.fields[i], path, env))
  }

  ghost predicate InPlaceDone<S>(n: Node<S>, fs: seq<Field<S>>, path: Path, env: Env<S>) {
    fs == InPlaceFields(n, path, env)
  }

  lemma InPlaceNames<S>(n: Node<S>, fs: seq<Field<S>>, path: Path, env: Env<S>)
    requires InPlaceDone(n, fs, path, env) && FieldNamesOk(n.fields)
    ensures FieldNamesOk(fs)
  {
    forall i | 0 <= i < |fs| ensures fs[i].name == n.fields[i].name { InPlaceName(n.fields[i], path, env); }
  }

  lemma InPlaceName<S>(f: Field<S>, path: Path, env: Env<S>)
    ensures InPlaceField(f, path, env).name == f.name
  {}

  /** One field of the in-place walk; a slot whose component was moved out contributes no child. */
  method RunField<S>(ghost node: Node<S>, ghost i: nat, left: Field<S>, path: Path, env: Env<S>)
    returns (g: Field<S>, vs: seq<Verdict>)
    requires i < |node.fields| && left == Emptied(node.fields[i]) && KidsWellNamed(node.fields[i])
    ensures g == InPlaceField(node.fields[i], path, env)
    ensures vs == if left.Comp? then [] else Verdicts(KidRuns(left, path, env))
    decreases node, 0, 0
  {
    if left.Comp? { return left, []; }
    var rs := RunKids(left, path, env);
    g, vs := WithKids(left, Nodes(rs)), Verdicts(rs);
  }

  lemma NextInPlace<S>(n: Node<S>, i: nat, path: Path, env: Env<S>)
    requires WellNamed(n) && i < |n.fields|
    ensures n.fields[i] < n && KidsWellNamed(n.fields[i])
    ensures VerdictLists(n, false, path, env)[i] ==
            if n.fields[i].Comp? then [] else Verdicts(KidRuns(n.fields[i], path, env))
  {}

  /** The joined runs of the in-place children. */
  method RunInPlace<S>(node: Node<S>, left: seq<Field<S>>, path: Path, env: Env<S>)
    returns (fs: seq<Field<S>>, vs: seq<Verdict>)
    requires WellNamed(node) && |left| == |node.fields|
    requires forall i :: 0 <= i < |left| ==> left[i] == Emptied(node.fields[i])
    ensures vs == Join(VerdictLists(node, false, path, env)) && InPlaceDone(node, fs, path, env)
    decreases node, 0, 1
  {
    ghost var lists, want := VerdictLists(node, false, path, env), InPlaceFields(node, path, env);
    fs, vs := [], [];
    while |fs| < |left|
      invariant |fs| <= |left| && vs == Join(lists[..|fs|]) && fs == want[..|fs|]
    {
      var i := |fs|;
      NextInPlace(node, i, path, env);
      JoinStep(lists, i);
      var g, ws := RunField(node, i, left[i], path, env);
      fs, vs := fs + [g], vs + ws;
    }
    JoinAll(lists);
  }

  function TakenRuns<S>(ts: seq<(string, Node<S>)>, path: Path, env: Env<S>): seq<(Node<S>, Verdict)> {
    seq(|ts|, j requires 0 <= j < |ts| => Run(ts[j].1, path + [ts[j].0], env))
  }

  /** Running the moved list gives the verdicts of the movable fields in field order. */
  lemma {:induction false} TakenVerdicts<S>(n: Node<S>, i: nat, path: Path, env: Env<S>)
    requires i <= |n.fields|
    ensures Verdicts(TakenRuns(Taken(n.fields[..i]), path, env)) == Join(VerdictLists(n, true, path, env)[..i])
    decreases i
  {
    if i > 0 {
      TakenVerdicts(n, i - 1, path, env);
      JoinStep(VerdictLists(n, true, path, env), i - 1);
      NextTaken(n.fields, i - 1, path, env);
    }
  }

  lemma NextTaken<S>(fs: seq<Field<S>>, i: nat, path: Path, env: Env<S>)
    requires i < |fs|
    ensures Verdicts(TakenRuns(Taken(fs[..i + 1]), path, env)) ==
            Verdicts(TakenRuns(Taken(fs[..i]), path, env))
            + if fs[i].Comp? then Verdicts(KidRuns(fs[i], path, env)) else []
  {
    assert fs[..i + 1][..i] == fs[..i];
  }

  lemma TakenVerdictsAll<S>(n: Node<S>, path: Path, env: Env<S>)
    ensures Verdicts(TakenRuns(Taken(n.fields), path, env)) == Join(VerdictLists(n, true, path, env))
  {
    TakenVerdicts(n, |n.fields|, path, env);
    JoinAll(VerdictLists(n, true, path, env));
    assert n.fields[..|n.fields|] == n.fields;
  }

  /** The joined runs of the moved children. */
  method RunTaken<S>(node: Node<S>, taken: seq<(string, Node<S>)>, path: Path, env: Env<S>)
    returns (ts: seq<(string, Node<S>)>, vs: seq<Verdict>)
    requires WellNamed(node) && taken == Taken(node.fields)
    ensures SameNames(ts, taken) && vs == Verdicts(TakenRuns(taken, path, env))
    ensures forall j :: 0 <= j < |ts| ==> ts[j].1 == TakenRuns(taken, path, env)[j].0
    decreases node, 0
  {
    ts, vs := taken, [];
    ghost var runs := TakenRuns(taken, path, env);
    var j := 0;
    while j < |ts|
      invariant j <= |ts| && SameNames(ts, taken) && vs == Verdicts(runs)[..j]
      invariant forall h :: 0 <= h < j ==> ts[h].1 == runs[h].0
      invariant forall h :: j <= h < |ts| ==> ts[h] == taken[h]
    {
      TakenChild(node, j);
      var c, v := RunAll(ts[j].1, path + [ts[j].0], env);
      assert (c, v) == runs[j];
      ts := ts[j := (ts[j].0, c)];
      vs := vs + [v];
      j := j + 1;
    }
  }

  lemma TakenChild<S>(n: Node<S>, j: nat)
    requires WellNamed(n) && j < |Taken(n.fields)|
    ensures Taken(n.fields)[j].1 < n && WellNamed(Taken(n.fields)[j].1)
  {
    var t := Taken(n.fields)[j];
    var i :| 0 <= i < |n.fields| && n.fields[i] == Comp(t.0, Some(t.1));
    assert Kids(n.fields[i])[0].1 == t.1;
  }

  /** Restoring after the moved children ran puts each result in its own slot. */
  lemma RestoredAfterRun<S>(n: Node<S>, ts: seq<(string, Node<S>)>, i: nat, path: Path, env: Env<S>)
    requires FieldNamesOk(n.fields) && SameNames(ts, Taken(n.fields)) && i < |n.fields| && n.fields[i].Comp?
    requires forall j :: 0 <= j < |ts| ==> ts[j].1 == TakenRuns(Taken(n.fields), path, env)[j].0
    ensures PutBack(Emptied(n.fields[i]), ts) == FieldAfter(n.fields[i], path, env)
  {
    FindOwn(n.fields, ts, i);
    if n.fields[i].slot.Some? { TakenAt(n.fields, i); }
  }

  /** Restoring untouched children puts each back where it was. */
  lemma RestoredUntouched<S>(n: Node<S>, i: nat)
    requires FieldNamesOk(n.fields) && i < |n.fields| && n.fields[i].Comp?
    ensures PutBack(Emptied(n.fields[i]), Taken(n.fields)) == n.fields[i]
  {
    FindOwn(n.fields, Taken(n.fields), i);
    if n.fields[i].slot.Some? { TakenAt(n.fields, i); }
  }

  lemma RunFailed<S>(n: Node<S>, whole: Node<S>, path: Path, env: Env<S>)
    ensures var v := FirstError(Join(VerdictLists(n, false, path, env)));
            v.Err? ==>
              && Run(n, path, env).1 == v
              && (Run(n, path, env).0 == whole <==>
                    && whole.state == n.state && |whole.fields| == |n.fields|
                    && forall i :: 0 <= i < |n.fields| ==>
                         whole.fields[i] == if n.fields[i].Comp? then n.fields[i] else FieldAfter(n.fields[i], path, env))
  {}

  lemma RunCompleted<S>(n: Node<S>, whole: Node<S>, path: Path, env: Env<S>)
    ensures FirstError(Join(VerdictLists(n, false, path, env))).Ok? ==>
              (Run(n, path, env).0 == whole <==>
                 && whole.state == env(path).state && |whole.fields| == |n.fields|
                 && forall i :: 0 <= i < |n.fields| ==> whole.fields[i] == FieldAfter(n.fields[i], path, env))
  {}

  lemma WholeAfterFailure<S>(n: Node<S>, fs: seq<Field<S>>, whole: Node<S>, path: Path, env: Env<S>)
    requires FieldNamesOk(n.fields) && InPlaceDone(n, fs, path, env)
    requires FirstError(Join(VerdictLists(n, false, path, env))).Err?
    requires Rebuilt(whole, n.state, fs, Taken(n.fields))
    ensures Run(n, path, env).0 == whole
    ensures Run(n, path, env).1 == FirstError(Join(VerdictLists(n, false, path, env)))
  {
    forall i | 0 <= i < |n.fields|
      ensures whole.fields[i] == if n.fields[i].Comp? then n.fields[i] else FieldAfter(n.fields[i], path, env)
    {
      assert whole.fields[i] == PutBack(InPlaceField(n.fields[i], path, env), Taken(n.fields));
      if n.fields[i].Comp? { RestoredUntouched(n, i); } else { InPlaceStays(n.fields[i], Taken(n.fields), path, env); }
    }
    RunFailed(n, whole, path, env);
  }

  lemma InPlaceStays<S>(f: Field<S>, ts: seq<(string, Node<S>)>, path: Path, env: Env<S>)
    requires !f.Comp?
    ensures PutBack(InPlaceField(f, path, env), ts) == FieldAfter(f, path, env)
  {}

  lemma WholeAfterRun<S>(n: Node<S>, fs: seq<Field<S>>, ts: seq<(string, Node<S>)>, whole: Node<S>, path: Path, env: Env<S>)
    requires FieldNamesOk(n.fields) && InPlaceDone(n, fs, path, env) && SameNames(ts, Taken(n.fields))
    requires forall j :: 0 <= j < |ts| ==> ts[j].1 == TakenRuns(Taken(n.fields), path, env)[j].0
    requires FirstError(Join(VerdictLists(n, false, path, env))).Ok?
    requires Rebuilt(whole, env(path).state, fs, ts)
    ensures Run(n, path, env).0 == whole
  {
    forall i | 0 <= i < |n.fields| ensures whole.fields[i] == FieldAfter(n.fields[i], path, env) {
      assert whole.fields[i] == PutBack(InPlaceField(n.fields[i], path, env), ts);
      if n.fields[i].Comp? { RestoredAfterRun(n, ts, i, path, env); } else { InPlaceStays(n.fields[i], ts, path, env); }
    }
    RunCompleted(n, whole, path, env);
  }

  lemma VerdictAfterRun<S>(n: Node<S>, path: Path, env: Env<S>)
    ensures FirstError(Join(VerdictLists(n, false, path, env))).Ok? ==>
              Run(n, path, env).1 ==
              FirstError(Verdicts(TakenRuns(Taken(n.fields), path, env)) + [RunOne(env(path).end)])
  {
    TakenVerdictsAll(n, path, env);
    FirstErrorThen(Join(VerdictLists(n, true, path, env)), RunOne(env(path).end));
  }

  /** `run_all`: whatever the bodies do, the tree comes back whole, as `Run` says. */
  method RunAll<S>(node: Node<S>, path: Path, env: Env<S>) returns (after: Node<S>, r: Verdict)
    requires WellNamed(node)
    ensures (after, r) == Run(node, path, env)
    decreases node, 1
  {
    var taken, left := TakeChildren(node);
    var fs, vs := RunInPlace(node, left.fields, path, env);
    r := PickFirstError(vs);
    InPlaceNames(node, fs, path, env);
    if r.Err? {
      after := RestoreChildren(Node(left.state, fs), taken);
      WholeAfterFailure(node, fs, after, path, env);
      return;
    }
    var own := RunOne(env(path).end);
    VerdictAfterRun(node, path, env);
    if taken == [] {
      FirstErrorOfOne(own);
      after, r := Node(env(path).state, fs), own;
      WholeAfterRun(node, fs, [], after, path, env);
    } else {
      var ts, ws := RunTaken(node, taken, path, env);
      r := PickFirstError(ws + [own]);
      after := RestoreChildren(Node(env(path).state, fs), ts);
      WholeAfterRun(node, fs, ts, after, path, env);
    }
  }
}
