/**
 The extract walk between the run phase and the checks: `extract_all` of
 `rustdv-methodology/src/component.rs`. A component's `extract` may change its own data;
 it leaves child fields alone.
 */
module ExtractWalk {
  import opened Basics
  import opened RunPhase
  import opened TreeWalk

  /** What a component's `extract` makes of its data. */
  type Extract<!S> = (Path, S) -> S

  function Extracted<S>(n: Node<S>, path: Path, g: Extract<S>): Node<S>
    decreases n, 1
  {
    Node(g(path, n.state), seq(|n.fields|, i requires 0 <= i < |n.fields| => ExtractedField(n.fields[i], path, g)))
  }

  function ExtractedKids<S>(f: Field<S>, path: Path, g: Extract<S>): (ns: seq<Node<S>>)
    ensures |ns| == |Kids(f)|
    decreases f, 0
  {
    seq(|Kids(f)|, k requires 0 <= k < |Kids(f)| => Extracted(Kids(f)[k].1, path + [Kids(f)[k].0], g))
  }

  function ExtractedField<S>(f: Field<S>, path: Path, g: Extract<S>): Field<S>
    decreases f, 1
  {
    WithKids(f, ExtractedKids(f, path, g))
  }

  /** `extract_all`: the component first, then its children in field order. */
  method ExtractAll<S>(node: Node<S>, path: Path, g: Extract<S>) returns (after: Node<S>)
    ensures after == Extracted(node, path, g)
    decreases node, 1
  {
    var own, fs := g(path, node.state), node.fields;
    var i := 0;
    while i < |fs|
      invariant i <= |fs| == |node.fields|
      invariant forall j :: 0 <= j < i ==> fs[j] == ExtractedField(node.fields[j], path, g)
      invariant forall j :: i <= j < |fs| ==> fs[j] == node.fields[j]
    {
      var ns := ExtractKids(fs[i], path, g);
      fs := fs[i := WithKids(fs[i], ns)];
      i := i + 1;
    }
    after := Node(own, fs);
  }

  method ExtractKids<S>(f: Field<S>, path: Path, g: Extract<S>) returns (ns: seq<Node<S>>)
    ensures ns == ExtractedKids(f, path, g)
    decreases f, 0
  {
    ns := [];
    var ks := Kids(f);
    while |ns| < |ks|
      invariant |ns| <= |ks| && ns == ExtractedKids(f, path, g)[..|ns|]
    {
      var c := ExtractAll(ks[|ns|].1, path + [ks[|ns|].0], g);
      ns := ns + [c];
    }
  }

  lemma {:induction false} ExtractKeepsShape<S>(n: Node<S>, path: Path, g: Extract<S>)
    ensures Shape(Extracted(n, path, g)) == Shape(n)
    decreases n, 1
  {
    var after := Extracted(n, path, g);
    forall i | 0 <= i < |n.fields| ensures FieldShape(after.fields[i]) == FieldShape(n.fields[i]) {
      FieldExtractKeepsShape(n.fields[i], path, g);
    }
  }

  lemma {:induction false} FieldExtractKeepsShape<S>(f: Field<S>, path: Path, g: Extract<S>)
    ensures FieldShape(ExtractedField(f, path, g)) == FieldShape(f)
    decreases f, 0
  {
    var ns := ExtractedKids(f, path, g);
    forall k | 0 <= k < |ns| ensures Shape(ns[k]) == Shape(Kids(f)[k].1) {
      ExtractKeepsShape(Kids(f)[k].1, path + [Kids(f)[k].0], g);
    }
    ShapeWithKids(f, ns);
  }

  lemma KidsExtracted<S>(f: Field<S>, path: Path, g: Extract<S>)
    ensures var ks := Kids(ExtractedField(f, path, g));
            && |ks| == |Kids(f)|
            && forall k :: 0 <= k < |ks| ==>
                 ks[k] == (Kids(f)[k].0, Extracted(Kids(f)[k].1, path + [Kids(f)[k].0], g))
  {}

  /** Every component is found again at its path, with its data extracted. */
  lemma {:induction false} ExtractedComponent<S(!new)>(n: Node<S>, path: Path, g: Extract<S>, rel: Path, m: Node<S>)
    requires At(n, rel, m)
    ensures At(Extracted(n, path, g), rel, Extracted(m, path + rel, g))
    decreases rel
  {
    if rel == [] {
      assert path + rel == path;
    } else {
      var h, k := AtStep(n, rel, m);
      var kid, below := Kids(n.fields[h])[k], rel[1..];
      ExtractedComponent(kid.1, path + [kid.0], g, below, m);
      Nested(path, kid.0, below);
      ChildExtracted(n, path, g, h);
      AtChild(Extracted(n, path, g), h, k, below, Extracted(m, path + rel, g));
    }
  }

  lemma ChildExtracted<S>(n: Node<S>, path: Path, g: Extract<S>, h: nat)
    requires h < |n.fields|
    ensures var e := Extracted(n, path, g);
            && |e.fields| == |n.fields| && |Kids(e.fields[h])| == |Kids(n.fields[h])|
            && forall k :: 0 <= k < |Kids(n.fields[h])| ==>
                 Kids(e.fields[h])[k] ==
                 (Kids(n.fields[h])[k].0, Extracted(Kids(n.fields[h])[k].1, path + [Kids(n.fields[h])[k].0], g))
  {
    KidsExtracted(n.fields[h], path, g);
  }

  /** And nothing else is found. */
  lemma {:induction false} OnlyExtracted<S(!new)>(n: Node<S>, path: Path, g: Extract<S>, rel: Path, after: Node<S>)
    returns (m: Node<S>)
    requires At(Extracted(n, path, g), rel, after)
    ensures At(n, rel, m) && after == Extracted(m, path + rel, g)
    decreases rel
  {
    if rel == [] {
      assert path + rel == path;
      m := n;
    } else {
      var h, k := AtStep(Extracted(n, path, g), rel, after);
      ChildExtracted(n, path, g, h);
      var kid, below := Kids(n.fields[h])[k], rel[1..];
      m := OnlyExtracted(kid.1, path + [kid.0], g, below, after);
      Nested(path, kid.0, below);
      AtChild(n, h, k, below, m);
    }
  }
}
