/** Value wrappers shared by the models. */
module Basics {

  datatype Option<+T> = None | Some(value: T)

  datatype Result<+T, +E> = Ok(value: T) | Err(error: E)

  ghost predicate NoDuplicates<T(!new)>(s: seq<T>) {
    forall i, j :: 0 <= i < j < |s| ==> s[i] != s[j]
  }

  lemma HeadIsMember<T>(s: seq<T>)
    ensures s != [] ==> s[0] in s
  {}

  lemma HasMember<T>(s: set<T>) returns (x: T)
    requires s != {}
    ensures x in s
  {
    x :| x in s;
  }

  function Sum(s: seq<nat>): nat {
    if s == [] then 0 else s[0] + Sum(s[1..])
  }

  /** Changing one entry changes the sum by the same amount. */
  lemma {:induction false} SumOfUpdate(s: seq<nat>, i: nat, v: nat)
    requires i < |s|
    ensures Sum(s[i := v]) == Sum(s) - s[i] + v
  {
    var u := s[i := v];
    if i == 0 {
      assert u[1..] == s[1..];
    } else {
      SumOfUpdate(s[1..], i - 1, v);
      assert u[1..] == s[1..][i - 1 := v];
    }
  }

  lemma {:induction false} SumZero(s: seq<nat>)
    ensures Sum(s) == 0 <==> forall i :: 0 <= i < |s| ==> s[i] == 0
  {
    if s != [] {
      SumZero(s[1..]);
      assert forall i :: 1 <= i < |s| ==> s[i] == s[1..][i - 1];
    }
  }

  // ---------------------------------------------------------------------------
  // Lists joined one after another
  // ---------------------------------------------------------------------------

  function Join<T>(xss: seq<seq<T>>): seq<T> {
    if xss == [] then [] else Join(xss[..|xss| - 1]) + xss[|xss| - 1]
  }

  lemma JoinStep<T>(xss: seq<seq<T>>, i: nat)
    requires i < |xss|
    ensures Join(xss[..i + 1]) == Join(xss[..i]) + xss[i]
  {
    assert xss[..i + 1][..i] == xss[..i];
  }

  lemma JoinAll<T>(xss: seq<seq<T>>)
    ensures Join(xss[..|xss|]) == Join(xss)
  {
    assert xss[..|xss|] == xss;
  }

  /** The list an entry of the joined list comes from. */
  lemma {:induction false} JoinEntry<T>(xss: seq<seq<T>>, j: nat) returns (h: nat, k: nat)
    requires j < |Join(xss)|
    ensures h < |xss| && k < |xss[h]| && xss[h][k] == Join(xss)[j]
  {
    var last := |xss| - 1;
    var before := Join(xss[..last]);
    if j < |before| {
      h, k := JoinEntry(xss[..last], j);
    } else {
      h, k := last, j - |before|;
    }
  }

  /** Where an entry of the joined list stands: after all the lists before its own. */
  lemma {:induction false} JoinPlace<T>(xss: seq<seq<T>>, j: nat) returns (h: nat, k: nat)
    requires j < |Join(xss)|
    ensures h < |xss| && k < |xss[h]| && xss[h][k] == Join(xss)[j] && j == |Join(xss[..h])| + k
  {
    var last := |xss| - 1;
    var before := Join(xss[..last]);
    if j < |before| {
      h, k := JoinPlace(xss[..last], j);
      assert xss[..last][..h] == xss[..h];
    } else {
      h, k := last, j - |before|;
    }
  }

  lemma {:induction false} JoinAt<T>(xss: seq<seq<T>>, h: nat, k: nat)
    requires h < |xss| && k < |xss[h]|
    ensures |Join(xss[..h])| + k < |Join(xss)| && Join(xss)[|Join(xss[..h])| + k] == xss[h][k]
  {
    var last := |xss| - 1;
    if h < last {
      JoinAt(xss[..last], h, k);
      assert xss[..last][..h] == xss[..h];
    }
  }

  lemma {:induction false} JoinGrows<T>(xss: seq<seq<T>>, h: nat, i: nat)
    requires h < i <= |xss|
    ensures |Join(xss[..h])| + |xss[h]| <= |Join(xss[..i])|
    decreases i
  {
    JoinStep(xss, i - 1);
    if h < i - 1 { JoinGrows(xss, h, i - 1); }
  }

  lemma {:induction false} JoinMember<T>(xss: seq<seq<T>>, h: nat, x: T)
    requires h < |xss| && x in xss[h]
    ensures x in Join(xss)
  {
    var last := |xss| - 1;
    if h < last { JoinMember(xss[..last], h, x); }
  }
}
