/** The identifier normaliser: a `NodeTransformer` that renames variables
    to `VAR_0`, `VAR_1`, … in order of first sight.

    Its map is keyed two ways: a `Name` node is keyed on the node object
    itself, an argument on its name text. A node object is modelled by a
    number that stands for its identity; the AST traversal is the sequence
    of identifiers it meets, in visit order. */
module Normalizer {
  import opened Strings

  /** A key of the renaming map. */
  datatype Key = NameNode(node: nat) | ArgName(name: string)

  /** The transformer's state: which key got which number, and the next
      number to hand out. */
  datatype Normalizer = Normalizer(mapping: map<Key, nat>, counter: nat)

  /** A fresh transformer. */
  const Initial: Normalizer := Normalizer(map[], 0)

  /** The generic identifier for a number. */
  function VarName(n: nat): string {
    "VAR_" + NatToString(n)
  }

  lemma VarNameInjective(a: nat, b: nat)
    ensures VarName(a) == VarName(b) ==> a == b
  {
    if VarName(a) == VarName(b) {
      PrefixedNumberInjective("VAR_", a, b);
    }
  }

  /** Some key holds number `i`. */
  predicate Used(m: map<Key, nat>, i: nat) {
    exists k | k in m :: m[k] == i
  }

  /** The map's invariant: the counter is the number of keys, the numbers
      handed out are exactly `0 .. counter - 1`, and no two keys share one. */
  predicate Valid(s: Normalizer) {
    && |s.mapping.Keys| == s.counter
    && (forall k | k in s.mapping :: s.mapping[k] < s.counter)
    && (forall i: nat | i < s.counter :: Used(s.mapping, i))
    && (forall k1, k2 | k1 in s.mapping && k2 in s.mapping && k1 != k2 :: s.mapping[k1] != s.mapping[k2])
  }

  lemma InitialIsValid()
    ensures Valid(Initial)
  {
  }

  /** `get_id`: a known key gets its stored identifier and nothing
      changes; a new key gets the next number, which no other key holds. */
  function GetId(s: Normalizer, key: Key): (r: (Normalizer, string))
    requires Valid(s)
    ensures Valid(r.0)
    ensures forall k | k in r.0.mapping :: r.0.mapping[k] < r.0.counter
    ensures key in r.0.mapping && r.1 == VarName(r.0.mapping[key])
    ensures key in s.mapping ==> r.0 == s
    ensures key !in s.mapping ==> r.0.counter == s.counter + 1 && r.1 == VarName(s.counter)
    ensures forall k | k in s.mapping :: k in r.0.mapping && r.0.mapping[k] == s.mapping[k]
    ensures forall k | k in r.0.mapping :: k in s.mapping || k == key
  {
    if key in s.mapping then (s, VarName(s.mapping[key]))
    else
      AddKeepsValid(s, key);
      (Normalizer(s.mapping[key := s.counter], s.counter + 1), VarName(s.counter))
  }

  /** Giving a new key the next number keeps the invariant. */
  lemma AddKeepsValid(s: Normalizer, key: Key)
    requires Valid(s) && key !in s.mapping
    ensures Valid(Normalizer(s.mapping[key := s.counter], s.counter + 1))
  {
    var m := s.mapping[key := s.counter];
    assert m.Keys == s.mapping.Keys + {key};
    forall i: nat | i < s.counter + 1
      ensures Used(m, i)
    {
      if i == s.counter {
        assert m[key] == i;
      } else {
        assert Used(s.mapping, i);
        var k :| k in s.mapping && s.mapping[k] == i;
        assert m[k] == i;
      }
    }
  }

  /** A new key's identifier differs from every identifier handed out
      before. */
  lemma NewKeyGetsNewName(s: Normalizer, key: Key, k: Key)
    requires Valid(s) && key !in s.mapping && k in s.mapping
    ensures GetId(s, key).1 != VarName(s.mapping[k])
  {
    VarNameInjective(s.counter, s.mapping[k]);
  }

  /** An identifier the traversal meets: a use of a name (a `Name` node,
      identified by its object) or a parameter (an `arg`, by its text). */
  datatype Identifier = NameUse(node: nat) | Parameter(name: string)

  /** The key `visit_Name` and `visit_arg` use. */
  function KeyOf(x: Identifier): Key {
    match x
    case NameUse(node) => NameNode(node)
    case Parameter(name) => ArgName(name)
  }

  /** The numbers `visit` hands out for the identifiers it meets, in order,
      with the transformer's state afterwards. */
  function Visit(s: Normalizer, xs: seq<Identifier>): (r: (Normalizer, seq<nat>))
    requires Valid(s)
    ensures Valid(r.0) && |r.1| == |xs|
    ensures forall i | 0 <= i < |xs| :: KeyOf(xs[i]) in r.0.mapping && r.1[i] == r.0.mapping[KeyOf(xs[i])]
    decreases |xs|
  {
    if |xs| == 0 then (s, [])
    else
      var last := KeyOf(xs[|xs| - 1]);
      var front := Visit(s, xs[..|xs| - 1]);
      var step := GetId(front.0, last);
      var ns := front.1 + [step.0.mapping[last]];
      forall i | 0 <= i < |xs| - 1
        ensures KeyOf(xs[i]) in step.0.mapping && ns[i] == step.0.mapping[KeyOf(xs[i])]
      {
        assert xs[..|xs| - 1][i] == xs[i];
      }
      (step.0, ns)
  }

  /** A traversal never forgets or renumbers a key it already knew. */
  lemma {:induction false} VisitKeepsKnownKeys(s: Normalizer, xs: seq<Identifier>, k: Key)
    requires Valid(s) && k in s.mapping
    ensures k in Visit(s, xs).0.mapping && Visit(s, xs).0.mapping[k] == s.mapping[k]
    decreases |xs|
  {
    if |xs| > 0 {
      VisitKeepsKnownKeys(s, xs[..|xs| - 1], k);
    }
  }

  /** The renamed identifiers. */
  function Rename(s: Normalizer, xs: seq<Identifier>): (r: seq<string>)
    requires Valid(s)
    ensures |r| == |xs|
  {
    var v := Visit(s, xs);
    seq(|xs|, i requires 0 <= i < |xs| => VarName(v.1[i]))
  }

  /** Two parameters with the same name get the same identifier. */
  lemma SameParameterSameName(s: Normalizer, xs: seq<Identifier>, i: nat, j: nat)
    requires Valid(s) && i < |xs| && j < |xs|
    requires xs[i].Parameter? && xs[j] == xs[i]
    ensures Rename(s, xs)[i] == Rename(s, xs)[j]
  {
  }

  /** Two different `Name` nodes get different identifiers, even when they
      spell the same variable. */
  lemma DistinctNameNodesDiffer(s: Normalizer, xs: seq<Identifier>, i: nat, j: nat)
    requires Valid(s) && i < |xs| && j < |xs|
    requires xs[i].NameUse? && xs[j].NameUse? && xs[i].node != xs[j].node
    ensures Rename(s, xs)[i] != Rename(s, xs)[j]
  {
    var v := Visit(s, xs);
    assert KeyOf(xs[i]) != KeyOf(xs[j]);
    VarNameInjective(v.1[i], v.1[j]);
  }

  /** Starting fresh, the first identifier met is always `VAR_0`. */
  lemma FirstIsVarZero(xs: seq<Identifier>)
    requires |xs| > 0
    ensures Rename(Initial, xs)[0] == "VAR_0"
  {
    var v := Visit(Initial, xs);
    var one := Visit(Initial, xs[..1]);
    VisitPrefix(Initial, xs, 1);
    assert Visit(Initial, xs[..1][..0]) == (Initial, []);
    assert NatToString(0) == "0";
  }

  /** Visiting more identifiers never changes the numbers of those met
      earlier. */
  lemma {:induction false} VisitPrefix(s: Normalizer, xs: seq<Identifier>, n: nat)
    requires Valid(s) && n <= |xs|
    ensures Visit(s, xs).1[..n] == Visit(s, xs[..n]).1
    decreases |xs|
  {
    if n < |xs| {
      assert xs[..|xs| - 1][..n] == xs[..n];
      VisitPrefix(s, xs[..|xs| - 1], n);
    } else {
      assert xs[..n] == xs;
    }
  }
}
