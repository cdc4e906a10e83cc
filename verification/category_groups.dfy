/**
 * The `categoriesByType` reduce of frontend/src/pages/Product.tsx: the
 * category list, grouped by each category's `type` for the checkbox panel.
 * A JavaScript object is modelled as its keys in insertion order plus a map.
 */
module CategoryGroups {
  import opened Seqs

  /** A category as the category endpoint returns it; `kind` is its `type` field. */
  datatype Category = Category(id: string, title: string, kind: string)

  /** Some category in `cs` has type `t`. */
  predicate HasType(cs: seq<Category>, t: string) {
    exists i :: 0 <= i < |cs| && cs[i].kind == t
  }

  /** The categories of type `t`, in input order: the reference definition of a group. */
  function Members(cs: seq<Category>, t: string): (r: seq<Category>)
    ensures IsSubsequence(r, cs)
    ensures r == [] <==> !HasType(cs, t)
    decreases |cs|
  {
    if cs == [] then []
    else
      var init := cs[..|cs| - 1];
      var last := cs[|cs| - 1];
      var keep := last.kind == t;
      var r := if keep then Members(init, t) + [last] else Members(init, t);
      assert cs == init + [last];
      SubsequenceSnoc(Members(init, t), init, last, keep);
      assert HasType(init, t) ==> HasType(cs, t) by {
        if HasType(init, t) {
          var i :| 0 <= i < |init| && init[i].kind == t;
          assert cs[i] == init[i];
        }
      }
      assert HasType(cs, t) && !keep ==> HasType(init, t) by {
        if HasType(cs, t) && !keep {
          var i :| 0 <= i < |cs| && cs[i].kind == t;
          assert i < |init| && init[i] == cs[i];
        }
      }
      r
  }

  /** The distinct types of `cs`, each listed once, in order of first occurrence. */
  function Types(cs: seq<Category>): (r: seq<string>)
    ensures forall t :: t in r <==> HasType(cs, t)
    decreases |cs|
  {
    if cs == [] then []
    else
      var init := cs[..|cs| - 1];
      var k := cs[|cs| - 1].kind;
      var ts := Types(init);
      assert cs == init + [cs[|cs| - 1]];
      assert forall t :: HasType(cs, t) <==> HasType(init, t) || t == k by {
        forall t ensures HasType(cs, t) <==> HasType(init, t) || t == k {
          if HasType(init, t) {
            var i :| 0 <= i < |init| && init[i].kind == t;
            assert cs[i] == init[i];
          }
          if HasType(cs, t) && t != k {
            var i :| 0 <= i < |cs| && cs[i].kind == t;
            assert i < |init| && init[i] == cs[i];
          }
        }
      }
      if k in ts then ts else ts + [k]
  }

  /** Reading one more category adds its type to the types present. */
  lemma SnocHasType(cs: seq<Category>, c: Category, t: string)
    ensures HasType(cs + [c], t) <==> HasType(cs, t) || c.kind == t
  {
    var cs' := cs + [c];
    assert cs'[|cs|] == c;
    if HasType(cs, t) {
      var i :| 0 <= i < |cs| && cs[i].kind == t;
      assert cs'[i] == cs[i];
    }
    if HasType(cs', t) && c.kind != t {
      var i :| 0 <= i < |cs'| && cs'[i].kind == t;
      assert i < |cs| && cs[i] == cs'[i];
    }
  }

  /** Reading one more category appends it to its own group and leaves the others alone. */
  lemma SnocMembers(cs: seq<Category>, c: Category, t: string)
    ensures Members(cs + [c], t) == if c.kind == t then Members(cs, t) + [c] else Members(cs, t)
  {
    assert (cs + [c])[..|cs|] == cs;
  }

  /** Reading one more category lists its type at the end when it is new. */
  lemma SnocTypes(cs: seq<Category>, c: Category)
    ensures Types(cs + [c]) == if HasType(cs, c.kind) then Types(cs) else Types(cs) + [c.kind]
  {
    assert (cs + [c])[..|cs|] == cs;
  }

  /** Each type present is listed exactly once. */
  lemma {:induction false} TypesCount(cs: seq<Category>, t: string)
    ensures multiset(Types(cs))[t] == if HasType(cs, t) then 1 else 0
    decreases |cs|
  {
    if cs != [] {
      var init := cs[..|cs| - 1];
      var c := cs[|cs| - 1];
      assert cs == init + [c];
      TypesCount(init, t);
      SnocTypes(init, c);
      SnocHasType(init, c, t);
    }
  }

  /** Index of the first category of type `t`. */
  function FirstIndex(cs: seq<Category>, t: string): (i: nat)
    requires HasType(cs, t)
    ensures i < |cs| && cs[i].kind == t
    ensures forall j :: 0 <= j < i ==> cs[j].kind != t
    decreases |cs|
  {
    if cs[0].kind == t then 0
    else
      assert HasType(cs[1..], t) by {
        var i :| 0 <= i < |cs| && cs[i].kind == t;
        assert i > 0 && cs[1..][i - 1] == cs[i];
      }
      1 + FirstIndex(cs[1..], t)
  }

  /** `keys` and `groups` are the grouping of `cs`. */
  ghost predicate Grouped(cs: seq<Category>, keys: seq<string>, groups: map<string, seq<Category>>) {
    && keys == Types(cs)
    && (forall t :: t in groups <==> HasType(cs, t))
    && (forall t :: t in groups ==> groups[t] == Members(cs, t))
  }

  /** One step of the reduce keeps the accumulator equal to the grouping of what was read. */
  lemma GroupedStep(cs: seq<Category>, c: Category, keys: seq<string>, groups: map<string, seq<Category>>)
    requires Grouped(cs, keys, groups)
    ensures var group := if c.kind in groups then groups[c.kind] else [];
            Grouped(cs + [c], if c.kind in groups then keys else keys + [c.kind], groups[c.kind := group + [c]])
  {
    var group := if c.kind in groups then groups[c.kind] else [];
    var groups' := groups[c.kind := group + [c]];
    assert c.kind in groups <==> HasType(cs, c.kind);
    SnocTypes(cs, c);
    forall t ensures t in groups' <==> HasType(cs + [c], t) {
      SnocHasType(cs, c, t);
    }
    forall t | t in groups' ensures groups'[t] == Members(cs + [c], t) {
      SnocMembers(cs, c, t);
      if t == c.kind {
        assert group == Members(cs, t);
      } else {
        assert groups'[t] == groups[t];
      }
    }
  }

  /**
   * The reduce: one pass, creating a group when its type is first met and
   * pushing each category onto its group.
   */
  method GroupByType(cs: seq<Category>) returns (keys: seq<string>, groups: map<string, seq<Category>>)
    ensures keys == Types(cs)
    ensures forall t :: t in groups <==> HasType(cs, t)
    ensures forall t :: t in groups ==> groups[t] == Members(cs, t)
  {
    keys := [];
    groups := map[];
    var i := 0;
    while i < |cs|
      invariant 0 <= i <= |cs|
      invariant Grouped(cs[..i], keys, groups)
    {
      var c := cs[i];
      assert cs[..i + 1] == cs[..i] + [c];
      GroupedStep(cs[..i], c, keys, groups);
      var group := if c.kind in groups then groups[c.kind] else [];
      if c.kind !in groups {
        keys := keys + [c.kind];
      }
      groups := groups[c.kind := group + [c]];
      i := i + 1;
    }
    assert cs[..i] == cs;
  }

  /** Reading one more category does not move the first occurrence of a type already seen. */
  lemma FirstIndexSnoc(cs: seq<Category>, c: Category, t: string)
    requires HasType(cs, t)
    ensures HasType(cs + [c], t) && FirstIndex(cs + [c], t) == FirstIndex(cs, t)
  {
    SnocHasType(cs, c, t);
    var b := FirstIndex(cs, t);
    assert (cs + [c])[b] == cs[b];
  }

  /** A type first met in the last category has its first occurrence there. */
  lemma FirstIndexNew(cs: seq<Category>, c: Category)
    requires !HasType(cs, c.kind)
    ensures HasType(cs + [c], c.kind) && FirstIndex(cs + [c], c.kind) == |cs|
  {
    SnocHasType(cs, c, c.kind);
  }

  /** The keys appear in the order in which their types first occur. */
  lemma {:induction false} KeysInFirstOccurrenceOrder(cs: seq<Category>)
    ensures forall i, j :: 0 <= i < j < |Types(cs)| ==>
      FirstIndex(cs, Types(cs)[i]) < FirstIndex(cs, Types(cs)[j])
    decreases |cs|
  {
    if cs != [] {
      var init := cs[..|cs| - 1];
      var c := cs[|cs| - 1];
      assert cs == init + [c];
      KeysInFirstOccurrenceOrder(init);
      SnocTypes(init, c);
      var ts := Types(init);
      var keys := Types(cs);
      forall i, j | 0 <= i < j < |keys|
        ensures FirstIndex(cs, keys[i]) < FirstIndex(cs, keys[j])
      {
        assert keys[i] == ts[i];
        FirstIndexSnoc(init, c, ts[i]);
        if j < |ts| {
          assert keys[j] == ts[j];
          FirstIndexSnoc(init, c, ts[j]);
        } else {
          FirstIndexNew(init, c);
        }
      }
    }
  }

  /** Total size of the groups listed in `keys`. */
  function SumSizes(cs: seq<Category>, keys: seq<string>): nat
    decreases |keys|
  {
    if keys == [] then 0
    else SumSizes(cs, keys[..|keys| - 1]) + |Members(cs, keys[|keys| - 1])|
  }

  /** Adding a category of type `k` grows the sum by the number of times `k` is listed. */
  lemma {:induction false} SumSizesSnoc(cs: seq<Category>, c: Category, keys: seq<string>)
    ensures SumSizes(cs + [c], keys) == SumSizes(cs, keys) + multiset(keys)[c.kind]
    decreases |keys|
  {
    if keys != [] {
      var init := keys[..|keys| - 1];
      SumSizesSnoc(cs, c, init);
      assert keys == init + [keys[|keys| - 1]];
      assert (cs + [c])[..|cs|] == cs;
    }
  }

  /** Every category is in exactly one group, so the group sizes add up to the input length. */
  lemma {:induction false} GroupSizesSum(cs: seq<Category>)
    ensures SumSizes(cs, Types(cs)) == |cs|
    decreases |cs|
  {
    if cs != [] {
      var init := cs[..|cs| - 1];
      var c := cs[|cs| - 1];
      assert cs == init + [c];
      GroupSizesSum(init);
      SumSizesSnoc(init, c, Types(cs));
      SnocTypes(init, c);
      SnocHasType(init, c, c.kind);
      TypesCount(cs, c.kind);
      var ts := Types(init);
      if !HasType(init, c.kind) {
        assert (ts + [c.kind])[..|ts|] == ts;
        assert Members(init, c.kind) == [];
      }
    }
  }

  /** The categories of one type, in input order, are exactly the members of that group. */
  lemma {:induction false} GroupMembership(cs: seq<Category>, c: Category, t: string)
    ensures c in Members(cs, t) <==> c in cs && c.kind == t
    ensures IsSubsequence(Members(cs, t), cs)
    decreases |cs|
  {
    if cs != [] {
      var init := cs[..|cs| - 1];
      var last := cs[|cs| - 1];
      assert cs == init + [last];
      GroupMembership(init, c, t);
      SnocMembers(init, last, t);
    }
  }

  /**
   * Worked example: with categories of types a, b, a (say a shirt, a dress
   * and pants), the panel shows a's group first, holding the first and the
   * third category in that order, then b's group.
   */
  lemma GroupExample(x: Category, y: Category, z: Category)
    requires x.kind == z.kind && x.kind != y.kind
    ensures Types([x, y, z]) == [x.kind, y.kind]
    ensures Members([x, y, z], x.kind) == [x, z]
    ensures Members([x, y, z], y.kind) == [y]
  {
    var one, two, three := [x], [x, y], [x, y, z];
    assert [] + [x] == one && one + [y] == two && two + [z] == three;
    var a, b := x.kind, y.kind;
    SnocTypes([], x);
    SnocHasType([], x, b);
    SnocTypes(one, y);
    SnocHasType(one, y, a);
    SnocTypes(two, z);
    assert Types(one) == [a];
    assert Types(two) == [a] + [b];
    SnocMembers([], x, a);
    SnocMembers(one, y, a);
    SnocMembers(two, z, a);
    assert Members(two, a) == [x];
    assert Members(three, a) == [x] + [z];
    SnocMembers([], x, b);
    SnocMembers(one, y, b);
    SnocMembers(two, z, b);
    assert Members(two, b) == [] + [y];
  }
}
