/** Grouping of a composite model's parameters into the flat vectors the
    optimisers work on.

    Each model component owns an ordered parameter dictionary mapping a name
    to a positional list `[value, role, lower, upper]`, where the two bounds
    are optional. The fitting backends concatenate the components'
    dictionaries and split the parameters by role: `'free'` ones go into
    parallel name, value and bound vectors, `'independent'` ones into a
    name-to-value dictionary, and everything else (`'fixed'`) is skipped. */
module Parameters {
  import opened Floats

  /** A parameter's positional list: its value, its role string and the
      remaining fields `rest` (`param[2:]`), of which the first two are the
      lower and upper bound when present. The value type `V` is generic
      because independent parameters carry arbitrary data. */
  datatype Param<V> = Param(value: V, role: string, rest: seq<ExtReal>)
  {
    /** `len(param)` */
    function Len(): nat
    {
      2 + |rest|
    }
  }

  /** A dictionary item `(name, param)`. */
  type Item<V> = (string, Param<V>)

  /** The flat view of the free parameters, plus the independent variables. */
  datatype FlatView<V> = FlatView(freenames: seq<string>, freepars: seq<V>,
                                  pmin: seq<ExtReal>, pmax: seq<ExtReal>,
                                  indepVars: map<string, V>)

  predicate IsFree<V>(it: Item<V>)
  {
    it.1.role == "free"
  }

  predicate IsIndependent<V>(it: Item<V>)
  {
    it.1.role == "independent"
  }

  /** The items of all components, component by component, each in its
      dictionary's insertion order. */
  function AllParams<V>(components: seq<seq<Item<V>>>): (all: seq<Item<V>>)
  {
    if |components| == 0 then []
    else AllParams(components[..|components| - 1]) + components[|components| - 1]
  }

  /** Where component `c`'s items start in the concatenation. */
  function Offset<V>(components: seq<seq<Item<V>>>, c: nat): nat
    requires c <= |components|
  {
    |AllParams(components[..c])|
  }

  /** Item `j` of component `c` sits at position `Offset(c) + j`: the
      concatenation is in component order, then insertion order. */
  lemma {:induction false} AllParamsOrder<V>(components: seq<seq<Item<V>>>, c: nat, j: nat)
    requires c < |components| && j < |components[c]|
    ensures Offset(components, c) + j < |AllParams(components)|
    ensures AllParams(components)[Offset(components, c) + j] == components[c][j]
  {
    var n := |components| - 1;
    assert components[..n + 1] == components;
    if c == n {
      assert AllParams(components) == AllParams(components[..n]) + components[n];
    } else {
      assert components[..n][..c] == components[..c];
      AllParamsOrder(components[..n], c, j);
      assert AllParams(components) == AllParams(components[..n]) + components[n];
    }
  }

  /** The number of free items. */
  function FreeCount<V>(items: seq<Item<V>>): nat
  {
    if |items| == 0 then 0
    else FreeCount(items[..|items| - 1]) + (if IsFree(items[|items| - 1]) then 1 else 0)
  }

  /** The bounds of a free parameter: `param[2]` and `param[3]` when the
      list has more than three fields, otherwise minus and plus infinity. */
  function BoundsOf<V>(p: Param<V>): (ExtReal, ExtReal)
  {
    if p.Len() > 3 then (p.rest[0], p.rest[1]) else (NegInf, PosInf)
  }

  /** The grouping loop over the concatenated items. */
  function Group<V>(items: seq<Item<V>>): (v: FlatView<V>)
    ensures |v.freenames| == FreeCount(items)
    ensures |v.freepars| == FreeCount(items)
    ensures |v.pmin| == FreeCount(items) && |v.pmax| == FreeCount(items)
  {
    if |items| == 0 then FlatView([], [], [], [], map[])
    else
      var v := Group(items[..|items| - 1]);
      var (name, param) := items[|items| - 1];
      if param.role == "free" then
        var (lo, hi) := BoundsOf(param);
        FlatView(v.freenames + [name], v.freepars + [param.value],
                 v.pmin + [lo], v.pmax + [hi], v.indepVars)
      else if param.role == "independent" then
        v.(indepVars := v.indepVars[name := param.value])
      else
        v
  }

  /** The flat view of a composite model's components: one entry in each
      of the four free vectors per free item of any component. */
  function Flatten<V>(components: seq<seq<Item<V>>>): (v: FlatView<V>)
    ensures |v.freenames| == |v.freepars| == |v.pmin| == |v.pmax| == FreeCount(AllParams(components))
  {
    Group(AllParams(components))
  }

  /** A free item `j` of component `c` lands in the slot counted by the free
      items before it, across earlier components and then earlier items of
      its own, with its name, value and bounds. */
  lemma FlattenPlacesFree<V>(components: seq<seq<Item<V>>>, c: nat, j: nat)
    requires c < |components| && j < |components[c]| && IsFree(components[c][j])
    ensures Offset(components, c) + j < |AllParams(components)|
    ensures var v := Flatten(components);
            var k := FreeCount(AllParams(components)[..Offset(components, c) + j]);
            && k < |v.freenames|
            && v.freenames[k] == components[c][j].0
            && v.freepars[k] == components[c][j].1.value
            && (v.pmin[k], v.pmax[k]) == BoundsOf(components[c][j].1)
  {
    AllParamsOrder(components, c, j);
    GroupPlacesFree(AllParams(components), Offset(components, c) + j);
  }

  /** Every free item lands in the slot numbered by the free items before
      it, with its name, its value and its bounds (or infinite bounds). */
  lemma {:induction false} GroupPlacesFree<V>(items: seq<Item<V>>, i: nat)
    requires i < |items| && IsFree(items[i])
    ensures var v := Group(items); var k := FreeCount(items[..i]);
            && k < |v.freenames|
            && v.freenames[k] == items[i].0
            && v.freepars[k] == items[i].1.value
            && (items[i].1.Len() > 3 ==> v.pmin[k] == items[i].1.rest[0] && v.pmax[k] == items[i].1.rest[1])
            && (items[i].1.Len() <= 3 ==> v.pmin[k] == NegInf && v.pmax[k] == PosInf)
  {
    var n := |items| - 1;
    var pre := items[..n];
    if i == n {
      assert items[..i] == pre;
    } else {
      assert pre[..i] == items[..i];
      GroupPlacesFree(pre, i);
      PrefixFreeCount(items, i);
    }
  }

  /** A strict prefix ending before a free item counts fewer free items than the whole. */
  lemma {:induction false} PrefixFreeCount<V>(items: seq<Item<V>>, i: nat)
    requires i < |items| && IsFree(items[i])
    ensures FreeCount(items[..i]) < FreeCount(items)
    decreases |items|
  {
    var n := |items| - 1;
    if i < n {
      assert items[..n][..i] == items[..i];
      assert items[..n][i] == items[i];
      PrefixFreeCount(items[..n], i);
    } else {
      assert items[..n] == items[..i];
    }
  }

  /** Conversely, every slot of the flat vectors is filled by a free item. */
  lemma {:induction false} GroupSlotsAreFree<V>(items: seq<Item<V>>, k: nat)
    requires k < FreeCount(items)
    ensures exists i :: 0 <= i < |items| && IsFree(items[i]) && FreeCount(items[..i]) == k
                        && Group(items).freenames[k] == items[i].0
                        && Group(items).freepars[k] == items[i].1.value
  {
    var n := |items| - 1;
    var pre := items[..n];
    if k < FreeCount(pre) {
      GroupSlotsAreFree(pre, k);
      var i :| 0 <= i < |pre| && IsFree(pre[i]) && FreeCount(pre[..i]) == k
               && Group(pre).freenames[k] == pre[i].0 && Group(pre).freepars[k] == pre[i].1.value;
      assert pre[..i] == items[..i];
      assert items[i] == pre[i];
    } else {
      assert IsFree(items[n]) && FreeCount(items[..n]) == k;
    }
  }

  /** Removing a parameter whose role is neither free nor independent (a
      fixed one) from anywhere in the list leaves the flat view unchanged. */
  lemma {:induction false} GroupSkipsFixed<V>(a: seq<Item<V>>, it: Item<V>, b: seq<Item<V>>)
    requires !IsFree(it) && !IsIndependent(it)
    ensures Group(a + [it] + b) == Group(a + b)
    decreases |b|
  {
    if |b| == 0 {
      assert (a + [it] + b)[..|a|] == a;
      assert a + b == a;
    } else {
      var m := |b| - 1;
      var b' := b[..m];
      assert (a + [it] + b)[..|a + [it] + b| - 1] == a + [it] + b';
      assert (a + b)[..|a + b| - 1] == a + b';
      assert (a + [it] + b)[|a + [it] + b| - 1] == b[m];
      assert (a + b)[|a + b| - 1] == b[m];
      GroupSkipsFixed(a, it, b');
    }
  }

  /** The independent variables are keyed by exactly the names of the
      independent items. */
  lemma {:induction false} GroupIndependentKeys<V>(items: seq<Item<V>>, name: string)
    ensures name in Group(items).indepVars
            <==> exists i :: 0 <= i < |items| && IsIndependent(items[i]) && items[i].0 == name
  {
    if |items| > 0 {
      var n := |items| - 1;
      GroupIndependentKeys(items[..n], name);
      if exists i :: 0 <= i < n && IsIndependent(items[..n][i]) && items[..n][i].0 == name {
        var i :| 0 <= i < n && IsIndependent(items[..n][i]) && items[..n][i].0 == name;
        assert items[i] == items[..n][i];
      }
      if exists i :: 0 <= i < |items| && IsIndependent(items[i]) && items[i].0 == name {
        var i :| 0 <= i < |items| && IsIndependent(items[i]) && items[i].0 == name;
        if i < n {
          assert items[..n][i] == items[i];
        }
      }
    }
  }

  /** An independent item that no later independent item of the same name
      follows supplies the variable's value: later duplicates overwrite. */
  lemma {:induction false} GroupIndependentLastWins<V>(items: seq<Item<V>>, i: nat)
    requires i < |items| && IsIndependent(items[i])
    requires forall j :: i < j < |items| && IsIndependent(items[j]) ==> items[j].0 != items[i].0
    ensures items[i].0 in Group(items).indepVars
    ensures Group(items).indepVars[items[i].0] == items[i].1.value
  {
    var n := |items| - 1;
    if i < n {
      var pre := items[..n];
      assert pre[i] == items[i];
      forall j | i < j < |pre| && IsIndependent(pre[j])
        ensures pre[j].0 != pre[i].0
      {
        assert pre[j] == items[j];
      }
      GroupIndependentLastWins(pre, i);
    }
  }
}
