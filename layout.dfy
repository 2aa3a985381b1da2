/** The two pure tree functions of the panel layout: `rowCount`, which sizes
    the page in mobile mode, and `mutateDeep`, which rewrites a saved layout
    configuration for mobile or desktop mode. */
module Layout {
  import opened Wrappers

  datatype ItemType = Row | Column | Stack | Component

  /** A layout item: its type, its `reorderEnabled` flag and its children. */
  datatype Item = Item(kind: ItemType, reorderEnabled: bool, content: seq<Item>)

  // ---------------------------------------------------------------------
  // `rowCount`, with the JavaScript number semantics it relies on.

  /** The numbers `rowCount` can produce: a count, or `-Infinity`, which is
      what `Math.max()` answers for no arguments. */
  datatype Rows = Finite(n: nat) | NegInfinity

  /** The result of a call: a number, or the `TypeError` that
      `[].reduce((a, b) => a + b)` throws. */
  datatype Outcome = Value(rows: Rows) | TypeError

  /** `Math.max(a, b)`. */
  function Max(a: Rows, b: Rows): Rows
  {
    if a.NegInfinity? then b
    else if b.NegInfinity? then a
    else if a.n >= b.n then a else b
  }

  /** `a + b`. */
  function Add(a: Rows, b: Rows): Rows
  {
    if a.Finite? && b.Finite? then Finite(a.n + b.n) else NegInfinity
  }

  /** `Math.max(...xs)`. */
  function MaxAll(xs: seq<Rows>): Rows
  {
    if xs == [] then NegInfinity else Max(MaxAll(xs[..|xs| - 1]), xs[|xs| - 1])
  }

  /** `xs.reduce((a, b) => a + b)` on a non-empty array. */
  function Reduce(xs: seq<Rows>): Rows
    requires xs != []
  {
    if |xs| == 1 then xs[0] else Add(Reduce(xs[..|xs| - 1]), xs[|xs| - 1])
  }

  /** `xs.reduce((a, b) => a + b)`, which throws on an empty array. */
  function SumAll(xs: seq<Rows>): Outcome
  {
    if xs == [] then TypeError else Value(Reduce(xs))
  }

  /** `rowCount(item)`: a row is as tall as its tallest child, a column as
      tall as its children together, anything else one row. A child that
      throws makes the whole call throw. */
  function RowCount(item: Item): Outcome
  {
    var rs := seq(|item.content|, k requires 0 <= k < |item.content| => RowCount(item.content[k]));
    if item.kind == Stack || item.kind == Component then Value(Finite(1))
    else if exists k :: 0 <= k < |rs| && rs[k].TypeError? then TypeError
    else
      var vals := seq(|rs|, k requires 0 <= k < |rs| => rs[k].rows);
      if item.kind == Row then Value(MaxAll(vals)) else SumAll(vals)
  }

  /** `rowCount(layout.rootItem)`, where the root may be `undefined`. */
  function RootRowCount(root: Option<Item>): (r: Outcome)
    ensures root.None? ==> r == Value(Finite(0))
    ensures root.Some? ==> r == RowCount(root.value)
  {
    if root.None? then Value(Finite(0)) else RowCount(root.value)
  }

  /** An empty row counts `-Infinity` rows and an empty column throws. */
  lemma EmptyContainers(flag: bool)
    ensures RowCount(Item(Row, flag, [])) == Value(NegInfinity)
    ensures RowCount(Item(Column, flag, [])) == TypeError
  {
  }

  /** Every row and column has at least one child. */
  ghost predicate WellFormed(item: Item)
  {
    && ((item.kind == Row || item.kind == Column) ==> |item.content| > 0)
    && forall k :: 0 <= k < |item.content| ==> WellFormed(item.content[k])
  }

  function SumNat(ns: seq<nat>): nat
  {
    if ns == [] then 0 else SumNat(ns[..|ns| - 1]) + ns[|ns| - 1]
  }

  /** The number of panels (stacks and components) that rows and columns
      hold, counting through nested rows and columns. */
  function Panels(item: Item): (p: nat)
  {
    if item.kind == Stack || item.kind == Component then 1
    else SumNat(seq(|item.content|, k requires 0 <= k < |item.content| => Panels(item.content[k])))
  }

  lemma {:induction false} ReduceFinite(xs: seq<Rows>, ns: seq<nat>)
    requires xs != [] && |xs| == |ns|
    requires forall k :: 0 <= k < |xs| ==> xs[k] == Finite(ns[k])
    ensures Reduce(xs) == Finite(SumNat(ns))
  {
    if |xs| > 1 {
      ReduceFinite(xs[..|xs| - 1], ns[..|ns| - 1]);
    } else {
      assert SumNat(ns[..0]) == 0;
    }
  }

  lemma {:induction false} ReducePositive(xs: seq<Rows>)
    requires xs != []
    requires forall k :: 0 <= k < |xs| ==> xs[k].Finite? && xs[k].n >= 1
    ensures Reduce(xs).Finite? && Reduce(xs).n >= 1
  {
    if |xs| > 1 {
      ReducePositive(xs[..|xs| - 1]);
    }
  }

  lemma {:induction false} MaxAllPositive(xs: seq<Rows>)
    requires xs != []
    requires forall k :: 0 <= k < |xs| ==> xs[k].Finite? && xs[k].n >= 1
    ensures MaxAll(xs).Finite? && MaxAll(xs).n >= 1
  {
    if |xs| > 1 {
      MaxAllPositive(xs[..|xs| - 1]);
    } else {
      assert xs[..0] == [];
    }
  }

  /** On a well-formed layout `rowCount` neither throws nor goes negative:
      it is a count of at least one. */
  lemma {:induction false} RowCountWellFormed(item: Item)
    requires WellFormed(item)
    ensures RowCount(item).Value? && RowCount(item).rows.Finite? && RowCount(item).rows.n >= 1
  {
    if item.kind == Row || item.kind == Column {
      var rs := seq(|item.content|, k requires 0 <= k < |item.content| => RowCount(item.content[k]));
      forall k | 0 <= k < |item.content|
        ensures rs[k].Value? && rs[k].rows.Finite? && rs[k].rows.n >= 1
      {
        RowCountWellFormed(item.content[k]);
      }
      var vals := seq(|rs|, k requires 0 <= k < |rs| => rs[k].rows);
      if item.kind == Row {
        MaxAllPositive(vals);
      } else {
        ReducePositive(vals);
      }
    }
  }

  // ---------------------------------------------------------------------
  // `mutateDeep`.

  /** `mutateDeep(item, isMobile)`: in mobile mode rows become columns, and
      every item's `reorderEnabled` becomes `!isMobile`. */
  function MutateDeep(item: Item, isMobile: bool): (r: Item)
    ensures r.kind == if isMobile && item.kind == Row then Column else item.kind
    ensures r.reorderEnabled == !isMobile
    ensures |r.content| == |item.content|
  {
    Item(if isMobile && item.kind == Row then Column else item.kind,
         !isMobile,
         seq(|item.content|, k requires 0 <= k < |item.content| => MutateDeep(item.content[k], isMobile)))
  }

  ghost predicate ReorderEverywhere(item: Item, enabled: bool)
  {
    item.reorderEnabled == enabled &&
    forall k :: 0 <= k < |item.content| ==> ReorderEverywhere(item.content[k], enabled)
  }

  ghost predicate NoRows(item: Item)
  {
    item.kind != Row && forall k :: 0 <= k < |item.content| ==> NoRows(item.content[k])
  }

  /** Same tree shape and the same type at every position. */
  ghost predicate SameKinds(a: Item, b: Item)
  {
    a.kind == b.kind && |a.content| == |b.content| &&
    forall k :: 0 <= k < |a.content| ==> SameKinds(a.content[k], b.content[k])
  }

  /** Every item of the rewritten tree has reordering set for the mode. */
  lemma {:induction false} MutateDeepSetsReorder(item: Item, isMobile: bool)
    ensures ReorderEverywhere(MutateDeep(item, isMobile), !isMobile)
  {
    var r := MutateDeep(item, isMobile);
    forall k | 0 <= k < |r.content|
      ensures ReorderEverywhere(r.content[k], !isMobile)
    {
      MutateDeepSetsReorder(item.content[k], isMobile);
    }
  }

  /** In mobile mode no row survives anywhere in the tree. */
  lemma {:induction false} MutateDeepMobileHasNoRows(item: Item)
    ensures NoRows(MutateDeep(item, true))
  {
    var r := MutateDeep(item, true);
    forall k | 0 <= k < |r.content|
      ensures NoRows(r.content[k])
    {
      MutateDeepMobileHasNoRows(item.content[k]);
    }
  }

  /** In desktop mode the tree keeps its shape and every item its type. */
  lemma {:induction false} MutateDeepDesktopKeepsKinds(item: Item)
    ensures SameKinds(MutateDeep(item, false), item)
  {
    var r := MutateDeep(item, false);
    forall k | 0 <= k < |r.content|
      ensures SameKinds(r.content[k], item.content[k])
    {
      MutateDeepDesktopKeepsKinds(item.content[k]);
    }
  }

  /** Rewriting twice for the same mode is rewriting once. */
  lemma {:induction false} MutateDeepIdempotent(item: Item, isMobile: bool)
    ensures MutateDeep(MutateDeep(item, isMobile), isMobile) == MutateDeep(item, isMobile)
  {
    var once := MutateDeep(item, isMobile);
    var twice := MutateDeep(once, isMobile);
    forall k | 0 <= k < |once.content|
      ensures twice.content[k] == once.content[k]
    {
      MutateDeepIdempotent(item.content[k], isMobile);
    }
    assert twice.content == once.content;
  }

  /** After the mobile rewrite of a well-formed layout, `rowCount` is the
      number of panels: they all end up stacked in one column. */
  lemma {:induction false} MobileRowCountIsPanels(item: Item)
    requires WellFormed(item)
    ensures RowCount(MutateDeep(item, true)) == Value(Finite(Panels(item)))
  {
    var t := MutateDeep(item, true);
    if item.kind == Row || item.kind == Column {
      assert t.kind == Column;
      var rs := seq(|t.content|, k requires 0 <= k < |t.content| => RowCount(t.content[k]));
      var ns := seq(|item.content|, k requires 0 <= k < |item.content| => Panels(item.content[k]));
      forall k | 0 <= k < |t.content|
        ensures rs[k] == Value(Finite(ns[k]))
      {
        MobileRowCountIsPanels(item.content[k]);
      }
      var vals := seq(|rs|, k requires 0 <= k < |rs| => rs[k].rows);
      ReduceFinite(vals, ns);
    }
  }
}
