/**
 * The class string of the responsive grid (client/src/components/ui/responsive-grid.tsx): a
 * fixed head, then one class per breakpoint whose column count is set. Merging with the
 * caller's `className` is not modelled.
 */
module ResponsiveGrid {
  import opened Wrappers
  import opened Text
  import opened Lists

  /** The `columns` prop; an absent entry is `None`. `xxl` is the "2xl" key. */
  datatype Columns = Columns(default: Option<int>, md: Option<int>, lg: Option<int>, xl: Option<int>, xxl: Option<int>)

  const DefaultColumns: Columns := Columns(Some(1), Some(2), Some(3), Some(4), None)
  const DefaultGap: int := 6

  /** A number is truthy unless absent or zero. */
  predicate Set(v: Option<int>) {
    v.Some? && v.value != 0
  }

  predicate SetEntry(b: (string, Option<int>)) {
    Set(b.1)
  }

  /** The breakpoints, in the order the classes are pushed. */
  function Breakpoints(c: Columns): seq<(string, Option<int>)> {
    [("md", c.md), ("lg", c.lg), ("xl", c.xl), ("2xl", c.xxl)]
  }

  function BreakpointClass(b: (string, Option<int>)): string {
    b.0 + ":grid-cols-" + IntToString(b.1.GetOr(0))
  }

  /** The three classes every grid gets. */
  function HeadClasses(c: Columns, gap: int): seq<string> {
    ["grid", "gap-" + IntToString(gap), "grid-cols-" + IntToString(if Set(c.default) then c.default.value else 1)]
  }

  /** The class of each set breakpoint, in order. */
  function BreakpointClasses(bs: seq<(string, Option<int>)>): seq<string> {
    if bs == [] then []
    else (if SetEntry(bs[0]) then [BreakpointClass(bs[0])] else []) + BreakpointClasses(bs[1..])
  }

  /** The head, then the class of each set breakpoint, in breakpoint order. */
  function GridTokens(c: Columns, gap: int): seq<string> {
    HeadClasses(c, gap) + BreakpointClasses(Breakpoints(c))
  }

  /** One class per set breakpoint, and exactly the classes of the set breakpoints. */
  lemma {:induction false} BreakpointClassesSpec(bs: seq<(string, Option<int>)>)
    ensures |BreakpointClasses(bs)| == Count(bs, SetEntry)
    ensures forall t :: t in BreakpointClasses(bs) <==> exists b :: b in bs && Set(b.1) && t == BreakpointClass(b)
  {
    if bs != [] {
      BreakpointClassesSpec(bs[1..]);
      assert forall b :: b in bs <==> b == bs[0] || b in bs[1..];
    }
  }

  /** Filtering the four breakpoints keeps each set one, in order. */
  lemma BreakpointsFiltered(c: Columns)
    ensures BreakpointClasses(Breakpoints(c)) ==
      (if Set(c.md) then [BreakpointClass(("md", c.md))] else [])
      + (if Set(c.lg) then [BreakpointClass(("lg", c.lg))] else [])
      + (if Set(c.xl) then [BreakpointClass(("xl", c.xl))] else [])
      + (if Set(c.xxl) then [BreakpointClass(("2xl", c.xxl))] else [])
  {
    var b := Breakpoints(c);
    assert b[1..] == [("lg", c.lg), ("xl", c.xl), ("2xl", c.xxl)];
    assert b[1..][1..] == [("xl", c.xl), ("2xl", c.xxl)];
    assert b[1..][1..][1..] == [("2xl", c.xxl)];
    assert b[1..][1..][1..][1..] == [];
    var d := if Set(c.xxl) then [BreakpointClass(("2xl", c.xxl))] else [];
    var x := if Set(c.xl) then [BreakpointClass(("xl", c.xl))] else [];
    var l := if Set(c.lg) then [BreakpointClass(("lg", c.lg))] else [];
    var m := if Set(c.md) then [BreakpointClass(("md", c.md))] else [];
    assert BreakpointClasses(b[1..][1..][1..]) == d + [];
    assert BreakpointClasses(b[1..][1..]) == x + d;
    assert BreakpointClasses(b[1..]) == l + (x + d);
    assert BreakpointClasses(b) == m + (l + (x + d));
  }

  /** `if (columns[key]) gridClasses.push(`${key}:grid-cols-${columns[key]}`)` */
  method PushIfSet(classes: seq<string>, key: string, count: Option<int>) returns (pushed: seq<string>)
    ensures pushed == classes + BreakpointClasses([(key, count)])
  {
    pushed := classes;
    if Set(count) {
      pushed := pushed + [key + ":grid-cols-" + IntToString(count.value)];
    }
  }

  /**
   * `gridClasses`, pushed one by one and joined with spaces; an absent `columns` or `gap` takes
   * its default.
   */
  method GridClasses(columns: Option<Columns>, gap: Option<int>) returns (className: string)
    ensures className == Join(GridTokens(columns.GetOr(DefaultColumns), gap.GetOr(DefaultGap)), " ")
  {
    var c := columns.GetOr(DefaultColumns);
    var g := gap.GetOr(DefaultGap);
    var classes := ["grid", "gap-" + IntToString(g), "grid-cols-" + IntToString(if Set(c.default) then c.default.value else 1)];
    ghost var head := classes;
    classes := PushIfSet(classes, "md", c.md);
    classes := PushIfSet(classes, "lg", c.lg);
    classes := PushIfSet(classes, "xl", c.xl);
    classes := PushIfSet(classes, "2xl", c.xxl);
    ghost var m, l, x, d := BreakpointClasses([("md", c.md)]), BreakpointClasses([("lg", c.lg)]),
      BreakpointClasses([("xl", c.xl)]), BreakpointClasses([("2xl", c.xxl)]);
    assert classes == head + (m + l + x + d);
    BreakpointsInTurn(c);
    className := Join(classes, " ");
  }

  /** The breakpoint classes are those of each breakpoint taken in turn. */
  lemma BreakpointsInTurn(c: Columns)
    ensures BreakpointClasses(Breakpoints(c)) ==
      BreakpointClasses([("md", c.md)]) + BreakpointClasses([("lg", c.lg)])
      + BreakpointClasses([("xl", c.xl)]) + BreakpointClasses([("2xl", c.xxl)])
  {
    BreakpointsFiltered(c);
  }

  /**
   * The class list always starts with `grid`, the gap and the base column count, and holds
   * one more class per set breakpoint.
   */
  lemma GridTokensSpec(c: Columns, gap: int)
    ensures GridTokens(c, gap)[..3] == ["grid", "gap-" + IntToString(gap), "grid-cols-" + IntToString(if Set(c.default) then c.default.value else 1)]
    ensures |GridTokens(c, gap)| == 3 + Count(Breakpoints(c), SetEntry)
    ensures forall t :: t in GridTokens(c, gap)[3..] <==> exists b :: b in Breakpoints(c) && Set(b.1) && t == BreakpointClass(b)
  {
    assert GridTokens(c, gap)[3..] == BreakpointClasses(Breakpoints(c));
    BreakpointClassesSpec(Breakpoints(c));
  }

  /** A zero column count is falsy: a zero breakpoint is as if absent, a zero base gives one column. */
  lemma ZeroIsUnset(c: Columns, gap: int)
    requires c.default == Some(0) && c.md == Some(0)
    ensures GridTokens(c, gap)[2] == "grid-cols-1"
    ensures GridTokens(c, gap) == GridTokens(c.(md := None), gap)
  {
    BreakpointsFiltered(c);
    BreakpointsFiltered(c.(md := None));
  }

  const DefaultTokens: seq<string> :=
    ["grid", "gap-6", "grid-cols-1", "md:grid-cols-2", "lg:grid-cols-3", "xl:grid-cols-4"]

  /** With no props the class list is the head and the md, lg and xl classes, with 2xl absent. */
  lemma DefaultGridTokens()
    ensures GridTokens(DefaultColumns, DefaultGap) == DefaultTokens
  {
    var c := DefaultColumns;
    BreakpointsFiltered(c);
    assert IntToString(1) == "1" && IntToString(2) == "2" && IntToString(3) == "3";
    assert IntToString(4) == "4" && IntToString(6) == "6";
    assert Set(c.default) && c.default.value == 1;
    assert "gap-" + "6" == "gap-6" && "grid-cols-" + "1" == "grid-cols-1";
    assert HeadClasses(c, DefaultGap) == ["grid", "gap-6", "grid-cols-1"];
    assert c.md.GetOr(0) == 2 && c.lg.GetOr(0) == 3 && c.xl.GetOr(0) == 4 && !Set(c.xxl);
    assert "md" + ":grid-cols-" + "2" == "md:grid-cols-2";
    assert "lg" + ":grid-cols-" + "3" == "lg:grid-cols-3";
    assert "xl" + ":grid-cols-" + "4" == "xl:grid-cols-4";
    assert BreakpointClasses(Breakpoints(c)) == ["md:grid-cols-2"] + ["lg:grid-cols-3"] + ["xl:grid-cols-4"] + [];
  }

  /** Joining six classes puts one separator between each two. */
  lemma JoinSix(a: string, b: string, c: string, d: string, e: string, f: string, sep: string)
    ensures Join([a, b, c, d, e, f], sep) == a + sep + b + sep + c + sep + d + sep + e + sep + f
  {
    var t := [a, b, c, d, e, f];
    JoinAppend([e], [f], sep);
    assert [e] + [f] == t[4..];
    JoinAppend([d], t[4..], sep);
    assert [d] + t[4..] == t[3..];
    JoinAppend([c], t[3..], sep);
    assert [c] + t[3..] == t[2..];
    JoinAppend([b], t[2..], sep);
    assert [b] + t[2..] == t[1..];
    JoinAppend([a], t[1..], sep);
    assert [a] + t[1..] == t;
  }

  /**
   * With no props the grid reads "grid gap-6 grid-cols-1 md:grid-cols-2 lg:grid-cols-3
   * xl:grid-cols-4": those six classes, separated by single spaces.
   */
  lemma DefaultClassName()
    ensures Join(GridTokens(DefaultColumns, DefaultGap), " ")
      == "grid" + " " + "gap-6" + " " + "grid-cols-1" + " " + "md:grid-cols-2" + " " + "lg:grid-cols-3" + " " + "xl:grid-cols-4"
  {
    DefaultGridTokens();
    JoinSix("grid", "gap-6", "grid-cols-1", "md:grid-cols-2", "lg:grid-cols-3", "xl:grid-cols-4", " ");
  }
}
