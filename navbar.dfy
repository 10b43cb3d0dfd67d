/** The category grouping of the storefront navigation bar
    (frontend/src/components/home/Navbar.jsx): categories are collected into lists keyed by
    their `mainTitle`, which the mega menu then shows as columns. */
module Navbar {
  import opened Wrappers
  import opened Seqs

  datatype Category = Category(id: string, name: string, slug: string, mainTitle: string)

  /** The `grouped` object: its keys in the order they were first added, which is the order
      `Object.entries` lists them, and the list stored under each key. */
  datatype Grouped = Grouped(titles: seq<string>, groups: map<string, seq<Category>>)

  predicate NoDuplicates(ts: seq<string>) {
    forall i, j :: 0 <= i < j < |ts| ==> ts[i] != ts[j]
  }

  /** The accumulator of the `reduce` after each category in turn (a left fold). */
  function GroupSpec(cats: seq<Category>): Grouped {
    if cats == [] then Grouped([], map[])
    else
      var g := GroupSpec(cats[..|cats| - 1]);
      var c := cats[|cats| - 1];
      if c.mainTitle in g.groups then Grouped(g.titles, g.groups[c.mainTitle := g.groups[c.mainTitle] + [c]])
      else Grouped(g.titles + [c.mainTitle], g.groups[c.mainTitle := [c]])
  }

  /** The keys are the titles in first-seen order, each listed once. */
  lemma {:induction false} GroupSpecKeys(cats: seq<Category>)
    ensures GroupSpec(cats).groups.Keys == set t | t in GroupSpec(cats).titles
    ensures NoDuplicates(GroupSpec(cats).titles)
  {
    if cats != [] {
      var init := cats[..|cats| - 1];
      var c := cats[|cats| - 1];
      GroupSpecKeys(init);
      var g := GroupSpec(init);
      if c.mainTitle !in g.groups {
        var ts := g.titles + [c.mainTitle];
        forall i, j | 0 <= i < j < |ts| ensures ts[i] != ts[j] {
          if j == |ts| - 1 { assert ts[i] in g.titles; }
        }
      }
    }
  }

  /** The `grouped` computation: the `reduce` over a present, non-empty list, `{}` otherwise.
      The accumulator's lists are pushed into in place; here the map is updated. */
  method GroupByMainTitle(categories: Option<seq<Category>>) returns (g: Grouped)
    ensures g == GroupSpec(categories.GetOr([]))
  {
    var titles: seq<string> := [];
    var acc: map<string, seq<Category>> := map[];
    if categories.Some? && |categories.value| > 0 {
      var cats := categories.value;
      var i := 0;
      while i < |cats|
        invariant 0 <= i <= |cats|
        invariant Grouped(titles, acc) == GroupSpec(cats[..i])
      {
        var c := cats[i];
        ghost var next := cats[..i + 1];
        assert next[..|next| - 1] == cats[..i] && next[|next| - 1] == c;
        ghost var isNew := c.mainTitle !in acc;
        if c.mainTitle !in acc {
          acc := acc[c.mainTitle := []];
          titles := titles + [c.mainTitle];
        }
        assert isNew ==> acc[c.mainTitle] + [c] == [c];
        acc := acc[c.mainTitle := acc[c.mainTitle] + [c]];
        i := i + 1;
      }
      assert cats[..|cats|] == cats;
    }
    g := Grouped(titles, acc);
  }

  predicate HasTitle(t: string, c: Category) { c.mainTitle == t }

  /** The categories of one title, in input order. */
  function WithTitle(cats: seq<Category>, t: string): seq<Category> {
    Filter(cats, c => HasTitle(t, c))
  }

  /** The list under a key is exactly the categories with that title, in input order, and
      is never empty; a title that is not a key belongs to no category. */
  lemma {:induction false} GroupOfTitle(cats: seq<Category>, t: string)
    ensures t in GroupSpec(cats).groups ==>
              GroupSpec(cats).groups[t] == WithTitle(cats, t) && GroupSpec(cats).groups[t] != []
    ensures t !in GroupSpec(cats).groups ==> WithTitle(cats, t) == []
  {
    if cats != [] {
      var init := cats[..|cats| - 1];
      var c := cats[|cats| - 1];
      assert cats == init + [c];
      GroupOfTitle(init, t);
      FilterAppend(init, [c], u => HasTitle(t, u));
    }
  }

  /** The keys are exactly the titles that occur, and each key holds exactly the categories
      of that title, in input order. */
  lemma GroupsAreFilters(cats: seq<Category>)
    ensures forall t :: t in GroupSpec(cats).groups ==> GroupSpec(cats).groups[t] == WithTitle(cats, t)
    ensures forall t :: t in GroupSpec(cats).groups <==> exists c :: c in cats && c.mainTitle == t
  {
    forall t ensures t in GroupSpec(cats).groups ==> GroupSpec(cats).groups[t] == WithTitle(cats, t)
    {
      GroupOfTitle(cats, t);
    }
    forall t ensures t in GroupSpec(cats).groups <==> exists c :: c in cats && c.mainTitle == t
    {
      GroupOfTitle(cats, t);
      var w := WithTitle(cats, t);
      if t in GroupSpec(cats).groups {
        assert w[0] in cats && HasTitle(t, w[0]);
      }
    }
  }

  /** Every category sits in exactly one group: the one of its own title. */
  lemma EachCategoryInOneGroup(cats: seq<Category>, c: Category)
    requires c in cats
    ensures c.mainTitle in GroupSpec(cats).groups && c in GroupSpec(cats).groups[c.mainTitle]
    ensures forall t :: t in GroupSpec(cats).groups && t != c.mainTitle ==> c !in GroupSpec(cats).groups[t]
  {
    GroupsAreFilters(cats);
  }
}
