/** The column order of the storefront mega menu (frontend/src/components/home/MegaMenu.jsx):
    the grouped categories sorted by the position of their title in `desiredOrder`, followed
    by the fixed MORE column. The mobile and the desktop layout sort with the same
    comparator, so one function gives both orders. */
module MegaMenu {
  import opened Seqs
  import opened Navbar

  const DesiredOrder: seq<string> := ["SHOP BY RECIPIENT", "SHOP BY OCCASION", "SHOP BY INTEREST", "BY PRICE"]
  const MoreTitle: string := "MORE"

  /** An entry of `Object.entries(grouped)`. */
  type Column = (string, seq<Category>)

  predicate IsTitle(title: string, t: string) { t == title }

  /** `desiredOrder.indexOf(title)`: -1 for a title that is not listed. */
  function Rank(title: string): (r: int)
    ensures -1 <= r < |DesiredOrder|
    ensures r == -1 <==> title !in DesiredOrder
    ensures r >= 0 ==> DesiredOrder[r] == title
  {
    IndexOf(DesiredOrder, t => IsTitle(title, t))
  }

  /** `Object.entries(grouped)`: the keys in insertion order with their lists. */
  function Entries(g: Grouped): (r: seq<Column>)
    ensures |r| == |g.titles|
    ensures forall i :: 0 <= i < |r| ==> r[i].0 == g.titles[i]
    ensures forall i :: 0 <= i < |r| ==> r[i].1 == if g.titles[i] in g.groups then g.groups[g.titles[i]] else []
  {
    seq(|g.titles|, i requires 0 <= i < |g.titles| =>
      (g.titles[i], if g.titles[i] in g.groups then g.groups[g.titles[i]] else []))
  }

  /** The rank of a column's title, the key the comparator subtracts. */
  function ColumnRank(c: Column): int { Rank(c.0) }

  /** Places `x` before the first column whose key is not smaller. */
  function Insert(x: Column, s: seq<Column>, key: Column -> int): seq<Column> {
    if s == [] || key(x) <= key(s[0]) then [x] + s
    else [s[0]] + Insert(x, s[1..], key)
  }

  /** A stable sort by `key`: insertion sort from the back of the list. */
  function SortBy(s: seq<Column>, key: Column -> int): seq<Column> {
    if s == [] then [] else Insert(s[0], SortBy(s[1..], key), key)
  }

  predicate SortedBy(s: seq<Column>, key: Column -> int) {
    forall i, j :: 0 <= i < j < |s| ==> key(s[i]) <= key(s[j])
  }

  predicate HasKey(key: Column -> int, k: int, c: Column) { key(c) == k }

  /** The columns whose key is `k`, in their relative order. */
  function Bucket(s: seq<Column>, key: Column -> int, k: int): seq<Column> {
    Filter(s, c => HasKey(key, k, c))
  }

  lemma SortedCons(a: Column, t: seq<Column>, key: Column -> int)
    requires SortedBy(t, key)
    requires forall j :: 0 <= j < |t| ==> key(a) <= key(t[j])
    ensures SortedBy([a] + t, key)
  {
    var r := [a] + t;
    forall i, j | 0 <= i < j < |r| ensures key(r[i]) <= key(r[j]) {
      assert r[j] == t[j - 1];
      if i > 0 { assert r[i] == t[i - 1]; }
    }
  }

  /** Inserting adds exactly `x`. */
  lemma {:induction false} InsertPerm(x: Column, s: seq<Column>, key: Column -> int)
    ensures multiset(Insert(x, s, key)) == multiset(s) + multiset{x}
  {
    if s != [] && key(x) > key(s[0]) {
      InsertPerm(x, s[1..], key);
      assert s == [s[0]] + s[1..];
    }
  }

  lemma {:induction false} InsertSorted(x: Column, s: seq<Column>, key: Column -> int)
    requires SortedBy(s, key)
    ensures SortedBy(Insert(x, s, key), key)
  {
    if s == [] || key(x) <= key(s[0]) {
      forall j | 0 <= j < |s| ensures key(x) <= key(s[j]) {
        if j > 0 { assert key(s[0]) <= key(s[j]); }
      }
      SortedCons(x, s, key);
    } else {
      var rest := s[1..];
      assert SortedBy(rest, key) by {
        forall i, j | 0 <= i < j < |rest| ensures key(rest[i]) <= key(rest[j]) {
          assert rest[i] == s[i + 1] && rest[j] == s[j + 1];
        }
      }
      InsertSorted(x, rest, key);
      InsertPerm(x, rest, key);
      var t := Insert(x, rest, key);
      forall j | 0 <= j < |t| ensures key(s[0]) <= key(t[j]) {
        assert t[j] in multiset(t);
        if t[j] != x {
          assert t[j] in multiset(rest);
          var k :| 0 <= k < |rest| && rest[k] == t[j];
          assert s[k + 1] == t[j];
        }
      }
      SortedCons(s[0], t, key);
    }
  }

  /** Inserting `x` adds it at the front of its own key's bucket and leaves the other
      buckets alone. */
  lemma {:induction false} InsertBucket(x: Column, s: seq<Column>, key: Column -> int, k: int)
    requires SortedBy(s, key)
    ensures Bucket(Insert(x, s, key), key, k) == (if key(x) == k then [x] else []) + Bucket(s, key, k)
  {
    if s == [] || key(x) <= key(s[0]) {
      FilterAppend([x], s, c => HasKey(key, k, c));
    } else {
      InsertBucket(x, s[1..], key, k);
      FilterAppend([s[0]], Insert(x, s[1..], key), c => HasKey(key, k, c));
      FilterAppend([s[0]], s[1..], c => HasKey(key, k, c));
      assert [s[0]] + s[1..] == s;
    }
  }

  /** The sort returns a permutation of the columns, ordered by key. */
  lemma {:induction false} SortSpec(s: seq<Column>, key: Column -> int)
    ensures SortedBy(SortBy(s, key), key)
    ensures multiset(SortBy(s, key)) == multiset(s)
  {
    if s != [] {
      SortSpec(s[1..], key);
      InsertSorted(s[0], SortBy(s[1..], key), key);
      InsertPerm(s[0], SortBy(s[1..], key), key);
      assert s == [s[0]] + s[1..];
    }
  }

  /** The sort is stable: columns with equal keys keep their relative order. */
  lemma {:induction false} SortIsStable(s: seq<Column>, key: Column -> int, k: int)
    ensures Bucket(SortBy(s, key), key, k) == Bucket(s, key, k)
  {
    if s != [] {
      SortSpec(s[1..], key);
      SortIsStable(s[1..], key, k);
      InsertBucket(s[0], SortBy(s[1..], key), key, k);
      FilterAppend([s[0]], s[1..], c => HasKey(key, k, c));
      assert [s[0]] + s[1..] == s;
    }
  }

  /** The sorted columns the menu renders, on both layouts. */
  function Columns(g: Grouped): seq<Column> {
    SortBy(Entries(g), ColumnRank)
  }

  /** The headings in render order: the sorted titles, then MORE. */
  function Headings(g: Grouped): (r: seq<string>)
    ensures |r| == |g.titles| + 1 && r[|r| - 1] == MoreTitle
    ensures |Columns(g)| == |g.titles|
    ensures forall i :: 0 <= i < |Columns(g)| ==> r[i] == Columns(g)[i].0
  {
    SortSpec(Entries(g), ColumnRank);
    var cols := Columns(g);
    assert |cols| == |Entries(g)| by {
      assert |multiset(cols)| == |multiset(Entries(g))|;
    }
    seq(|cols|, i requires 0 <= i < |cols| => cols[i].0) + [MoreTitle]
  }

  /** The rendered columns are the grouped entries, each once, and MORE is the last heading. */
  lemma ColumnsArePermutation(g: Grouped)
    ensures multiset(Columns(g)) == multiset(Entries(g))
    ensures Headings(g)[|Headings(g)| - 1] == MoreTitle
  {
    SortSpec(Entries(g), ColumnRank);
  }

  /** The position of a listed title in `desiredOrder` is its rank. */
  lemma RankOfListed(a: nat)
    requires a < |DesiredOrder|
    ensures Rank(DesiredOrder[a]) == a
  {
    var r := Rank(DesiredOrder[a]);
    assert DesiredOrder[r] == DesiredOrder[a];
  }

  /** A column of smaller rank is rendered earlier: listed titles follow `desiredOrder`, and
      an unlisted title (rank -1) comes before every listed one. */
  lemma ColumnOrder(g: Grouped, i: nat, j: nat)
    requires i < |Columns(g)| && j < |Columns(g)|
    requires Rank(Columns(g)[i].0) < Rank(Columns(g)[j].0)
    ensures i < j
  {
    var cols := Columns(g);
    SortSpec(Entries(g), ColumnRank);
    SortedOrder(cols, ColumnRank, i, j);
  }

  lemma SortedOrder(s: seq<Column>, key: Column -> int, i: nat, j: nat)
    requires SortedBy(s, key)
    requires i < |s| && j < |s| && key(s[i]) < key(s[j])
    ensures i < j
  {
  }

  /** The four listed titles, when present, appear in the order RECIPIENT, OCCASION,
      INTEREST, BY PRICE. */
  lemma ListedTitlesInOrder(g: Grouped, i: nat, j: nat, a: nat, b: nat)
    requires i < |Columns(g)| && j < |Columns(g)|
    requires a < b < |DesiredOrder|
    requires Columns(g)[i].0 == DesiredOrder[a] && Columns(g)[j].0 == DesiredOrder[b]
    ensures i < j
  {
    RankOfListed(a);
    RankOfListed(b);
    ColumnOrder(g, i, j);
  }

  /** Unlisted titles come before all listed ones. */
  lemma UnlistedTitlesFirst(g: Grouped, i: nat, j: nat)
    requires i < |Columns(g)| && j < |Columns(g)|
    requires Columns(g)[i].0 !in DesiredOrder && Columns(g)[j].0 in DesiredOrder
    ensures i < j
  {
    ColumnOrder(g, i, j);
  }
}
