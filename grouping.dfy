/**
 The group-rows-by-parent-id fold that every join callback of the program
 repeats: a flat joined row carries a parent object (keyed by its id) and a
 child object; the callback looks the id up in a dictionary, inserts the
 row's parent when the id is missing, and appends the row's child to the
 stored parent's list. There is no membership check on the child list and no
 error case: every row appends exactly one child.
 */
module Grouping {

  /** One joined row: the parent's id (the dictionary key), the parent object
      mapped from the row, and the child object mapped from the same row. */
  datatype Row<P, C> = Row(key: int, parent: P, child: C)

  /** A dictionary value: the parent's own fields and the child list that the
      callbacks append to. */
  datatype Group<P, C> = Group(parent: P, children: seq<C>)

  type Index<P, C> = map<int, Group<P, C>>

  /** The effect of one callback invocation on the dictionary. */
  function Step<P, C>(m: Index<P, C>, r: Row<P, C>): (m': Index<P, C>)
    // the row's key is present afterwards and no other key is added or removed
    ensures m'.Keys == m.Keys + {r.key}
    // every other entry is untouched
    ensures forall k | k in m && k != r.key :: m'[k] == m[k]
    // a stored parent is never replaced; a new key stores the row's parent
    ensures m'[r.key].parent == if r.key in m then m[r.key].parent else r.parent
    // exactly one child is appended, to a list that starts empty for a new key
    ensures m'[r.key].children == (if r.key in m then m[r.key].children else []) + [r.child]
  {
    var m1 := if r.key !in m then m[r.key := Group(r.parent, [])] else m;
    m1[r.key := m1[r.key].(children := m1[r.key].children + [r.child])]
  }

  /** The dictionary after the callback has run on every row, in row order. */
  function Fold<P, C>(m: Index<P, C>, rows: seq<Row<P, C>>): (m': Index<P, C>)
    // the keys afterwards are the old keys and the rows' ids, no more
    ensures m'.Keys == m.Keys + Keys(rows)
    decreases |rows|
  {
    if rows == [] then m
    else
      var init, r := rows[..|rows| - 1], rows[|rows| - 1];
      assert init + [r] == rows;
      KeysSnoc(init, r);
      Step(Fold(m, init), r)
  }

  /** The dictionary built from an empty one, as every query does. */
  function GroupRows<P, C>(rows: seq<Row<P, C>>): (m: Index<P, C>)
    // one entry per parent id of the rows
    ensures m.Keys == Keys(rows)
  {
    Fold(map[], rows)
  }

  // ---------------------------------------------------------------------
  // Reference definitions, stated on the rows alone.
  // ---------------------------------------------------------------------

  /** The parent ids that occur in the rows. */
  function Keys<P, C>(rows: seq<Row<P, C>>): set<int>
  {
    set i | 0 <= i < |rows| :: rows[i].key
  }

  /** The parent carried by the first row with key k. */
  function FirstParent<P, C>(rows: seq<Row<P, C>>, k: int): (p: P)
    requires k in Keys(rows)
    ensures exists i :: 0 <= i < |rows| && rows[i].key == k && rows[i].parent == p &&
                        forall j :: 0 <= j < i ==> rows[j].key != k
  {
    if rows[0].key == k then rows[0].parent
    else
      assert rows[1..] + [] == rows[1..];
      KeysCons(rows);
      var p := FirstParent(rows[1..], k);
      ghost var i :| 0 <= i < |rows[1..]| && rows[1..][i].key == k && rows[1..][i].parent == p &&
                     forall j :: 0 <= j < i ==> rows[1..][j].key != k;
      assert rows[i + 1].key == k && rows[i + 1].parent == p;
      assert forall j :: 0 <= j < i + 1 ==> rows[j].key != k by {
        forall j | 0 <= j < i + 1 ensures rows[j].key != k {
          if j > 0 { assert rows[j] == rows[1..][j - 1]; }
        }
      }
      p
  }

  /** The children of the rows with key k, in row order, duplicates kept. */
  function ChildrenOf<P, C>(rows: seq<Row<P, C>>, k: int): (cs: seq<C>)
    ensures |cs| <= |rows|
    ensures cs == [] <==> k !in Keys(rows)
  {
    if rows == [] then []
    else
      KeysCons(rows);
      (if rows[0].key == k then [rows[0].child] else []) + ChildrenOf(rows[1..], k)
  }

  /** What a dictionary built from `rows` is, key by key. */
  ghost predicate IsGrouping<P, C>(m: Index<P, C>, rows: seq<Row<P, C>>)
  {
    && m.Keys == Keys(rows)
    && forall k | k in m :: m[k] == Group(FirstParent(rows, k), ChildrenOf(rows, k))
  }

  // ---------------------------------------------------------------------
  // Lemmas
  // ---------------------------------------------------------------------

  lemma KeysCons<P, C>(rows: seq<Row<P, C>>)
    requires rows != []
    ensures Keys(rows) == {rows[0].key} + Keys(rows[1..])
  {
    forall i | 0 < i < |rows| ensures rows[i].key in Keys(rows[1..]) {
      assert rows[1..][i - 1] == rows[i];
    }
  }

  lemma KeysSnoc<P, C>(rows: seq<Row<P, C>>, r: Row<P, C>)
    ensures Keys(rows + [r]) == Keys(rows) + {r.key}
  {
    assert (rows + [r])[|rows|] == r;
    forall i | 0 <= i < |rows| ensures rows[i].key in Keys(rows + [r]) {
      assert (rows + [r])[i] == rows[i];
    }
  }

  lemma {:induction false} ChildrenOfSnoc<P, C>(rows: seq<Row<P, C>>, r: Row<P, C>, k: int)
    ensures ChildrenOf(rows + [r], k) == ChildrenOf(rows, k) + (if r.key == k then [r.child] else [])
    decreases |rows|
  {
    var t := rows + [r];
    if rows == [] {
      assert t == [r] && t[1..] == [];
    } else {
      assert t[0] == rows[0] && t[1..] == rows[1..] + [r];
      ChildrenOfSnoc(rows[1..], r, k);
      var h := if rows[0].key == k then [rows[0].child] else [];
      assert ChildrenOf(t, k) == h + ChildrenOf(t[1..], k);
      assert ChildrenOf(rows, k) == h + ChildrenOf(rows[1..], k);
    }
  }

  lemma {:induction false} FirstParentSnoc<P, C>(rows: seq<Row<P, C>>, r: Row<P, C>, k: int)
    requires k in Keys(rows + [r])
    ensures FirstParent(rows + [r], k) == if k in Keys(rows) then FirstParent(rows, k) else r.parent
    decreases |rows|
  {
    KeysSnoc(rows, r);
    if rows == [] {
      assert (rows + [r])[0] == r;
    } else {
      assert (rows + [r])[1..] == rows[1..] + [r];
      KeysCons(rows);
      if rows[0].key != k {
        KeysSnoc(rows[1..], r);
        FirstParentSnoc(rows[1..], r, k);
      }
    }
  }

  /** The fold from any starting dictionary, at one key k. */
  lemma {:induction false} FoldAt<P, C>(m: Index<P, C>, rows: seq<Row<P, C>>, k: int)
    ensures k in Fold(m, rows) <==> k in m || k in Keys(rows)
    ensures k in m ==> Fold(m, rows)[k] == Group(m[k].parent, m[k].children + ChildrenOf(rows, k))
    ensures k !in m && k in Keys(rows) ==>
              Fold(m, rows)[k] == Group(FirstParent(rows, k), ChildrenOf(rows, k))
    decreases |rows|
  {
    if rows != [] {
      var init, r := rows[..|rows| - 1], rows[|rows| - 1];
      assert rows == init + [r];
      var prev := Fold(m, init);
      assert Fold(m, rows) == Step(prev, r);
      FoldAt(m, init, k);
      KeysSnoc(init, r);
      ChildrenOfSnoc(init, r, k);
      if k in m {
        assert k in prev;
      } else if k in Keys(init) {
        assert k in prev;
        FirstParentSnoc(init, r, k);
      } else if k == r.key {
        assert k !in prev;
        FirstParentSnoc(init, r, k);
      }
    }
  }

  /** The fold from any starting dictionary: the key set grows by the rows'
      keys; an entry that was already there keeps its parent and gains the
      children of its rows; an entry the rows create holds the first row's
      parent and exactly the children of its rows. */
  lemma FoldSpec<P, C>(m: Index<P, C>, rows: seq<Row<P, C>>)
    ensures Fold(m, rows).Keys == m.Keys + Keys(rows)
    ensures forall k | k in m ::
              Fold(m, rows)[k] == Group(m[k].parent, m[k].children + ChildrenOf(rows, k))
    ensures forall k | k in Keys(rows) && k !in m ::
              Fold(m, rows)[k] == Group(FirstParent(rows, k), ChildrenOf(rows, k))
  {
    forall k ensures k in Fold(m, rows) <==> k in m || k in Keys(rows) {
      FoldAt(m, rows, k);
    }
    forall k | k in m
      ensures Fold(m, rows)[k] == Group(m[k].parent, m[k].children + ChildrenOf(rows, k))
    {
      FoldAt(m, rows, k);
    }
    forall k | k in Keys(rows) && k !in m
      ensures Fold(m, rows)[k] == Group(FirstParent(rows, k), ChildrenOf(rows, k))
    {
      FoldAt(m, rows, k);
    }
  }

  /** The dictionary built from an empty one: its key set is exactly the set of
      parent ids in the rows, each parent is the first-seen one, and each
      child list is the order-preserving filter of the rows on that id. */
  lemma GroupRowsSpec<P, C>(rows: seq<Row<P, C>>)
    ensures IsGrouping(GroupRows(rows), rows)
  {
    FoldSpec(map[], rows);
  }

  /** A row that repeats is appended again: the callback has no membership
      check on the child list. */
  lemma DuplicateRowsKept<P, C>(rows: seq<Row<P, C>>, r: Row<P, C>)
    ensures GroupRows(rows + [r, r])[r.key].children == ChildrenOf(rows, r.key) + [r.child, r.child]
  {
    assert rows + [r, r] == (rows + [r]) + [r];
    GroupRowsSpec(rows + [r, r]);
    KeysSnoc(rows + [r], r);
    ChildrenOfSnoc(rows + [r], r, r.key);
    ChildrenOfSnoc(rows, r, r.key);
  }

  // ---------------------------------------------------------------------
  // Counting: every row contributes exactly one child.
  // ---------------------------------------------------------------------

  /** The children of every row, in row order. */
  function AllChildren<P, C>(rows: seq<Row<P, C>>): (cs: seq<C>)
  {
    if rows == [] then [] else [rows[0].child] + AllChildren(rows[1..])
  }

  /** The child lists of the dictionary, concatenated along the keys ks. */
  function Flatten<P, C>(m: Index<P, C>, ks: seq<int>): seq<C>
  {
    if ks == [] then []
    else (if ks[0] in m then m[ks[0]].children else []) + Flatten(m, ks[1..])
  }

  ghost predicate Distinct(ks: seq<int>)
  {
    forall i, j | 0 <= i < j < |ks| :: ks[i] != ks[j]
  }

  /** The reference child lists, concatenated along the keys ks. */
  function ChildrenAlong<P, C>(rows: seq<Row<P, C>>, ks: seq<int>): seq<C>
  {
    if ks == [] then [] else ChildrenOf(rows, ks[0]) + ChildrenAlong(rows, ks[1..])
  }

  lemma {:induction false} FlattenGrouping<P, C>(rows: seq<Row<P, C>>, ks: seq<int>)
    ensures Flatten(GroupRows(rows), ks) == ChildrenAlong(rows, ks)
    decreases |ks|
  {
    if ks != [] {
      GroupRowsSpec(rows);
      FlattenGrouping(rows, ks[1..]);
    }
  }

  lemma {:induction false} ChildrenAlongCons<P, C>(rows: seq<Row<P, C>>, ks: seq<int>)
    requires rows != [] && Distinct(ks)
    ensures multiset(ChildrenAlong(rows, ks)) ==
            multiset(ChildrenAlong(rows[1..], ks)) +
            (if rows[0].key in ks then multiset{rows[0].child} else multiset{})
    decreases |ks|
  {
    if ks != [] {
      var r, k0, rest := rows[0], ks[0], ks[1..];
      var ea: multiset<C> := if r.key == k0 then multiset{r.child} else multiset{};
      var eb: multiset<C> := if r.key in rest then multiset{r.child} else multiset{};
      assert ea + eb == if r.key in ks then multiset{r.child} else multiset{} by {
        DistinctTail(ks);
        assert ks == [k0] + rest;
      }
      assert multiset(ChildrenAlong(rows, rest)) == multiset(ChildrenAlong(rows[1..], rest)) + eb by {
        DistinctTail(ks);
        ChildrenAlongCons(rows, rest);
      }
      assert multiset(ChildrenOf(rows, k0)) == multiset(ChildrenOf(rows[1..], k0)) + ea by {
        assert ChildrenOf(rows, k0) == (if r.key == k0 then [r.child] else []) + ChildrenOf(rows[1..], k0);
      }
      AddMultisets(ChildrenOf(rows, k0), ChildrenOf(rows[1..], k0),
                   ChildrenAlong(rows, rest), ChildrenAlong(rows[1..], rest), ea, eb);
    }
  }

  lemma DistinctTail(ks: seq<int>)
    requires ks != [] && Distinct(ks)
    ensures ks[0] !in ks[1..] && Distinct(ks[1..])
  {
    var rest := ks[1..];
    forall i, j | 0 <= i < j < |rest| ensures rest[i] != rest[j] {
      assert rest[i] == ks[i + 1] && rest[j] == ks[j + 1];
    }
    forall i | 0 <= i < |rest| ensures rest[i] != ks[0] {
      assert rest[i] == ks[i + 1];
    }
  }

  lemma AddMultisets<C>(a: seq<C>, a': seq<C>, b: seq<C>, b': seq<C>, ea: multiset<C>, eb: multiset<C>)
    requires multiset(a) == multiset(a') + ea && multiset(b) == multiset(b') + eb
    ensures multiset(a + b) == multiset(a' + b') + (ea + eb)
  {
  }

  lemma {:induction false} ChildrenAlongAll<P, C>(rows: seq<Row<P, C>>, ks: seq<int>)
    requires Distinct(ks) && Keys(rows) <= set k | k in ks
    ensures multiset(ChildrenAlong(rows, ks)) == multiset(AllChildren(rows))
    decreases |rows|
  {
    if rows == [] {
      ChildrenAlongEmpty<P, C>(ks);
    } else {
      KeysCons(rows);
      ChildrenAlongCons(rows, ks);
      ChildrenAlongAll(rows[1..], ks);
    }
  }

  /** No rows, no children, along any keys. */
  lemma {:induction false} ChildrenAlongEmpty<P, C>(ks: seq<int>)
    ensures ChildrenAlong<P, C>([], ks) == []
    decreases |ks|
  {
    if ks != [] { ChildrenAlongEmpty<P, C>(ks[1..]); }
  }

  /** Walking the dictionary along any list of its keys without repeats gives
      back every row's child, each exactly once as many times as it occurs:
      the total number of children appended equals the number of rows. */
  lemma GroupRowsKeepsEveryChild<P, C>(rows: seq<Row<P, C>>, ks: seq<int>)
    requires Distinct(ks) && Keys(rows) <= set k | k in ks
    ensures multiset(Flatten(GroupRows(rows), ks)) == multiset(AllChildren(rows))
    ensures |Flatten(GroupRows(rows), ks)| == |rows|
  {
    FlattenGrouping(rows, ks);
    ChildrenAlongAll(rows, ks);
    AllChildrenLength(rows);
    assert |multiset(Flatten(GroupRows(rows), ks))| == |Flatten(GroupRows(rows), ks)|;
    assert |multiset(AllChildren(rows))| == |AllChildren(rows)|;
  }

  lemma {:induction false} AllChildrenLength<P, C>(rows: seq<Row<P, C>>)
    ensures |AllChildren(rows)| == |rows|
    decreases |rows|
  {
    if rows != [] { AllChildrenLength(rows[1..]); }
  }

  lemma FoldPrefix<P, C>(m: Index<P, C>, rows: seq<Row<P, C>>, i: int)
    requires 0 <= i < |rows|
    ensures Fold(m, rows[..i + 1]) == Step(Fold(m, rows[..i]), rows[i])
  {
    assert rows[..i + 1][..i] == rows[..i];
  }

  // ---------------------------------------------------------------------
  // The dictionary object the callbacks mutate.
  // ---------------------------------------------------------------------

  /** A `Dictionary<int, Parent>` together with the child lists of the
      parent objects it holds. */
  class GroupIndex<P, C> {
    var groups: Index<P, C>

    constructor ()
      ensures groups == map[]
    {
      groups := map[];
    }

    /** A dictionary that already holds the entries m. */
    constructor Holding(m: Index<P, C>)
      ensures groups == m
    {
      groups := m;
    }

    /** One callback invocation: insert the row's parent when its id is
        missing, then append the row's child to the stored parent's list. */
    method ProcessRow(r: Row<P, C>)
      modifies this
      ensures groups == Step(old(groups), r)
    {
      if r.key !in groups {
        groups := groups[r.key := Group(r.parent, [])];
      }
      var g := groups[r.key];
      groups := groups[r.key := g.(children := g.children + [r.child])];
    }

    /** The query's run of the callback over its result rows, in order. */
    method ProcessRows(rows: seq<Row<P, C>>)
      modifies this
      ensures groups == Fold(old(groups), rows)
    {
      var i := 0;
      while i < |rows|
        invariant 0 <= i <= |rows|
        invariant groups == Fold(old(groups), rows[..i])
      {
        FoldPrefix(old(groups), rows, i);
        ProcessRow(rows[i]);
        i := i + 1;
      }
      assert rows[..|rows|] == rows;
    }

    /** Overwrite a field of a stored parent object: the entry's parent
        becomes p, its child list and every other entry stay as they were. */
    method ReplaceParent(key: int, p: P)
      requires key in groups
      modifies this
      ensures groups == old(groups)[key := Group(p, old(groups)[key].children)]
    {
      groups := groups[key := groups[key].(parent := p)];
    }
  }
}
