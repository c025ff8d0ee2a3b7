/** The rows of the file tree as objects that are changed in place. */
module FileTreeItems {
  import opened SelectionTree

  function WithRowFixed(t: Tree, i: nat): Tree
    requires i < |t.rows|
  {
    var row := Fixed(t.rows[i]);
    Tree(t.index, t.size + row.size, Join(t.included, row.included), t.rows[i := row])
  }

  /** The tree when its first rows have been fixed and counted. */
  function PartlyFixed(t: Tree, count: nat): (r: Tree)
    requires count <= |t.rows|
    ensures |r.rows| == |t.rows|
  {
    if count == 0 then t.(size := 0, included := Undefined) else WithRowFixed(PartlyFixed(t, count - 1), count - 1)
  }

  lemma {:induction false} PartlyFixedIs(t: Tree, count: nat)
    requires 0 < |t.rows| && count <= |t.rows|
    ensures var rows := Fixed(t).rows;
            |rows| == |t.rows| && PartlyFixed(t, count) ==
              Tree(t.index, Sum(Sizes(rows[..count])), Joined(Checks(rows[..count])), rows[..count] + t.rows[count..])
  {
    if count > 0 {
      PartlyFixedIs(t, count - 1);
      var rows := Fixed(t).rows;
      OneMoreRow(rows, count - 1);
      ReplaceNext(rows, t.rows, count - 1);
    }
  }

  lemma ReplaceNext(rows: seq<Tree>, was: seq<Tree>, i: nat)
    requires i < |rows| == |was|
    ensures (rows[..i] + was[i..])[i] == was[i]
    ensures (rows[..i] + was[i..])[i := rows[i]] == rows[..i + 1] + was[i + 1..]
  {
  }

  lemma OneMoreRow(rows: seq<Tree>, i: nat)
    requires i < |rows|
    ensures Sum(Sizes(rows[..i + 1])) == Sum(Sizes(rows[..i])) + rows[i].size
    ensures Joined(Checks(rows[..i + 1])) == Join(Joined(Checks(rows[..i])), rows[i].included)
  {
    assert Sizes(rows[..i + 1])[..i] == Sizes(rows[..i]);
    assert Checks(rows[..i + 1])[..i] == Checks(rows[..i]);
  }

  /** The loop has fixed the directory when it has fixed all rows. */
  lemma PartlyFixedEnds(t: Tree)
    requires |t.rows| > 0
    ensures PartlyFixed(t, |t.rows|) == Fixed(t)
  {
    PartlyFixedIs(t, |t.rows|);
    assert Fixed(t).rows[..|t.rows|] + t.rows[|t.rows|..] == Fixed(t).rows;
    assert Fixed(t).rows[..|t.rows|] == Fixed(t).rows;
  }

  /** The tree when its first rows have been toggled. */
  function PartlyToggled(t: Tree, checked: bool, count: nat): (r: Tree)
    requires count <= |t.rows|
    ensures |r.rows| == |t.rows|
  {
    if count == 0 then t
    else
      var before := PartlyToggled(t, checked, count - 1);
      before.(rows := before.rows[count - 1 := AllToggled(before.rows[count - 1], checked)])
  }

  lemma {:induction false} PartlyToggledIs(t: Tree, checked: bool, count: nat)
    requires count <= |t.rows|
    ensures PartlyToggled(t, checked, count) == t.(rows := AllToggled(t, checked).rows[..count] + t.rows[count..])
  {
    if count > 0 {
      PartlyToggledIs(t, checked, count - 1);
    }
  }

  /** The way down to the row that was clicked, and what its box becomes. */
  datatype Click = Click(path: seq<nat>, checked: bool)

  twostate predicate Untouched(items: set<FileTreeItem>)
    reads items
  {
    forall item :: item in items ==> unchanged(item)
  }

  class FileTreeItem {
    const index: int
    var size: nat
    var included: Check
    var subRows: seq<FileTreeItem>
    ghost var Repr: set<FileTreeItem>

    constructor (index: int, size: nat, included: Check)
      ensures Valid() && fresh(Repr) && Value() == Tree(index, size, included, [])
    {
      this.index, this.size, this.included := index, size, included;
      subRows := [];
      Repr := {this};
    }

    /** No row is reached in two ways. */
    ghost predicate Valid()
      reads this, Repr
      decreases Repr
    {
      && this in Repr
      && (forall i :: 0 <= i < |subRows| ==>
            && subRows[i] in Repr && subRows[i].Repr <= Repr && this !in subRows[i].Repr
            && subRows[i].Valid())
      && (forall i, j :: 0 <= i < j < |subRows| ==> subRows[i].Repr !! subRows[j].Repr)
    }

    ghost function Value(): Tree
      requires Valid()
      reads this, Repr
      decreases Repr
    {
      Tree(index, size, included,
        seq(|subRows|, i requires 0 <= i < |subRows| reads this, Repr requires Valid() => subRows[i].Value()))
    }

    /** A change of this row's own fields is no change of the rows below. */
    twostate lemma MarksChanged()
      requires old(Valid()) && subRows == old(subRows) && Repr == old(Repr)
      requires unchanged(old(Repr) - {this})
      ensures Valid() && Value() == old(Value()).(size := size, included := included)
    {
      assert forall i :: 0 <= i < |subRows| ==> subRows[i].Valid() && subRows[i].Value() == old(subRows[i].Value());
    }

    method SetMarks(size: nat, included: Check)
      requires Valid()
      modifies this`size, this`included
      ensures Valid() && Value() == old(Value()).(size := size, included := included)
    {
      this.size, this.included := size, included;
      MarksChanged();
    }

    /** A change below one row leaves the others as they were. */
    twostate lemma RowChanged(i: nat)
      requires old(Valid()) && i < |old(subRows)| && subRows == old(subRows)
      requires Untouched(old(Repr) - old(subRows[i].Repr))
      requires subRows[i].Valid() && subRows[i].Repr == old(subRows[i].Repr)
      ensures Valid() && Repr == old(Repr) && subRows == old(subRows)
      ensures Value() == old(Value()).(rows := old(Value()).rows[i := subRows[i].Value()])
    {
      assert this in old(Repr) - old(subRows[i].Repr);
      forall j | 0 <= j < |subRows| && j != i
        ensures subRows[j].Valid() && subRows[j].Repr == old(subRows[j].Repr)
        ensures subRows[j].Value() == old(subRows[j].Value())
      {
        assert old(subRows[j].Repr) <= old(Repr) - old(subRows[i].Repr);
      }
    }

    /** One turn of the loop of fixTreeProps: a row is fixed and counted in. */
    method FixRow(i: nat)
      requires Valid() && i < |subRows|
      modifies Repr
      ensures Valid() && Repr == old(Repr) && subRows == old(subRows)
      ensures Value() == WithRowFixed(old(Value()), i)
      decreases Repr, 0
    {
      var rowSize, rowIncluded := subRows[i].FixTreeProps();
      RowChanged(i);
      SetMarks(size + rowSize, Join(included, rowIncluded));
    }

    /** fixTreeProps, without its progress. */
    method FixTreeProps() returns (itsSize: nat, itsIncluded: Check)
      requires Valid()
      modifies Repr
      ensures Valid() && Repr == old(Repr) && subRows == old(subRows)
      ensures Value() == Fixed(old(Value()))
      ensures itsSize == size && itsIncluded == included
      decreases Repr, 1
    {
      if |subRows| > 0 {
        ghost var was := Value();
        SetMarks(0, Undefined);
        for i := 0 to |subRows|
          invariant Valid() && Repr == old(Repr) && subRows == old(subRows)
          invariant Value() == PartlyFixed(was, i)
        {
          FixRow(i);
        }
        PartlyFixedEnds(was);
      }
      return size, included;
    }

    /** getSelectedFilesFromTree. */
    method GetSelectedFiles(checked: bool) returns (selected: seq<int>)
      requires Valid()
      ensures selected == Picked(Leaves(Value()), checked)
      decreases Repr
    {
      selected := [];
      if |subRows| > 0 {
        ghost var t := Value();
        for i := 0 to |subRows|
          invariant selected == Picked(Flatten(LeavesOf(t)[..i]), checked)
        {
          var below := subRows[i].GetSelectedFiles(checked);
          PickedOfTwo(Flatten(LeavesOf(t)[..i]), LeavesOf(t)[i], checked);
          assert LeavesOf(t)[..i + 1][..i] == LeavesOf(t)[..i];
          selected := selected + below;
        }
        assert LeavesOf(t)[..|subRows|] == LeavesOf(t);
      } else if included == Is(checked) {
        selected := [index];
      }
    }

    /** toggleTree. */
    method ToggleTree(checked: bool)
      requires Valid()
      modifies Repr
      ensures Valid() && Repr == old(Repr) && subRows == old(subRows)
      ensures Value() == AllToggled(old(Value()), checked)
      decreases Repr
    {
      ghost var t := Value();
      for i := 0 to |subRows|
        invariant Valid() && Repr == old(Repr) && subRows == old(subRows)
        invariant Value() == PartlyToggled(t, checked, i)
      {
        label Before:
        subRows[i].ToggleTree(checked);
        RowChanged@Before(i);
      }
      PartlyToggledIs(t, checked, |subRows|);
      assert t.rows[|subRows|..] == [];
      SetMarks(size, Is(checked));
    }

    /** The row that a path leads to. */
    ghost function RowAt(path: seq<nat>): (row: FileTreeItem)
      requires Valid() && HasPath(Value(), path)
      reads this, Repr
      ensures row in Repr && row.Repr <= Repr && row.Valid() && row.Value() == At(Value(), path)
      ensures |path| > 0 ==> this !in row.Repr
      decreases path
    {
      if |path| == 0 then this else subRows[path[0]].RowAt(path[1..])
    }

    /** Toggling the row that a click reaches toggles the tree there. */
    twostate lemma BelowToggled(click: Click)
      requires old(Valid()) && Repr == old(Repr) && HasPath(old(Value()), click.path)
      requires Untouched(old(Repr) - old(RowAt(click.path).Repr))
      requires var row := old(RowAt(click.path));
        row.Valid() && row.Repr == old(row.Repr) && row.Value() == AllToggled(old(row.Value()), click.checked)
      ensures Valid() && Repr == old(Repr)
      ensures Value() == ToggledAt(old(Value()), click.path, click.checked)
      decreases |click.path|
    {
      var Click(path, checked) := click;
      if |path| > 0 {
        var (others, below) := (old(Repr) - old(RowAt(path).Repr), old(subRows[path[0]]));
        assert this in others && (|path| > 1 ==> below in others);
        assert old(below.Repr) - old(RowAt(path).Repr) <= others && old(Repr) - old(below.Repr) <= others;
        below.BelowToggled(Click(path[1..], checked));
        RowChanged(path[0]);
      }
    }

    /** toggleTree on the row that a click reaches, as the root sees it. */
    method ToggleRow(row: FileTreeItem, ghost path: seq<nat>, checked: bool)
      requires Valid() && HasPath(Value(), path) && RowAt(path) == row
      modifies Repr
      ensures Valid() && Repr == old(Repr)
      ensures Value() == ToggledAt(old(Value()), path, checked)
    {
      row.ToggleTree(checked);
      BelowToggled(Click(path, checked));
    }

    /** OnSelectedFilesChange on the root, for the row that was clicked. */
    method OnSelectedFilesChange(row: FileTreeItem, ghost path: seq<nat>) returns (selected: seq<int>)
      requires Valid() && HasPath(Value(), path) && RowAt(path) == row
      modifies Repr
      ensures Valid() && Repr == old(Repr)
      ensures Value() == Fixed(ToggledAt(old(Value()), path, Clicked(old(row.included))))
      ensures selected == Picked(Leaves(Value()), true)
    {
      ToggleRow(row, path, Clicked(row.included));
      var size, mark := FixTreeProps();
      selected := GetSelectedFiles(true);
    }
  }
}
