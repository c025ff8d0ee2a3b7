/** The tree of check boxes in which the files of a torrent are selected. */
module SelectionTree {

  // ---------------------------------------------------------------- the tree as a value

  /** `included`: not set, a box that is checked or not, or the mark of a mixed directory. */
  datatype Check = Undefined | Is(checked: bool) | Indeterminate

  /** A row: a file when nothing lies below it, else a directory. */
  datatype Tree = Tree(index: int, size: nat, included: Check, rows: seq<Tree>)

  function Flatten<T>(parts: seq<seq<T>>): seq<T> {
    if |parts| == 0 then [] else Flatten(parts[..|parts| - 1]) + parts[|parts| - 1]
  }

  function Sum(numbers: seq<nat>): nat {
    if |numbers| == 0 then 0 else Sum(numbers[..|numbers| - 1]) + numbers[|numbers| - 1]
  }

  /** The files of a tree from top to bottom. */
  function Leaves(t: Tree): seq<Tree>
    decreases t, 1
  {
    if |t.rows| == 0 then [t] else Flatten(LeavesOf(t))
  }

  /** The files below each row. */
  function LeavesOf(t: Tree): seq<seq<Tree>>
    decreases t, 0
  {
    seq(|t.rows|, i requires 0 <= i < |t.rows| => Leaves(t.rows[i]))
  }

  predicate AllBoolean(leaves: seq<Tree>) {
    forall i :: 0 <= i < |leaves| ==> leaves[i].included.Is?
  }

  predicate AllAre(leaves: seq<Tree>, checked: bool) {
    forall i :: 0 <= i < |leaves| ==> leaves[i].included == Is(checked)
  }

  /** What a directory over these files is to show. */
  function Verdict(leaves: seq<Tree>): Check {
    if AllAre(leaves, true) then Is(true) else if AllAre(leaves, false) then Is(false) else Indeterminate
  }

  function TotalSize(leaves: seq<Tree>): nat {
    if |leaves| == 0 then 0 else TotalSize(leaves[..|leaves| - 1]) + leaves[|leaves| - 1].size
  }

  /** Every directory shows all, none or some of its files, and is as large as they are together. */
  predicate Consistent(t: Tree) {
    |t.rows| > 0 ==>
      && t.included == Verdict(Leaves(t))
      && t.size == TotalSize(Leaves(t))
      && forall i :: 0 <= i < |t.rows| ==> Consistent(t.rows[i])
  }

  // ---------------------------------------------------------------- fixTreeProps on values

  function Join(shown: Check, next: Check): Check {
    if shown.Undefined? then next else if shown == next then next else Indeterminate
  }

  function Joined(checks: seq<Check>): Check {
    if |checks| == 0 then Undefined else Join(Joined(checks[..|checks| - 1]), checks[|checks| - 1])
  }

  function Sizes(rows: seq<Tree>): seq<nat> {
    seq(|rows|, i requires 0 <= i < |rows| => rows[i].size)
  }

  function Checks(rows: seq<Tree>): seq<Check> {
    seq(|rows|, i requires 0 <= i < |rows| => rows[i].included)
  }

  /** A directory over rows that are fixed already. */
  function Directory(index: int, rows: seq<Tree>): Tree {
    Tree(index, Sum(Sizes(rows)), Joined(Checks(rows)), rows)
  }

  function Fixed(t: Tree): Tree {
    if |t.rows| == 0 then t
    else Directory(t.index, seq(|t.rows|, i requires 0 <= i < |t.rows| => Fixed(t.rows[i])))
  }

  // ---------------------------------------------------------------- all, none or some

  lemma {:induction false} LeavesExist(t: Tree)
    ensures |Leaves(t)| > 0
  {
    if |t.rows| > 0 {
      var parts := LeavesOf(t);
      LeavesExist(t.rows[|t.rows| - 1]);
      }
  }

  lemma VerdictOfTwo(a: seq<Tree>, b: seq<Tree>)
    requires |a| > 0 && |b| > 0 && AllBoolean(a) && AllBoolean(b)
    ensures Verdict(a + b) == Join(Verdict(a), Verdict(b))
  {
    forall c: bool
      ensures AllAre(a + b, c) <==> AllAre(a, c) && AllAre(b, c)
    {
      if AllAre(a + b, c) {
        assert forall i :: 0 <= i < |a| ==> a[i] == (a + b)[i];
        assert forall i :: 0 <= i < |b| ==> b[i] == (a + b)[|a| + i];
      }
    }
    assert a[0].included.Is? && b[0].included.Is?;
  }

  lemma {:induction false} TotalOfTwo(a: seq<Tree>, b: seq<Tree>)
    ensures TotalSize(a + b) == TotalSize(a) + TotalSize(b)
  {
    if |b| == 0 {
      assert a + b == a;
    } else {
      TotalOfTwo(a, b[..|b| - 1]);
      assert (a + b)[..|a + b| - 1] == a + b[..|b| - 1];
    }
  }

  /** The rows' own verdicts and sizes add up to those over all their files. */
  lemma {:induction false} RowsAddUp(parts: seq<seq<Tree>>, checks: seq<Check>, sizes: seq<nat>)
    requires 0 < |parts| == |checks| == |sizes|
    requires forall i :: 0 <= i < |parts| ==> |parts[i]| > 0 && AllBoolean(parts[i])
    requires forall i :: 0 <= i < |parts| ==> checks[i] == Verdict(parts[i]) && sizes[i] == TotalSize(parts[i])
    ensures |Flatten(parts)| > 0 && AllBoolean(Flatten(parts))
    ensures Joined(checks) == Verdict(Flatten(parts)) && Sum(sizes) == TotalSize(Flatten(parts))
  {
    var n := |parts| - 1;
    if n == 0 {
      assert Flatten(parts) == [] + parts[0] == parts[0];
      assert Joined(checks[..0]) == Undefined && Sum(sizes[..0]) == 0;
    } else {
      RowsAddUp(parts[..n], checks[..n], sizes[..n]);
      VerdictOfTwo(Flatten(parts[..n]), parts[n]);
      TotalOfTwo(Flatten(parts[..n]), parts[n]);
    }
  }

  /** Fixing leaves the files as they are. */
  lemma {:induction false} FixingKeepsLeaves(t: Tree)
    ensures Leaves(Fixed(t)) == Leaves(t)
  {
    if |t.rows| > 0 {
      forall i | 0 <= i < |t.rows|
        ensures Leaves(Fixed(t).rows[i]) == Leaves(t.rows[i])
      {
        FixingKeepsLeaves(t.rows[i]);
      }
      assert LeavesOf(Fixed(t)) == LeavesOf(t);
    }
  }

  lemma {:induction false} RowsAreBoolean(t: Tree, i: nat)
    requires i < |t.rows| && AllBoolean(Leaves(t))
    ensures AllBoolean(Leaves(t.rows[i]))
  {
    PartOfFlatten(LeavesOf(t), i);
  }

  lemma {:induction false} PartOfFlatten(parts: seq<seq<Tree>>, i: nat)
    requires i < |parts| && AllBoolean(Flatten(parts))
    ensures AllBoolean(parts[i])
  {
    var n := |parts| - 1;
    var (a, b) := (Flatten(parts[..n]), parts[n]);
    assert forall k :: 0 <= k < |a| ==> a[k] == Flatten(parts)[k];
    assert forall k :: 0 <= k < |b| ==> b[k] == Flatten(parts)[|a| + k];
    if i < n {
      PartOfFlatten(parts[..n], i);
    }
  }

  /** A directory with rows whose own marks and sizes are right: what Directory makes of it is right too. */
  lemma DirectoryAddsUp(t: Tree)
    requires |t.rows| > 0 && AllBoolean(Leaves(t))
    requires forall i :: 0 <= i < |t.rows| ==>
               t.rows[i].included == Verdict(Leaves(t.rows[i])) && t.rows[i].size == TotalSize(Leaves(t.rows[i]))
    ensures Joined(Checks(t.rows)) == Verdict(Leaves(t)) && Sum(Sizes(t.rows)) == TotalSize(Leaves(t))
  {
    var parts := LeavesOf(t);
    forall i | 0 <= i < |parts|
      ensures |parts[i]| > 0 && AllBoolean(parts[i])
    {
      LeavesExist(t.rows[i]);
      RowsAreBoolean(t, i);
    }
    RowsAddUp(parts, Checks(t.rows), Sizes(t.rows));
  }

  /** A consistent row shows the verdict on its files even when it is a file itself. */
  lemma ConsistentShows(t: Tree)
    requires Consistent(t) && AllBoolean(Leaves(t))
    ensures t.included == Verdict(Leaves(t)) && t.size == TotalSize(Leaves(t))
  {
    if |t.rows| == 0 {
      assert Leaves(t)[0] == t && Leaves(t)[..0] == [];
    }
  }

  /** After fixTreeProps every directory shows all, none or some as its files are, whatever it showed before. */
  lemma {:induction false} FixedIsConsistent(t: Tree)
    requires AllBoolean(Leaves(t))
    ensures Consistent(Fixed(t))
  {
    if |t.rows| > 0 {
      var fixed := Fixed(t);
      FixingKeepsLeaves(t);
      forall i | 0 <= i < |t.rows|
        ensures Consistent(fixed.rows[i])
        ensures fixed.rows[i].included == Verdict(Leaves(fixed.rows[i]))
        ensures fixed.rows[i].size == TotalSize(Leaves(fixed.rows[i]))
      {
        RowsAreBoolean(t, i);
        FixedIsConsistent(t.rows[i]);
        FixingKeepsLeaves(t.rows[i]);
        ConsistentShows(fixed.rows[i]);
      }
      DirectoryAddsUp(fixed);
    }
  }

  /** fixTreeProps has nothing to change exactly when the tree is consistent. */
  lemma {:induction false} FixedPointIff(t: Tree)
    requires AllBoolean(Leaves(t))
    ensures Fixed(t) == t <==> Consistent(t)
  {
    FixedIsConsistent(t);
    if |t.rows| > 0 && Consistent(t) {
      forall i | 0 <= i < |t.rows|
        ensures Fixed(t).rows[i] == t.rows[i]
        ensures t.rows[i].included == Verdict(Leaves(t.rows[i])) && t.rows[i].size == TotalSize(Leaves(t.rows[i]))
      {
        RowsAreBoolean(t, i);
        FixedPointIff(t.rows[i]);
        ConsistentShows(t.rows[i]);
      }
      DirectoryAddsUp(t);
      assert Fixed(t).rows == t.rows;
    }
  }

  /** A second run changes nothing, even on files whose box is not set or mixed. */
  lemma {:induction false} FixingIsIdempotent(t: Tree)
    ensures Fixed(Fixed(t)) == Fixed(t)
  {
    if |t.rows| > 0 {
      forall i | 0 <= i < |t.rows|
        ensures Fixed(Fixed(t)).rows[i] == Fixed(t).rows[i]
      {
        FixingIsIdempotent(t.rows[i]);
      }
      assert Fixed(Fixed(t)).rows == Fixed(t).rows;
    }
  }

  // ---------------------------------------------------------------- the selection

  function Indexes(leaves: seq<Tree>): seq<int> {
    seq(|leaves|, i requires 0 <= i < |leaves| => leaves[i].index)
  }

  /** The indexes of the files whose box is as asked for, in order. */
  function Picked(leaves: seq<Tree>, checked: bool): seq<int> {
    if |leaves| == 0 then []
    else
      var last := leaves[|leaves| - 1];
      Picked(leaves[..|leaves| - 1], checked) + if last.included == Is(checked) then [last.index] else []
  }

  lemma {:induction false} PickedOfTwo(a: seq<Tree>, b: seq<Tree>, checked: bool)
    ensures Picked(a + b, checked) == Picked(a, checked) + Picked(b, checked)
  {
    if |b| == 0 {
      assert a + b == a;
    } else {
      PickedOfTwo(a, b[..|b| - 1], checked);
      assert (a + b)[..|a + b| - 1] == a + b[..|b| - 1];
    }
  }

  lemma {:induction false} PickedIsAllIff(leaves: seq<Tree>)
    requires AllBoolean(leaves)
    ensures |Picked(leaves, true)| <= |leaves|
    ensures |Picked(leaves, true)| == |leaves| <==> AllAre(leaves, true)
    ensures AllAre(leaves, true) ==> Picked(leaves, true) == Indexes(leaves)
    ensures Picked(leaves, true) == [] <==> AllAre(leaves, false)
  {
    if |leaves| > 0 {
      var n := |leaves| - 1;
      PickedIsAllIff(leaves[..n]);
      forall c: bool
        ensures AllAre(leaves, c) <==> AllAre(leaves[..n], c) && leaves[n].included == Is(c)
      {
        assert leaves == leaves[..n] + [leaves[n]];
      }
      assert Indexes(leaves) == Indexes(leaves[..n]) + [leaves[n].index];
    }
  }

  /** The root's box tells whether the selected files are all files, or none. */
  lemma RootTellsSelection(t: Tree)
    requires AllBoolean(Leaves(t))
    ensures var (root, picked) := (Fixed(t).included, Picked(Leaves(t), true));
            && (root == Is(true) <==> picked == Indexes(Leaves(t)))
            && (root == Is(false) <==> picked == [])
  {
    FixedIsConsistent(t);
    FixingKeepsLeaves(t);
    ConsistentShows(Fixed(t));
    PickedIsAllIff(Leaves(t));
    LeavesExist(t);
    assert Leaves(t)[0].included.Is?;
  }

  // ---------------------------------------------------------------- a click

  function AllToggled(t: Tree, checked: bool): Tree {
    Tree(t.index, t.size, Is(checked), seq(|t.rows|, i requires 0 <= i < |t.rows| => AllToggled(t.rows[i], checked)))
  }

  /** The path leads down from the root, row by row. */
  predicate HasPath(t: Tree, path: seq<nat>) {
    |path| > 0 ==> path[0] < |t.rows| && HasPath(t.rows[path[0]], path[1..])
  }

  function At(t: Tree, path: seq<nat>): Tree
    requires HasPath(t, path)
  {
    if |path| == 0 then t else At(t.rows[path[0]], path[1..])
  }

  function ToggledAt(t: Tree, path: seq<nat>, checked: bool): Tree
    requires HasPath(t, path)
  {
    if |path| == 0 then AllToggled(t, checked)
    else t.(rows := t.rows[path[0] := ToggledAt(t.rows[path[0]], path[1..], checked)])
  }

  /** What a click makes of a box: a mixed one is cleared. */
  function Clicked(c: Check): bool {
    c == Undefined || c == Is(false)
  }

  function SetAll(leaves: seq<Tree>, checked: bool): seq<Tree> {
    seq(|leaves|, i requires 0 <= i < |leaves| => leaves[i].(included := Is(checked)))
  }

  function Before(t: Tree, path: seq<nat>): seq<Tree>
    requires HasPath(t, path)
  {
    if |path| == 0 then []
    else Flatten(LeavesOf(t)[..path[0]]) + Before(t.rows[path[0]], path[1..])
  }

  function After(t: Tree, path: seq<nat>): seq<Tree>
    requires HasPath(t, path)
  {
    if |path| == 0 then []
    else After(t.rows[path[0]], path[1..]) + Flatten(LeavesOf(t)[path[0] + 1..])
  }

  lemma {:induction false} FlattenSplit(parts: seq<seq<Tree>>, k: nat)
    requires k < |parts|
    ensures Flatten(parts) == Flatten(parts[..k]) + parts[k] + Flatten(parts[k + 1..])
  {
    var n := |parts| - 1;
    if k < n {
      FlattenSplit(parts[..n], k);
      assert parts[..n][..k] == parts[..k];
      assert parts[..n][k + 1..] == parts[k + 1..][..n - k - 1];
    }
  }

  lemma {:induction false} SetAllOfFlatten(parts: seq<seq<Tree>>, toggled: seq<seq<Tree>>, checked: bool)
    requires |parts| == |toggled|
    requires forall i :: 0 <= i < |parts| ==> toggled[i] == SetAll(parts[i], checked)
    ensures Flatten(toggled) == SetAll(Flatten(parts), checked)
  {
    if |parts| > 0 {
      var n := |parts| - 1;
      SetAllOfFlatten(parts[..n], toggled[..n], checked);
    }
  }

  /** toggleTree sets the files below a row and no more of them than that. */
  lemma {:induction false} ToggledLeaves(t: Tree, checked: bool)
    ensures Leaves(AllToggled(t, checked)) == SetAll(Leaves(t), checked)
  {
    if |t.rows| > 0 {
      forall i | 0 <= i < |t.rows|
        ensures LeavesOf(AllToggled(t, checked))[i] == SetAll(LeavesOf(t)[i], checked)
      {
        ToggledLeaves(t.rows[i], checked);
      }
      SetAllOfFlatten(LeavesOf(t), LeavesOf(AllToggled(t, checked)), checked);
    }
  }

  lemma Regroup<T>(a: seq<T>, b: seq<T>, c: seq<T>, d: seq<T>, e: seq<T>)
    ensures a + (b + c + d) + e == (a + b) + c + (d + e)
  {
  }

  lemma {:induction false} LeavesAround(t: Tree, path: seq<nat>)
    requires HasPath(t, path)
    ensures Leaves(t) == Before(t, path) + Leaves(At(t, path)) + After(t, path)
  {
    if |path| > 0 {
      var (k, rest) := (path[0], path[1..]);
      var row := t.rows[k];
      LeavesAround(row, rest);
      FlattenSplit(LeavesOf(t), k);
      Regroup(Flatten(LeavesOf(t)[..k]), Before(row, rest), Leaves(At(row, rest)), After(row, rest),
        Flatten(LeavesOf(t)[k + 1..]));
    }
  }

  lemma {:induction false} RestStays(t: Tree, path: seq<nat>, checked: bool)
    requires HasPath(t, path)
    ensures var toggled := ToggledAt(t, path, checked);
            && HasPath(toggled, path) && At(toggled, path) == AllToggled(At(t, path), checked)
            && Before(toggled, path) == Before(t, path) && After(toggled, path) == After(t, path)
  {
    if |path| > 0 {
      var (k, toggled) := (path[0], ToggledAt(t, path, checked));
      RestStays(t.rows[k], path[1..], checked);
      assert LeavesOf(toggled)[..k] == LeavesOf(t)[..k];
      assert LeavesOf(toggled)[k + 1..] == LeavesOf(t)[k + 1..];
    }
  }

  lemma {:induction false} PathStays(t: Tree, path: seq<nat>, checked: bool)
    requires HasPath(t, path)
    ensures HasPath(Fixed(ToggledAt(t, path, checked)), path)
    ensures At(Fixed(ToggledAt(t, path, checked)), path) == Fixed(AllToggled(At(t, path), checked))
  {
    if |path| > 0 {
      PathStays(t.rows[path[0]], path[1..], checked);
    }
  }

  lemma SetAllIsBoolean(leaves: seq<Tree>, checked: bool)
    ensures AllBoolean(SetAll(leaves, checked)) && AllAre(SetAll(leaves, checked), checked)
    ensures Indexes(SetAll(leaves, checked)) == Indexes(leaves)
    ensures Picked(SetAll(leaves, checked), true) == if checked then Indexes(leaves) else []
  {
    PickedIsAllIff(SetAll(leaves, checked));
  }

  /**
   * A click on a row selects all files below it, or none of them if it was checked or mixed, and leaves the
   * selection of all other files alone; the row then shows what was clicked, and every directory is right again.
   */
  lemma ClickSelects(t: Tree, path: seq<nat>)
    requires AllBoolean(Leaves(t)) && HasPath(t, path)
    ensures Clicked(At(t, path).included) <==> At(t, path).included in {Undefined, Is(false)}
    ensures var checked := Clicked(At(t, path).included);
            var after := Fixed(ToggledAt(t, path, checked));
            && Picked(Leaves(after), true) ==
               Picked(Before(t, path), true) + (if checked then Indexes(Leaves(At(t, path))) else [])
               + Picked(After(t, path), true)
            && HasPath(after, path) && At(after, path).included == Is(checked)
            && Consistent(after) && Indexes(Leaves(after)) == Indexes(Leaves(t))
  {
    var (checked, below) := (Clicked(At(t, path).included), Leaves(At(t, path)));
    var (before, behind) := (Before(t, path), After(t, path));
    var toggled := ToggledAt(t, path, checked);
    LeavesAround(t, path);
    RestStays(t, path, checked);
    LeavesAround(toggled, path);
    ToggledLeaves(At(t, path), checked);
    SetAllIsBoolean(below, checked);
    PickedOfTwo(before, SetAll(below, checked), true);
    PickedOfTwo(before + SetAll(below, checked), behind, true);
    OthersStayBoolean(before, below, behind, checked);
    FixingKeepsLeaves(toggled);
    FixedIsConsistent(toggled);
    PathStays(t, path, checked);
    RowShowsClick(At(t, path), checked);
  }

  lemma OthersStayBoolean(before: seq<Tree>, below: seq<Tree>, behind: seq<Tree>, checked: bool)
    requires AllBoolean(before + below + behind)
    ensures AllBoolean(before + SetAll(below, checked) + behind)
    ensures Indexes(before + SetAll(below, checked) + behind) == Indexes(before + below + behind)
  {
    var (was, becomes) := (before + below + behind, before + SetAll(below, checked) + behind);
    forall i | 0 <= i < |becomes|
      ensures becomes[i].included.Is? && becomes[i].index == was[i].index
    {
      assert was[i].included.Is?;
    }
  }

  lemma RowShowsClick(t: Tree, checked: bool)
    ensures Fixed(AllToggled(t, checked)).included == Is(checked)
  {
    var toggled := AllToggled(t, checked);
    ToggledLeaves(t, checked);
    SetAllIsBoolean(Leaves(t), checked);
    FixedIsConsistent(toggled);
    FixingKeepsLeaves(toggled);
    ConsistentShows(Fixed(toggled));
    LeavesExist(toggled);
    assert Leaves(toggled)[0].included == Is(checked);
  }
}
