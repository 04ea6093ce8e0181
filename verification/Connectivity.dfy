/** The breadth-first connectivity check of a voxel domain, proved against paths of occupied cells. */
module Connectivity {
  import opened VoxelGrid

  predicate Occupied(occ: seq<bool>, c: int) {
    0 <= c < |occ| && occ[c]
  }

  function OccupiedCells(occ: seq<bool>): set<int> {
    set c | 0 <= c < |occ| && occ[c]
  }

  predicate Adjacent(sh: Shape, a: int, b: int)
    requires sh.n1 > 0 && sh.n2 > 0
  {
    exists slot :: 0 <= slot < 6 && NeighborCell(a, slot, sh) == b
  }

  function Distance(a: int, b: int): nat {
    if a < b then b - a else a - b
  }

  /** Cells are neighbours exactly if they differ by one in exactly one coordinate. */
  lemma AdjacentExactlyWhen(sh: Shape, a: (int, int, int), b: (int, int, int))
    requires sh.Contains(a.0, a.1, a.2) && sh.Contains(b.0, b.1, b.2)
    ensures Adjacent(sh, VoxelIndex(a.0, a.1, a.2, sh), VoxelIndex(b.0, b.1, b.2, sh)) <==>
      Distance(a.0, b.0) + Distance(a.1, b.1) + Distance(a.2, b.2) == 1
  {
    var c, d := VoxelIndex(a.0, a.1, a.2, sh), VoxelIndex(b.0, b.1, b.2, sh);
    Decode(a.0, a.1, a.2, sh);
    Decode(b.0, b.1, b.2, sh);
    forall slot | 0 <= slot < 6
      ensures NeighborCell(c, slot, sh) == d <==>
        var o := Offset(slot); b == (a.0 + o.0, a.1 + o.1, a.2 + o.2)
    {
      NeighborMeets(sh, a, b, slot);
    }
    hide VoxelIndex, NeighborCell, Shape.Size;
    if Distance(a.0, b.0) + Distance(a.1, b.1) + Distance(a.2, b.2) == 1 {
      var slot := if b.0 < a.0 then 0 else if b.0 > a.0 then 1 else if b.1 < a.1 then 2 else if b.1 > a.1 then 3
                  else if b.2 < a.2 then 4 else 5;
      assert NeighborCell(c, slot, sh) == d;
    }
  }

  lemma NeighborMeets(sh: Shape, a: (int, int, int), b: (int, int, int), slot: int)
    requires sh.Contains(a.0, a.1, a.2) && sh.Contains(b.0, b.1, b.2)
    ensures NeighborCell(VoxelIndex(a.0, a.1, a.2, sh), slot, sh) == VoxelIndex(b.0, b.1, b.2, sh) <==>
      var o := Offset(slot); b == (a.0 + o.0, a.1 + o.1, a.2 + o.2)
  {
    var o := Offset(slot);
    Decode(a.0, a.1, a.2, sh);
    Decode(b.0, b.1, b.2, sh);
    if sh.Contains(a.0 + o.0, a.1 + o.1, a.2 + o.2) {
      Decode(a.0 + o.0, a.1 + o.1, a.2 + o.2, sh);
    }
    hide VoxelIndex, AxialOf, UOf, VOf, Shape.Size;
  }

  ghost predicate IsPath(occ: seq<bool>, sh: Shape, p: seq<int>)
    requires sh.n1 > 0 && sh.n2 > 0
  {
    && |p| > 0
    && (forall i :: 0 <= i < |p| ==> Occupied(occ, p[i]))
    && (forall i :: 0 <= i < |p| - 1 ==> Adjacent(sh, p[i], p[i + 1]))
  }

  ghost predicate Reachable(occ: seq<bool>, sh: Shape, a: int, b: int)
    requires sh.n1 > 0 && sh.n2 > 0
  {
    exists p :: IsPath(occ, sh, p) && p[0] == a && p[|p| - 1] == b
  }

  ghost predicate OneComponent(occ: seq<bool>, sh: Shape)
    requires sh.n1 > 0 && sh.n2 > 0
  {
    forall a, b :: Occupied(occ, a) && Occupied(occ, b) ==> Reachable(occ, sh, a, b)
  }

  /** Some cell of the slab at axial position `i` is occupied. */
  ghost predicate MeetsSlab(occ: seq<bool>, sh: Shape, i: int) {
    exists j, k :: 0 <= j < sh.n1 && 0 <= k < sh.n2 && Occupied(occ, VoxelIndex(i, j, k, sh))
  }

  ghost predicate Closed(occ: seq<bool>, sh: Shape, cells: set<int>)
    requires sh.n1 > 0 && sh.n2 > 0
  {
    forall a, slot :: a in cells && 0 <= slot < 6 && Occupied(occ, NeighborCell(a, slot, sh))
      ==> NeighborCell(a, slot, sh) in cells
  }

  lemma AdjacentSymmetric(sh: Shape, a: int, b: int)
    requires sh.n1 > 0 && sh.n2 > 0 && IsCell(a, sh) && IsCell(b, sh) && Adjacent(sh, a, b)
    ensures Adjacent(sh, b, a)
  {
    hide NeighborCell;
    var slot :| 0 <= slot < 6 && NeighborCell(a, slot, sh) == b;
    NeighborOpposite(a, slot, sh);
    assert NeighborCell(b, Opposite(slot), sh) == a;
  }

  lemma ReachableSelf(occ: seq<bool>, sh: Shape, a: int)
    requires sh.n1 > 0 && sh.n2 > 0 && Occupied(occ, a)
    ensures Reachable(occ, sh, a, a)
  {
    assert IsPath(occ, sh, [a]);
  }

  lemma ReachableExtend(occ: seq<bool>, sh: Shape, a: int, b: int, c: int)
    requires sh.n1 > 0 && sh.n2 > 0
    requires Reachable(occ, sh, a, b) && Adjacent(sh, b, c) && Occupied(occ, c)
    ensures Reachable(occ, sh, a, c)
  {
    hide Adjacent;
    var p :| IsPath(occ, sh, p) && p[0] == a && p[|p| - 1] == b;
    assert IsPath(occ, sh, p + [c]);
  }

  lemma {:induction false} ReachableTransitive(occ: seq<bool>, sh: Shape, a: int, p: seq<int>)
    requires sh.n1 > 0 && sh.n2 > 0 && IsPath(occ, sh, p) && Reachable(occ, sh, a, p[0])
    ensures Reachable(occ, sh, a, p[|p| - 1])
  {
    hide Adjacent, Reachable;
    if |p| > 1 {
      ReachableExtend(occ, sh, a, p[0], p[1]);
      assert IsPath(occ, sh, p[1..]);
      ReachableTransitive(occ, sh, a, p[1..]);
    }
  }

  lemma {:induction false} ReachableReverse(occ: seq<bool>, sh: Shape, p: seq<int>)
    requires sh.n1 > 0 && sh.n2 > 0 && |occ| == sh.Size() && IsPath(occ, sh, p)
    ensures Reachable(occ, sh, p[|p| - 1], p[0])
  {
    hide Adjacent, Reachable, Shape.Size;
    if |p| == 1 {
      ReachableSelf(occ, sh, p[0]);
    } else {
      assert IsPath(occ, sh, p[1..]);
      ReachableReverse(occ, sh, p[1..]);
      AdjacentSymmetric(sh, p[0], p[1]);
      ReachableExtend(occ, sh, p[|p| - 1], p[1], p[0]);
    }
  }

  lemma ReachableThrough(occ: seq<bool>, sh: Shape, start: int, a: int, b: int)
    requires sh.n1 > 0 && sh.n2 > 0 && |occ| == sh.Size()
    requires Reachable(occ, sh, start, a) && Reachable(occ, sh, start, b)
    ensures Reachable(occ, sh, a, b)
  {
    hide Adjacent, Shape.Size;
    var p :| IsPath(occ, sh, p) && p[0] == start && p[|p| - 1] == a;
    ReachableReverse(occ, sh, p);
    var q :| IsPath(occ, sh, q) && q[0] == start && q[|q| - 1] == b;
    ReachableTransitive(occ, sh, a, q);
  }

  lemma {:induction false} ClosedContains(occ: seq<bool>, sh: Shape, cells: set<int>, p: seq<int>)
    requires sh.n1 > 0 && sh.n2 > 0 && Closed(occ, sh, cells) && IsPath(occ, sh, p) && p[0] in cells
    ensures p[|p| - 1] in cells
  {
    hide NeighborCell;
    if |p| > 1 {
      assert Adjacent(sh, p[0], p[1]);
      assert IsPath(occ, sh, p[1..]);
      ClosedContains(occ, sh, cells, p[1..]);
    }
  }

  /** What the search has found when its queue runs empty decides connectivity. */
  lemma SearchDecides(occ: seq<bool>, sh: Shape, start: int, found: set<int>)
    requires sh.n1 > 0 && sh.n2 > 0 && |occ| == sh.Size() && Occupied(occ, start)
    requires start in found && found <= OccupiedCells(occ) && Closed(occ, sh, found)
    requires forall c :: c in found ==> Reachable(occ, sh, start, c)
    ensures |found| == |OccupiedCells(occ)| <==> OneComponent(occ, sh)
  {
    hide Adjacent, Shape.Size, Closed;
    if |found| == |OccupiedCells(occ)| {
      SameSize(found, OccupiedCells(occ));
      forall a, b | Occupied(occ, a) && Occupied(occ, b) ensures Reachable(occ, sh, a, b) {
        assert a in found && b in found;
        ReachableThrough(occ, sh, start, a, b);
      }
    }
    if OneComponent(occ, sh) {
      forall c | c in OccupiedCells(occ) ensures c in found {
        assert Occupied(occ, c);
        var p :| IsPath(occ, sh, p) && p[0] == start && p[|p| - 1] == c;
        ClosedContains(occ, sh, found, p);
      }
      assert found == OccupiedCells(occ);
    }
  }

  lemma SameSize<T>(a: set<T>, b: set<T>)
    requires a <= b && |a| == |b|
    ensures a == b
  {
    if x :| x in b && x !in a {
      SubsetSize(a, b - {x});
    }
  }

  lemma {:induction false} SubsetSize<T>(a: set<T>, b: set<T>)
    requires a <= b
    ensures |a| <= |b|
  {
    if x :| x in a {
      SubsetSize(a - {x}, b - {x});
    }
  }

  predicate Distinct(s: seq<int>) {
    forall i, j :: 0 <= i < j < |s| ==> s[i] != s[j]
  }

  function Elements(s: seq<int>): set<int> {
    set c | c in s
  }

  lemma {:induction false} DistinctSize(s: seq<int>)
    requires Distinct(s)
    ensures |Elements(s)| == |s|
  {
    if |s| > 0 {
      var t := s[..|s| - 1];
      DistinctSize(t);
      assert s == t + [s[|s| - 1]];
      assert Elements(s) == Elements(t) + {s[|s| - 1]};
    }
  }

  datatype Verdict = Accepted | MissingTerminal | Disconnected

  // The search state between two queue operations.
  ghost predicate Searching(occ: seq<bool>, sh: Shape, start: int, visited: seq<bool>, found: seq<int>)
    requires sh.n1 > 0 && sh.n2 > 0
  {
    && |visited| == |occ|
    && start in found && Distinct(found)
    && (forall c :: c in found <==> Occupied(visited, c))
    && (forall c :: c in found ==> Occupied(occ, c) && Reachable(occ, sh, start, c))
  }

  ghost predicate Expanded(occ: seq<bool>, sh: Shape, found: seq<int>, c: int, slots: int)
    requires sh.n1 > 0 && sh.n2 > 0
  {
    forall slot :: 0 <= slot < slots && Occupied(occ, NeighborCell(c, slot, sh))
      ==> NeighborCell(c, slot, sh) in found
  }

  lemma RoomLeft(occ: seq<bool>, sh: Shape, start: int, visited: seq<bool>, found: seq<int>, c: int)
    requires sh.n1 > 0 && sh.n2 > 0 && Searching(occ, sh, start, visited, found)
    requires Occupied(occ, c) && !Occupied(visited, c)
    ensures |found| < |OccupiedCells(occ)|
  {
    DistinctSize(found);
    SubsetSize(Elements(found) + {c}, OccupiedCells(occ));
  }

  // Cells before `head` are expanded completely, the cell at `head` in its first `slots` directions.
  ghost predicate Progress(occ: seq<bool>, sh: Shape, start: int, visited: seq<bool>, found: seq<int>, head: int,
                           slots: int)
    requires sh.n1 > 0 && sh.n2 > 0
  {
    && Searching(occ, sh, start, visited, found)
    && 0 <= head <= |found|
    && (forall i :: 0 <= i < head ==> Expanded(occ, sh, found, found[i], 6))
    && (head < |found| ==> Expanded(occ, sh, found, found[head], slots))
  }

  lemma Enqueue(occ: seq<bool>, sh: Shape, start: int, visited: seq<bool>, found: seq<int>, head: int, slot: int)
    requires sh.n1 > 0 && sh.n2 > 0 && Progress(occ, sh, start, visited, found, head, slot)
    requires head < |found| && 0 <= slot < 6
    requires var c := NeighborCell(found[head], slot, sh); Occupied(occ, c) && !Occupied(visited, c)
    ensures |found| < |OccupiedCells(occ)|
    ensures var c := NeighborCell(found[head], slot, sh);
      Progress(occ, sh, start, visited[c := true], found + [c], head, slot + 1)
  {
    hide NeighborCell, Reachable;
    var from := found[head];
    var c := NeighborCell(from, slot, sh);
    RoomLeft(occ, sh, start, visited, found, c);
    assert from in found && Adjacent(sh, from, c);
    ReachableExtend(occ, sh, start, from, c);
  }

  lemma Skip(occ: seq<bool>, sh: Shape, start: int, visited: seq<bool>, found: seq<int>, head: int, slot: int)
    requires sh.n1 > 0 && sh.n2 > 0 && Progress(occ, sh, start, visited, found, head, slot)
    requires head < |found| && 0 <= slot < 6
    requires var c := NeighborCell(found[head], slot, sh); Occupied(occ, c) ==> Occupied(visited, c)
    ensures Progress(occ, sh, start, visited, found, head, slot + 1)
  {
    hide NeighborCell, Reachable;
  }

  lemma SearchFinished(occ: seq<bool>, sh: Shape, start: int, visited: seq<bool>, found: seq<int>)
    requires sh.n1 > 0 && sh.n2 > 0 && |occ| == sh.Size()
    requires Progress(occ, sh, start, visited, found, |found|, 0)
    ensures |found| <= |OccupiedCells(occ)|
    ensures |found| == |OccupiedCells(occ)| <==> OneComponent(occ, sh)
    ensures |found| == |OccupiedCells(occ)| ==> forall c :: Occupied(occ, c) ==> Occupied(visited, c)
  {
    hide NeighborCell, Shape.Size, Reachable, OneComponent;
    var cells := Elements(found);
    DistinctSize(found);
    assert Closed(occ, sh, cells) by {
      forall a, s | a in cells && 0 <= s < 6 && Occupied(occ, NeighborCell(a, s, sh))
        ensures NeighborCell(a, s, sh) in cells
      {
        var i :| 0 <= i < |found| && found[i] == a;
        assert Expanded(occ, sh, found, found[i], 6);
      }
    }
    SubsetSize(cells, OccupiedCells(occ));
    SearchDecides(occ, sh, start, cells);
    if |found| == |OccupiedCells(occ)| {
      SameSize(cells, OccupiedCells(occ));
      forall c | Occupied(occ, c) ensures Occupied(visited, c) {
        assert c in OccupiedCells(occ);
      }
    }
  }

  method TerminalCells(occ: seq<bool>, sh: Shape, i: int) returns (cells: seq<int>)
    requires |occ| == sh.Size() && 0 <= i < sh.n0
    ensures forall c :: c in cells ==> Occupied(occ, c)
    ensures cells != [] <==> MeetsSlab(occ, sh, i)
  {
    cells := [];
    for j := 0 to sh.n1
      invariant forall c :: c in cells ==> Occupied(occ, c)
      invariant cells != [] ==> MeetsSlab(occ, sh, i)
      invariant forall jj, k :: 0 <= jj < j && 0 <= k < sh.n2 && Occupied(occ, VoxelIndex(i, jj, k, sh)) ==> cells != []
    {
      for k := 0 to sh.n2
        invariant forall c :: c in cells ==> Occupied(occ, c)
        invariant cells != [] ==> MeetsSlab(occ, sh, i)
        invariant forall jj, kk ::
          0 <= jj < j && 0 <= kk < sh.n2 && Occupied(occ, VoxelIndex(i, jj, kk, sh)) ==> cells != []
        invariant forall kk :: 0 <= kk < k && Occupied(occ, VoxelIndex(i, j, kk, sh)) ==> cells != []
      {
        var c := VoxelIndex(i, j, k, sh);
        Decode(i, j, k, sh);
        if occ[c] {
          assert Occupied(occ, VoxelIndex(i, j, k, sh));
          cells := cells + [c];
        }
      }
    }
  }

  /** The search itself: `found` is the queue when it runs empty. */
  method Search(occ: seq<bool>, occupiedCount: nat, sh: Shape, start: int)
    returns (visited: array<bool>, found: seq<int>)
    requires sh.n1 > 0 && sh.n2 > 0 && |occ| == sh.Size() && Occupied(occ, start)
    requires occupiedCount == |OccupiedCells(occ)|
    ensures visited.Length == |occ| && |found| <= occupiedCount
    ensures Progress(occ, sh, start, visited[..], found, |found|, 0)
  {
    hide NeighborCell, Shape.Size, Progress;
    visited := new bool[|occ|](_ => false);
    var queue := new int[occupiedCount](_ => 0);
    StartProgress(occ, sh, start, visited[..]);
    queue[0] := start;
    visited[start] := true;
    var head, tail := 0, 1;
    assert queue[..tail] == [start];
    while head < tail
      invariant 0 <= head <= tail <= occupiedCount && visited.Length == |occ|
      invariant Progress(occ, sh, start, visited[..], queue[..tail], head, 0)
      decreases occupiedCount - head
    {
      var index := queue[head];
      head := head + 1;
      var slot := 0;
      while slot < 6
        invariant 0 <= slot <= 6 && head <= tail <= occupiedCount && queue[head - 1] == index && visited.Length == |occ|
        invariant Progress(occ, sh, start, visited[..], queue[..tail], head - 1, slot)
      {
        var neighbor := NeighborCell(index, slot, sh);
        ghost var seen, known := visited[..], queue[..tail];
        assert known[head - 1] == index;
        NeighborRange(occ, sh, start, seen, known, head - 1, slot);
        if neighbor >= 0 && occ[neighbor] && !visited[neighbor] {
          Enqueue(occ, sh, start, seen, known, head - 1, slot);
          visited[neighbor] := true;
          queue[tail] := neighbor;
          tail := tail + 1;
          assert visited[..] == seen[neighbor := true];
          assert queue[..tail] == known + [neighbor];
        } else {
          Skip(occ, sh, start, seen, known, head - 1, slot);
        }
        slot := slot + 1;
      }
      CellDone(occ, sh, start, visited[..], queue[..tail], head - 1);
    }
    found := queue[..tail];
  }

  /** `_validate_connectivity`: accepts exactly the domains that meet both terminal slabs and form
      one component, with a queue of exactly `occupiedCount` entries. */
  method ValidateConnectivity(occ: seq<bool>, occupiedCount: nat, sh: Shape) returns (verdict: Verdict)
    requires sh.n0 > 0 && sh.n1 > 0 && sh.n2 > 0 && |occ| == sh.Size()
    requires occupiedCount == |OccupiedCells(occ)|
    ensures verdict == MissingTerminal <==> !(MeetsSlab(occ, sh, 0) && MeetsSlab(occ, sh, sh.n0 - 1))
    ensures verdict == Accepted <==>
      MeetsSlab(occ, sh, 0) && MeetsSlab(occ, sh, sh.n0 - 1) && OneComponent(occ, sh)
  {
    hide Shape.Size, MeetsSlab, OneComponent, Searching;
    var sourceCells := TerminalCells(occ, sh, 0);
    var referenceCells := TerminalCells(occ, sh, sh.n0 - 1);
    if sourceCells == [] || referenceCells == [] {
      return MissingTerminal;
    }
    var start := sourceCells[0];
    assert start in sourceCells && Occupied(occ, start);
    var visited, found := Search(occ, occupiedCount, sh, start);
    SearchFinished(occ, sh, start, visited[..], found);
    assert forall i :: 0 <= i < |referenceCells| ==> referenceCells[i] in referenceCells;
    var met := exists i :: 0 <= i < |referenceCells| && visited[referenceCells[i]];
    assert |found| == occupiedCount ==> Occupied(visited[..], referenceCells[0]);
    if |found| != occupiedCount || !met {
      return Disconnected;
    }
    return Accepted;
  }

  lemma StartProgress(occ: seq<bool>, sh: Shape, start: int, visited: seq<bool>)
    requires sh.n1 > 0 && sh.n2 > 0 && Occupied(occ, start)
    requires |visited| == |occ| && forall c :: 0 <= c < |visited| ==> !visited[c]
    ensures |OccupiedCells(occ)| > 0
    ensures Progress(occ, sh, start, visited[start := true], [start], 0, 0)
  {
    hide NeighborCell;
    ReachableSelf(occ, sh, start);
    assert {start} <= OccupiedCells(occ);
    SubsetSize({start}, OccupiedCells(occ));
  }

  lemma CellDone(occ: seq<bool>, sh: Shape, start: int, visited: seq<bool>, found: seq<int>, head: int)
    requires sh.n1 > 0 && sh.n2 > 0 && Progress(occ, sh, start, visited, found, head, 6) && head < |found|
    ensures Progress(occ, sh, start, visited, found, head + 1, 0)
  {
  }

  lemma NeighborRange(occ: seq<bool>, sh: Shape, start: int, visited: seq<bool>, found: seq<int>, head: int, slot: int)
    requires sh.n1 > 0 && sh.n2 > 0 && |occ| == sh.Size() && 0 <= slot < 6
    requires Progress(occ, sh, start, visited, found, head, slot) && head < |found|
    ensures -1 <= NeighborCell(found[head], slot, sh) < |occ|
  {
    assert found[head] in found;
    NeighborOpposite(found[head], slot, sh);
  }
}
