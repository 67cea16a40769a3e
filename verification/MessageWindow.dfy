/** Merging two newest-first cursor windows. */
module MessageWindow {
  import opened MessageOrder
  import opened Wrappers

  const MESSAGES_PAGE_SIZE := 15
  const MESSAGE_HISTORY_FETCH_SIZE := 60

  function Keep(row: Row, seen: set<nat>): seq<Row> {
    if row.key.id in seen then [] else [row]
  }

  /** What the merge loop still has to push, given the rows left on each side. */
  function MergeFrom(left: seq<Row>, right: seq<Row>, seen: set<nat>): seq<Row>
    decreases |left| + |right|
  {
    if left == [] && right == [] then []
    else if right == [] || (left != [] && IsMessageOrderNewer(left[0].key, right[0].key)) then
      Keep(left[0], seen) + MergeFrom(left[1..], right, seen + {left[0].key.id})
    else
      Keep(right[0], seen) + MergeFrom(left, right[1..], seen + {right[0].key.id})
  }

  function Merge(left: seq<Row>, right: seq<Row>): seq<Row> {
    if left == [] then right else if right == [] then left else MergeFrom(left, right, {})
  }

  /** One turn of the merge loop, by index. */
  lemma MergeTurn(left: seq<Row>, right: seq<Row>, i: nat, j: nat, seen: set<nat>)
    requires i <= |left| && j <= |right| && (i < |left| || j < |right|)
    ensures MergeFrom(left[i..], right[j..], seen) ==
              if j == |right| || (i < |left| && IsMessageOrderNewer(left[i].key, right[j].key))
              then Keep(left[i], seen) + MergeFrom(left[i + 1..], right[j..], seen + {left[i].key.id})
              else Keep(right[j], seen) + MergeFrom(left[i..], right[j + 1..], seen + {right[j].key.id})
  {
    if i < |left| { assert left[i..][1..] == left[i + 1..]; }
    if j < |right| { assert right[j..][1..] == right[j + 1..]; }
  }

  method MergeNewestFirstRows(left: seq<Row>, right: seq<Row>) returns (merged: seq<Row>)
    ensures merged == Merge(left, right)
  {
    if |left| == 0 { return right; }
    if |right| == 0 { return left; }
    merged := [];
    var seen: set<nat> := {};
    var leftIndex, rightIndex := 0, 0;
    ghost var total := MergeFrom(left, right, {});
    assert left[0..] == left && right[0..] == right;
    while leftIndex < |left| || rightIndex < |right|
      invariant leftIndex <= |left| && rightIndex <= |right|
      invariant merged + MergeFrom(left[leftIndex..], right[rightIndex..], seen) == total
      decreases |left| - leftIndex + |right| - rightIndex
    {
      MergeTurn(left, right, leftIndex, rightIndex, seen);
      var next: Row;
      if rightIndex == |right| ||
         (leftIndex < |left| && IsMessageOrderNewer(left[leftIndex].key, right[rightIndex].key)) {
        next := left[leftIndex];
        leftIndex := leftIndex + 1;
      } else {
        next := right[rightIndex];
        rightIndex := rightIndex + 1;
      }
      ghost var rest := MergeFrom(left[leftIndex..], right[rightIndex..], seen + {next.key.id});
      ConcatAssociative(merged, Keep(next, seen), rest);
      if next.key.id !in seen {
        seen := seen + {next.key.id};
        merged := merged + [next];
      } else {
        assert seen + {next.key.id} == seen && merged + Keep(next, seen) == merged;
      }
    }
  }

  // ----- what a merge contains

  /** The reference definition of a merge: a right-hand row survives unless the left holds a
      newer copy of its id, and a left-hand row survives only if the right holds no copy of
      its id that is at least as new. */
  ghost predicate Survives(left: seq<Row>, right: seq<Row>, row: Row) {
    || (row in right && forall l :: l in left && l.key.id == row.key.id ==> !IsMessageOrderNewer(l.key, row.key))
    || (row in left && forall r :: r in right && r.key.id == row.key.id ==> IsMessageOrderNewer(row.key, r.key))
  }

  /** An input window: one keyset page or a merge of pages. */
  ghost predicate IsWindow(rows: seq<Row>) {
    NewestFirst(rows) && DistinctIds(rows)
  }

  lemma {:induction false} MergeFromMembers(left: seq<Row>, right: seq<Row>, seen: set<nat>, row: Row)
    requires IsWindow(left) && IsWindow(right)
    ensures row in MergeFrom(left, right, seen) <==> row.key.id !in seen && Survives(left, right, row)
    decreases |left| + |right|
  {
    if left == [] && right == [] {
    } else if right == [] || (left != [] && IsMessageOrderNewer(left[0].key, right[0].key)) {
      var head, rest := left[0], left[1..];
      assert left == [head] + rest;
      assert forall r :: r in right ==> IsMessageOrderNewer(head.key, r.key);
      MergeFromMembers(rest, right, seen + {head.key.id}, row);
    } else {
      var head, rest := right[0], right[1..];
      assert right == [head] + rest;
      assert forall l :: l in left ==> !IsMessageOrderNewer(l.key, head.key);
      MergeFromMembers(left, rest, seen + {head.key.id}, row);
    }
  }

  lemma {:induction false} MergeFromIsWindow(left: seq<Row>, right: seq<Row>, seen: set<nat>)
    requires IsWindow(left) && IsWindow(right)
    ensures IsWindow(MergeFrom(left, right, seen))
    decreases |left| + |right|
  {
    if left == [] && right == [] {
    } else if right == [] || (left != [] && IsMessageOrderNewer(left[0].key, right[0].key)) {
      MergeFromIsWindow(left[1..], right, seen + {left[0].key.id});
      TailBelowHead(left[0], left[1..], right, seen + {left[0].key.id});
      PushedOnWindow(left[0], MergeFrom(left[1..], right, seen + {left[0].key.id}), seen);
    } else {
      MergeFromIsWindow(left, right[1..], seen + {right[0].key.id});
      TailBelowHead(right[0], left, right[1..], seen + {right[0].key.id});
      PushedOnWindow(right[0], MergeFrom(left, right[1..], seen + {right[0].key.id}), seen);
    }
  }

  lemma PushedOnWindow(head: Row, rest: seq<Row>, seen: set<nat>)
    requires IsWindow(rest)
    requires forall r :: r in rest ==> IsMessageOrderNewer(head.key, r.key) && r.key.id != head.key.id
    ensures IsWindow(Keep(head, seen) + rest)
  {
    HeadAndTail(rest);
    WindowCons(head, rest);
  }

  /** If every remaining row is older than or shares the id of `head`, so is everything pushed later. */
  lemma TailBelowHead(head: Row, left: seq<Row>, right: seq<Row>, seen: set<nat>)
    requires IsWindow(left) && IsWindow(right) && head.key.id in seen
    requires forall r :: r in left || r in right ==> IsMessageOrderNewer(head.key, r.key) || r.key == head.key
    ensures forall r :: r in MergeFrom(left, right, seen) ==> IsMessageOrderNewer(head.key, r.key) && r.key.id != head.key.id
  {
    forall r | r in MergeFrom(left, right, seen)
      ensures IsMessageOrderNewer(head.key, r.key) && r.key.id != head.key.id
    {
      MergeFromMembers(left, right, seen, r);
    }
  }

  /** A merge of two windows is a window, and it holds exactly the surviving rows. */
  lemma MergeIsWindowOfSurvivors(left: seq<Row>, right: seq<Row>)
    requires IsWindow(left) && IsWindow(right)
    ensures IsWindow(Merge(left, right))
    ensures forall row :: row in Merge(left, right) <==> Survives(left, right, row)
  {
    MergeFromIsWindow(left, right, {});
    forall row ensures row in Merge(left, right) <==> Survives(left, right, row) {
      MergeFromMembers(left, right, {}, row);
    }
  }

  lemma HeadIsMember<T>(s: seq<T>)
    ensures s != [] ==> s[0] in s
  {}

  /** A window is determined by the set of its rows, so MergeIsWindowOfSurvivors leaves no
      freedom to the merge. */
  lemma {:induction false} WindowIsUnique(a: seq<Row>, b: seq<Row>)
    requires NewestFirst(a) && NewestFirst(b)
    requires forall row :: row in a <==> row in b
    ensures a == b
  {
    if a == [] {
      HeadIsMember(b);
    } else {
      assert a[0] in b && (b == [] || b[0] in a);
      assert a == [a[0]] + a[1..] && b == [b[0]] + b[1..];
      forall row ensures row in a[1..] <==> row in b[1..] {
        if row in a[1..] { assert row in b; }
        if row in b[1..] { assert row in a; }
      }
      WindowIsUnique(a[1..], b[1..]);
    }
  }

  lemma PrependIds(head: Row, rest: seq<Row>, all: seq<Row>)
    requires all == [head] + rest
    ensures Ids(all) == {head.key.id} + Ids(rest)
  {
    assert forall row :: row in all <==> row == head || row in rest;
  }

  lemma StepIds(head: Row, seen: set<nat>, rest: seq<Row>, ids: set<nat>)
    requires Ids(rest) == ids - (seen + {head.key.id}) && DistinctIds(rest)
    ensures Ids(Keep(head, seen) + rest) == ({head.key.id} + ids) - seen
    ensures DistinctIds(Keep(head, seen) + rest)
  {
    if head.key.id in seen {
      assert Keep(head, seen) + rest == rest;
    } else {
      PrependIds(head, rest, [head] + rest);
      forall k | 0 <= k < |rest| ensures rest[k].key.id != head.key.id {
        assert rest[k].key.id in Ids(rest);
      }
    }
  }

  /** On every input, sorted or not, the ids of a merge are exactly the union of the ids. */
  lemma {:induction false} MergeFromIds(left: seq<Row>, right: seq<Row>, seen: set<nat>)
    ensures Ids(MergeFrom(left, right, seen)) == (Ids(left) + Ids(right)) - seen
    ensures DistinctIds(MergeFrom(left, right, seen))
    decreases |left| + |right|
  {
    if left == [] && right == [] {
    } else if right == [] || (left != [] && IsMessageOrderNewer(left[0].key, right[0].key)) {
      var head, rest := left[0], left[1..];
      PrependIds(head, rest, left);
      MergeFromIds(rest, right, seen + {head.key.id});
      StepIds(head, seen, MergeFrom(rest, right, seen + {head.key.id}), Ids(rest) + Ids(right));
    } else {
      var head, rest := right[0], right[1..];
      PrependIds(head, rest, right);
      MergeFromIds(left, rest, seen + {head.key.id});
      StepIds(head, seen, MergeFrom(left, rest, seen + {head.key.id}), Ids(left) + Ids(rest));
    }
  }

  lemma MergeIds(left: seq<Row>, right: seq<Row>)
    ensures Ids(Merge(left, right)) == Ids(left) + Ids(right)
    ensures DistinctIds(Merge(left, right)) <==>
              (left == [] ==> DistinctIds(right)) && (right == [] ==> DistinctIds(left))
  {
    MergeFromIds(left, right, {});
  }

  /** Merging is idempotent and associative, rows and order included. */
  lemma MergeIdempotent(rows: seq<Row>)
    requires IsWindow(rows)
    ensures Merge(rows, rows) == rows
  {
    MergeIsWindowOfSurvivors(rows, rows);
    forall row ensures row in Merge(rows, rows) <==> row in rows {
      if row in rows {
        forall l | l in rows && l.key.id == row.key.id ensures l == row {}
      }
    }
    WindowIsUnique(Merge(rows, rows), rows);
  }

  lemma MergeAssociative(a: seq<Row>, b: seq<Row>, c: seq<Row>)
    requires IsWindow(a) && IsWindow(b) && IsWindow(c)
    ensures Merge(Merge(a, b), c) == Merge(a, Merge(b, c))
  {
    var ab, bc := Merge(a, b), Merge(b, c);
    MergeIsWindowOfSurvivors(a, b);
    MergeIsWindowOfSurvivors(b, c);
    MergeIsWindowOfSurvivors(ab, c);
    MergeIsWindowOfSurvivors(a, bc);
    forall row ensures row in Merge(ab, c) <==> row in Merge(a, bc) {
      assert row in Merge(ab, c) <==> Survives(ab, c, row);
      assert row in Merge(a, bc) <==> Survives(a, bc, row);
      SurvivorsAssociate(a, b, c, row);
    }
    WindowIsUnique(Merge(ab, c), Merge(a, bc));
  }

  /** The copy of an id that wins among all three lists: newest key first, then rightmost list. */
  ghost predicate Wins(a: seq<Row>, b: seq<Row>, c: seq<Row>, row: Row) {
    || (row in c && NoNewer(a, row) && NoNewer(b, row))
    || (row in b && NoNewer(a, row) && AllOlder(c, row))
    || (row in a && AllOlder(b, row) && AllOlder(c, row))
  }

  ghost predicate NoNewer(rows: seq<Row>, row: Row) {
    forall l :: l in rows && l.key.id == row.key.id ==> !IsMessageOrderNewer(l.key, row.key)
  }

  ghost predicate AllOlder(rows: seq<Row>, row: Row) {
    forall l :: l in rows && l.key.id == row.key.id ==> IsMessageOrderNewer(row.key, l.key)
  }

  /** For every row of a window, the merge holds a copy of its id that is at least as new. */
  lemma BestCopy(left: seq<Row>, right: seq<Row>, row: Row) returns (best: Row)
    requires IsWindow(left) && IsWindow(right) && (row in left || row in right)
    ensures best in Merge(left, right) && best.key.id == row.key.id
    ensures !IsMessageOrderNewer(row.key, best.key)
    ensures row in right ==> best in right || IsMessageOrderNewer(best.key, row.key)
  {
    MergeIsWindowOfSurvivors(left, right);
    if Survives(left, right, row) {
      best := row;
    } else if row in right {
      best :| best in left && best.key.id == row.key.id && IsMessageOrderNewer(best.key, row.key);
      forall r | r in right && r.key.id == best.key.id ensures r == row {}
      assert Survives(left, right, best);
    } else {
      best :| best in right && best.key.id == row.key.id && !IsMessageOrderNewer(row.key, best.key);
      forall l | l in left && l.key.id == best.key.id ensures l == row {}
      assert Survives(left, right, best);
    }
  }

  lemma SurvivorsAssociate(a: seq<Row>, b: seq<Row>, c: seq<Row>, row: Row)
    requires IsWindow(a) && IsWindow(b) && IsWindow(c)
    requires forall r :: r in Merge(a, b) <==> Survives(a, b, r)
    requires forall r :: r in Merge(b, c) <==> Survives(b, c, r)
    ensures Survives(Merge(a, b), c, row) <==> Survives(a, Merge(b, c), row)
  {
    LeftNested(a, b, c, row);
    RightNested(a, b, c, row);
  }

  lemma LeftNested(a: seq<Row>, b: seq<Row>, c: seq<Row>, row: Row)
    requires IsWindow(a) && IsWindow(b) && IsWindow(c)
    requires forall r :: r in Merge(a, b) <==> Survives(a, b, r)
    ensures Survives(Merge(a, b), c, row) <==> Wins(a, b, c, row)
  {
    var ab := Merge(a, b);
    if NoNewer(ab, row) {
      forall l | (l in a || l in b) && l.key.id == row.key.id ensures !IsMessageOrderNewer(l.key, row.key) {
        var best := BestCopy(a, b, l);
      }
    }
  }

  lemma RightNested(a: seq<Row>, b: seq<Row>, c: seq<Row>, row: Row)
    requires IsWindow(a) && IsWindow(b) && IsWindow(c)
    requires forall r :: r in Merge(b, c) <==> Survives(b, c, r)
    ensures Survives(a, Merge(b, c), row) <==> Wins(a, b, c, row)
  {
    var bc := Merge(b, c);
    if AllOlder(bc, row) {
      forall l | (l in b || l in c) && l.key.id == row.key.id ensures IsMessageOrderNewer(row.key, l.key) {
        var best := BestCopy(b, c, l);
      }
    }
  }

  // ----- adjacent pages

  /** Merging a page that lies directly below the window appends it. */
  lemma {:induction false} MergeFromAppends(left: seq<Row>, right: seq<Row>, seen: set<nat>)
    requires IsWindow(left + right) && forall row :: row in left + right ==> row.key.id !in seen
    ensures MergeFrom(left, right, seen) == left + right
    decreases |left| + |right|
  {
    if left != [] {
      TailIsWindow(left, right);
      assert left[0] in left + right;
      MergeFromAppends(left[1..], right, seen + {left[0].key.id});
      MergeFromHead(left, right, seen);
      ConcatAssociative([left[0]], left[1..], right);
      HeadAndTail(left);
    } else {
      HeadAndTail(right);
      MergeFromRight(right, seen);
    }
  }

  lemma {:induction false} MergeFromRight(right: seq<Row>, seen: set<nat>)
    requires DistinctIds(right) && forall k :: 0 <= k < |right| ==> right[k].key.id !in seen
    ensures MergeFrom([], right, seen) == right
  {
    if right != [] {
      MergeFromRight(right[1..], seen + {right[0].key.id});
      MergeFromRightHead(right, seen);
      HeadAndTail(right);
    }
  }

  lemma MergeFromHead(left: seq<Row>, right: seq<Row>, seen: set<nat>)
    requires left != [] && left[0].key.id !in seen
    requires right == [] || IsMessageOrderNewer(left[0].key, right[0].key)
    ensures MergeFrom(left, right, seen) == [left[0]] + MergeFrom(left[1..], right, seen + {left[0].key.id})
  {}

  lemma MergeFromRightHead(right: seq<Row>, seen: set<nat>)
    requires right != [] && right[0].key.id !in seen
    ensures MergeFrom([], right, seen) == [right[0]] + MergeFrom([], right[1..], seen + {right[0].key.id})
  {}

  lemma HeadIsNewer(rows: seq<Row>, row: Row)
    requires IsWindow(rows) && rows != [] && row in rows[1..]
    ensures IsMessageOrderNewer(rows[0].key, row.key) && rows[0].key.id != row.key.id
  {
    var i :| 0 <= i < |rows[1..]| && rows[1..][i] == row;
    assert rows[i + 1] == row;
  }

  lemma WindowCons(head: Row, rest: seq<Row>)
    requires IsWindow(rest)
    requires forall k :: 0 <= k < |rest| ==>
               IsMessageOrderNewer(head.key, rest[k].key) && head.key.id != rest[k].key.id
    ensures IsWindow([head] + rest)
  {}

  lemma TailIsWindow(left: seq<Row>, right: seq<Row>)
    requires IsWindow(left + right) && left != []
    ensures IsWindow(left[1..] + right)
    ensures forall row :: row in left[1..] + right ==> row in left + right && row.key.id != left[0].key.id
    ensures right != [] ==> IsMessageOrderNewer(left[0].key, right[0].key)
  {
    var all, rest := left + right, left[1..] + right;
    assert forall k :: 0 <= k < |rest| ==> rest[k] == all[k + 1];
    assert all[0] == left[0] && (right != [] ==> all[|left|] == right[0]);
    forall row | row in rest ensures row in all && row.key.id != left[0].key.id {
      var k :| 0 <= k < |rest| && rest[k] == row;
      assert all[k + 1] == row;
    }
  }

  lemma MergeAppends(left: seq<Row>, right: seq<Row>)
    requires IsWindow(left + right)
    ensures Merge(left, right) == left + right
  {
    MergeFromAppends(left, right, {});
  }

  lemma DisjointIds(a: seq<Row>, b: seq<Row>)
    requires IsWindow(a + b)
    ensures IsWindow(a) && IsWindow(b)
    ensures forall x, y :: x in a && y in b ==> x.key.id != y.key.id && IsMessageOrderNewer(x.key, y.key)
  {
    var all := a + b;
    assert forall i :: 0 <= i < |a| ==> all[i] == a[i];
    assert forall j :: 0 <= j < |b| ==> b[j] == all[|a| + j];
  }

  /** Merging a page that lies directly above the window prepends it. */
  lemma MergePrepends(left: seq<Row>, right: seq<Row>)
    requires IsWindow(right + left)
    ensures Merge(left, right) == right + left
  {
    DisjointIds(right, left);
    MergeIsWindowOfSurvivors(left, right);
    assert forall row :: row in right + left <==> row in right || row in left;
    WindowIsUnique(Merge(left, right), right + left);
  }

  // ----- the newer side

  /** The newer side keeps oldest-first lists and merges them through two reversals. */
  function MergeOldestFirst(left: seq<Row>, right: seq<Row>): seq<Row> {
    Reverse(Merge(Reverse(left), Reverse(right)))
  }

  lemma ReverseConcat<T>(a: seq<T>, b: seq<T>)
    ensures Reverse(a + b) == Reverse(b) + Reverse(a)
  {}

  lemma ReverseTwice<T>(a: seq<T>)
    ensures Reverse(Reverse(a)) == a
  {}

  /** The reversed form keeps the dual order and the same surviving rows. */
  lemma MergeOldestFirstDual(left: seq<Row>, right: seq<Row>)
    requires OldestFirst(left) && OldestFirst(right) && DistinctIds(left) && DistinctIds(right)
    ensures OldestFirst(MergeOldestFirst(left, right)) && DistinctIds(MergeOldestFirst(left, right))
    ensures forall row :: row in MergeOldestFirst(left, right) <==> Survives(left, right, row)
  {
    var l, r := Reverse(left), Reverse(right);
    SameMembers(left);
    SameMembers(right);
    SameMembers(Merge(l, r));
    MergeIsWindowOfSurvivors(l, r);
    forall row ensures row in MergeOldestFirst(left, right) <==> Survives(left, right, row) {
      assert Survives(l, r, row) <==> Survives(left, right, row);
    }
  }

  lemma SameMembers<T>(s: seq<T>)
    ensures forall x :: x in s <==> x in Reverse(s)
  {
    forall x | x in s ensures x in Reverse(s) {
      var i :| 0 <= i < |s| && s[i] == x;
      assert Reverse(s)[|s| - 1 - i] == x;
    }
  }

  lemma MergeOldestFirstAppends(left: seq<Row>, right: seq<Row>)
    requires OldestFirst(left + right) && DistinctIds(left + right)
    ensures MergeOldestFirst(left, right) == left + right
  {
    ReverseConcat(left, right);
    assert Reverse(right) + Reverse(left) == Reverse(left + right);
    MergePrepends(Reverse(left), Reverse(right));
    ReverseTwice(left + right);
  }
}
