/**
 * Server-side progress aggregation (`getUserPathsProgress`, `getPathProgress`,
 * `getNextUnlockedPassage`, `getNextPassageAfter`, `getPathMetadata`).
 *
 * The database queries are replaced by the rows they return: a sequence of
 * passages and the user's sequence of progress rows. Aggregates are defined
 * over the list of passage ids, in order, and a progress map from passage id
 * to the user's row for it.
 */
module Progress {
  import opened Wrappers
  import opened JsMath

  /** A row of the passages table as `getUserPathsProgress` selects it. */
  datatype PassageBasic = PassageBasic(id: string, path: string, difficultyOrder: int)

  /** A row of `user_progress`; `best_accuracy` and `attempts` may be null. */
  datatype ProgressRow = ProgressRow(passageId: string, completed: bool, bestAccuracy: Option<int>, attempts: Option<int>)

  datatype PathProgress = PathProgress(
    path: string,
    totalPassages: nat,
    completedPassages: nat,
    progressPercentage: int,
    currentPassage: Option<int>,
    totalAttempts: int,
    averageAccuracy: int)

  /** A passage as `getPathProgress` selects it. */
  datatype Passage = Passage(id: string, title: string, author: Option<string>, content: string, difficultyOrder: int)

  datatype PassageProgress = PassageProgress(
    passageId: string, completed: bool, bestAccuracy: Option<int>, attempts: int, isUnlocked: bool)

  datatype PassageWithProgress = PassageWithProgress(passage: Passage, progress: PassageProgress)

  datatype PathWithPassages = PathWithPassages(path: string, passages: seq<PassageWithProgress>)

  datatype PathMetadata = PathMetadata(name: string, description: string, color: string)

  type ProgressMap = map<string, ProgressRow>

  /* ---------------------------------------------------------- progress map */

  /** The `Map` built by `forEach` over the rows: a later row for the same passage replaces an earlier one. */
  function ProgressMapOf(rows: seq<ProgressRow>): ProgressMap
  {
    if rows == [] then map[]
    else ProgressMapOf(rows[..|rows| - 1])[rows[|rows| - 1].passageId := rows[|rows| - 1]]
  }

  /** The map holds a passage exactly when some row names it, and then holds the last such row. */
  lemma {:induction false} ProgressMapOfLatest(rows: seq<ProgressRow>, id: string)
    ensures id in ProgressMapOf(rows) <==> exists i :: 0 <= i < |rows| && rows[i].passageId == id
    ensures id in ProgressMapOf(rows) ==>
      exists i :: 0 <= i < |rows| && rows[i] == ProgressMapOf(rows)[id]
        && forall j :: i < j < |rows| ==> rows[j].passageId != id
  {
    if rows != [] {
      var init, last := rows[..|rows| - 1], rows[|rows| - 1];
      ProgressMapOfLatest(init, id);
      var m := ProgressMapOf(rows);
      assert m == ProgressMapOf(init)[last.passageId := last];
      if last.passageId == id {
        assert rows[|rows| - 1] == m[id];
      } else {
        assert id in m <==> id in ProgressMapOf(init);
        if i :| 0 <= i < |rows| && rows[i].passageId == id {
          assert i < |init| && init[i] == rows[i];
        }
        if id in m {
          var i :| 0 <= i < |init| && init[i] == ProgressMapOf(init)[id]
            && forall j :: i < j < |init| ==> init[j].passageId != id;
          assert rows[i] == init[i] == m[id];
          forall j | i < j < |rows| ensures rows[j].passageId != id {
            if j < |init| {
              assert init[j] == rows[j];
            }
          }
        }
      }
    }
  }

  /** The `forEach` loop filling `progressMap`. */
  method BuildProgressMap(rows: seq<ProgressRow>) returns (progressMap: ProgressMap)
    ensures progressMap == ProgressMapOf(rows)
  {
    progressMap := map[];
    for i := 0 to |rows|
      invariant progressMap == ProgressMapOf(rows[..i])
    {
      assert rows[..i + 1][..i] == rows[..i];
      progressMap := progressMap[rows[i].passageId := rows[i]];
    }
    assert rows[..|rows|] == rows;
  }

  /* --------------------------------------------------- per-path aggregates */

  /** `progress?.completed`: the passage has a row and it is marked completed. */
  predicate Done(pm: ProgressMap, id: string) {
    id in pm && pm[id].completed
  }

  /** The row counts towards the average: its best accuracy is non-null and positive. */
  predicate HasAccuracy(pm: ProgressMap, id: string) {
    id in pm && pm[id].bestAccuracy.Some? && pm[id].bestAccuracy.value > 0
  }

  function CompletedCount(ids: seq<string>, pm: ProgressMap): nat
  {
    if ids == [] then 0
    else CompletedCount(ids[..|ids| - 1], pm) + (if Done(pm, ids[|ids| - 1]) then 1 else 0)
  }

  /** `progress.attempts || 0` summed over the passages that have a row. */
  function AttemptTotal(ids: seq<string>, pm: ProgressMap): int
  {
    if ids == [] then 0
    else
      var id := ids[|ids| - 1];
      AttemptTotal(ids[..|ids| - 1], pm) + (if id in pm then pm[id].attempts.GetOr(0) else 0)
  }

  function AccuracyTotal(ids: seq<string>, pm: ProgressMap): int
  {
    if ids == [] then 0
    else
      var id := ids[|ids| - 1];
      AccuracyTotal(ids[..|ids| - 1], pm) + (if HasAccuracy(pm, id) then pm[id].bestAccuracy.value else 0)
  }

  function AccuracyCount(ids: seq<string>, pm: ProgressMap): nat
  {
    if ids == [] then 0
    else AccuracyCount(ids[..|ids| - 1], pm) + (if HasAccuracy(pm, ids[|ids| - 1]) then 1 else 0)
  }

  /** The position of the first passage that is not completed, if any. */
  function FirstOpen(ids: seq<string>, pm: ProgressMap): (r: Option<nat>)
    ensures r.Some? ==> r.value < |ids| && !Done(pm, ids[r.value])
    ensures r.Some? ==> forall j :: 0 <= j < r.value ==> Done(pm, ids[j])
    ensures r.None? ==> forall j :: 0 <= j < |ids| ==> Done(pm, ids[j])
  {
    if ids == [] then None
    else
      match FirstOpen(ids[..|ids| - 1], pm)
      case Some(k) => Some(k)
      case None => if Done(pm, ids[|ids| - 1]) then None else Some(|ids| - 1)
  }

  /** Extending the walked prefix by one passage adds that passage's contribution to each aggregate. */
  lemma PrefixStep(ids: seq<string>, pm: ProgressMap, i: nat)
    requires i < |ids|
    ensures var id, prefix, next := ids[i], ids[..i], ids[..i + 1];
      && CompletedCount(next, pm) == CompletedCount(prefix, pm) + (if Done(pm, id) then 1 else 0)
      && AttemptTotal(next, pm) == AttemptTotal(prefix, pm) + (if id in pm then pm[id].attempts.GetOr(0) else 0)
      && AccuracyTotal(next, pm) == AccuracyTotal(prefix, pm) + (if HasAccuracy(pm, id) then pm[id].bestAccuracy.value else 0)
      && AccuracyCount(next, pm) == AccuracyCount(prefix, pm) + (if HasAccuracy(pm, id) then 1 else 0)
      && FirstOpen(next, pm) == (match FirstOpen(prefix, pm)
                                 case Some(k) => Some(k)
                                 case None => if Done(pm, id) then None else Some(i))
  {
    assert ids[..i + 1][..i] == ids[..i];
  }

  /** `Math.round(completed / total * 100)`, or 0 for a path without passages. */
  function Percentage(completed: nat, total: nat): int
  {
    if total > 0 then Round(completed as real / total as real * 100.0) else 0
  }

  /** `Math.round(totalAccuracy / passagesWithAccuracy)`, or 0 when nothing counted. */
  function Average(total: int, count: nat): int
  {
    if count > 0 then Round(total as real / count as real) else 0
  }

  /** `Array.prototype.findIndex` by id: the first position holding `id`, or -1. */
  function FindIndex(ids: seq<string>, id: string): (r: int)
    ensures -1 <= r < |ids|
    ensures r >= 0 ==> ids[r] == id && forall j :: 0 <= j < r ==> ids[j] != id
    ensures r == -1 <==> id !in ids
  {
    if ids == [] then -1
    else if ids[0] == id then 0
    else
      var k := FindIndex(ids[1..], id);
      if k == -1 then -1 else k + 1
  }

  function BasicIds(ps: seq<PassageBasic>): (ids: seq<string>)
    ensures |ids| == |ps| && forall k :: 0 <= k < |ps| ==> ids[k] == ps[k].id
  {
    seq(|ps|, k requires 0 <= k < |ps| => ps[k].id)
  }

  function PassageIds(ps: seq<Passage>): (ids: seq<string>)
    ensures |ids| == |ps| && forall k :: 0 <= k < |ps| ==> ids[k] == ps[k].id
  {
    seq(|ps|, k requires 0 <= k < |ps| => ps[k].id)
  }

  /* -------------------------------------------------------------- sorting */

  predicate SortedByOrder(ps: seq<PassageBasic>) {
    forall i, j :: 0 <= i < j < |ps| ==> ps[i].difficultyOrder <= ps[j].difficultyOrder
  }

  /** Places `p` before the first passage of a sorted list whose order is not smaller. */
  function Insert(p: PassageBasic, ps: seq<PassageBasic>): seq<PassageBasic>
  {
    if ps == [] || p.difficultyOrder <= ps[0].difficultyOrder then [p] + ps
    else [ps[0]] + Insert(p, ps[1..])
  }

  /** `passages.sort((a, b) => a.difficulty_order - b.difficulty_order)`, as a stable insertion sort on values. */
  function SortByOrder(ps: seq<PassageBasic>): seq<PassageBasic>
  {
    if ps == [] then [] else Insert(ps[0], SortByOrder(ps[1..]))
  }

  lemma {:induction false} InsertSorted(p: PassageBasic, ps: seq<PassageBasic>)
    requires SortedByOrder(ps)
    ensures SortedByOrder(Insert(p, ps))
    ensures multiset(Insert(p, ps)) == multiset(ps) + multiset{p}
  {
    assert ps != [] ==> ps == [ps[0]] + ps[1..];
    if ps == [] || p.difficultyOrder <= ps[0].difficultyOrder {
      ConsSorted(p, ps);
    } else {
      var rest := ps[1..];
      InsertSorted(p, rest);
      var r := Insert(p, rest);
      forall j | 0 <= j < |r| ensures ps[0].difficultyOrder <= r[j].difficultyOrder {
        assert r[j] in multiset(r);
        if r[j] != p {
          HeadIsLeast(ps, r[j]);
        }
      }
      ConsSorted(ps[0], r);
    }
  }

  /** The head of a sorted list has the least order of all. */
  lemma HeadIsLeast(ps: seq<PassageBasic>, q: PassageBasic)
    requires SortedByOrder(ps) && ps != [] && q in multiset(ps[1..])
    ensures ps[0].difficultyOrder <= q.difficultyOrder
  {
    var m :| 0 <= m < |ps| - 1 && ps[1..][m] == q;
    assert ps[m + 1] == q;
  }

  lemma ConsSorted(x: PassageBasic, r: seq<PassageBasic>)
    requires SortedByOrder(r) && forall j :: 0 <= j < |r| ==> x.difficultyOrder <= r[j].difficultyOrder
    ensures SortedByOrder([x] + r)
  {
    forall i, j | 0 <= i < j < |[x] + r| ensures ([x] + r)[i].difficultyOrder <= ([x] + r)[j].difficultyOrder {
      assert ([x] + r)[j] == r[j - 1];
      if i > 0 {
        assert ([x] + r)[i] == r[i - 1];
      }
    }
  }

  /** The sorted list is ordered by difficulty and holds exactly the same passages. */
  lemma {:induction false} SortByOrderCorrect(ps: seq<PassageBasic>)
    ensures SortedByOrder(SortByOrder(ps))
    ensures multiset(SortByOrder(ps)) == multiset(ps)
  {
    if ps != [] {
      SortByOrderCorrect(ps[1..]);
      InsertSorted(ps[0], SortByOrder(ps[1..]));
      assert ps == [ps[0]] + ps[1..];
    }
  }

  /* ------------------------------------------------------------- grouping */

  /** The distinct paths of the passages, in order of first appearance (the key order of `pathGroups`). */
  function DistinctPaths(ps: seq<PassageBasic>): seq<string>
  {
    if ps == [] then []
    else
      var paths := DistinctPaths(ps[..|ps| - 1]);
      if ps[|ps| - 1].path in paths then paths else paths + [ps[|ps| - 1].path]
  }

  /** The passages on `path`, in their original order. */
  function WithPath(ps: seq<PassageBasic>, path: string): seq<PassageBasic>
  {
    if ps == [] then []
    else WithPath(ps[..|ps| - 1], path) + (if ps[|ps| - 1].path == path then [ps[|ps| - 1]] else [])
  }

  /** Each path is listed once, and exactly the paths some passage is on are listed. */
  lemma {:induction false} DistinctPathsCorrect(ps: seq<PassageBasic>)
    ensures forall i, j :: 0 <= i < j < |DistinctPaths(ps)| ==> DistinctPaths(ps)[i] != DistinctPaths(ps)[j]
    ensures forall path :: path in DistinctPaths(ps) <==> exists k :: 0 <= k < |ps| && ps[k].path == path
  {
    if ps != [] {
      var init := ps[..|ps| - 1];
      DistinctPathsCorrect(init);
      forall path ensures path in DistinctPaths(ps) <==> exists k :: 0 <= k < |ps| && ps[k].path == path {
        if path in DistinctPaths(init) {
          var k :| 0 <= k < |init| && init[k].path == path;
          assert ps[k].path == path;
        }
        if exists k :: 0 <= k < |ps| && ps[k].path == path {
          var k :| 0 <= k < |ps| && ps[k].path == path;
          if k < |init| {
            assert init[k].path == path;
          }
        }
      }
    }
  }

  /** The passages on a path are those of the input on that path, in order. */
  lemma {:induction false} WithPathCorrect(ps: seq<PassageBasic>, path: string)
    ensures forall q :: q in WithPath(ps, path) ==> q.path == path
    ensures multiset(WithPath(ps, path)) <= multiset(ps)
    ensures forall k :: 0 <= k < |ps| && ps[k].path == path ==> ps[k] in WithPath(ps, path)
  {
    if ps != [] {
      var init := ps[..|ps| - 1];
      WithPathCorrect(init, path);
      assert ps == init + [ps[|ps| - 1]];
      forall k | 0 <= k < |ps| && ps[k].path == path ensures ps[k] in WithPath(ps, path) {
        if k < |init| {
          assert init[k] == ps[k];
        }
      }
    }
  }

  /**
   * The `reduce` building `pathGroups`: a record keyed by path, whose keys in
   * insertion order are `order`, each holding the path's passages in input order.
   */
  method GroupByPath(passages: seq<PassageBasic>) returns (order: seq<string>, groups: map<string, seq<PassageBasic>>)
    ensures order == DistinctPaths(passages)
    ensures forall path :: path in groups <==> path in order
    ensures forall path :: path in groups ==> groups[path] == WithPath(passages, path)
  {
    order, groups := [], map[];
    for i := 0 to |passages|
      invariant order == DistinctPaths(passages[..i])
      invariant forall path :: path in groups <==> path in order
      invariant forall path :: path in groups ==> groups[path] == WithPath(passages[..i], path)
    {
      var passage := passages[i];
      assert passages[..i + 1][..i] == passages[..i];
      if passage.path !in groups {
        groups := groups[passage.path := []];
        order := order + [passage.path];
        assert WithPath(passages[..i], passage.path) == [] by {
          WithPathEmpty(passages[..i], passage.path);
        }
      }
      groups := groups[passage.path := groups[passage.path] + [passage]];
    }
    assert passages[..|passages|] == passages;
  }

  /** A path that is not among the distinct paths has no passages. */
  lemma {:induction false} WithPathEmpty(ps: seq<PassageBasic>, path: string)
    requires path !in DistinctPaths(ps)
    ensures WithPath(ps, path) == []
  {
    if ps != [] {
      WithPathEmpty(ps[..|ps| - 1], path);
    }
  }

  /* ------------------------------------------------- getUserPathsProgress */

  /** The progress entry `getUserPathsProgress` reports for one path and its passages. */
  predicate Summarizes(s: PathProgress, path: string, passages: seq<PassageBasic>, pm: ProgressMap)
  {
    var sorted := SortByOrder(passages);
    var ids := BasicIds(sorted);
    && s.path == path
    && s.totalPassages == |passages|
    && s.completedPassages == CompletedCount(ids, pm)
    && s.progressPercentage == Percentage(s.completedPassages, s.totalPassages)
    && s.totalAttempts == AttemptTotal(ids, pm)
    && s.averageAccuracy == Average(AccuracyTotal(ids, pm), AccuracyCount(ids, pm))
    && s.currentPassage == (match FirstOpen(ids, pm) case None => None case Some(k) => Some(sorted[k].difficultyOrder))
  }

  /**
   * The body of the `for` loop over `pathGroups` for one path: sorts its
   * passages by difficulty, walks them, and turns the totals into the
   * rounded percentage and average.
   */
  method SummarizePath(path: string, passages: seq<PassageBasic>, progressMap: ProgressMap) returns (s: PathProgress)
    ensures Summarizes(s, path, passages, progressMap)
    ensures s.completedPassages <= s.totalPassages && 0 <= s.progressPercentage <= 100
  {
    var totalPassages := |passages|;
    var sortedPassages := SortByOrder(passages);
    SortByOrderCorrect(passages);
    assert |sortedPassages| == totalPassages by {
      assert |multiset(sortedPassages)| == |multiset(passages)|;
    }
    var completedPassages, currentPassage, totalAttempts, totalAccuracy, passagesWithAccuracy :=
      WalkPassages(sortedPassages, progressMap);
    CompletedCountBound(BasicIds(sortedPassages), progressMap);
    PercentageBounds(completedPassages, totalPassages);
    var progressPercentage := if totalPassages > 0 then Round(completedPassages as real / totalPassages as real * 100.0) else 0;
    var averageAccuracy := if passagesWithAccuracy > 0 then Round(totalAccuracy as real / passagesWithAccuracy as real) else 0;
    s := PathProgress(path, totalPassages, completedPassages, progressPercentage, currentPassage, totalAttempts, averageAccuracy);
  }

  /**
   * The inner `for` loop over the sorted passages: counts completed passages,
   * attempts and positive best accuracies, and remembers the first
   * uncompleted passage whose predecessor is completed.
   */
  method WalkPassages(sortedPassages: seq<PassageBasic>, progressMap: ProgressMap)
    returns (completedPassages: nat, currentPassage: Option<int>, totalAttempts: int, totalAccuracy: int, passagesWithAccuracy: nat)
    ensures var ids := BasicIds(sortedPassages);
      && completedPassages == CompletedCount(ids, progressMap)
      && totalAttempts == AttemptTotal(ids, progressMap)
      && totalAccuracy == AccuracyTotal(ids, progressMap)
      && passagesWithAccuracy == AccuracyCount(ids, progressMap)
      && currentPassage == (match FirstOpen(ids, progressMap) case None => None case Some(k) => Some(sortedPassages[k].difficultyOrder))
  {
    completedPassages, currentPassage, totalAttempts, totalAccuracy, passagesWithAccuracy := 0, None, 0, 0, 0;
    ghost var ids := BasicIds(sortedPassages);
    for i := 0 to |sortedPassages|
      invariant completedPassages == CompletedCount(ids[..i], progressMap)
      invariant totalAttempts == AttemptTotal(ids[..i], progressMap)
      invariant totalAccuracy == AccuracyTotal(ids[..i], progressMap)
      invariant passagesWithAccuracy == AccuracyCount(ids[..i], progressMap)
      invariant currentPassage ==
        (match FirstOpen(ids[..i], progressMap) case None => None case Some(k) => Some(sortedPassages[k].difficultyOrder))
    {
      var passage := sortedPassages[i];
      PrefixStep(ids, progressMap, i);
      if passage.id in progressMap {
        var progress := progressMap[passage.id];
        totalAttempts := totalAttempts + progress.attempts.GetOr(0);
        if progress.bestAccuracy.Some? && progress.bestAccuracy.value > 0 {
          totalAccuracy := totalAccuracy + progress.bestAccuracy.value;
          passagesWithAccuracy := passagesWithAccuracy + 1;
        }
      }
      if passage.id in progressMap && progressMap[passage.id].completed {
        completedPassages := completedPassages + 1;
      } else if currentPassage.None? {
        FirstOpenIsFound(ids, i, progressMap);
        var previousPassageIndex := FindIndex(BasicIds(sortedPassages), passage.id) - 1;
        if previousPassageIndex < 0 {
          currentPassage := Some(passage.difficultyOrder);
        } else {
          var previousPassage := sortedPassages[previousPassageIndex];
          if previousPassage.id in progressMap && progressMap[previousPassage.id].completed {
            currentPassage := Some(passage.difficultyOrder);
          }
        }
      }
    }
    assert ids[..|sortedPassages|] == ids;
  }

  /**
   * At the first uncompleted passage every earlier passage is completed, so
   * it cannot share its id with an earlier one: `findIndex` finds it in place.
   */
  lemma FirstOpenIsFound(ids: seq<string>, i: nat, pm: ProgressMap)
    requires i < |ids| && !Done(pm, ids[i])
    requires FirstOpen(ids[..i], pm).None?
    ensures FindIndex(ids, ids[i]) == i
    ensures i > 0 ==> Done(pm, ids[i - 1])
  {
    assert forall j :: 0 <= j < i ==> ids[..i][j] == ids[j];
    assert forall j :: 0 <= j < i ==> Done(pm, ids[j]);
  }

  /**
   * `getUserPathsProgress` after its two queries: one entry per distinct path,
   * in order of first appearance, each summarising that path's passages
   * against the user's progress rows.
   */
  method GetUserPathsProgress(allPassages: seq<PassageBasic>, userProgress: seq<ProgressRow>)
    returns (pathProgressArray: seq<PathProgress>)
    ensures |pathProgressArray| == |DistinctPaths(allPassages)|
    ensures forall k :: 0 <= k < |pathProgressArray| ==>
      var path := DistinctPaths(allPassages)[k];
      && Summarizes(pathProgressArray[k], path, WithPath(allPassages, path), ProgressMapOf(userProgress))
      && pathProgressArray[k].completedPassages <= pathProgressArray[k].totalPassages
      && 0 <= pathProgressArray[k].progressPercentage <= 100
  {
    var progressMap := BuildProgressMap(userProgress);
    var order, pathGroups := GroupByPath(allPassages);
    pathProgressArray := [];
    for k := 0 to |order|
      invariant |pathProgressArray| == k
      invariant forall j :: 0 <= j < k ==> Entry(pathProgressArray[j], order[j], allPassages, progressMap)
    {
      var path := order[k];
      var s := SummarizePath(path, pathGroups[path], progressMap);
      pathProgressArray := pathProgressArray + [s];
    }
  }

  /** One entry of `getUserPathsProgress`'s result for `path`, with the bounds it keeps. */
  predicate Entry(s: PathProgress, path: string, allPassages: seq<PassageBasic>, pm: ProgressMap)
  {
    && Summarizes(s, path, WithPath(allPassages, path), pm)
    && s.completedPassages <= s.totalPassages
    && 0 <= s.progressPercentage <= 100
  }

  /* ---------------------------------------------------- aggregate lemmas */

  lemma {:induction false} CompletedCountBound(ids: seq<string>, pm: ProgressMap)
    ensures CompletedCount(ids, pm) <= |ids|
    ensures CompletedCount(ids, pm) == |ids| <==> FirstOpen(ids, pm).None?
  {
    if ids != [] {
      CompletedCountBound(ids[..|ids| - 1], pm);
    }
  }

  /** The percentage lies in 0..100; it is 100 when every passage is completed and 0 when none is. */
  lemma PercentageBounds(completed: nat, total: nat)
    requires completed <= total
    ensures 0 <= Percentage(completed, total) <= 100
    ensures 0 < total == completed ==> Percentage(completed, total) == 100
    ensures completed == 0 ==> Percentage(completed, total) == 0
  {
    if total > 0 {
      var x := completed as real / total as real;
      QuotientBetween(completed as real, total as real, 0.0, 1.0);
      RoundBetween(x * 100.0, 0, 100);
      if completed == total {
        QuotientBetween(completed as real, total as real, 1.0, 1.0);
        RoundOfInt(100);
      }
      if completed == 0 {
        RoundOfInt(0);
      }
    }
  }

  /** Accuracies of at most 100 average to an integer in 1..100 (or 0 when none counts). */
  lemma {:induction false} AccuracySums(ids: seq<string>, pm: ProgressMap)
    requires forall id :: id in pm && pm[id].bestAccuracy.Some? ==> pm[id].bestAccuracy.value <= 100
    ensures AccuracyCount(ids, pm) <= AccuracyTotal(ids, pm) <= 100 * AccuracyCount(ids, pm)
  {
    if ids != [] {
      AccuracySums(ids[..|ids| - 1], pm);
    }
  }

  lemma AverageBounds(ids: seq<string>, pm: ProgressMap)
    requires forall id :: id in pm && pm[id].bestAccuracy.Some? ==> pm[id].bestAccuracy.value <= 100
    ensures var avg := Average(AccuracyTotal(ids, pm), AccuracyCount(ids, pm));
      if AccuracyCount(ids, pm) > 0 then 1 <= avg <= 100 else avg == 0
  {
    AccuracySums(ids, pm);
    var total, count := AccuracyTotal(ids, pm), AccuracyCount(ids, pm);
    if count > 0 {
      QuotientBetween(total as real, count as real, 1.0, 100.0);
      RoundBetween(total as real / count as real, 1, 100);
    }
  }

  /**
   * Because the passages are sorted, the current passage is the lowest
   * difficulty among the uncompleted ones, and there is one exactly when
   * some passage is not completed.
   */
  lemma CurrentIsLeastOpenOrder(s: PathProgress, path: string, passages: seq<PassageBasic>, pm: ProgressMap)
    requires Summarizes(s, path, passages, pm)
    ensures s.currentPassage.None? <==> forall q :: q in passages ==> Done(pm, q.id)
    ensures s.currentPassage.Some? ==>
      && (exists q :: q in passages && !Done(pm, q.id) && q.difficultyOrder == s.currentPassage.value)
      && forall q :: q in passages && !Done(pm, q.id) ==> s.currentPassage.value <= q.difficultyOrder
  {
    var sorted := SortByOrder(passages);
    SortedSameMembers(passages);
    SortByOrderCorrect(passages);
    var ids := BasicIds(sorted);
    match FirstOpen(ids, pm)
    case None =>
      NoneOpen(sorted, pm);
    case Some(k) =>
      assert sorted[k] in sorted;
      LeastOpen(sorted, pm, k);
  }

  /** Sorting keeps exactly the same passages. */
  lemma SortedSameMembers(passages: seq<PassageBasic>)
    ensures forall q :: q in passages <==> q in SortByOrder(passages)
  {
    SortByOrderCorrect(passages);
    forall q ensures q in passages <==> q in SortByOrder(passages) {
      assert q in passages <==> q in multiset(passages);
    }
  }

  /** With no open position, every passage of the list is completed. */
  lemma NoneOpen(ps: seq<PassageBasic>, pm: ProgressMap)
    requires FirstOpen(BasicIds(ps), pm).None?
    ensures forall q :: q in ps ==> Done(pm, q.id)
  {
    forall q | q in ps ensures Done(pm, q.id) {
      var j :| 0 <= j < |ps| && ps[j] == q;
      assert BasicIds(ps)[j] == q.id;
    }
  }

  /** In a sorted list, the first open position has the least order among the open passages. */
  lemma LeastOpen(ps: seq<PassageBasic>, pm: ProgressMap, k: nat)
    requires SortedByOrder(ps) && FirstOpen(BasicIds(ps), pm) == Some(k)
    ensures k < |ps| && !Done(pm, ps[k].id)
    ensures forall q :: q in ps && !Done(pm, q.id) ==> ps[k].difficultyOrder <= q.difficultyOrder
  {
    var ids := BasicIds(ps);
    assert ids[k] == ps[k].id;
    forall q | q in ps && !Done(pm, q.id) ensures ps[k].difficultyOrder <= q.difficultyOrder {
      var j :| 0 <= j < |ps| && ps[j] == q;
      assert ids[j] == q.id;
      assert k <= j;
    }
  }

  /* ------------------------------------------------------ getPathProgress */

  /** The progress record `getPathProgress` attaches to a passage. */
  function PassageProgressOf(id: string, pm: ProgressMap): (r: PassageProgress)
    ensures r.passageId == id && r.isUnlocked
    ensures r.completed <==> Done(pm, id)
    ensures id !in pm ==> r.bestAccuracy.None? && r.attempts == 0
    ensures id in pm ==> r.attempts == pm[id].attempts.GetOr(0)
    ensures id in pm ==> r.bestAccuracy == if pm[id].bestAccuracy == Some(0) then None else pm[id].bestAccuracy
  {
    var hasRow := id in pm;
    PassageProgress(
      id,
      hasRow && pm[id].completed,
      // `progress?.best_accuracy || null`: a best accuracy of 0 is falsy and becomes null
      if hasRow && pm[id].bestAccuracy.Some? && pm[id].bestAccuracy.value != 0 then pm[id].bestAccuracy else None,
      if hasRow then pm[id].attempts.GetOr(0) else 0,
      true)
  }

  /** A recorded best accuracy of 0 is reported as no best accuracy at all. */
  lemma ZeroBestReportedAsNull(id: string, pm: ProgressMap)
    requires id in pm && pm[id].bestAccuracy == Some(0)
    ensures PassageProgressOf(id, pm).bestAccuracy.None?
  {
  }

  /**
   * `getPathProgress` after its queries: null when the path has no passages,
   * otherwise every passage with its progress, all unlocked.
   */
  function GetPathProgress(pathId: string, passages: seq<Passage>, userProgress: seq<ProgressRow>): (r: Option<PathWithPassages>)
    ensures r.None? <==> passages == []
    ensures r.Some? ==> r.value.path == pathId && |r.value.passages| == |passages|
    ensures r.Some? ==> forall k :: 0 <= k < |passages| ==>
      && r.value.passages[k].passage == passages[k]
      && r.value.passages[k].progress.passageId == passages[k].id
      && r.value.passages[k].progress.isUnlocked
      && (r.value.passages[k].progress.completed <==> Done(ProgressMapOf(userProgress), passages[k].id))
    ensures r.Some? ==> forall k :: 0 <= k < |passages| ==>
      r.value.passages[k].progress == PassageProgressOf(passages[k].id, ProgressMapOf(userProgress))
  {
    if passages == [] then None
    else
      var progressMap := ProgressMapOf(userProgress);
      Some(PathWithPassages(pathId, seq(|passages|, k requires 0 <= k < |passages| =>
        PassageWithProgress(passages[k], PassageProgressOf(passages[k].id, progressMap)))))
  }

  function CompletedFlags(ps: seq<PassageWithProgress>): nat
  {
    if ps == [] then 0
    else CompletedFlags(ps[..|ps| - 1]) + (if ps[|ps| - 1].progress.completed then 1 else 0)
  }

  /** The detailed view of a path marks as completed as many passages as the overview counts. */
  lemma {:induction false} DetailAgreesWithOverview(pathId: string, passages: seq<Passage>, userProgress: seq<ProgressRow>)
    requires passages != []
    ensures CompletedFlags(GetPathProgress(pathId, passages, userProgress).value.passages)
         == CompletedCount(PassageIds(passages), ProgressMapOf(userProgress))
    decreases |passages|
  {
    var pm := ProgressMapOf(userProgress);
    var init := passages[..|passages| - 1];
    var detail := GetPathProgress(pathId, passages, userProgress).value.passages;
    assert PassageIds(passages)[..|passages| - 1] == PassageIds(init);
    if init != [] {
      DetailAgreesWithOverview(pathId, init, userProgress);
      assert detail[..|passages| - 1] == GetPathProgress(pathId, init, userProgress).value.passages;
    }
  }

  /* ----------------------------------------------- next-passage lookups */

  /**
   * `getNextUnlockedPassage`: the id of the first passage of the path, in
   * difficulty order, that is not completed; null when every passage is, or
   * when the path has none.
   */
  method GetNextUnlockedPassage(pathId: string, passages: seq<Passage>, userProgress: seq<ProgressRow>) returns (next: Option<string>)
    ensures next == match FirstOpen(PassageIds(passages), ProgressMapOf(userProgress))
                    case None => None
                    case Some(k) => Some(passages[k].id)
  {
    var pathProgress := GetPathProgress(pathId, passages, userProgress);
    if pathProgress.None? {
      return None;
    }
    var ps := pathProgress.value.passages;
    ghost var ids := PassageIds(passages);
    ghost var pm := ProgressMapOf(userProgress);
    for i := 0 to |ps|
      invariant forall j :: 0 <= j < i ==> Done(pm, ids[j])
    {
      if !ps[i].progress.completed {
        FirstOpenAt(ids, pm, i);
        return Some(ps[i].passage.id);
      }
    }
    FirstOpenAt(ids, pm, |ids|);
    return None;
  }

  /** The first open passage is the first position where a scan finds one. */
  lemma FirstOpenAt(ids: seq<string>, pm: ProgressMap, i: nat)
    requires i <= |ids| && forall j :: 0 <= j < i ==> Done(pm, ids[j])
    ensures i < |ids| && !Done(pm, ids[i]) ==> FirstOpen(ids, pm) == Some(i)
    ensures i == |ids| ==> FirstOpen(ids, pm).None?
  {
  }

  /**
   * `getNextPassageAfter`: the passage following the first occurrence of
   * `currentPassageId`; null when the path is empty, the id is absent, or it
   * is the last passage.
   */
  function GetNextPassageAfter(pathId: string, passages: seq<Passage>, userProgress: seq<ProgressRow>,
                               currentPassageId: string): (next: Option<string>)
    ensures next.Some? <==> exists k :: 0 <= k < |passages| - 1 && passages[k].id == currentPassageId
    ensures next.Some? ==> next.value == passages[FindIndex(PassageIds(passages), currentPassageId) + 1].id
  {
    match GetPathProgress(pathId, passages, userProgress)
    case None => None
    case Some(pathProgress) =>
      var ps := pathProgress.passages;
      var currentIndex := FindIndex(PassageIds(passages), currentPassageId);
      if currentIndex == -1 then None
      else if currentIndex + 1 < |ps| then Some(ps[currentIndex + 1].passage.id)
      else None
  }

  /** With distinct ids, skipping from any passage but the last lands on the one after it. */
  lemma NextAfterWalksInOrder(pathId: string, passages: seq<Passage>, userProgress: seq<ProgressRow>, k: nat)
    requires forall i, j :: 0 <= i < j < |passages| ==> passages[i].id != passages[j].id
    requires k < |passages|
    ensures GetNextPassageAfter(pathId, passages, userProgress, passages[k].id) ==
      if k + 1 < |passages| then Some(passages[k + 1].id) else None
  {
    var r := FindIndex(PassageIds(passages), passages[k].id);
    assert PassageIds(passages)[k] == passages[k].id;
    assert r == k;
  }

  /* --------------------------------------------------------- path metadata */

  const DefaultDescription: string := "A collection of memorable passages"

  /** `getPathMetadata`: the fixed entry of a known path, otherwise a gray entry named after the id. */
  function GetPathMetadata(pathId: string): (m: PathMetadata)
    ensures m.color in {"emerald", "blue", "purple", "gray"}
    ensures m.color == "gray" <==> pathId !in KnownPaths
    ensures pathId !in KnownPaths ==> m == PathMetadata(pathId, DefaultDescription, "gray")
  {
    if pathId == "stoics" then
      PathMetadata("The Stoics", "Wisdom from Marcus Aurelius, Seneca, and Epictetus", "emerald")
    else if pathId == "founders" then
      PathMetadata("The Founders", "Founding documents and speeches of American democracy", "blue")
    else if pathId == "poets" then
      PathMetadata("The Poets", "Classic verses from Shakespeare, Dickinson, and Frost", "purple")
    else if pathId == "philosophers" then
      PathMetadata("The Philosophers", "Timeless insights on life, knowledge, and the examined mind", "emerald")
    else if pathId == "orators" then
      PathMetadata("The Orators", "Speeches that moved nations and changed history", "blue")
    else if pathId == "scriptures" then
      PathMetadata("The Scriptures", "Sacred wisdom across traditions", "purple")
    else if pathId == "novelists" then
      PathMetadata("The Novelists", "Immortal lines from classic literature", "emerald")
    else if pathId == "scientists" then
      PathMetadata("The Scientists", "The wonder of discovery in their own words", "blue")
    else if pathId == "warriors" then
      PathMetadata("The Warriors", "Strategy and wisdom from history's tacticians", "purple")
    else
      PathMetadata(pathId, DefaultDescription, "gray")
  }

  /** The nine paths of the catalogue, in the order both stores list them. */
  const KnownPaths: seq<string> :=
    ["stoics", "founders", "poets", "philosophers", "orators", "scriptures", "novelists", "scientists", "warriors"]
}
