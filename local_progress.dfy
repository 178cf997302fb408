/**
 * The anonymous progress store: a table from passage id to a record,
 * updated by `recordLocalProgress` and summarised per path over the fixed
 * catalogue of nine paths with twenty passages each.
 *
 * The table that the source loads from and saves back to `localStorage` is
 * the `passageProgress` field of a `LocalProgressStore` object; the clock
 * value stored as `lastAttemptDate` is a parameter.
 */
module LocalProgress {
  import opened Wrappers
  import opened JsMath
  import Progress

  /** Every path of `PATH_PASSAGE_COUNTS` has this many passages. */
  const PassagesPerPath: nat := 20

  datatype LocalRecord = LocalRecord(completed: bool, bestAccuracy: Option<int>, attempts: nat, lastAttemptDate: string)

  /* ------------------------------------------------------- passage ids */

  function DigitChar(d: nat): char
    requires d < 10
  {
    ('0' as int + d) as char
  }

  /** The decimal form of a number, as a template literal writes it. */
  function NatToString(n: nat): (s: string)
    ensures s != []
    decreases n
  {
    if n < 10 then [DigitChar(n)] else NatToString(n / 10) + [DigitChar(n % 10)]
  }

  predicate AllDigits(s: string) {
    forall i :: 0 <= i < |s| ==> '0' <= s[i] <= '9'
  }

  /** `parseInt` of a string of decimal digits. */
  function ParseDecimal(s: string): nat
    requires AllDigits(s)
  {
    if s == [] then 0 else ParseDecimal(s[..|s| - 1]) * 10 + (s[|s| - 1] as int - '0' as int)
  }

  /** Reading back the decimal form of a number gives the number. */
  lemma {:induction false} ParseNatToString(n: nat)
    ensures AllDigits(NatToString(n)) && ParseDecimal(NatToString(n)) == n
    decreases n
  {
    if n >= 10 {
      ParseNatToString(n / 10);
      var s := NatToString(n);
      assert s[..|s| - 1] == NatToString(n / 10);
    }
  }

  /** `${path}_${n}`. */
  function PassageId(path: string, n: nat): string
  {
    path + "_" + NatToString(n)
  }

  /** `s.split('_').pop()`: the text after the last `_`, or all of `s` when it has none. */
  function LastSegment(s: string): (r: string)
    ensures '_' !in r
  {
    if s == [] || s[|s| - 1] == '_' then [] else LastSegment(s[..|s| - 1]) + [s[|s| - 1]]
  }

  lemma {:induction false} LastSegmentOfJoin(prefix: string, segment: string)
    requires '_' !in segment
    ensures LastSegment(prefix + "_" + segment) == segment
    decreases |segment|
  {
    var s := prefix + "_" + segment;
    if segment != [] {
      var init := segment[..|segment| - 1];
      assert s[..|s| - 1] == prefix + "_" + init;
      LastSegmentOfJoin(prefix, init);
      assert segment == init + [segment[|segment| - 1]];
    } else {
      assert s[|s| - 1] == '_';
    }
  }

  /** The ids of passages 1..`total` of a path, in order. */
  function LocalIds(path: string, total: nat): (ids: seq<string>)
    ensures |ids| == total && forall k :: 0 <= k < total ==> ids[k] == PassageId(path, k + 1)
  {
    seq(total, k requires 0 <= k < total => PassageId(path, k + 1))
  }

  /* ------------------------------------------------------ path lookups */

  /** `PATH_PASSAGE_COUNTS[pathId]` read as an own property: the count of a known path. */
  function PathPassageCount(pathId: string): (count: Option<nat>)
    ensures count.Some? <==> pathId in Progress.KnownPaths
    ensures count.Some? ==> count.value == PassagesPerPath
  {
    if pathId in Progress.KnownPaths then Some(PassagesPerPath) else None
  }

  /** What a property read on a JavaScript object literal yields for a key. */
  datatype PropertyRead = OwnCount(count: nat) | InheritedMember | Undefined

  /** The members every object literal inherits from `Object.prototype`; all of them are truthy. */
  const InheritedNames: set<string> := {
    "constructor", "hasOwnProperty", "isPrototypeOf", "propertyIsEnumerable", "toLocaleString",
    "toString", "valueOf", "__proto__", "__defineGetter__", "__defineSetter__",
    "__lookupGetter__", "__lookupSetter__"}

  /** `PATH_PASSAGE_COUNTS[pathId]` as the language evaluates it, prototype chain included. */
  function ReadPathPassageCount(pathId: string): PropertyRead
  {
    if pathId in Progress.KnownPaths then OwnCount(PassagesPerPath)
    else if pathId in InheritedNames then InheritedMember
    else Undefined
  }

  /* ---------------------------------------------------- the update rule */

  /**
   * The record `recordLocalProgress` writes: completion is sticky, attempts
   * go up by one, and the best accuracy is the larger of the old and the new
   * unless the old one is null or 0 (falsy), when the new one replaces it.
   */
  function NextRecord(current: Option<LocalRecord>, accuracy: int, completed: bool, now: string): (r: LocalRecord)
    ensures r.attempts == (if current.Some? then current.value.attempts else 0) + 1
    ensures r.completed <==> completed || (current.Some? && current.value.completed)
    ensures r.lastAttemptDate == now
    ensures r.bestAccuracy.Some? && r.bestAccuracy.value >= accuracy
    ensures current.Some? && current.value.bestAccuracy.Some? && current.value.bestAccuracy.value != 0 ==>
      r.bestAccuracy.value >= current.value.bestAccuracy.value
    ensures current.None? || current.value.bestAccuracy.None? || current.value.bestAccuracy == Some(0) ==>
      r.bestAccuracy == Some(accuracy)
  {
    var cur := current.GetOr(LocalRecord(false, None, 0, now));
    LocalRecord(
      completed || cur.completed,
      if cur.bestAccuracy.Some? && cur.bestAccuracy.value != 0 then Some(Max(cur.bestAccuracy.value, accuracy)) else Some(accuracy),
      cur.attempts + 1,
      now)
  }

  function Lookup(table: map<string, LocalRecord>, passageId: string): Option<LocalRecord>
  {
    if passageId in table then Some(table[passageId]) else None
  }

  /** One attempt: `(accuracy, completed)`. */
  datatype Attempt = Attempt(accuracy: int, completed: bool)

  /** The record left by a series of attempts at one passage, starting with none. */
  function Replay(log: seq<Attempt>, now: string): Option<LocalRecord>
  {
    if log == [] then None
    else Some(NextRecord(Replay(log[..|log| - 1], now), log[|log| - 1].accuracy, log[|log| - 1].completed, now))
  }

  function MaxAccuracy(log: seq<Attempt>): int
    requires log != []
  {
    if |log| == 1 then log[0].accuracy else Max(MaxAccuracy(log[..|log| - 1]), log[|log| - 1].accuracy)
  }

  /**
   * After any series of attempts with accuracies of at least 0: the attempts
   * are counted, the passage is completed exactly when some attempt completed
   * it, and the best accuracy is the largest accuracy seen.
   */
  lemma {:induction false} ReplaySummary(log: seq<Attempt>, now: string)
    requires log != [] && forall i :: 0 <= i < |log| ==> log[i].accuracy >= 0
    ensures Replay(log, now).Some?
    ensures Replay(log, now).value.attempts == |log|
    ensures Replay(log, now).value.completed <==> exists i :: 0 <= i < |log| && log[i].completed
    ensures Replay(log, now).value.bestAccuracy == Some(MaxAccuracy(log))
  {
    var init := log[..|log| - 1];
    if init != [] {
      ReplaySummary(init, now);
      assert forall i :: 0 <= i < |init| ==> init[i] == log[i];
      if exists i :: 0 <= i < |log| && log[i].completed {
        var i :| 0 <= i < |log| && log[i].completed;
        if i < |init| {
          assert init[i].completed;
        }
      }
    }
  }

  /** A single update: one more attempt, sticky completion, and the best of the old best and the new accuracy. */
  lemma NextRecordEffect(current: Option<LocalRecord>, accuracy: int, completed: bool, now: string)
    requires accuracy >= 0
    requires current.Some? && current.value.bestAccuracy.Some? ==> current.value.bestAccuracy.value >= 0
    ensures var r := NextRecord(current, accuracy, completed, now);
      && r.attempts == (if current.Some? then current.value.attempts else 0) + 1
      && (r.completed <==> completed || (current.Some? && current.value.completed))
      && r.bestAccuracy == Some(
           if current.Some? && current.value.bestAccuracy.Some? then Max(current.value.bestAccuracy.value, accuracy)
           else accuracy)
  {
  }

  /* -------------------------------------------------- per-path summaries */

  /** The table as the server's progress map: attempts are never null here. */
  function AsProgressMap(table: map<string, LocalRecord>): Progress.ProgressMap
  {
    map id | id in table :: Progress.ProgressRow(id, table[id].completed, table[id].bestAccuracy, Some(table[id].attempts))
  }

  /** Each entry of the table appears in the progress map with the same flags. */
  lemma AsProgressMapAt(table: map<string, LocalRecord>, id: string)
    ensures id in AsProgressMap(table) <==> id in table
    ensures id in table ==>
      AsProgressMap(table)[id] == Progress.ProgressRow(id, table[id].completed, table[id].bestAccuracy, Some(table[id].attempts))
  {
  }

  /** The difficulty order of the first uncompleted passage of a path (passage ids count from 1). */
  function CurrentPassage(table: map<string, LocalRecord>, path: string, total: nat): Option<int>
  {
    match Progress.FirstOpen(LocalIds(path, total), AsProgressMap(table))
    case None => None
    case Some(k) => Some(k + 1)
  }

  /** The entry `getLocalPathsProgress` reports for a path of `total` passages. */
  predicate LocalSummarizes(s: Progress.PathProgress, table: map<string, LocalRecord>, path: string, total: nat)
  {
    var ids := LocalIds(path, total);
    var pm := AsProgressMap(table);
    && s.path == path
    && s.totalPassages == total
    && s.completedPassages == Progress.CompletedCount(ids, pm)
    && s.progressPercentage == Progress.Percentage(s.completedPassages, total)
    && s.totalAttempts == Progress.AttemptTotal(ids, pm)
    && s.averageAccuracy == Progress.Average(Progress.AccuracyTotal(ids, pm), Progress.AccuracyCount(ids, pm))
    && s.currentPassage == CurrentPassage(table, path, total)
  }

  /** The current passage is the smallest `n` in 1..`total` whose passage is not completed. */
  lemma CurrentIsSmallestOpen(table: map<string, LocalRecord>, path: string, total: nat)
    ensures CurrentPassage(table, path, total).None? <==>
      forall n :: 1 <= n <= total ==> Progress.Done(AsProgressMap(table), PassageId(path, n))
    ensures CurrentPassage(table, path, total).Some? ==>
      var n := CurrentPassage(table, path, total).value;
      && 1 <= n <= total
      && !Progress.Done(AsProgressMap(table), PassageId(path, n))
      && forall m :: 1 <= m < n ==> Progress.Done(AsProgressMap(table), PassageId(path, m))
  {
    var ids := LocalIds(path, total);
    if CurrentPassage(table, path, total).None? {
      forall n | 1 <= n <= total ensures Progress.Done(AsProgressMap(table), PassageId(path, n)) {
        assert ids[n - 1] == PassageId(path, n);
      }
    } else {
      var n := CurrentPassage(table, path, total).value;
      forall m | 1 <= m < n ensures Progress.Done(AsProgressMap(table), PassageId(path, m)) {
        assert ids[m - 1] == PassageId(path, m);
      }
    }
  }

  /** The view `getLocalPassageProgress` gives of one entry of the table. */
  function PassageProgressIn(table: map<string, LocalRecord>, passageId: string): (p: Progress.PassageProgress)
    ensures p.passageId == passageId && p.isUnlocked
    ensures passageId !in table ==> !p.completed && p.bestAccuracy.None? && p.attempts == 0
    ensures passageId in table ==>
      p.completed == table[passageId].completed && p.bestAccuracy == table[passageId].bestAccuracy
      && p.attempts == table[passageId].attempts
  {
    if passageId !in table then Progress.PassageProgress(passageId, false, None, 0, true)
    else
      var progress := table[passageId];
      Progress.PassageProgress(passageId, progress.completed, progress.bestAccuracy, progress.attempts, true)
  }

  /** Recording an attempt shows up as one more attempt on that passage and on no other. */
  lemma RecordThenRead(table: map<string, LocalRecord>, passageId: string, accuracy: int, completed: bool,
                       now: string, other: string)
    requires other != passageId
    ensures var after := table[passageId := NextRecord(Lookup(table, passageId), accuracy, completed, now)];
      && PassageProgressIn(after, passageId).attempts == PassageProgressIn(table, passageId).attempts + 1
      && (completed ==> PassageProgressIn(after, passageId).completed)
      && PassageProgressIn(after, other) == PassageProgressIn(table, other)
  {
  }

  /* --------------------------------------------------------- next lookups */

  /**
   * `getLocalNextPassageAfter` with the count read as an own property: for a
   * known path, the passage after the one whose id ends in `_k` is `k + 1`,
   * or null once `k` reaches the path's count; null for an unknown path.
   */
  function GetLocalNextPassageAfter(pathId: string, currentPassageId: string): (next: Option<int>)
    requires AllDigits(LastSegment(currentPassageId))
    ensures pathId !in Progress.KnownPaths ==> next.None?
    ensures next.Some? ==> 1 <= next.value <= PassagesPerPath
  {
    match PathPassageCount(pathId)
    case None => None
    case Some(totalPassages) =>
      var segment := LastSegment(currentPassageId);
      var currentOrder := ParseDecimal(if segment == [] then "0" else segment);
      if currentOrder >= totalPassages then None else Some(currentOrder + 1)
  }

  /** The last segment of `path_n` is the decimal form of `n`, and it parses back to `n`. */
  lemma SegmentOfPassageId(path: string, n: nat)
    ensures LastSegment(PassageId(path, n)) == NatToString(n)
    ensures AllDigits(NatToString(n)) && ParseDecimal(NatToString(n)) == n
  {
    var digits := NatToString(n);
    ParseNatToString(n);
    assert '_' !in digits by {
      assert forall i :: 0 <= i < |digits| ==> '0' <= digits[i] <= '9';
    }
    LastSegmentOfJoin(path, digits);
  }

  /** Skipping from passage `n` of a known path leads to passage `n + 1`, and from the last passage to none. */
  lemma NextAfterPassageId(path: string, n: nat)
    requires path in Progress.KnownPaths
    ensures AllDigits(LastSegment(PassageId(path, n)))
    ensures GetLocalNextPassageAfter(path, PassageId(path, n)) ==
      if n < PassagesPerPath then Some(n + 1) else None
  {
    SegmentOfPassageId(path, n);
    NextAfterOrder(path, PassageId(path, n));
  }

  /** For a known path, the lookup compares the parsed last segment with the path's count. */
  lemma NextAfterOrder(pathId: string, currentPassageId: string)
    requires pathId in Progress.KnownPaths
    requires AllDigits(LastSegment(currentPassageId)) && LastSegment(currentPassageId) != []
    ensures var order := ParseDecimal(LastSegment(currentPassageId));
      GetLocalNextPassageAfter(pathId, currentPassageId) == if order >= PassagesPerPath then None else Some(order + 1)
  {
    var segment := LastSegment(currentPassageId);
    var order := ParseDecimal(segment);
    assert (if segment == [] then "0" else segment) == segment;
    assert PathPassageCount(pathId) == Some(PassagesPerPath);
  }

  /**
   * `getLocalNextPassageAfter` as written: a path id naming an inherited
   * member passes the `!totalPassages` guard, `currentOrder >= totalPassages`
   * compares against NaN and is false, and the next order is returned.
   */
  function GetLocalNextPassageAfterAsWritten(pathId: string, currentPassageId: string): Option<int>
    requires AllDigits(LastSegment(currentPassageId))
  {
    var segment := LastSegment(currentPassageId);
    var currentOrder := ParseDecimal(if segment == [] then "0" else segment);
    match ReadPathPassageCount(pathId)
    case Undefined => None
    case InheritedMember => Some(currentOrder + 1)
    case OwnCount(totalPassages) => if currentOrder >= totalPassages then None else Some(currentOrder + 1)
  }

  /** The two readings agree on every path id that is not an inherited member name. */
  lemma AsWrittenAgreesOffPrototype(pathId: string, currentPassageId: string)
    requires AllDigits(LastSegment(currentPassageId)) && pathId !in InheritedNames
    ensures GetLocalNextPassageAfterAsWritten(pathId, currentPassageId) == GetLocalNextPassageAfter(pathId, currentPassageId)
  {
  }

  /** `"toString"` is not a path, yet the code as written offers passage 21 after `stoics_20`. */
  lemma PrototypeKeyEscapesGuard()
    ensures AllDigits(LastSegment(PassageId("stoics", 20)))
    ensures GetLocalNextPassageAfterAsWritten("toString", PassageId("stoics", 20)) == Some(21)
    ensures GetLocalNextPassageAfter("toString", PassageId("stoics", 20)).None?
  {
    assert "toString" !in Progress.KnownPaths && "toString" in InheritedNames;
    SegmentOfPassageId("stoics", 20);
    var segment := LastSegment(PassageId("stoics", 20));
    assert segment != [] && ParseDecimal(segment) == 20;
    assert ReadPathPassageCount("toString") == InheritedMember;
  }

  /* ----------------------------------------------------------- the store */

  class LocalProgressStore {
    /** `passageProgress` of the stored `LocalProgressData`. */
    var passageProgress: map<string, LocalRecord>

    /** A browser with nothing stored yet. */
    constructor ()
      ensures passageProgress == map[]
    {
      passageProgress := map[];
    }

    /** `recordLocalProgress(passageId, accuracy, completed)` at time `now`. */
    method RecordLocalProgress(passageId: string, accuracy: int, completed: bool, now: string)
      modifies this
      ensures passageProgress ==
        old(passageProgress)[passageId := NextRecord(Lookup(old(passageProgress), passageId), accuracy, completed, now)]
    {
      var current := Lookup(passageProgress, passageId);
      passageProgress := passageProgress[passageId := NextRecord(current, accuracy, completed, now)];
    }

    /**
     * `getLocalPathsProgress`: one entry per configured path, in catalogue
     * order, walking passages 1..20 of each.
     */
    method GetLocalPathsProgress() returns (pathProgressArray: seq<Progress.PathProgress>)
      ensures |pathProgressArray| == |Progress.KnownPaths|
      ensures forall k :: 0 <= k < |pathProgressArray| ==>
        && LocalSummarizes(pathProgressArray[k], passageProgress, Progress.KnownPaths[k], PassagesPerPath)
        && pathProgressArray[k].completedPassages <= pathProgressArray[k].totalPassages == PassagesPerPath
        && 0 <= pathProgressArray[k].progressPercentage <= 100
    {
      var data := passageProgress;
      pathProgressArray := [];
      for k := 0 to |Progress.KnownPaths|
        invariant |pathProgressArray| == k
        invariant forall j :: 0 <= j < k ==>
          && LocalSummarizes(pathProgressArray[j], passageProgress, Progress.KnownPaths[j], PassagesPerPath)
          && pathProgressArray[j].completedPassages <= pathProgressArray[j].totalPassages == PassagesPerPath
          && 0 <= pathProgressArray[j].progressPercentage <= 100
      {
        var s := SummarizeLocalPath(data, Progress.KnownPaths[k], PassagesPerPath);
        pathProgressArray := pathProgressArray + [s];
      }
    }

    /** `getLocalPassageProgress(passageId)`. */
    function GetLocalPassageProgress(passageId: string): (p: Progress.PassageProgress)
      reads this
      ensures p.passageId == passageId && p.isUnlocked
      ensures passageId !in passageProgress ==> !p.completed && p.bestAccuracy.None? && p.attempts == 0
      ensures passageId in passageProgress ==>
        && p.completed == passageProgress[passageId].completed
        && p.bestAccuracy == passageProgress[passageId].bestAccuracy
        && p.attempts == passageProgress[passageId].attempts
    {
      PassageProgressIn(passageProgress, passageId)
    }

    /** `hasLocalProgress()`: some passage has a record. */
    function HasLocalProgress(): (has: bool)
      reads this
      ensures has <==> exists id :: id in passageProgress
    {
      assert passageProgress != map[] ==> exists id :: id in passageProgress by {
        if passageProgress != map[] {
          var id :| id in passageProgress.Keys;
        }
      }
      |passageProgress| > 0
    }

    /**
     * `getLocalNextUnlockedPassage(pathId)`: the first passage of a known
     * path that is not completed, the same as that path's current passage;
     * null for an unknown path or a path completed throughout.
     */
    method GetLocalNextUnlockedPassage(pathId: string) returns (next: Option<int>)
      ensures pathId !in Progress.KnownPaths ==> next.None?
      ensures pathId in Progress.KnownPaths ==> next == CurrentPassage(passageProgress, pathId, PassagesPerPath)
    {
      var count := PathPassageCount(pathId);
      if count.None? {
        return None;
      }
      var totalPassages := count.value;
      ghost var ids := LocalIds(pathId, totalPassages);
      ghost var pm := AsProgressMap(passageProgress);
      var difficultyOrder := 1;
      while difficultyOrder <= totalPassages
        invariant 1 <= difficultyOrder <= totalPassages + 1
        invariant forall j :: 0 <= j < difficultyOrder - 1 ==> Progress.Done(pm, ids[j])
      {
        var passageId := PassageId(pathId, difficultyOrder);
        AsProgressMapAt(passageProgress, passageId);
        if !(passageId in passageProgress && passageProgress[passageId].completed) {
          Progress.FirstOpenAt(ids, pm, difficultyOrder - 1);
          return Some(difficultyOrder);
        }
        difficultyOrder := difficultyOrder + 1;
      }
      Progress.FirstOpenAt(ids, pm, totalPassages);
      return None;
    }

    /** `clearLocalProgress()`: the stored table is removed. */
    method ClearLocalProgress()
      modifies this
      ensures passageProgress == map[]
    {
      passageProgress := map[];
    }
  }

  /** The body of the outer loop of `getLocalPathsProgress` for one path. */
  method SummarizeLocalPath(data: map<string, LocalRecord>, path: string, totalPassages: nat) returns (s: Progress.PathProgress)
    ensures LocalSummarizes(s, data, path, totalPassages)
    ensures s.completedPassages <= s.totalPassages && 0 <= s.progressPercentage <= 100
  {
    var completedPassages, currentPassage, totalAttempts, totalAccuracy, passagesWithAccuracy :=
      WalkLocalPath(data, AsProgressMap(data), path, totalPassages);
    Progress.CompletedCountBound(LocalIds(path, totalPassages), AsProgressMap(data));
    Progress.PercentageBounds(completedPassages, totalPassages);
    var progressPercentage := if totalPassages > 0 then Round(completedPassages as real / totalPassages as real * 100.0) else 0;
    var averageAccuracy := if passagesWithAccuracy > 0 then Round(totalAccuracy as real / passagesWithAccuracy as real) else 0;
    s := Progress.PathProgress(path, totalPassages, completedPassages, progressPercentage, currentPassage,
                               totalAttempts, averageAccuracy);
  }

  /**
   * The inner loop of `getLocalPathsProgress`: walks passages 1..`totalPassages`
   * of the path, counting, and remembering the first uncompleted passage
   * that is unlocked.
   */
  method WalkLocalPath(data: map<string, LocalRecord>, ghost pm: Progress.ProgressMap, path: string, totalPassages: nat)
    returns (completedPassages: nat, currentPassage: Option<int>, totalAttempts: int, totalAccuracy: int, passagesWithAccuracy: nat)
    requires pm == AsProgressMap(data)
    ensures var ids := LocalIds(path, totalPassages);
      && completedPassages == Progress.CompletedCount(ids, pm)
      && totalAttempts == Progress.AttemptTotal(ids, pm)
      && totalAccuracy == Progress.AccuracyTotal(ids, pm)
      && passagesWithAccuracy == Progress.AccuracyCount(ids, pm)
      && currentPassage == (match Progress.FirstOpen(ids, pm) case None => None case Some(k) => Some(k + 1))
  {
    completedPassages, currentPassage, totalAttempts, totalAccuracy, passagesWithAccuracy := 0, None, 0, 0, 0;
    ghost var ids := LocalIds(path, totalPassages);

    var difficultyOrder := 1;
    while difficultyOrder <= totalPassages
      invariant 1 <= difficultyOrder <= totalPassages + 1
      invariant Tallies(ids[..difficultyOrder - 1], pm, completedPassages, currentPassage, totalAttempts, totalAccuracy, passagesWithAccuracy)
    {
      completedPassages, currentPassage, totalAttempts, totalAccuracy, passagesWithAccuracy :=
        VisitLocalPassage(data, pm, path, totalPassages, difficultyOrder,
                          completedPassages, currentPassage, totalAttempts, totalAccuracy, passagesWithAccuracy);
      difficultyOrder := difficultyOrder + 1;
    }
    assert ids[..totalPassages] == ids;
  }

  /** The running totals of `getLocalPathsProgress` after walking `ids`. */
  ghost predicate Tallies(ids: seq<string>, pm: Progress.ProgressMap, completedPassages: nat, currentPassage: Option<int>,
                          totalAttempts: int, totalAccuracy: int, passagesWithAccuracy: nat)
  {
    && completedPassages == Progress.CompletedCount(ids, pm)
    && totalAttempts == Progress.AttemptTotal(ids, pm)
    && totalAccuracy == Progress.AccuracyTotal(ids, pm)
    && passagesWithAccuracy == Progress.AccuracyCount(ids, pm)
    && currentPassage == (match Progress.FirstOpen(ids, pm) case None => None case Some(k) => Some(k + 1))
  }

  /** One iteration of the inner loop of `getLocalPathsProgress`: passage `difficultyOrder` of the path. */
  method VisitLocalPassage(data: map<string, LocalRecord>, ghost pm: Progress.ProgressMap, path: string, totalPassages: nat,
                           difficultyOrder: nat, completed0: nat, current0: Option<int>, attempts0: int, accuracy0: int, withAccuracy0: nat)
    returns (completedPassages: nat, currentPassage: Option<int>, totalAttempts: int, totalAccuracy: int, passagesWithAccuracy: nat)
    requires pm == AsProgressMap(data) && 1 <= difficultyOrder <= totalPassages
    requires Tallies(LocalIds(path, totalPassages)[..difficultyOrder - 1], pm, completed0, current0, attempts0, accuracy0, withAccuracy0)
    ensures Tallies(LocalIds(path, totalPassages)[..difficultyOrder], pm, completedPassages, currentPassage, totalAttempts, totalAccuracy, passagesWithAccuracy)
  {
    ghost var ids := LocalIds(path, totalPassages);
    completedPassages, currentPassage, totalAttempts, totalAccuracy, passagesWithAccuracy := completed0, current0, attempts0, accuracy0, withAccuracy0;
    var passageId := PassageId(path, difficultyOrder);
    Progress.PrefixStep(ids, pm, difficultyOrder - 1);
    AsProgressMapAt(data, passageId);
    if passageId in data {
      var progress := data[passageId];
      totalAttempts := totalAttempts + progress.attempts;
      if progress.bestAccuracy.Some? && progress.bestAccuracy.value > 0 {
        totalAccuracy := totalAccuracy + progress.bestAccuracy.value;
        passagesWithAccuracy := passagesWithAccuracy + 1;
      }
    }
    if passageId in data && data[passageId].completed {
      completedPassages := completedPassages + 1;
    } else if currentPassage.None? {
      PreviousIsCompleted(ids, pm, difficultyOrder, path);
      var unlocked := IsUnlocked(data, path, difficultyOrder);
      if unlocked {
        currentPassage := Some(difficultyOrder);
      }
    }
  }

  /**
   * The unlock test of `getLocalPathsProgress`, written out twice there:
   * the first passage, or one whose predecessor's record is completed.
   * It passes exactly for the first passage or after a completed one.
   */
  method IsUnlocked(data: map<string, LocalRecord>, path: string, difficultyOrder: nat) returns (unlocked: bool)
    requires difficultyOrder >= 1
    ensures unlocked <==> difficultyOrder == 1 || Progress.Done(AsProgressMap(data), PassageId(path, difficultyOrder - 1))
  {
    var isFirstPassage := difficultyOrder == 1;
    var previousPassageId := PassageId(path, difficultyOrder - 1);
    AsProgressMapAt(data, previousPassageId);
    var isPreviousCompleted := previousPassageId in data && data[previousPassageId].completed;
    unlocked := isFirstPassage || isPreviousCompleted;
  }

  /**
   * At the first uncompleted passage every earlier one is completed, so the
   * unlock test (first passage, or previous completed) always passes.
   */
  lemma PreviousIsCompleted(ids: seq<string>, pm: Progress.ProgressMap, n: nat, path: string)
    requires 1 <= n <= |ids| && forall k :: 0 <= k < |ids| ==> ids[k] == PassageId(path, k + 1)
    requires Progress.FirstOpen(ids[..n - 1], pm).None?
    ensures n > 1 ==> Progress.Done(pm, PassageId(path, n - 1))
  {
    if n > 1 {
      assert ids[..n - 1][n - 2] == ids[n - 2];
    }
  }
}
