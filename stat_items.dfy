/**
 * The `stat_items` tool. Every item's promise pushes its record onto one
 * shared list when it completes, so the list is in completion order; the
 * final in-place sort by input position puts it back in input order.
 */
module StatItems {
  import opened Common
  import opened PathUtils
  import opened BatchOrder
  import opened StatsUtils

  datatype Status = Success | Error

  datatype StatResult = StatResult(path: string, status: Status, stats: Option<FormattedStats>, error: Option<string>)

  const PathNotFound := "Path not found"

  /**
   * What item `p` pushes, given what `fs.stat` does for it. A rejection
   * with `null` or `undefined` makes reading `.code` throw inside the
   * `catch` block: the promise rejects and nothing is pushed.
   */
  function StatOne(root: seq<string>, p: string, stat: Outcome<Stats>): (r: Option<StatResult>)
    requires ValidRoot(root)
    ensures r.None? <==> ResolvePath(root, JStr(p)).Ok? && stat == Fails(Nullish)
    ensures r.Some? ==> r.value.path == NormalizeSlashes(p)
    ensures r.Some? ==> (r.value.status == Success <==> ResolvePath(root, JStr(p)).Ok? && stat.Done?)
    ensures r.Some? ==> (r.value.stats.Some? <==> r.value.status == Success)
    ensures r.Some? ==> (r.value.error.Some? <==> r.value.status == Error)
    ensures r.Some? && r.value.status == Success ==>
      r.value.stats == Some(FormatStats(p, ResolvePath(root, JStr(p)).value, stat.value))
    ensures ResolvePath(root, JStr(p)).Err? ==> r.Some? && r.value.error == Some(ErrorMessage(ResolvePath(root, JStr(p)).error))
    ensures ResolvePath(root, JStr(p)).Ok? && stat.Fails? && stat.err.Errno? && stat.err.code == "ENOENT" ==>
      r.Some? && r.value.error == Some(PathNotFound)
  {
    var pathOutput := NormalizeSlashes(p);
    var target := ResolvePath(root, JStr(p));
    if target.Ok? && stat.Done? then
      Some(StatResult(pathOutput, Success, Some(FormatStats(p, target.value, stat.value)), None))
    else
      var thrown := if target.Err? then FromResolve(target.error) else FromFs(stat.err);
      match HasCode(thrown, "ENOENT")
      case None => None
      case Some(true) => Some(StatResult(pathOutput, Error, None, Some(PathNotFound)))
      case Some(false) =>
        if thrown.FromResolve? then Some(StatResult(pathOutput, Error, None, Some(ErrorMessage(thrown.err))))
        else Some(StatResult(pathOutput, Error, None, Some("Failed to get stats: " + MessageOf(thrown))))
  }

  /** Item `i`'s push, for the handler's inputs. */
  function Item(root: seq<string>, paths: seq<string>, stat: nat -> Outcome<Stats>): nat -> Option<StatResult>
    requires ValidRoot(root)
  {
    (i: nat) => if i < |paths| then StatOne(root, paths[i], stat(i)) else None
  }

  /** The records in input order: what a sequential run would push. */
  function InputOrdered(root: seq<string>, paths: seq<string>, stat: nat -> Outcome<Stats>): seq<StatResult>
    requires ValidRoot(root)
  {
    Collect(Range(|paths|), Item(root, paths, stat))
  }

  /** The comparator key: the input position of a record's path. */
  function Key(paths: seq<string>): StatResult -> int
  {
    (r: StatResult) => IndexOf(paths, r.path)
  }

  /** `order` lists every item number below `n` exactly once. */
  predicate Completion(order: seq<nat>, n: nat)
  {
    multiset(order) == multiset(Range(n))
  }

  /**
   * `handleStatItems`: validate `paths`, push each item's record in the
   * completion order `order`, then sort by input position.
   */
  method HandleStatItems(root: seq<string>, args: Json, stat: nat -> Outcome<Stats>, order: seq<nat>)
    returns (r: Result<seq<StatResult>>)
    requires ValidRoot(root)
    requires NonEmptyStringArray(Field(args, "paths")).Some? ==>
      Completion(order, |NonEmptyStringArray(Field(args, "paths")).value|)
    ensures r.Err? <==> NonEmptyStringArray(Field(args, "paths")).None?
    ensures r.Err? ==> r.error == InvalidPaths
    ensures r.Ok? ==>
      var paths := NonEmptyStringArray(Field(args, "paths")).value;
      && r.value == SortBy(Collect(order, Item(root, paths, stat)), Key(paths))
      && multiset(r.value) == multiset(InputOrdered(root, paths, stat))
    ensures r.Ok? ==>
      var paths := NonEmptyStringArray(Field(args, "paths")).value;
      (forall i :: 0 <= i < |paths| ==> stat(i) != Fails(Nullish)) ==> |r.value| == |paths|
    ensures r.Ok? ==>
      var paths := NonEmptyStringArray(Field(args, "paths")).value;
      Distinct(paths) && NoBackslash(paths) ==> r.value == InputOrdered(root, paths, stat)
  {
    var arg := NonEmptyStringArray(Field(args, "paths"));
    if arg.None? {
      return Err(InvalidPaths);
    }
    var paths := arg.value;
    var results := PushAll(root, paths, stat, order);
    var sorted := SortedCopy(results, Key(paths));
    SortedFacts(root, paths, stat, order);
    return Ok(sorted);
  }

  /**
   * The sorted records hold the records a sequential run would push; one
   * per path when no `stat` rejects with `null`, and in input order when
   * the paths are distinct and free of backslashes.
   */
  lemma SortedFacts(root: seq<string>, paths: seq<string>, stat: nat -> Outcome<Stats>, order: seq<nat>)
    requires ValidRoot(root) && Completion(order, |paths|)
    ensures var sorted := SortBy(Collect(order, Item(root, paths, stat)), Key(paths));
      && multiset(sorted) == multiset(InputOrdered(root, paths, stat))
      && ((forall i :: 0 <= i < |paths| ==> stat(i) != Fails(Nullish)) ==> |sorted| == |paths|)
      && (Distinct(paths) && NoBackslash(paths) ==> sorted == InputOrdered(root, paths, stat))
  {
    var f := Item(root, paths, stat);
    var pushed := Collect(order, f);
    var sorted := SortBy(pushed, Key(paths));
    var inputOrdered := InputOrdered(root, paths, stat);
    assert multiset(sorted) == multiset(inputOrdered) by {
      SortByFacts(pushed, Key(paths));
      CollectPermutation(order, Range(|paths|), f);
    }
    if forall i :: 0 <= i < |paths| ==> stat(i) != Fails(Nullish) {
      EveryItemPushes(root, paths, stat);
      assert |multiset(sorted)| == |multiset(inputOrdered)|;
    }
    if Distinct(paths) && NoBackslash(paths) {
      InputOrder(root, paths, stat, order);
    }
  }

  /** The `Promise.all` over the items: each pushes its record when it completes. */
  method PushAll(root: seq<string>, paths: seq<string>, stat: nat -> Outcome<Stats>, order: seq<nat>)
    returns (results: seq<StatResult>)
    requires ValidRoot(root)
    requires Completion(order, |paths|)
    ensures results == Collect(order, Item(root, paths, stat))
  {
    results := [];
    var k := 0;
    while k < |order|
      invariant 0 <= k <= |order|
      invariant results == Collect(order[..k], Item(root, paths, stat))
    {
      var i := order[k];
      assert i < |paths| by {
        assert i in multiset(Range(|paths|));
      }
      var pushed := StatOne(root, paths[i], stat(i));
      CollectNext(order, k, Item(root, paths, stat));
      if pushed.Some? {
        results := results + [pushed.value];
      }
      k := k + 1;
    }
    assert order[..k] == order;
  }

  /** Without `null` rejections, every item pushes exactly one record. */
  lemma EveryItemPushes(root: seq<string>, paths: seq<string>, stat: nat -> Outcome<Stats>)
    requires ValidRoot(root)
    requires forall i :: 0 <= i < |paths| ==> stat(i) != Fails(Nullish)
    ensures |InputOrdered(root, paths, stat)| == |paths|
  {
    CollectAll(Range(|paths|), Item(root, paths, stat));
  }

  /**
   * For distinct inputs without backslashes, sorting the records of any
   * completion order gives the records in input order.
   */
  lemma InputOrder(root: seq<string>, paths: seq<string>, stat: nat -> Outcome<Stats>, order: seq<nat>)
    requires ValidRoot(root) && Distinct(paths) && NoBackslash(paths) && Completion(order, |paths|)
    ensures SortBy(Collect(order, Item(root, paths, stat)), Key(paths)) == InputOrdered(root, paths, stat)
  {
    var f := Item(root, paths, stat);
    forall i: nat | i < |paths| && f(i).Some?
      ensures Key(paths)(f(i).value) == i
    {
      var one := StatOne(root, paths[i], stat(i));
      assert f(i) == one;
      NormalizeSlashesIdentity(paths[i]);
      assert one.value.path == paths[i];
      IndexOfDistinct(paths, i);
    }
    CollectPositions(|paths|, f, Key(paths));
    CollectPermutation(order, Range(|paths|), f);
    RestoresOrder(InputOrdered(root, paths, stat), Collect(order, f), Key(paths));
  }
}
