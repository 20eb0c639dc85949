/**
 * The retention sweep of the later rotator that `tests/command/test_rotate.py`
 * exercises: a rotator built on a given store client, with `delete_old`,
 * `compress_old` and `optimize_old` switches, whose `for_old_indices` walks the
 * store's index names in sorted order and acts on each index of the family
 * dated strictly before `now - maxAge`; a rotation runs the optimize pass, then
 * the compress pass, then the delete pass, each only when switched on.
 */
module Retention {
  import opened Wrappers
  import opened Calendar
  import opened DateFormat
  import opened Names
  import opened Store
  import opened Order
  import Daily = Rotate

  const DefaultDeleteMaxAge: nat := 31
  const DefaultCompressMaxAge: nat := 1
  const DefaultOptimizeMaxAge: nat := 1
  /** The optimize pass force-merges each old index down to this many segments. */
  const OptimizeMaxNumSegments: nat := 1

  /** An index dated `indexDate` (at midnight) is old when it lies strictly before `now - maxAge` days. */
  predicate IsEligible(indexDate: Date, now: Instant, maxAge: nat)
    requires ValidDate(indexDate) && ValidInstant(now)
  {
    Timestamp(Midnight(indexDate)) < Timestamp(now) - maxAge * MicrosPerDay
  }

  /**
   * The cutoff in whole days: an index is old when it is more than `maxAge` days
   * older than today, or exactly `maxAge` days older once today's midnight has passed.
   */
  lemma EligibleInDays(indexDate: Date, now: Instant, maxAge: nat)
    requires ValidDate(indexDate) && ValidInstant(now)
    ensures IsEligible(indexDate, now, maxAge) <==>
              || Ordinal(indexDate) + maxAge < Ordinal(now.date)
              || (Ordinal(indexDate) + maxAge == Ordinal(now.date) && now.micros > 0)
  {
  }

  /** With a maximum age of a day or more, today's index is never old. */
  lemma TodayIsNotOld(now: Instant, maxAge: nat)
    requires ValidInstant(now) && maxAge >= 1
    ensures !IsEligible(now.date, now, maxAge)
  {
    EligibleInDays(now.date, now, maxAge);
  }

  /** An index older than an old one is old too, and an old index stays old under a shorter maximum age. */
  lemma EligibleMonotone(older: Date, d: Date, now: Instant, maxAge: nat, shorter: nat)
    requires ValidDate(older) && ValidDate(d) && ValidInstant(now)
    requires !Before(d, older) && shorter <= maxAge
    requires IsEligible(d, now, maxAge)
    ensures IsEligible(older, now, maxAge) && IsEligible(d, now, shorter)
  {
    OrdinalOrder(d, older);
  }

  /** The index is one of the family's dated indices and is old. */
  predicate Selected(name: string, prefix: string, separator: string, dateFormat: string, now: Instant, maxAge: nat)
    requires ValidInstant(now)
  {
    match ParseIndexDate(name, prefix, separator, dateFormat)
    case Some(d) => IsEligible(d, now, maxAge)
    case None => false
  }

  /** The names of `names`, in their order, that a pass acts on. */
  function OldIndices(names: seq<string>, prefix: string, separator: string, dateFormat: string,
                      now: Instant, maxAge: nat): (r: seq<string>)
    requires ValidInstant(now)
    ensures forall n :: n in r <==> n in names && Selected(n, prefix, separator, dateFormat, now, maxAge)
    ensures |r| <= |names|
  {
    if names == [] then []
    else
      var last := names[|names| - 1];
      OldIndices(names[..|names| - 1], prefix, separator, dateFormat, now, maxAge)
      + (if Selected(last, prefix, separator, dateFormat, now, maxAge) then [last] else [])
  }

  /** Filtering keeps the order: a pass over sorted names acts in sorted order. */
  lemma {:induction false} OldIndicesSorted(names: seq<string>, prefix: string, separator: string,
                                            dateFormat: string, now: Instant, maxAge: nat)
    requires ValidInstant(now) && StrictlySorted(names)
    ensures StrictlySorted(OldIndices(names, prefix, separator, dateFormat, now, maxAge))
  {
    if names != [] {
      var init := names[..|names| - 1];
      var last := names[|names| - 1];
      OldIndicesSorted(init, prefix, separator, dateFormat, now, maxAge);
      var r := OldIndices(init, prefix, separator, dateFormat, now, maxAge);
      forall n | n in r ensures Below(n, last) {
        var i :| 0 <= i < |init| && init[i] == n;
      }
    }
  }

  /** The names a pass acts on, in the order it acts: the store's old family indices, sorted. */
  ghost function PassTargets(s: StoreState, prefix: string, separator: string, dateFormat: string,
                             now: Instant, maxAge: nat): (r: seq<string>)
    requires ValidInstant(now)
    ensures StrictlySorted(r)
    ensures forall n :: n in r <==> n in s.indices && Selected(n, prefix, separator, dateFormat, now, maxAge)
  {
    var sorted := SortedNames(s.indices);
    assert forall n :: n in sorted <==> n in Elements(sorted);
    OldIndicesSorted(sorted, prefix, separator, dateFormat, now, maxAge);
    OldIndices(sorted, prefix, separator, dateFormat, now, maxAge)
  }

  /** What a pass does to one old index. */
  datatype Action = OptimizeIndex | CompressIndex | DeleteOldIndex

  /** The request an action sends for one index. */
  function ActionCall(action: Action, name: string): Call
  {
    match action
    case OptimizeIndex => Optimize([name], OptimizeMaxNumSegments)
    case CompressIndex => UpdateSettings(name, CompressSettings)
    case DeleteOldIndex => DeleteIndex(name)
  }

  /** The store after an action on one index. */
  function Applied(s: StoreState, action: Action, name: string): (t: StoreState)
    ensures t.indices == if action == DeleteOldIndex then s.indices - {name} else s.indices
  {
    match action
    case OptimizeIndex => Merged(s, [name], OptimizeMaxNumSegments)
    case CompressIndex => Settled(s, name, CompressSettings)
    case DeleteOldIndex => Deleted(s, name)
  }

  /** The store after an action on each name in turn. */
  function AppliedAll(s: StoreState, action: Action, names: seq<string>): StoreState
  {
    if names == [] then s
    else Applied(AppliedAll(s, action, names[..|names| - 1]), action, names[|names| - 1])
  }

  /** The requests of an action on each name in turn. */
  function ActionCalls(action: Action, names: seq<string>): (calls: seq<Call>)
    ensures |calls| == |names|
  {
    if names == [] then []
    else ActionCalls(action, names[..|names| - 1]) + [ActionCall(action, names[|names| - 1])]
  }

  /** Extending the names by one extends the filtered names by that name when it is selected. */
  lemma OldIndicesStep(names: seq<string>, i: nat, prefix: string, separator: string, dateFormat: string,
                       now: Instant, maxAge: nat)
    requires ValidInstant(now) && i < |names|
    ensures OldIndices(names[..i + 1], prefix, separator, dateFormat, now, maxAge)
            == OldIndices(names[..i], prefix, separator, dateFormat, now, maxAge)
               + (if Selected(names[i], prefix, separator, dateFormat, now, maxAge) then [names[i]] else [])
  {
    assert names[..i + 1][..i] == names[..i];
  }

  /** Acting on one more name extends the state and the requests by that action. */
  lemma AppliedAllStep(s: StoreState, action: Action, names: seq<string>, x: string)
    ensures AppliedAll(s, action, names + [x]) == Applied(AppliedAll(s, action, names), action, x)
    ensures ActionCalls(action, names + [x]) == ActionCalls(action, names) + [ActionCall(action, x)]
  {
    assert (names + [x])[..|names|] == names;
  }

  /** A store state together with the requests issued so far. */
  datatype Effect = Effect(state: StoreState, calls: seq<Call>)

  /** One pass when switched on: the action on each old index of the family, in sorted order. */
  ghost function Sweep(e: Effect, enabled: bool, prefix: string, separator: string, dateFormat: string,
                       now: Instant, maxAge: nat, action: Action): Effect
    requires ValidInstant(now)
  {
    if !enabled then e
    else
      var targets := PassTargets(e.state, prefix, separator, dateFormat, now, maxAge);
      Effect(AppliedAll(e.state, action, targets), e.calls + ActionCalls(action, targets))
  }

  /** The configuration of a rotator, fixed when it is built. */
  datatype RotationConfig = RotationConfig(
    dateFormat: string, separator: string, currentAliasName: string,
    deleteOld: bool, deleteMaxAge: nat,
    compressOld: bool, compressMaxAge: nat,
    optimizeOld: bool, optimizeMaxAge: nat)

  /** One rotation: today's index and alias, then the optimize, compress and delete passes. */
  ghost function Rotation(c: RotationConfig, s: StoreState, prefix: string, now: Instant): Effect
    requires ValidInstant(now)
  {
    var alias := AliasName(prefix, c.separator, c.currentAliasName);
    var index := IndexName(prefix, c.separator, c.dateFormat, now.date);
    var e0 := Effect(Daily.Rotated(s, alias, index), Daily.RotateCalls(alias, index));
    var e1 := Sweep(e0, c.optimizeOld, prefix, c.separator, c.dateFormat, now, c.optimizeMaxAge, OptimizeIndex);
    var e2 := Sweep(e1, c.compressOld, prefix, c.separator, c.dateFormat, now, c.compressMaxAge, CompressIndex);
    Sweep(e2, c.deleteOld, prefix, c.separator, c.dateFormat, now, c.deleteMaxAge, DeleteOldIndex)
  }

  /**
   * Under the default format a pass visits the old indices oldest first: sorted
   * name order is date order.
   */
  lemma PassTargetsOldestFirst(s: StoreState, prefix: string, separator: string, now: Instant, maxAge: nat)
    requires ValidInstant(now)
    ensures var r := PassTargets(s, prefix, separator, DefaultDateFormat, now, maxAge);
            forall i, j :: 0 <= i < j < |r| ==> OldestFirst(r[i], r[j], prefix, separator)
  {
    var r := PassTargets(s, prefix, separator, DefaultDateFormat, now, maxAge);
    forall i, j | 0 <= i < j < |r|
      ensures OldestFirst(r[i], r[j], prefix, separator)
    {
      assert r[i] in r && r[j] in r;
      assert Below(r[i], r[j]);
      DatedNamesInDateOrder(r[i], r[j], prefix, separator);
    }
  }

  /** Both names are dated indices of the family and the first one's date comes first. */
  predicate OldestFirst(n1: string, n2: string, prefix: string, separator: string)
  {
    match (ParseIndexDate(n1, prefix, separator, DefaultDateFormat), ParseIndexDate(n2, prefix, separator, DefaultDateFormat))
    case (Some(d1), Some(d2)) => Before(d1, d2)
    case _ => false
  }

  /** The i-th request of a pass is the action on the i-th name. */
  lemma {:induction false} ActionCallsAt(action: Action, names: seq<string>)
    ensures forall i :: 0 <= i < |names| ==> ActionCalls(action, names)[i] == ActionCall(action, names[i])
  {
    if names != [] {
      ActionCallsAt(action, names[..|names| - 1]);
    }
  }

  /** Deleting each name removes exactly those indices, the aliases pointing at them and their settings. */
  lemma {:induction false} DeleteAllEffect(s: StoreState, names: seq<string>)
    ensures var t := AppliedAll(s, DeleteOldIndex, names);
            && t.indices == s.indices - Elements(names)
            && (forall a :: a in t.aliases <==> a in s.aliases && s.aliases[a] !in Elements(names))
            && (forall a :: a in t.aliases ==> t.aliases[a] == s.aliases[a])
            && t.compressed == s.compressed - Elements(names)
            && t.merged.Keys == s.merged.Keys - Elements(names)
            && (forall n :: n in t.merged ==> t.merged[n] == s.merged[n])
  {
    if names != [] {
      var init := names[..|names| - 1];
      DeleteAllEffect(s, init);
      assert names == init + [names[|names| - 1]];
      assert Elements(names) == Elements(init) + {names[|names| - 1]};
    }
  }

  /** Compressing each name turns compression on for exactly those indices and changes nothing else. */
  lemma {:induction false} CompressAllEffect(s: StoreState, names: seq<string>)
    ensures var t := AppliedAll(s, CompressIndex, names);
            && t.indices == s.indices && t.aliases == s.aliases && t.merged == s.merged
            && t.compressed == s.compressed + Elements(names)
  {
    if names != [] {
      var init := names[..|names| - 1];
      CompressAllEffect(s, init);
      assert names == init + [names[|names| - 1]];
      assert Elements(names) == Elements(init) + {names[|names| - 1]};
    }
  }

  /** Optimizing each name force-merges exactly those indices to one segment and changes nothing else. */
  lemma {:induction false} OptimizeAllEffect(s: StoreState, names: seq<string>)
    ensures var t := AppliedAll(s, OptimizeIndex, names);
            && t.indices == s.indices && t.aliases == s.aliases && t.compressed == s.compressed
            && t.merged.Keys == s.merged.Keys + Elements(names)
            && (forall n :: n in names ==> t.merged[n] == OptimizeMaxNumSegments)
            && (forall n :: n in s.merged && n !in names ==> t.merged[n] == s.merged[n])
  {
    if names != [] {
      var init := names[..|names| - 1];
      OptimizeAllEffect(s, init);
      assert names == init + [names[|names| - 1]];
      assert Elements(names) == Elements(init) + {names[|names| - 1]};
    }
  }

  /** The delete pass keeps exactly the indices that are not old indices of the family. */
  lemma DeletePassKeepsYoung(e: Effect, prefix: string, separator: string, dateFormat: string, now: Instant, maxAge: nat)
    requires ValidInstant(now)
    ensures var t := Sweep(e, true, prefix, separator, dateFormat, now, maxAge, DeleteOldIndex).state;
            forall n :: n in t.indices <==> n in e.state.indices && !Selected(n, prefix, separator, dateFormat, now, maxAge)
  {
    var targets := PassTargets(e.state, prefix, separator, dateFormat, now, maxAge);
    DeleteAllEffect(e.state, targets);
    assert forall n :: n in Elements(targets) <==> n in targets;
  }

  /** Where a request goes in the order of a rotation. */
  function Rank(call: Call): nat
  {
    match call
    case CreateIndexIfMissing(_) => 0
    case SetAlias(_, _) => 1
    case Optimize(_, _) => 2
    case UpdateSettings(_, _) => 3
    case DeleteIndex(_) => 4
  }

  /** Creation, then aliasing, then optimize requests, then compress requests, then delete requests. */
  predicate InPassOrder(calls: seq<Call>)
  {
    forall i, j :: 0 <= i < j < |calls| ==> Rank(calls[i]) <= Rank(calls[j])
  }

  /** The rank shared by every request of one action. */
  function ActionRank(action: Action): nat
  {
    match action
    case OptimizeIndex => 2
    case CompressIndex => 3
    case DeleteOldIndex => 4
  }

  lemma ActionCallsRank(action: Action, names: seq<string>)
    ensures forall i :: 0 <= i < |ActionCalls(action, names)| ==> Rank(ActionCalls(action, names)[i]) == ActionRank(action)
  {
    ActionCallsAt(action, names);
  }

  lemma AppendedRanks(calls: seq<Call>, added: seq<Call>, rank: nat)
    requires forall i :: 0 <= i < |added| ==> Rank(added[i]) == rank
    ensures forall i :: 0 <= i < |calls| ==> (calls + added)[i] == calls[i]
    ensures forall i :: |calls| <= i < |calls + added| ==> Rank((calls + added)[i]) == rank
  {
    forall i | |calls| <= i < |calls + added|
      ensures Rank((calls + added)[i]) == rank
    {
      assert (calls + added)[i] == added[i - |calls|];
    }
  }

  /** A pass keeps the requests already sent and appends only requests of its own action, and none when it is off. */
  lemma SweepAppends(e: Effect, enabled: bool, prefix: string, separator: string, dateFormat: string,
                     now: Instant, maxAge: nat, action: Action)
    requires ValidInstant(now)
    ensures var calls := Sweep(e, enabled, prefix, separator, dateFormat, now, maxAge, action).calls;
            && |e.calls| <= |calls|
            && (forall i :: 0 <= i < |e.calls| ==> calls[i] == e.calls[i])
            && (forall i :: |e.calls| <= i < |calls| ==> enabled && Rank(calls[i]) == ActionRank(action))
  {
    if enabled {
      var targets := PassTargets(e.state, prefix, separator, dateFormat, now, maxAge);
      ActionCallsRank(action, targets);
      AppendedRanks(e.calls, ActionCalls(action, targets), ActionRank(action));
    }
  }

  lemma SweepKeepsPassOrder(e: Effect, enabled: bool, prefix: string, separator: string, dateFormat: string,
                            now: Instant, maxAge: nat, action: Action)
    requires ValidInstant(now) && InPassOrder(e.calls)
    requires forall i :: 0 <= i < |e.calls| ==> Rank(e.calls[i]) <= ActionRank(action)
    ensures var calls := Sweep(e, enabled, prefix, separator, dateFormat, now, maxAge, action).calls;
            && InPassOrder(calls)
            && (forall i :: 0 <= i < |calls| ==> Rank(calls[i]) <= ActionRank(action))
            && (forall i :: 0 <= i < |e.calls| ==> calls[i] == e.calls[i])
  {
    SweepAppends(e, enabled, prefix, separator, dateFormat, now, maxAge, action);
  }

  /**
   * A rotation first creates today's index, then points the alias at it, then sends
   * every optimize request before any compress request and those before any delete request.
   */
  lemma RotationInPassOrder(c: RotationConfig, s: StoreState, prefix: string, now: Instant)
    requires ValidInstant(now)
    ensures var calls := Rotation(c, s, prefix, now).calls;
            var index := IndexName(prefix, c.separator, c.dateFormat, now.date);
            && InPassOrder(calls) && |calls| >= 2
            && calls[0] == CreateIndexIfMissing(index)
            && calls[1] == SetAlias(AliasName(prefix, c.separator, c.currentAliasName), index)
  {
    var alias := AliasName(prefix, c.separator, c.currentAliasName);
    var index := IndexName(prefix, c.separator, c.dateFormat, now.date);
    var e0 := Effect(Daily.Rotated(s, alias, index), Daily.RotateCalls(alias, index));
    assert InPassOrder(e0.calls) && Rank(e0.calls[0]) == 0 && Rank(e0.calls[1]) == 1;
    SweepKeepsPassOrder(e0, c.optimizeOld, prefix, c.separator, c.dateFormat, now, c.optimizeMaxAge, OptimizeIndex);
    var e1 := Sweep(e0, c.optimizeOld, prefix, c.separator, c.dateFormat, now, c.optimizeMaxAge, OptimizeIndex);
    SweepKeepsPassOrder(e1, c.compressOld, prefix, c.separator, c.dateFormat, now, c.compressMaxAge, CompressIndex);
    var e2 := Sweep(e1, c.compressOld, prefix, c.separator, c.dateFormat, now, c.compressMaxAge, CompressIndex);
    SweepKeepsPassOrder(e2, c.deleteOld, prefix, c.separator, c.dateFormat, now, c.deleteMaxAge, DeleteOldIndex);
    var e3 := Sweep(e2, c.deleteOld, prefix, c.separator, c.dateFormat, now, c.deleteMaxAge, DeleteOldIndex);
  }

  /** Whether a request is one the configuration switches on. */
  predicate SwitchedOn(c: RotationConfig, call: Call)
  {
    && (call.Optimize? ==> c.optimizeOld)
    && (call.UpdateSettings? ==> c.compressOld)
    && (call.DeleteIndex? ==> c.deleteOld)
  }

  lemma RankSwitchedOn(c: RotationConfig, call: Call, enabled: bool, action: Action)
    requires enabled && Rank(call) == ActionRank(action)
    requires action == OptimizeIndex ==> enabled == c.optimizeOld
    requires action == CompressIndex ==> enabled == c.compressOld
    requires action == DeleteOldIndex ==> enabled == c.deleteOld
    ensures SwitchedOn(c, call)
  {
  }

  lemma SweepSwitchedOn(c: RotationConfig, e: Effect, enabled: bool, prefix: string, now: Instant, maxAge: nat, action: Action)
    requires ValidInstant(now)
    requires action == OptimizeIndex ==> enabled == c.optimizeOld
    requires action == CompressIndex ==> enabled == c.compressOld
    requires action == DeleteOldIndex ==> enabled == c.deleteOld
    requires forall i :: 0 <= i < |e.calls| ==> SwitchedOn(c, e.calls[i])
    ensures var calls := Sweep(e, enabled, prefix, c.separator, c.dateFormat, now, maxAge, action).calls;
            forall i :: 0 <= i < |calls| ==> SwitchedOn(c, calls[i])
  {
    SweepAppends(e, enabled, prefix, c.separator, c.dateFormat, now, maxAge, action);
    var calls := Sweep(e, enabled, prefix, c.separator, c.dateFormat, now, maxAge, action).calls;
    forall i | 0 <= i < |calls|
      ensures SwitchedOn(c, calls[i])
    {
      if i < |e.calls| {
        assert calls[i] == e.calls[i];
      } else {
        RankSwitchedOn(c, calls[i], enabled, action);
      }
    }
  }

  /**
   * A pass that is switched off sends nothing: without `optimize_old` there is no
   * optimize request, without `compress_old` no settings update, without `delete_old` no delete.
   */
  lemma SwitchedOffPassesAreSilent(c: RotationConfig, s: StoreState, prefix: string, now: Instant)
    requires ValidInstant(now)
    ensures var calls := Rotation(c, s, prefix, now).calls;
            forall i :: 0 <= i < |calls| ==>
              && (calls[i].Optimize? ==> c.optimizeOld)
              && (calls[i].UpdateSettings? ==> c.compressOld)
              && (calls[i].DeleteIndex? ==> c.deleteOld)
  {
    var alias := AliasName(prefix, c.separator, c.currentAliasName);
    var index := IndexName(prefix, c.separator, c.dateFormat, now.date);
    var e0 := Effect(Daily.Rotated(s, alias, index), Daily.RotateCalls(alias, index));
    SweepSwitchedOn(c, e0, c.optimizeOld, prefix, now, c.optimizeMaxAge, OptimizeIndex);
    var e1 := Sweep(e0, c.optimizeOld, prefix, c.separator, c.dateFormat, now, c.optimizeMaxAge, OptimizeIndex);
    SweepSwitchedOn(c, e1, c.compressOld, prefix, now, c.compressMaxAge, CompressIndex);
    var e2 := Sweep(e1, c.compressOld, prefix, c.separator, c.dateFormat, now, c.compressMaxAge, CompressIndex);
    SweepSwitchedOn(c, e2, c.deleteOld, prefix, now, c.deleteMaxAge, DeleteOldIndex);
    var e3 := Sweep(e2, c.deleteOld, prefix, c.separator, c.dateFormat, now, c.deleteMaxAge, DeleteOldIndex);
    assert forall i :: 0 <= i < |e3.calls| ==> SwitchedOn(c, e3.calls[i]);
  }

  /**
   * For a format naming year, month and day, and a delete age of at least a day,
   * a rotation leaves today's index in place with the current alias pointing at it.
   */
  lemma CurrentIndexSurvives(c: RotationConfig, s: StoreState, prefix: string, now: Instant)
    requires ValidInstant(now) && Complete(Directives(c.dateFormat))
    requires c.deleteOld ==> c.deleteMaxAge >= 1
    ensures var t := Rotation(c, s, prefix, now).state;
            var alias := AliasName(prefix, c.separator, c.currentAliasName);
            var index := IndexName(prefix, c.separator, c.dateFormat, now.date);
            index in t.indices && alias in t.aliases && t.aliases[alias] == index
  {
    var alias := AliasName(prefix, c.separator, c.currentAliasName);
    var index := IndexName(prefix, c.separator, c.dateFormat, now.date);
    var e0 := Effect(Daily.Rotated(s, alias, index), Daily.RotateCalls(alias, index));
    var e1 := Sweep(e0, c.optimizeOld, prefix, c.separator, c.dateFormat, now, c.optimizeMaxAge, OptimizeIndex);
    if c.optimizeOld {
      OptimizeAllEffect(e0.state, PassTargets(e0.state, prefix, c.separator, c.dateFormat, now, c.optimizeMaxAge));
    }
    var e2 := Sweep(e1, c.compressOld, prefix, c.separator, c.dateFormat, now, c.compressMaxAge, CompressIndex);
    if c.compressOld {
      CompressAllEffect(e1.state, PassTargets(e1.state, prefix, c.separator, c.dateFormat, now, c.compressMaxAge));
    }
    assert index in e2.state.indices && alias in e2.state.aliases && e2.state.aliases[alias] == index;
    if c.deleteOld {
      var targets := PassTargets(e2.state, prefix, c.separator, c.dateFormat, now, c.deleteMaxAge);
      IndexNameRoundTrip(prefix, c.separator, c.dateFormat, now.date);
      TodayIsNotOld(now, c.deleteMaxAge);
      assert index !in Elements(targets);
      DeleteAllEffect(e2.state, targets);
    }
  }

  /**
   * Optimizing and compressing leave the list of indices alone, so every pass acts on
   * the old indices among those present once today's index exists.
   */
  lemma RotationPlan(c: RotationConfig, s: StoreState, prefix: string, now: Instant)
    requires ValidInstant(now)
    ensures var alias := AliasName(prefix, c.separator, c.currentAliasName);
            var index := IndexName(prefix, c.separator, c.dateFormat, now.date);
            var s0 := Daily.Rotated(s, alias, index);
            Rotation(c, s, prefix, now).calls ==
              Daily.RotateCalls(alias, index)
              + (if c.optimizeOld then ActionCalls(OptimizeIndex, PassTargets(s0, prefix, c.separator, c.dateFormat, now, c.optimizeMaxAge)) else [])
              + (if c.compressOld then ActionCalls(CompressIndex, PassTargets(s0, prefix, c.separator, c.dateFormat, now, c.compressMaxAge)) else [])
              + (if c.deleteOld then ActionCalls(DeleteOldIndex, PassTargets(s0, prefix, c.separator, c.dateFormat, now, c.deleteMaxAge)) else [])
  {
    var sep, fmt := c.separator, c.dateFormat;
    var alias := AliasName(prefix, sep, c.currentAliasName);
    var index := IndexName(prefix, sep, fmt, now.date);
    var e0 := Effect(Daily.Rotated(s, alias, index), Daily.RotateCalls(alias, index));
    var e1 := Sweep(e0, c.optimizeOld, prefix, sep, fmt, now, c.optimizeMaxAge, OptimizeIndex);
    KeepingSweep(e0, c.optimizeOld, prefix, sep, fmt, now, c.optimizeMaxAge, OptimizeIndex);
    KeepingSweep(e1, c.compressOld, prefix, sep, fmt, now, c.compressMaxAge, CompressIndex);
  }

  /** A pass that does not delete leaves the list of indices alone and appends its own requests. */
  lemma KeepingSweep(e: Effect, enabled: bool, prefix: string, separator: string, dateFormat: string,
                     now: Instant, maxAge: nat, action: Action)
    requires ValidInstant(now) && action != DeleteOldIndex
    ensures var t := Sweep(e, enabled, prefix, separator, dateFormat, now, maxAge, action);
            && t.state.indices == e.state.indices
            && t.calls == e.calls + (if enabled then ActionCalls(action, PassTargets(e.state, prefix, separator, dateFormat, now, maxAge)) else [])
  {
    if enabled {
      var targets := PassTargets(e.state, prefix, separator, dateFormat, now, maxAge);
      if action == OptimizeIndex {
        OptimizeAllEffect(e.state, targets);
      } else {
        CompressAllEffect(e.state, targets);
      }
    } else {
      assert e.calls + [] == e.calls;
    }
  }

  /** Optimizing indices already merged to one segment changes nothing. */
  lemma OptimizeAgain(s: StoreState, names: seq<string>)
    requires forall n :: n in names ==> n in s.merged && s.merged[n] == OptimizeMaxNumSegments
    ensures AppliedAll(s, OptimizeIndex, names) == s
  {
    OptimizeAllEffect(s, names);
    var t := AppliedAll(s, OptimizeIndex, names);
    assert t.merged.Keys == s.merged.Keys;
    assert t.merged == s.merged;
  }

  /** Compressing indices that are already compressed changes nothing. */
  lemma CompressAgain(s: StoreState, names: seq<string>)
    requires forall n :: n in names ==> n in s.compressed
    ensures AppliedAll(s, CompressIndex, names) == s
  {
    CompressAllEffect(s, names);
    assert s.compressed + Elements(names) == s.compressed;
  }

  /**
   * What one rotation leaves behind: today's index with the alias on it, every old
   * index still there optimized and compressed where those passes are on, and no
   * index left that the delete pass would remove.
   */
  lemma RotationLeaves(c: RotationConfig, s: StoreState, prefix: string, now: Instant)
    requires ValidInstant(now) && Complete(Directives(c.dateFormat))
    requires c.deleteOld ==> c.deleteMaxAge >= 1
    ensures var t := Rotation(c, s, prefix, now).state;
            var alias := AliasName(prefix, c.separator, c.currentAliasName);
            var index := IndexName(prefix, c.separator, c.dateFormat, now.date);
            && index in t.indices && alias in t.aliases && t.aliases[alias] == index
            && (forall n :: n in t.indices && c.optimizeOld && Selected(n, prefix, c.separator, c.dateFormat, now, c.optimizeMaxAge)
                  ==> n in t.merged && t.merged[n] == OptimizeMaxNumSegments)
            && (forall n :: n in t.indices && c.compressOld && Selected(n, prefix, c.separator, c.dateFormat, now, c.compressMaxAge)
                  ==> n in t.compressed)
            && (forall n :: n in t.indices && c.deleteOld ==> !Selected(n, prefix, c.separator, c.dateFormat, now, c.deleteMaxAge))
  {
    var sep, fmt := c.separator, c.dateFormat;
    var alias := AliasName(prefix, sep, c.currentAliasName);
    var index := IndexName(prefix, sep, fmt, now.date);
    var e0 := Effect(Daily.Rotated(s, alias, index), Daily.RotateCalls(alias, index));
    var e1 := Sweep(e0, c.optimizeOld, prefix, sep, fmt, now, c.optimizeMaxAge, OptimizeIndex);
    var e2 := Sweep(e1, c.compressOld, prefix, sep, fmt, now, c.compressMaxAge, CompressIndex);
    var e3 := Sweep(e2, c.deleteOld, prefix, sep, fmt, now, c.deleteMaxAge, DeleteOldIndex);
    CurrentIndexSurvives(c, s, prefix, now);
    if c.optimizeOld {
      OptimizeAllEffect(e0.state, PassTargets(e0.state, prefix, sep, fmt, now, c.optimizeMaxAge));
    }
    if c.compressOld {
      CompressAllEffect(e1.state, PassTargets(e1.state, prefix, sep, fmt, now, c.compressMaxAge));
    }
    if c.deleteOld {
      DeleteAllEffect(e2.state, PassTargets(e2.state, prefix, sep, fmt, now, c.deleteMaxAge));
    }
    assert e3.state.indices <= e1.state.indices == e0.state.indices;
  }

  lemma NoneLeft(names: seq<string>)
    ensures (forall n :: n !in names) ==> names == []
  {
    if names != [] {
      assert names[0] in names;
    }
  }

  lemma RotatedAgain(s: StoreState, alias: string, index: string)
    requires index in s.indices && alias in s.aliases && s.aliases[alias] == index
    ensures Daily.Rotated(s, alias, index) == s
  {
    assert s.aliases[alias := index] == s.aliases;
  }

  /**
   * Running the rotation a second time at the same instant leaves the store as the
   * first run left it.
   */
  lemma RotationIdempotent(c: RotationConfig, s: StoreState, prefix: string, now: Instant)
    requires ValidInstant(now) && Complete(Directives(c.dateFormat))
    requires c.deleteOld ==> c.deleteMaxAge >= 1
    ensures var t := Rotation(c, s, prefix, now).state;
            Rotation(c, t, prefix, now).state == t
  {
    var sep, fmt := c.separator, c.dateFormat;
    var alias := AliasName(prefix, sep, c.currentAliasName);
    var index := IndexName(prefix, sep, fmt, now.date);
    var t := Rotation(c, s, prefix, now).state;
    RotationLeaves(c, s, prefix, now);
    RotatedAgain(t, alias, index);
    var f0 := Effect(t, Daily.RotateCalls(alias, index));
    if c.optimizeOld {
      OptimizeAgain(t, PassTargets(t, prefix, sep, fmt, now, c.optimizeMaxAge));
    }
    var f1 := Sweep(f0, c.optimizeOld, prefix, sep, fmt, now, c.optimizeMaxAge, OptimizeIndex);
    assert f1.state == t;
    if c.compressOld {
      CompressAgain(t, PassTargets(t, prefix, sep, fmt, now, c.compressMaxAge));
    }
    var f2 := Sweep(f1, c.compressOld, prefix, sep, fmt, now, c.compressMaxAge, CompressIndex);
    assert f2.state == t;
    if c.deleteOld {
      var targets := PassTargets(t, prefix, sep, fmt, now, c.deleteMaxAge);
      assert forall n :: n !in targets;
      NoneLeft(targets);
    }
  }

  /**
   * The settings a rotator is built with: a name left unset or empty takes its
   * default, an unset maximum age takes 31 days (delete) or 1 day (compress,
   * optimize), and every pass is off unless switched on.
   */
  function ConfigOf(dateFormat: Option<string>, separator: Option<string>, currentAliasName: Option<string>,
                    deleteOld: bool, compressOld: bool, optimizeOld: bool,
                    deleteMaxAge: Option<nat>, compressMaxAge: Option<nat>, optimizeMaxAge: Option<nat>): (c: RotationConfig)
    ensures c.dateFormat != [] && c.separator != [] && c.currentAliasName != []
    ensures c.deleteOld == deleteOld && c.compressOld == compressOld && c.optimizeOld == optimizeOld
    ensures c.dateFormat == OrDefault(dateFormat, DefaultDateFormat)
    ensures c.separator == OrDefault(separator, DefaultSeparator)
    ensures c.currentAliasName == OrDefault(currentAliasName, DefaultCurrentAliasName)
    ensures deleteMaxAge == None ==> c.deleteMaxAge == 31
    ensures compressMaxAge == None ==> c.compressMaxAge == 1
    ensures optimizeMaxAge == None ==> c.optimizeMaxAge == 1
  {
    RotationConfig(
      OrDefault(dateFormat, DefaultDateFormat), OrDefault(separator, DefaultSeparator),
      OrDefault(currentAliasName, DefaultCurrentAliasName),
      deleteOld, deleteMaxAge.GetOr(DefaultDeleteMaxAge),
      compressOld, compressMaxAge.GetOr(DefaultCompressMaxAge),
      optimizeOld, optimizeMaxAge.GetOr(DefaultOptimizeMaxAge))
  }

  class Rotator {
    /** The store client, given to the rotator rather than owned by it. */
    const es: IndexStore
    const config: RotationConfig

    /** Unset names take the module defaults, unset maximum ages 31 days (delete) and 1 day (compress, optimize). */
    constructor (es: IndexStore, dateFormat: Option<string>, separator: Option<string>,
                 currentAliasName: Option<string>, deleteOld: bool, compressOld: bool, optimizeOld: bool,
                 deleteMaxAge: Option<nat>, compressMaxAge: Option<nat>, optimizeMaxAge: Option<nat>)
      ensures this.es == es
      ensures config == ConfigOf(dateFormat, separator, currentAliasName, deleteOld, compressOld, optimizeOld,
                                 deleteMaxAge, compressMaxAge, optimizeMaxAge)
    {
      this.es := es;
      config := ConfigOf(dateFormat, separator, currentAliasName, deleteOld, compressOld, optimizeOld,
                         deleteMaxAge, compressMaxAge, optimizeMaxAge);
    }

    /** Sends the request of `action` for one index. */
    method Apply(action: Action, name: string)
      requires es.Valid() && name in es.indices
      modifies es
      ensures es.Valid()
      ensures es.State() == Applied(old(es.State()), action, name)
      ensures es.log == old(es.log) + [ActionCall(action, name)]
    {
      match action
      case OptimizeIndex => es.Optimize([name], OptimizeMaxNumSegments);
      case CompressIndex => es.UpdateSettings(name, CompressSettings);
      case DeleteOldIndex => es.DeleteIndex(name);
    }

    /** `for_old_indices`: applies `action` to each old index of the family, in sorted order. */
    method ForOldIndices(prefix: string, maxAge: nat, action: Action, now: Instant)
      requires ValidInstant(now) && es.Valid()
      modifies es
      ensures es.Valid()
      ensures var targets := PassTargets(old(es.State()), prefix, config.separator, config.dateFormat, now, maxAge);
              && es.State() == AppliedAll(old(es.State()), action, targets)
              && es.log == old(es.log) + ActionCalls(action, targets)
    {
      var names := es.GetIndices();
      var sorted := Sort(names);
      ghost var s0, log0 := es.State(), es.log;
      ghost var done: seq<string> := [];
      for i := 0 to |sorted|
        invariant es.Valid()
        invariant forall j :: i <= j < |sorted| ==> sorted[j] in es.indices
        invariant done == OldIndices(sorted[..i], prefix, config.separator, config.dateFormat, now, maxAge)
        invariant es.State() == AppliedAll(s0, action, done)
        invariant es.log == log0 + ActionCalls(action, done)
      {
        var name := sorted[i];
        OldIndicesStep(sorted, i, prefix, config.separator, config.dateFormat, now, maxAge);
        AppliedAllStep(s0, action, done, name);
        SortedDistinct(sorted, i);
        match ParseIndexDate(name, prefix, config.separator, config.dateFormat) {
          case Some(d) =>
            if IsEligible(d, now, maxAge) {
              ghost var before := es.log;
              Apply(action, name);
              assert es.log == before + [ActionCall(action, name)];
              SeqAssoc(log0, ActionCalls(action, done), [ActionCall(action, name)]);
              done := done + [name];
            }
          case None =>
        }
      }
      assert sorted[..|sorted|] == sorted;
    }

    /** `rotate(prefix)`: today's index and alias, then each switched-on pass in the fixed order. */
    method Rotate(prefix: string, now: Instant)
      requires ValidInstant(now) && es.Valid()
      modifies es
      ensures es.Valid()
      ensures var r := Rotation(config, old(es.State()), prefix, now);
              es.State() == r.state && es.log == old(es.log) + r.calls
    {
      var curAlias := AliasName(prefix, config.separator, config.currentAliasName);
      var nowIndex := IndexName(prefix, config.separator, config.dateFormat, now.date);
      es.CreateIndexIfMissing(nowIndex);
      es.SetAlias(curAlias, nowIndex);
      ghost var e := Effect(es.State(), Daily.RotateCalls(curAlias, nowIndex));
      assert es.log == old(es.log) + e.calls;
      if config.optimizeOld {
        ghost var before := es.log;
        ForOldIndices(prefix, config.optimizeMaxAge, OptimizeIndex, now);
        SeqAssoc(old(es.log), e.calls, es.log[|before|..]);
      }
      e := Sweep(e, config.optimizeOld, prefix, config.separator, config.dateFormat, now, config.optimizeMaxAge, OptimizeIndex);
      assert es.State() == e.state && es.log == old(es.log) + e.calls;
      if config.compressOld {
        ghost var before := es.log;
        ForOldIndices(prefix, config.compressMaxAge, CompressIndex, now);
        SeqAssoc(old(es.log), e.calls, es.log[|before|..]);
      }
      e := Sweep(e, config.compressOld, prefix, config.separator, config.dateFormat, now, config.compressMaxAge, CompressIndex);
      assert es.State() == e.state && es.log == old(es.log) + e.calls;
      if config.deleteOld {
        ghost var before := es.log;
        ForOldIndices(prefix, config.deleteMaxAge, DeleteOldIndex, now);
        SeqAssoc(old(es.log), e.calls, es.log[|before|..]);
      }
    }
  }
}
