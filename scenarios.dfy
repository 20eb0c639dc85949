/**
 * The fixtures of the rotator's test suite, replayed against the model: the store
 * holds the listed indices and nothing else, and the clock reads midnight at the
 * start of 2013-08-28.
 */
module Scenarios {
  import opened Wrappers
  import opened Calendar
  import opened DateFormat
  import opened Names
  import opened Store
  import opened Order
  import opened Retention
  import Daily = Rotate

  const Today := Date(2013, 8, 28)
  const Now := Midnight(Today)

  /** The settings of `Rotator(es, delete_old=…, compress_old=…, optimize_old=…)`, every other argument left unset. */
  function Built(deleteOld: bool, compressOld: bool, optimizeOld: bool): (c: RotationConfig)
    ensures c == RotationConfig("%Y.%m.%d", "-", "current", deleteOld, 31, compressOld, 1, optimizeOld, 1)
  {
    ConfigOf(None, None, None, deleteOld, compressOld, optimizeOld, None, None, None)
  }

  /** A rotator built with every setting left to its default. */
  const Defaults := Built(false, false, false)

  /** A store holding exactly `names`, with no alias and no settings. */
  function StoreOf(names: set<string>): (s: StoreState)
    ensures s.indices == names && Consistent(s)
  {
    StoreState(names, map[], {}, map[])
  }

  lemma TwoDigits(n: nat)
    requires n < 100
    ensures Digits(n, 2) == [('0' as int + n / 10) as char, ('0' as int + n % 10) as char]
  {
  }

  lemma DateText(d: Date)
    requires ValidDate(d) && d.year == 2013
    ensures Strftime(DefaultDateFormat, d) == "2013" + "." + Digits(d.month, 2) + "." + Digits(d.day, 2)
  {
    DigitsExample();
    DefaultDirectives();
    FormatYmd(d);
  }

  lemma NameJoin(mm: string, dd: string)
    ensures "logs" + "-" + ("2013" + "." + mm + "." + dd) == "logs-2013." + mm + "." + dd
  {
  }

  /** The name of the `logs` index of a day of 2013, and the date read back from it. */
  lemma LogsName(d: Date, name: string)
    requires ValidDate(d) && d.year == 2013
    requires name == "logs-2013." + Digits(d.month, 2) + "." + Digits(d.day, 2)
    ensures IndexName("logs", DefaultSeparator, DefaultDateFormat, d) == name
    ensures ParseIndexDate(name, "logs", DefaultSeparator, DefaultDateFormat) == Some(d)
  {
    DateText(d);
    NameJoin(Digits(d.month, 2), Digits(d.day, 2));
    DefaultDirectives();
    IndexNameRoundTrip("logs", DefaultSeparator, DefaultDateFormat, d);
  }

  /** The dated names the fixtures use, with the dates they carry. */
  lemma FixtureDates()
    ensures ParseIndexDate("logs-2013.08.28", "logs", DefaultSeparator, DefaultDateFormat) == Some(Date(2013, 8, 28))
    ensures ParseIndexDate("logs-2013.08.27", "logs", DefaultSeparator, DefaultDateFormat) == Some(Date(2013, 8, 27))
    ensures ParseIndexDate("logs-2013.08.26", "logs", DefaultSeparator, DefaultDateFormat) == Some(Date(2013, 8, 26))
    ensures ParseIndexDate("logs-2013.07.28", "logs", DefaultSeparator, DefaultDateFormat) == Some(Date(2013, 7, 28))
    ensures ParseIndexDate("logs-2013.07.27", "logs", DefaultSeparator, DefaultDateFormat) == Some(Date(2013, 7, 27))
    ensures ParseIndexDate("logs-2013.07.01", "logs", DefaultSeparator, DefaultDateFormat) == Some(Date(2013, 7, 1))
  {
    Dated0828();
    Dated0827();
    Dated0826();
    Dated0728();
    Dated0727();
    Dated0701();
  }

  lemma Dated0828()
    ensures ParseIndexDate("logs-2013.08.28", "logs", DefaultSeparator, DefaultDateFormat) == Some(Date(2013, 8, 28))
  {
    TwoDigits(8);
    TwoDigits(28);
    LogsName(Date(2013, 8, 28), "logs-2013.08.28");
  }

  lemma Dated0827()
    ensures ParseIndexDate("logs-2013.08.27", "logs", DefaultSeparator, DefaultDateFormat) == Some(Date(2013, 8, 27))
  {
    TwoDigits(8);
    TwoDigits(27);
    LogsName(Date(2013, 8, 27), "logs-2013.08.27");
  }

  lemma Dated0826()
    ensures ParseIndexDate("logs-2013.08.26", "logs", DefaultSeparator, DefaultDateFormat) == Some(Date(2013, 8, 26))
  {
    TwoDigits(8);
    TwoDigits(26);
    LogsName(Date(2013, 8, 26), "logs-2013.08.26");
  }

  lemma Dated0728()
    ensures ParseIndexDate("logs-2013.07.28", "logs", DefaultSeparator, DefaultDateFormat) == Some(Date(2013, 7, 28))
  {
    TwoDigits(7);
    TwoDigits(28);
    LogsName(Date(2013, 7, 28), "logs-2013.07.28");
  }

  lemma Dated0727()
    ensures ParseIndexDate("logs-2013.07.27", "logs", DefaultSeparator, DefaultDateFormat) == Some(Date(2013, 7, 27))
  {
    TwoDigits(7);
    TwoDigits(27);
    LogsName(Date(2013, 7, 27), "logs-2013.07.27");
  }

  lemma Dated0701()
    ensures ParseIndexDate("logs-2013.07.01", "logs", DefaultSeparator, DefaultDateFormat) == Some(Date(2013, 7, 1))
  {
    TwoDigits(7);
    TwoDigits(1);
    LogsName(Date(2013, 7, 1), "logs-2013.07.01");
  }

  /** How many days before 2013-08-28 each fixture date lies. */
  lemma FixtureAges()
    ensures Ordinal(Date(2013, 8, 27)) + 1 == Ordinal(Today)
    ensures Ordinal(Date(2013, 8, 26)) + 2 == Ordinal(Today)
    ensures Ordinal(Date(2013, 7, 28)) + 31 == Ordinal(Today)
    ensures Ordinal(Date(2013, 7, 27)) + 32 == Ordinal(Today)
    ensures Ordinal(Date(2013, 7, 1)) + 58 == Ordinal(Today)
  {
  }

  /**
   * At midnight an index is old exactly when it is more than the maximum age in days
   * older than today: a 31-day cutoff takes 2013-07-27 and 2013-07-01 but not
   * 2013-07-28, a 1-day cutoff takes 2013-08-26 but not 2013-08-27.
   */
  lemma FixtureEligibility()
    ensures !IsEligible(Today, Now, 1) && !IsEligible(Today, Now, 31)
    ensures !IsEligible(Date(2013, 8, 27), Now, 1) && !IsEligible(Date(2013, 8, 27), Now, 31)
    ensures IsEligible(Date(2013, 8, 26), Now, 1) && !IsEligible(Date(2013, 8, 26), Now, 31)
    ensures IsEligible(Date(2013, 7, 28), Now, 1) && !IsEligible(Date(2013, 7, 28), Now, 31)
    ensures IsEligible(Date(2013, 7, 27), Now, 1) && IsEligible(Date(2013, 7, 27), Now, 31)
    ensures IsEligible(Date(2013, 7, 1), Now, 31)
  {
    FixtureAges();
    EligibleInDays(Today, Now, 1);
    EligibleInDays(Today, Now, 31);
    EligibleInDays(Date(2013, 8, 27), Now, 1);
    EligibleInDays(Date(2013, 8, 27), Now, 31);
    EligibleInDays(Date(2013, 8, 26), Now, 1);
    EligibleInDays(Date(2013, 8, 26), Now, 31);
    EligibleInDays(Date(2013, 7, 28), Now, 1);
    EligibleInDays(Date(2013, 7, 28), Now, 31);
    EligibleInDays(Date(2013, 7, 27), Now, 1);
    EligibleInDays(Date(2013, 7, 27), Now, 31);
    EligibleInDays(Date(2013, 7, 1), Now, 31);
  }

  /** Each fixture name, whether a pass with a maximum age of 31 days acts on it at midnight on 2013-08-28. */
  lemma MonthCutoff()
    ensures !Selected("logs-current", "logs", DefaultSeparator, DefaultDateFormat, Now, 31)
    ensures !Selected("logs-2013.08.28", "logs", DefaultSeparator, DefaultDateFormat, Now, 31)
    ensures !Selected("logs-2013.08.27", "logs", DefaultSeparator, DefaultDateFormat, Now, 31)
    ensures !Selected("logs-2013.07.28", "logs", DefaultSeparator, DefaultDateFormat, Now, 31)
    ensures Selected("logs-2013.07.27", "logs", DefaultSeparator, DefaultDateFormat, Now, 31)
    ensures Selected("logs-2013.07.01", "logs", DefaultSeparator, DefaultDateFormat, Now, 31)
  {
    DefaultParseExample();
    FixtureDates();
    FixtureEligibility();
  }

  /** Each fixture name, whether a pass with a maximum age of one day acts on it at midnight on 2013-08-28. */
  lemma DayCutoff()
    ensures !Selected("logs-2013.08.28", "logs", DefaultSeparator, DefaultDateFormat, Now, 1)
    ensures Selected("logs-2013.08.26", "logs", DefaultSeparator, DefaultDateFormat, Now, 1)
    ensures Selected("logs-2013.07.28", "logs", DefaultSeparator, DefaultDateFormat, Now, 1)
    ensures Selected("logs-2013.07.27", "logs", DefaultSeparator, DefaultDateFormat, Now, 1)
  {
    FixtureDates();
    FixtureEligibility();
  }

  /**
   * `for_old_indices('logs', 31 days, fn)` over `logs-current`, `logs-2013.08.27` and
   * `logs-2013.07.01` acts on `logs-2013.07.01` alone: the alias carries no date and
   * the other index is a day old.
   */
  lemma OldIndicesScenario()
    ensures PassTargets(StoreOf({"logs-current", "logs-2013.08.27", "logs-2013.07.01"}),
                        "logs", DefaultSeparator, DefaultDateFormat, Now, 31) == ["logs-2013.07.01"]
  {
    MonthCutoff();
    TargetsAre(StoreOf({"logs-current", "logs-2013.08.27", "logs-2013.07.01"}), 31, ["logs-2013.07.01"]);
  }

  /** A pass on a store whose old `logs` indices, sorted, are `expected` acts on exactly those. */
  lemma TargetsAre(s: StoreState, maxAge: nat, expected: seq<string>)
    requires StrictlySorted(expected)
    requires forall n :: n in expected <==> n in s.indices && Selected(n, "logs", DefaultSeparator, DefaultDateFormat, Now, maxAge)
    ensures PassTargets(s, "logs", DefaultSeparator, DefaultDateFormat, Now, maxAge) == expected
  {
    var r := PassTargets(s, "logs", DefaultSeparator, DefaultDateFormat, Now, maxAge);
    assert Elements(r) == Elements(expected);
    SortedUnique(r, expected);
  }

  lemma FixtureOrder()
    ensures StrictlySorted(["logs-2013.07.27", "logs-2013.07.28"])
  {
    assert Below("logs-2013.07.27", "logs-2013.07.28");
  }

  /** `rotate('logs')` on an empty store creates `logs-2013.08.28` and points `logs-current` at it. */
  lemma RotateScenario()
    ensures var r := Rotation(Defaults, StoreOf({}), "logs", Now);
            && r.calls == [CreateIndexIfMissing("logs-2013.08.28"), SetAlias("logs-current", "logs-2013.08.28")]
            && r.state.indices == {"logs-2013.08.28"}
            && r.state.aliases == map["logs-current" := "logs-2013.08.28"]
  {
    DefaultNamesExample();
  }

  /** With the passes left off, a store of old indices gets the creation and the alias and nothing else. */
  lemma NoOptsScenario()
    ensures Rotation(Defaults, StoreOf({"logs-2013.08.28", "logs-2013.07.28", "logs-2013.07.27"}), "logs", Now).calls
            == [CreateIndexIfMissing("logs-2013.08.28"), SetAlias("logs-current", "logs-2013.08.28")]
  {
    DefaultNamesExample();
  }

  /** The requests of a rotation with one pass that acts on one index. */
  lemma OnePassCalls(calls: seq<Call>, alias: string, index: string, action: Action, x: string)
    requires calls == Daily.RotateCalls(alias, index) + ActionCalls(action, [x])
    ensures calls == [CreateIndexIfMissing(index), SetAlias(alias, index), ActionCall(action, x)]
  {
    assert [x][..0] == [];
  }

  /** The requests of a rotation whose optimize and compress passes act on two indices and whose delete pass acts on the first. */
  lemma AllPassCalls(calls: seq<Call>, alias: string, index: string, x: string, y: string)
    requires calls == Daily.RotateCalls(alias, index) + ActionCalls(OptimizeIndex, [x, y])
                      + ActionCalls(CompressIndex, [x, y]) + ActionCalls(DeleteOldIndex, [x])
    ensures calls == [CreateIndexIfMissing(index), SetAlias(alias, index),
                      Optimize([x], OptimizeMaxNumSegments), Optimize([y], OptimizeMaxNumSegments),
                      UpdateSettings(x, CompressSettings), UpdateSettings(y, CompressSettings),
                      DeleteIndex(x)]
  {
    assert [x, y][..1] == [x] && [x][..0] == [];
  }

  /** `delete_old` with the default 31 days deletes `logs-2013.07.27` alone; `logs-2013.07.28` is exactly 31 days old. */
  lemma DeleteScenario()
    ensures Rotation(Built(true, false, false),
                     StoreOf({"logs-2013.08.28", "logs-2013.07.28", "logs-2013.07.27"}), "logs", Now).calls
            == [CreateIndexIfMissing("logs-2013.08.28"), SetAlias("logs-current", "logs-2013.08.28"),
                DeleteIndex("logs-2013.07.27")]
  {
    var c := Built(true, false, false);
    var s := StoreOf({"logs-2013.08.28", "logs-2013.07.28", "logs-2013.07.27"});
    DefaultNamesExample();
    MonthCutoff();
    RotationPlan(c, s, "logs", Now);
    var s0 := Daily.Rotated(s, "logs-current", "logs-2013.08.28");
    TargetsAre(s0, 31, ["logs-2013.07.27"]);
    OnePassCalls(Rotation(c, s, "logs", Now).calls, "logs-current", "logs-2013.08.28", DeleteOldIndex, "logs-2013.07.27");
  }

  /** `compress_old` with the default day turns compression on for `logs-2013.08.26`, two days old. */
  lemma CompressScenario()
    ensures Rotation(Built(false, true, false), StoreOf({"logs-2013.08.28", "logs-2013.08.26"}), "logs", Now).calls
            == [CreateIndexIfMissing("logs-2013.08.28"), SetAlias("logs-current", "logs-2013.08.28"),
                UpdateSettings("logs-2013.08.26", CompressSettings)]
  {
    var c := Built(false, true, false);
    var s := StoreOf({"logs-2013.08.28", "logs-2013.08.26"});
    DefaultNamesExample();
    DayCutoff();
    RotationPlan(c, s, "logs", Now);
    var s0 := Daily.Rotated(s, "logs-current", "logs-2013.08.28");
    TargetsAre(s0, 1, ["logs-2013.08.26"]);
    OnePassCalls(Rotation(c, s, "logs", Now).calls, "logs-current", "logs-2013.08.28", CompressIndex, "logs-2013.08.26");
  }

  /** `optimize_old` with the default day force-merges `logs-2013.08.26` to one segment. */
  lemma OptimizeScenario()
    ensures Rotation(Built(false, false, true), StoreOf({"logs-2013.08.28", "logs-2013.08.26"}), "logs", Now).calls
            == [CreateIndexIfMissing("logs-2013.08.28"), SetAlias("logs-current", "logs-2013.08.28"),
                Optimize(["logs-2013.08.26"], 1)]
  {
    var c := Built(false, false, true);
    var s := StoreOf({"logs-2013.08.28", "logs-2013.08.26"});
    DefaultNamesExample();
    DayCutoff();
    RotationPlan(c, s, "logs", Now);
    var s0 := Daily.Rotated(s, "logs-current", "logs-2013.08.28");
    TargetsAre(s0, 1, ["logs-2013.08.26"]);
    OnePassCalls(Rotation(c, s, "logs", Now).calls, "logs-current", "logs-2013.08.28", OptimizeIndex, "logs-2013.08.26");
  }

  /**
   * With every pass on: both July indices are optimized and compressed, in name order,
   * and only `logs-2013.07.27` is deleted.
   */
  lemma AllOptsScenario()
    ensures Rotation(Built(true, true, true),
                     StoreOf({"logs-2013.08.28", "logs-2013.07.28", "logs-2013.07.27"}), "logs", Now).calls
            == [CreateIndexIfMissing("logs-2013.08.28"), SetAlias("logs-current", "logs-2013.08.28"),
                Optimize(["logs-2013.07.27"], 1), Optimize(["logs-2013.07.28"], 1),
                UpdateSettings("logs-2013.07.27", CompressSettings), UpdateSettings("logs-2013.07.28", CompressSettings),
                DeleteIndex("logs-2013.07.27")]
  {
    var c := Built(true, true, true);
    var s := StoreOf({"logs-2013.08.28", "logs-2013.07.28", "logs-2013.07.27"});
    DefaultNamesExample();
    MonthCutoff();
    DayCutoff();
    FixtureOrder();
    RotationPlan(c, s, "logs", Now);
    var s0 := Daily.Rotated(s, "logs-current", "logs-2013.08.28");
    TargetsAre(s0, 1, ["logs-2013.07.27", "logs-2013.07.28"]);
    TargetsAre(s0, 31, ["logs-2013.07.27"]);
    AllPassCalls(Rotation(c, s, "logs", Now).calls, "logs-current", "logs-2013.08.28", "logs-2013.07.27", "logs-2013.07.28");
  }
}
