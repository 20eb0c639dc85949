/**
 * The daily rotation of `estools/command/rotate.py`: a rotator whose settings fall
 * back to defaults, which for a family prefix makes sure today's index exists and
 * points the family's current alias at it; and the `rotate` command, which does
 * this for each prefix in turn.
 */
module Rotate {
  import opened Wrappers
  import opened Calendar
  import opened DateFormat
  import opened Names
  import opened Store

  /** The store after one rotation: today's index exists and the alias points at it, nothing else changes. */
  function Rotated(s: StoreState, alias: string, index: string): (t: StoreState)
    ensures index in t.indices && alias in t.aliases && t.aliases[alias] == index
    ensures t.indices == s.indices + {index}
    ensures forall a :: a != alias ==> (a in t.aliases <==> a in s.aliases)
    ensures forall a :: a != alias && a in s.aliases ==> t.aliases[a] == s.aliases[a]
    ensures t.compressed == s.compressed && t.merged == s.merged
    ensures Consistent(s) ==> Consistent(t)
  {
    Aliased(Created(s, index), alias, index)
  }

  /** The requests of one rotation, in the order they are issued. */
  function RotateCalls(alias: string, index: string): seq<Call>
  {
    [CreateIndexIfMissing(index), SetAlias(alias, index)]
  }

  /** Rotating a second time with the same date leaves the store as the first rotation left it. */
  lemma RotateIdempotent(s: StoreState, alias: string, index: string)
    ensures Rotated(Rotated(s, alias, index), alias, index) == Rotated(s, alias, index)
  {
  }

  class Rotator {
    const store: IndexStore
    const dateFormat: string
    const separator: string
    const currentAliasName: string

    /** Unset or empty settings take the module defaults. The store is given, not built from host names. */
    constructor (store: IndexStore, dateFormat: Option<string>, separator: Option<string>, currentAliasName: Option<string>)
      ensures this.store == store
      ensures this.dateFormat == OrDefault(dateFormat, DefaultDateFormat)
      ensures this.separator == OrDefault(separator, DefaultSeparator)
      ensures this.currentAliasName == OrDefault(currentAliasName, DefaultCurrentAliasName)
    {
      this.store := store;
      this.dateFormat := OrDefault(dateFormat, DefaultDateFormat);
      this.separator := OrDefault(separator, DefaultSeparator);
      this.currentAliasName := OrDefault(currentAliasName, DefaultCurrentAliasName);
    }

    /** Creates the index of `now` for `prefix` if missing, then points the current alias at it. */
    method Rotate(prefix: string, now: Instant)
      requires ValidInstant(now) && store.Valid()
      modifies store
      ensures store.Valid()
      ensures var alias := AliasName(prefix, separator, currentAliasName);
              var index := IndexName(prefix, separator, dateFormat, now.date);
              && store.State() == Rotated(old(store.State()), alias, index)
              && store.log == old(store.log) + RotateCalls(alias, index)
    {
      var nowStr := Strftime(dateFormat, now.date);
      var curAlias := prefix + separator + currentAliasName;
      var nowIndex := prefix + separator + nowStr;
      store.CreateIndexIfMissing(nowIndex);
      store.SetAlias(curAlias, nowIndex);
    }
  }

  /** Every clock reading is a valid instant. */
  predicate ValidInstants(nows: seq<Instant>)
  {
    forall i :: 0 <= i < |nows| ==> ValidInstant(nows[i])
  }

  /** The store after rotating each prefix in turn, the i-th one at the i-th clock reading. */
  function RotatedAll(s: StoreState, prefixes: seq<string>, separator: string, currentAliasName: string,
                      dateFormat: string, nows: seq<Instant>): StoreState
    requires |nows| == |prefixes| && ValidInstants(nows)
  {
    if prefixes == [] then s
    else
      var n := |prefixes| - 1;
      Rotated(RotatedAll(s, prefixes[..n], separator, currentAliasName, dateFormat, nows[..n]),
              AliasName(prefixes[n], separator, currentAliasName), IndexName(prefixes[n], separator, dateFormat, nows[n].date))
  }

  /** The requests of rotating each prefix in turn, the i-th one at the i-th clock reading. */
  function RotatedAllCalls(prefixes: seq<string>, separator: string, currentAliasName: string,
                           dateFormat: string, nows: seq<Instant>): seq<Call>
    requires |nows| == |prefixes| && ValidInstants(nows)
  {
    if prefixes == [] then []
    else
      var n := |prefixes| - 1;
      RotatedAllCalls(prefixes[..n], separator, currentAliasName, dateFormat, nows[..n])
      + RotateCalls(AliasName(prefixes[n], separator, currentAliasName), IndexName(prefixes[n], separator, dateFormat, nows[n].date))
  }

  /**
   * The CLI `rotate`: one rotator from the given settings, applied to each prefix in order.
   * Each `rotate` call reads the clock afresh, so `nows[i]` is the reading taken for `prefixes[i]`.
   */
  method RotateCommand(store: IndexStore, prefixes: seq<string>, dateFormat: Option<string>,
                       separator: Option<string>, currentAliasName: Option<string>, nows: seq<Instant>)
    requires |nows| == |prefixes| && ValidInstants(nows) && store.Valid()
    modifies store
    ensures store.Valid()
    ensures var fmt := OrDefault(dateFormat, DefaultDateFormat);
            var sep := OrDefault(separator, DefaultSeparator);
            var cur := OrDefault(currentAliasName, DefaultCurrentAliasName);
            && store.State() == RotatedAll(old(store.State()), prefixes, sep, cur, fmt, nows)
            && store.log == old(store.log) + RotatedAllCalls(prefixes, sep, cur, fmt, nows)
  {
    var rotator := new Rotator(store, dateFormat, separator, currentAliasName);
    for i := 0 to |prefixes|
      invariant store.Valid()
      invariant store.State() == RotatedAll(old(store.State()), prefixes[..i], rotator.separator,
                                            rotator.currentAliasName, rotator.dateFormat, nows[..i])
      invariant store.log == old(store.log) + RotatedAllCalls(prefixes[..i], rotator.separator,
                                                              rotator.currentAliasName, rotator.dateFormat, nows[..i])
    {
      ghost var done := RotatedAllCalls(prefixes[..i], rotator.separator, rotator.currentAliasName, rotator.dateFormat, nows[..i]);
      ghost var step := RotateCalls(AliasName(prefixes[i], rotator.separator, rotator.currentAliasName),
                                    IndexName(prefixes[i], rotator.separator, rotator.dateFormat, nows[i].date));
      CommandStep(old(store.State()), prefixes, rotator.separator, rotator.currentAliasName, rotator.dateFormat, nows, i);
      rotator.Rotate(prefixes[i], nows[i]);
      SeqAssoc(old(store.log), done, step);
    }
    assert prefixes[..|prefixes|] == prefixes && nows[..|nows|] == nows;
  }

  /** Rotating one more prefix extends the state and the requests by that prefix's rotation. */
  lemma CommandStep(s: StoreState, prefixes: seq<string>, separator: string, currentAliasName: string,
                    dateFormat: string, nows: seq<Instant>, i: nat)
    requires |nows| == |prefixes| && ValidInstants(nows) && i < |prefixes|
    ensures var alias := AliasName(prefixes[i], separator, currentAliasName);
            var index := IndexName(prefixes[i], separator, dateFormat, nows[i].date);
            && RotatedAll(s, prefixes[..i + 1], separator, currentAliasName, dateFormat, nows[..i + 1])
               == Rotated(RotatedAll(s, prefixes[..i], separator, currentAliasName, dateFormat, nows[..i]), alias, index)
            && RotatedAllCalls(prefixes[..i + 1], separator, currentAliasName, dateFormat, nows[..i + 1])
               == RotatedAllCalls(prefixes[..i], separator, currentAliasName, dateFormat, nows[..i]) + RotateCalls(alias, index)
  {
    assert prefixes[..i + 1][..i] == prefixes[..i] && nows[..i + 1][..i] == nows[..i];
  }

  /** `a` is the current alias of one of the prefixes. */
  predicate IsAliasOf(a: string, prefixes: seq<string>, separator: string, currentAliasName: string)
  {
    exists p :: p in prefixes && a == AliasName(p, separator, currentAliasName)
  }

  /** Position `i` is the last rotation of its prefix in the command. */
  predicate LastRotationOf(prefixes: seq<string>, i: int)
  {
    0 <= i < |prefixes| && forall j :: i < j < |prefixes| ==> prefixes[j] != prefixes[i]
  }

  /**
   * After the command every prefix's alias points at the index made by that prefix's
   * last rotation, at its own clock reading, though other prefixes were rotated after
   * it: aliases of distinct prefixes differ.
   */
  lemma {:induction false} EveryAliasPointsAtItsIndex(s: StoreState, prefixes: seq<string>, separator: string,
                                                      currentAliasName: string, dateFormat: string, nows: seq<Instant>)
    requires |nows| == |prefixes| && ValidInstants(nows)
    ensures var t := RotatedAll(s, prefixes, separator, currentAliasName, dateFormat, nows);
            forall i :: LastRotationOf(prefixes, i) ==>
              && IndexName(prefixes[i], separator, dateFormat, nows[i].date) in t.indices
              && AliasName(prefixes[i], separator, currentAliasName) in t.aliases
              && t.aliases[AliasName(prefixes[i], separator, currentAliasName)]
                 == IndexName(prefixes[i], separator, dateFormat, nows[i].date)
  {
    if prefixes != [] {
      var n := |prefixes| - 1;
      var init, initNows := prefixes[..n], nows[..n];
      EveryAliasPointsAtItsIndex(s, init, separator, currentAliasName, dateFormat, initNows);
      forall i | LastRotationOf(prefixes, i) && i < n
        ensures LastRotationOf(init, i) && init[i] == prefixes[i] && initNows[i] == nows[i]
        ensures AliasName(prefixes[i], separator, currentAliasName) != AliasName(prefixes[n], separator, currentAliasName)
      {
        if AliasName(prefixes[i], separator, currentAliasName) == AliasName(prefixes[n], separator, currentAliasName) {
          AliasNameInjective(prefixes[i], prefixes[n], separator, currentAliasName);
        }
      }
    }
  }

  /**
   * When every clock reading falls on the same day, every prefix's alias points at
   * that prefix's index of the day.
   */
  lemma {:induction false} EveryAliasPointsAtToday(s: StoreState, prefixes: seq<string>, separator: string,
                                                   currentAliasName: string, dateFormat: string, nows: seq<Instant>, day: Date)
    requires |nows| == |prefixes| && ValidInstants(nows)
    requires forall i :: 0 <= i < |nows| ==> nows[i].date == day
    ensures var t := RotatedAll(s, prefixes, separator, currentAliasName, dateFormat, nows);
            forall p :: p in prefixes ==>
              && IndexName(p, separator, dateFormat, day) in t.indices
              && AliasName(p, separator, currentAliasName) in t.aliases
              && t.aliases[AliasName(p, separator, currentAliasName)] == IndexName(p, separator, dateFormat, day)
  {
    if prefixes != [] {
      var n := |prefixes| - 1;
      var init, initNows := prefixes[..n], nows[..n];
      EveryAliasPointsAtToday(s, init, separator, currentAliasName, dateFormat, initNows, day);
      forall p | p in prefixes && p != prefixes[n]
        ensures AliasName(p, separator, currentAliasName) != AliasName(prefixes[n], separator, currentAliasName)
        ensures p in init
      {
        if AliasName(p, separator, currentAliasName) == AliasName(prefixes[n], separator, currentAliasName) {
          AliasNameInjective(p, prefixes[n], separator, currentAliasName);
        }
        assert prefixes == init + [prefixes[n]];
      }
    }
  }

  /** The indices the command makes: for each position, its prefix's index at its clock reading. */
  lemma DailyIndicesStep(prefixes: seq<string>, separator: string, dateFormat: string, nows: seq<Instant>)
    requires |nows| == |prefixes| && ValidInstants(nows) && prefixes != []
    ensures var n := |prefixes| - 1;
            (set i | 0 <= i < |prefixes| :: IndexName(prefixes[i], separator, dateFormat, nows[i].date))
            == (set i | 0 <= i < n :: IndexName(prefixes[..n][i], separator, dateFormat, nows[..n][i].date))
               + {IndexName(prefixes[n], separator, dateFormat, nows[n].date)}
  {
    var n := |prefixes| - 1;
    var all := set i | 0 <= i < |prefixes| :: IndexName(prefixes[i], separator, dateFormat, nows[i].date);
    var before := set i | 0 <= i < n :: IndexName(prefixes[..n][i], separator, dateFormat, nows[..n][i].date);
    forall x | x in all ensures x in before || x == IndexName(prefixes[n], separator, dateFormat, nows[n].date) {
      var i :| 0 <= i < |prefixes| && x == IndexName(prefixes[i], separator, dateFormat, nows[i].date);
      if i < n {
        assert prefixes[..n][i] == prefixes[i] && nows[..n][i] == nows[i];
      }
    }
    forall x | x in before ensures x in all {
      var i :| 0 <= i < n && x == IndexName(prefixes[..n][i], separator, dateFormat, nows[..n][i].date);
      assert prefixes[..n][i] == prefixes[i] && nows[..n][i] == nows[i];
    }
  }

  /**
   * The command adds exactly the indices of its rotations, touches no alias but the
   * prefixes' own, and changes no index setting.
   */
  lemma {:induction false} RotatedAllFrame(s: StoreState, prefixes: seq<string>, separator: string,
                                           currentAliasName: string, dateFormat: string, nows: seq<Instant>)
    requires |nows| == |prefixes| && ValidInstants(nows)
    ensures var t := RotatedAll(s, prefixes, separator, currentAliasName, dateFormat, nows);
            && t.indices == s.indices + (set i | 0 <= i < |prefixes| :: IndexName(prefixes[i], separator, dateFormat, nows[i].date))
            && (forall a :: !IsAliasOf(a, prefixes, separator, currentAliasName) ==>
                  (a in t.aliases <==> a in s.aliases))
            && (forall a :: !IsAliasOf(a, prefixes, separator, currentAliasName) && a in s.aliases ==>
                  t.aliases[a] == s.aliases[a])
            && t.compressed == s.compressed && t.merged == s.merged
            && (Consistent(s) ==> Consistent(t))
  {
    if prefixes != [] {
      var n := |prefixes| - 1;
      var init := prefixes[..n];
      assert prefixes == init + [prefixes[n]];
      RotatedAllFrame(s, init, separator, currentAliasName, dateFormat, nows[..n]);
      DailyIndicesStep(prefixes, separator, dateFormat, nows);
      forall a | !IsAliasOf(a, prefixes, separator, currentAliasName)
        ensures !IsAliasOf(a, init, separator, currentAliasName)
        ensures a != AliasName(prefixes[n], separator, currentAliasName)
      {
      }
    }
  }

  /** The command issues, prefix by prefix and in the given order, one create and then one alias request. */
  lemma {:induction false} RotatedAllCallsInOrder(prefixes: seq<string>, separator: string, currentAliasName: string,
                                                  dateFormat: string, nows: seq<Instant>)
    requires |nows| == |prefixes| && ValidInstants(nows)
    ensures var calls := RotatedAllCalls(prefixes, separator, currentAliasName, dateFormat, nows);
            && |calls| == 2 * |prefixes|
            && forall i :: 0 <= i < |prefixes| ==>
                 && calls[2 * i] == CreateIndexIfMissing(IndexName(prefixes[i], separator, dateFormat, nows[i].date))
                 && calls[2 * i + 1] == SetAlias(AliasName(prefixes[i], separator, currentAliasName),
                                                 IndexName(prefixes[i], separator, dateFormat, nows[i].date))
  {
    if prefixes != [] {
      var n := |prefixes| - 1;
      RotatedAllCallsInOrder(prefixes[..n], separator, currentAliasName, dateFormat, nows[..n]);
      forall i | 0 <= i < n ensures prefixes[..n][i] == prefixes[i] && nows[..n][i] == nows[i] {
      }
    }
  }

  /**
   * With the default settings, rotating `logs` at a reading on 2013-08-28 creates
   * `logs-2013.08.28` and points `logs-current` at it.
   */
  lemma DefaultRotationExample(s: StoreState, now: Instant)
    requires ValidInstant(now) && now.date == Date(2013, 8, 28)
    ensures var t := RotatedAll(s, ["logs"], DefaultSeparator, DefaultCurrentAliasName, DefaultDateFormat, [now]);
            && "logs-2013.08.28" in t.indices && "logs-current" in t.aliases && t.aliases["logs-current"] == "logs-2013.08.28"
    ensures RotatedAllCalls(["logs"], DefaultSeparator, DefaultCurrentAliasName, DefaultDateFormat, [now])
            == [CreateIndexIfMissing("logs-2013.08.28"), SetAlias("logs-current", "logs-2013.08.28")]
  {
    DefaultNamesExample();
    assert ["logs"][..0] == [] && [now][..0] == [];
  }
}
